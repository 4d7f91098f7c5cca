/** That the transfer system can deliver: a missing file whose claim is open can be pulled through an
    intact relay, whatever happened before. */
module TransferProgress {
  import opened Wrappers
  import opened PeerRegistry
  import opened RelayFrames
  import opened Manifest
  import opened Recipient
  import opened TransferSystem
  import opened TransferInvariant
  import opened TransferTheorems
  import opened TransferRetry

  /** The state in which only one session, and the job that serves it, differ from `s`. */
  function At(s: State, sid: nat, r: Session, k: nat, j: Job, table: Table): State {
    s.(table := table, jobs := s.jobs[k := j], sessions := s.sessions[sid := r])
  }

  function SentUpTo(j: Job, n: nat): Job
    requires j.work.Relaying?
  {
    j.(work := Relaying(j.work.content, j.work.sealed, n))
  }

  function SentLink(r: Session, frames: seq<Message>): Session {
    r.(link := r.link.(toRecipient := r.link.toRecipient + frames))
  }

  lemma AtAny(s: State, m: State, sid: nat, r: Session, k: nat, j: Job, table: Table)
    requires sid in m.sessions && k in m.jobs && m == At(s, sid, m.sessions[sid], k, m.jobs[k], m.table)
    ensures At(m, sid, r, k, j, table) == At(s, sid, r, k, j, table)
  {
    assert m.jobs[k := j] == s.jobs[k := j];
    assert m.sessions[sid := r] == s.sessions[sid := r];
  }

  lemma SendStep(env: Env, s: State, sid: nat, k: nat)
    requires sid in s.sessions && k in s.jobs && MoreFrames(s.jobs[k])
    requires s.sessions[sid].link.source == Busy(k) && !s.sessions[sid].link.cut
    ensures Enabled(env, s, Serve(sid, SendFrame))
    ensures var r, j := s.sessions[sid], s.jobs[k];
            Next(env, s, Serve(sid, SendFrame))
            == At(s, sid, SentLink(r, [Frames(j)[j.work.sent]]), k, SentUpTo(j, j.work.sent + 1), s.table)
  {
  }

  lemma SentLinks(r: Session, a: seq<Message>, b: seq<Message>)
    ensures SentLink(SentLink(r, a), b) == SentLink(r, a + b)
  {
    assert r.link.toRecipient + a + b == r.link.toRecipient + (a + b);
  }

  /** All frames go out. */
  lemma {:induction false} SendAll(env: Env, s: State, sid: nat, k: nat) returns (es: seq<Event>)
    requires sid in s.sessions && k in s.jobs && s.jobs[k].work.Relaying?
    requires s.sessions[sid].link.source == Busy(k) && !s.sessions[sid].link.cut
    requires s.jobs[k].work.sent <= |Frames(s.jobs[k])|
    ensures var r, j := s.sessions[sid], s.jobs[k];
            Run(env, s, es)
            == Some(At(s, sid, SentLink(r, Frames(j)[j.work.sent..]), k, SentUpTo(j, |Frames(j)|), s.table))
    decreases |Frames(s.jobs[k])| - s.jobs[k].work.sent
  {
    var r, j := s.sessions[sid], s.jobs[k];
    var rest := Frames(j)[j.work.sent..];
    if !MoreFrames(j) {
      es := [];
      assert r.link.toRecipient + rest == r.link.toRecipient;
      assert At(s, sid, r, k, j, s.table) == s;
    } else {
      SendStep(env, s, sid, k);
      var n := Next(env, s, Serve(sid, SendFrame));
      var sends := SendAll(env, n, sid, k);
      es := [Serve(sid, SendFrame)] + sends;
      RunOne(env, s, Serve(sid, SendFrame), sends);
      assert rest == [Frames(j)[j.work.sent]] + Frames(j)[j.work.sent + 1..];
      SentLinks(r, [Frames(j)[j.work.sent]], Frames(j)[j.work.sent + 1..]);
      AtAny(s, n, sid, SentLink(r, rest), k, SentUpTo(j, |Frames(j)|), s.table);
    }
  }

  /** Everything job `k` sent is on its way to the session waiting for it, and its file passes the checks. */
  ghost predicate AllOnTheWay(env: Env, s: State, sid: nat, k: nat) {
    && Inv(env, s) && sid in s.sessions && k in s.jobs
    && var r, j := s.sessions[sid], s.jobs[k];
    && IsWaiting(r.phase) && r.link.answering == Some(k) && !r.link.cut && r.link.toRecipient != []
    && j.work.Relaying? && FullyEmitted(j)
    && r.phase.index < |r.files| && Verified(r.files[r.phase.index], j.work.content, env.digest, Transport.Relay)
  }

  /** What is read before the end marker: the header while it is awaited, then chunks. */
  lemma NotLastFrame(sid: nat, r: Session, jobs: map<nat, Job>, k: nat)
    requires LinkOk(sid, r, jobs) && IsWaiting(r.phase) && r.link.answering == Some(k) && k in jobs && !r.link.cut
    requires jobs[k].work.Relaying? && FullyEmitted(jobs[k]) && |r.link.toRecipient| > 1
    ensures var m := r.link.toRecipient[0];
            if r.phase.RelayHead?
            then m == Text(Some(FileHeader(r.phase.index, |jobs[k].work.content|, jobs[k].work.sealed.head)))
            else m.Binary?
  {
    var j := jobs[k];
    var all := r.link.received + r.link.toRecipient;
    assert all == Frames(j);
    var at := |r.link.received|;
    FrameShapes(j, at);
    assert r.link.toRecipient[0] == all[at];
  }

  /** The session after a frame other than the last was read: it still waits for the same file. */
  lemma ReadsOn(env: Env, sid: nat, r: Session, jobs: map<nat, Job>, k: nat)
    requires LinkOk(sid, r, jobs) && IsWaiting(r.phase) && r.link.answering == Some(k) && k in jobs && !r.link.cut
    requires jobs[k].work.Relaying? && FullyEmitted(jobs[k]) && |r.link.toRecipient| > 1
    ensures var n := SessionNext(env, r, jobs, ReadRelay);
            IsWaiting(n.phase) && n.phase.index == r.phase.index && n == AfterReading(r).(phase := n.phase)
  {
    NotLastFrame(sid, r, jobs, k);
  }

  lemma ReadOneMore(env: Env, s: State, sid: nat, k: nat)
    requires AllOnTheWay(env, s, sid, k) && |s.sessions[sid].link.toRecipient| > 1
    ensures Enabled(env, s, AtSession(sid, ReadRelay))
    ensures var r, n := s.sessions[sid], Next(env, s, AtSession(sid, ReadRelay));
            && AllOnTheWay(env, n, sid, k) && n == s.(sessions := s.sessions[sid := n.sessions[sid]])
            && n.sessions[sid].phase.index == r.phase.index
            && n.sessions[sid] == AfterReading(r).(phase := n.sessions[sid].phase)
  {
    StepKeepsInv(env, s, AtSession(sid, ReadRelay));
    assert SessionOk(env, sid, s.sessions[sid], s.jobs);
    ReadsOn(env, sid, s.sessions[sid], s.jobs, k);
  }

  /** The end marker is read: the file is saved. */
  lemma ReadLast(env: Env, s: State, sid: nat, k: nat)
    requires AllOnTheWay(env, s, sid, k) && |s.sessions[sid].link.toRecipient| == 1
    ensures Enabled(env, s, AtSession(sid, ReadRelay))
    ensures var r := s.sessions[sid];
            Next(env, s, AtSession(sid, ReadRelay))
            == s.(sessions := s.sessions[sid := Saved(r, r.phase.index,
                                                      Delivery(k, s.jobs[k].work.content, Transport.Relay))])
  {
    var r, j := s.sessions[sid], s.jobs[k];
    assert SessionOk(env, sid, r, s.jobs);
    var all := r.link.received + r.link.toRecipient;
    assert all == Frames(j);
    var at := |r.link.received|;
    FrameShapes(j, at);
    assert r.link.toRecipient[0] == Frames(j)[at] && at == |Frames(j)| - 1 >= 1;
    assert r.phase.RelayBody?;
    EndMarkerOpens(env, sid, r, s.jobs);
    assert r.link.toRecipient[1..] == [];
  }

  /** A session after the file it waited for was saved. */
  function Saved(r: Session, index: nat, d: Delivery): Session {
    r.(downloaded := r.downloaded[index := d], phase := RelayNext,
       link := r.link.(toRecipient := [], received := [], answering := None))
  }

  /** What was read before the end leaves no trace in the session that has the file. */
  lemma SavedOnce(s: State, sid: nat, read: Session, i: nat, d: Delivery)
    requires sid in s.sessions && s.sessions[sid].link.toRecipient != []
    requires read == AfterReading(s.sessions[sid]).(phase := read.phase)
    ensures Saved(read, i, d) == Saved(s.sessions[sid], i, d)
    ensures s.sessions[sid := read][sid := Saved(read, i, d)] == s.sessions[sid := Saved(s.sessions[sid], i, d)]
  {
  }

  lemma {:induction false} ReadAll(env: Env, s: State, sid: nat, k: nat) returns (es: seq<Event>)
    requires AllOnTheWay(env, s, sid, k)
    ensures var r := s.sessions[sid];
            Run(env, s, es)
            == Some(s.(sessions := s.sessions[sid := Saved(r, r.phase.index,
                                                           Delivery(k, s.jobs[k].work.content, Transport.Relay))]))
    decreases |s.sessions[sid].link.toRecipient|
  {
    var e := AtSession(sid, ReadRelay);
    if |s.sessions[sid].link.toRecipient| == 1 {
      ReadLast(env, s, sid, k);
      es := [e] + [];
      RunOne(env, s, e, []);
    } else {
      ReadOneMore(env, s, sid, k);
      var n := Next(env, s, e);
      var rest := ReadAll(env, n, sid, k);
      es := [e] + rest;
      RunOne(env, s, e, rest);
      SavedOnce(s, sid, n.sessions[sid], s.sessions[sid].phase.index,
                Delivery(k, s.jobs[k].work.content, Transport.Relay));
    }
  }

  // ---------- one file from request to save ----------

  /** The session after asking for its next file over an intact relay. */
  function Asking(r: Session, request: Request): Session
    requires r.todo != []
  {
    r.(todo := r.todo[1..], phase := RelayHead(r.todo[0]),
       link := r.link.(toSource := [Text(Some(FileRequest(r.token, r.todo[0], request)))], received := [],
                       answering := None))
  }

  /** Between two files the relayed connection is empty in both directions, and no index is due twice. */
  lemma BetweenFiles(env: Env, s: State, sid: nat)
    requires Reachable(env, s) && sid in s.sessions && s.sessions[sid].phase.RelayNext?
    ensures var r := s.sessions[sid];
            && r.link.toSource == [] && r.link.toRecipient == []
            && (r.todo != [] ==> r.todo[0] !in r.todo[1..] && r.todo[0] < |r.files|)
  {
    ReachableInv(env, s);
    var r := s.sessions[sid];
    assert SessionOk(env, sid, r, s.jobs);
    assert r.todo != [] ==> r.todo[0] in r.todo;
  }

  lemma AskStep(env: Env, s: State, sid: nat, request: Request)
    requires sid in s.sessions && s.sessions[sid].phase.RelayNext? && s.sessions[sid].todo != []
    requires !s.sessions[sid].link.cut && s.sessions[sid].link.toSource == []
    ensures Enabled(env, s, AtSession(sid, AskRelay(request)))
    ensures Next(env, s, AtSession(sid, AskRelay(request)))
         == s.(sessions := s.sessions[sid := Asking(s.sessions[sid], request)])
  {
    var r := s.sessions[sid];
    assert AskLink(r.link, r.token, r.todo[0], request).toSource
           == [Text(Some(FileRequest(r.token, r.todo[0], request)))];
  }

  /** The session once the source has claimed, read and sealed the file. */
  function Prepared(r: Session, k: nat): Session
    requires r.todo != []
  {
    r.(todo := r.todo[1..], phase := RelayHead(r.todo[0]),
       link := r.link.(toSource := [], received := [], source := Busy(k), answering := Some(k)))
  }

  /** The path the grant of a token lists for an index. */
  function PathAt(t: Table, token: Token, i: nat): Path {
    if token in t && i < |t[token].paths| then t[token].paths[i] else []
  }

  function ClaimedJob(sid: nat, r: Session, path: Path): Job
    requires r.todo != []
  {
    Job(r.token, r.todo[0], path, Some(sid), RelayClaimed, Holding)
  }

  lemma TakeStep(env: Env, s: State, sid: nat, k: nat, r: Session, request: Request)
    requires sid in s.sessions && k !in s.jobs && r.todo != [] && r.link.source.Idle?
    requires s.sessions[sid] == Asking(r, request)
    requires Claimed(env, s, r.token, r.todo[0], request, 0).0.Available?
    ensures Enabled(env, s, TakeRequest(sid, k, 0))
    ensures Next(env, s, TakeRequest(sid, k, 0))
         == At(s, sid, Prepared(r, k), k, ClaimedJob(sid, r, PathAt(s.table, r.token, r.todo[0])),
               ClaimTable(s.table, r.token, r.todo[0], request, s.clock, s.clock, env.verify))
  {
    assert s.sessions[sid].link.toSource[1..] == [];
  }

  lemma PrepareStep(env: Env, s: State, sid: nat, k: nat, content: Bytes, sealed: Sealed)
    requires sid in s.sessions && k in s.jobs && s.sessions[sid].link.source == Busy(k) && s.jobs[k].work.RelayClaimed?
    requires env.open(sealed.head, sealed.ciphertext) == Some(content) && CanRead(env.file(s.jobs[k].path), content)
    ensures Enabled(env, s, Serve(sid, Prepare(content, sealed)))
    ensures Next(env, s, Serve(sid, Prepare(content, sealed)))
         == At(s, sid, s.sessions[sid], k, s.jobs[k].(work := Relaying(content, sealed, 0)), s.table)
  {
  }

  lemma CommitStep(env: Env, s: State, sid: nat, k: nat)
    requires sid in s.sessions && k in s.jobs && s.sessions[sid].link.source == Busy(k)
    requires s.jobs[k].work.Relaying? && FullyEmitted(s.jobs[k])
    ensures Enabled(env, s, Serve(sid, CommitSent))
    ensures var r, j := s.sessions[sid], s.jobs[k];
            Next(env, s, Serve(sid, CommitSent))
            == At(s, sid, r.(link := r.link.(source := Idle)), k, j.(fate := Committed),
                  CommitTable(s.table, j.token, j.index))
  {
  }

  /** The job that serves the session's next file, ready to send. */
  function Ready(sid: nat, r: Session, path: Path, content: Bytes, sealed: Sealed): Job
    requires r.todo != []
  {
    Job(r.token, r.todo[0], path, Some(sid), Relaying(content, sealed, 0), Holding)
  }

  function TableAfterClaim(env: Env, s: State, r: Session, request: Request): Table
    requires r.todo != []
  {
    ClaimTable(s.table, r.token, r.todo[0], request, s.clock, s.clock, env.verify)
  }

  lemma AskAndTake(env: Env, s: State, sid: nat, k: nat, request: Request) returns (es: seq<Event>)
    requires sid in s.sessions && k !in s.jobs
    requires s.sessions[sid].phase.RelayNext? && s.sessions[sid].todo != []
    requires s.sessions[sid].link.source.Idle? && !s.sessions[sid].link.cut && s.sessions[sid].link.toSource == []
    requires Claimed(env, s, s.sessions[sid].token, s.sessions[sid].todo[0], request, 0).0.Available?
    ensures var r := s.sessions[sid];
            Run(env, s, es)
            == Some(At(s, sid, Prepared(r, k), k, ClaimedJob(sid, r, PathAt(s.table, r.token, r.todo[0])),
                       TableAfterClaim(env, s, r, request)))
  {
    var r := s.sessions[sid];
    AskStep(env, s, sid, request);
    var s1 := s.(sessions := s.sessions[sid := Asking(r, request)]);
    TakeStep(env, s1, sid, k, r, request);
    assert s1.sessions[sid := Prepared(r, k)] == s.sessions[sid := Prepared(r, k)];
    RunOne(env, s1, TakeRequest(sid, k, 0), []);
    RunOne(env, s, AtSession(sid, AskRelay(request)), [TakeRequest(sid, k, 0)] + []);
    es := [AtSession(sid, AskRelay(request))] + ([TakeRequest(sid, k, 0)] + []);
  }

  /** The session asks, the source claims, reads and seals. */
  lemma AskAndPrepare(env: Env, s: State, sid: nat, k: nat, request: Request, content: Bytes, sealed: Sealed)
    returns (es: seq<Event>)
    requires sid in s.sessions && k !in s.jobs
    requires s.sessions[sid].phase.RelayNext? && s.sessions[sid].todo != []
    requires s.sessions[sid].link.source.Idle? && !s.sessions[sid].link.cut && s.sessions[sid].link.toSource == []
    requires Claimed(env, s, s.sessions[sid].token, s.sessions[sid].todo[0], request, 0).0.Available?
    requires env.open(sealed.head, sealed.ciphertext) == Some(content)
    requires CanRead(env.file(PathAt(s.table, s.sessions[sid].token, s.sessions[sid].todo[0])), content)
    ensures var r := s.sessions[sid];
            Run(env, s, es)
            == Some(At(s, sid, Prepared(r, k), k, Ready(sid, r, PathAt(s.table, r.token, r.todo[0]), content, sealed),
                       TableAfterClaim(env, s, r, request)))
  {
    var r := s.sessions[sid];
    var asked := AskAndTake(env, s, sid, k, request);
    var m := Run(env, s, asked).value;
    PrepareStep(env, m, sid, k, content, sealed);
    AtAny(s, m, sid, Prepared(r, k), k, Ready(sid, r, PathAt(s.table, r.token, r.todo[0]), content, sealed), m.table);
    RunOne(env, m, Serve(sid, Prepare(content, sealed)), []);
    es := asked + ([Serve(sid, Prepare(content, sealed))] + []);
    RunComposes(env, s, asked, [Serve(sid, Prepare(content, sealed))] + []);
  }

  /** All frames go out and the source commits. */
  lemma SendAndCommit(env: Env, s: State, sid: nat, k: nat) returns (es: seq<Event>)
    requires sid in s.sessions && k in s.jobs && s.jobs[k].work.Relaying? && s.jobs[k].work.sent == 0
    requires s.sessions[sid].link.source == Busy(k) && !s.sessions[sid].link.cut
             && s.sessions[sid].link.toRecipient == []
    ensures var r, j := s.sessions[sid], s.jobs[k];
            Run(env, s, es)
            == Some(At(s, sid, r.(link := r.link.(toRecipient := Frames(j), source := Idle)),
                       k, SentUpTo(j, |Frames(j)|).(fate := Committed), CommitTable(s.table, j.token, j.index)))
  {
    var r, j := s.sessions[sid], s.jobs[k];
    var sends := SendAll(env, s, sid, k);
    assert [] + Frames(j)[0..] == Frames(j);
    var sent := SentUpTo(j, |Frames(j)|);
    var m := At(s, sid, SentLink(r, Frames(j)[0..]), k, sent, s.table);
    CommitStep(env, m, sid, k);
    assert Next(env, m, Serve(sid, CommitSent))
           == At(m, sid, r.(link := r.link.(toRecipient := Frames(j), source := Idle)),
                  k, sent.(fate := Committed), CommitTable(s.table, j.token, j.index));
    AtAny(s, m, sid, r.(link := r.link.(toRecipient := Frames(j), source := Idle)), k, sent.(fate := Committed),
          CommitTable(s.table, j.token, j.index));
    RunOne(env, m, Serve(sid, CommitSent), []);
    RunComposes(env, s, sends, [Serve(sid, CommitSent)] + []);
    es := sends + ([Serve(sid, CommitSent)] + []);
  }

  /** What pulling a file takes besides a claim that is granted: an entitled request, a file to read, a
      sealed form of it that opens, and content that passes the entry's checks. */
  ghost predicate Pullable(env: Env, s: State, sid: nat, i: nat, request: Request, content: Bytes, sealed: Sealed)
    requires sid in s.sessions
  {
    && i < |s.sessions[sid].files|
    && Entitled(env, s, s.sessions[sid].token, i, request)
    && CanRead(env.file(s.table[s.sessions[sid].token].paths[i]), content)
    && env.open(sealed.head, sealed.ciphertext) == Some(content)
    && Verified(s.sessions[sid].files[i], content, env.digest, Transport.Relay)
  }

  ghost predicate Available(env: Env, s: State, sid: nat, i: nat, request: Request, content: Bytes, sealed: Sealed)
    requires sid in s.sessions
  {
    && Pullable(env, s, sid, i, request, content, sealed)
    && Claimed(env, s, s.sessions[sid].token, i, request, 0).0.Available?
  }

  /** The session with its next missing file saved, between two files again. */
  function WithFirst(r: Session, d: Delivery): Session
    requires r.todo != []
  {
    r.(todo := r.todo[1..], downloaded := r.downloaded[r.todo[0] := d], phase := RelayNext,
       link := r.link.(toSource := [], toRecipient := [], received := [], source := Idle, answering := None))
  }

  /** From every reachable state, whatever direct attempts, cuts of other sessions, releases or expiries
      came before: a session on an intact relay whose next missing file can be claimed has a run that
      saves exactly the source's file and consumes the grant. */
  lemma MissingFileCanBePulled(env: Env, s: State, sid: nat, k: nat, request: Request, content: Bytes, sealed: Sealed)
    returns (es: seq<Event>)
    requires Reachable(env, s) && sid in s.sessions && k !in s.jobs
    requires s.sessions[sid].phase.RelayNext? && s.sessions[sid].todo != []
    requires s.sessions[sid].link.source.Idle? && !s.sessions[sid].link.cut
    requires Available(env, s, sid, s.sessions[sid].todo[0], request, content, sealed)
    ensures var r := s.sessions[sid];
            var ready := Ready(sid, r, PathAt(s.table, r.token, r.todo[0]), content, sealed);
            var served := SentUpTo(ready, |Frames(ready)|).(fate := Committed);
            Run(env, s, es)
            == Some(At(s, sid, WithFirst(r, Delivery(k, content, Transport.Relay)), k, served,
                       CommitTable(TableAfterClaim(env, s, r, request), r.token, r.todo[0])))
  {
    BetweenFiles(env, s, sid);
    var r := s.sessions[sid];
    var ready := Ready(sid, r, PathAt(s.table, r.token, r.todo[0]), content, sealed);
    var served := SentUpTo(ready, |Frames(ready)|).(fate := Committed);
    var table := CommitTable(TableAfterClaim(env, s, r, request), r.token, r.todo[0]);
    var first := AskAndPrepare(env, s, sid, k, request, content, sealed);
    var s1 := At(s, sid, Prepared(r, k), k, ready, TableAfterClaim(env, s, r, request));
    var second := SendAndCommit(env, s1, sid, k);
    var waiting := Prepared(r, k).(link := Prepared(r, k).link.(toRecipient := Frames(ready), source := Idle));
    var s2 := At(s, sid, waiting, k, served, table);
    AtAny(s, s1, sid, waiting, k, served, table);
    RunComposes(env, s, first, second);
    RunStaysReachable(env, s, first + second);
    ReachableInv(env, s2);
    var third := ReadAll(env, s2, sid, k);
    var d := Delivery(k, content, Transport.Relay);
    assert Saved(waiting, r.todo[0], d) == WithFirst(r, d);
    AtAny(s, s2, sid, WithFirst(r, d), k, served, table);
    assert s2.(sessions := s2.sessions[sid := WithFirst(r, d)]) == At(s2, sid, WithFirst(r, d), k, served, table);
    RunComposes(env, s, first + second, third);
    es := first + second + third;
  }

  // ---------- the whole fallback ----------

  /** Pulling one file leaves the claims of the others open. */
  lemma ClaimStaysOpen(t: Table, token: Token, i: nat, request: Request, other: nat, r: Request, now: nat,
                       verify: VerifyFn)
    requires ClaimResult(t, token, i, request, now, now, verify).Available?
    requires ClaimResult(t, token, other, r, now, now, verify).Available? && other != i
    ensures var n := CommitTable(ClaimTable(t, token, i, request, now, now, verify), token, i);
            ClaimResult(n, token, other, r, now, now, verify).Available?
  {
    var n := CommitTable(ClaimTable(t, token, i, request, now, now, verify), token, i);
    ClaimGranted(t, token, i, request, now, now, verify);
    ClaimGranted(t, token, other, r, now, now, verify);
    ClaimGranted(n, token, other, r, now, now, verify);
    AuthorizationStable(t[token], n[token], token, other, r, verify);
    AuthorizationStable(n[token], n[token], token, other, r, verify);
  }

  /** Once one file is pulled the others are as available as before. */
  lemma OthersStayAvailable(env: Env, s: State, m: State, sid: nat, k: nat, j: Job, d: Delivery, request: Request,
                            other: nat, r: Request, content: Bytes, sealed: Sealed)
    requires sid in s.sessions && s.sessions[sid].todo != [] && other != s.sessions[sid].todo[0]
    requires var i := s.sessions[sid].todo[0];
             && Claimed(env, s, s.sessions[sid].token, i, request, 0).0.Available?
             && m == At(s, sid, WithFirst(s.sessions[sid], d), k, j,
                        CommitTable(TableAfterClaim(env, s, s.sessions[sid], request), s.sessions[sid].token, i))
    requires Available(env, s, sid, other, r, content, sealed)
    ensures Available(env, m, sid, other, r, content, sealed)
  {
    var token, i := s.sessions[sid].token, s.sessions[sid].todo[0];
    ClaimStaysOpen(s.table, token, i, request, other, r, s.clock, env.verify);
    AuthorizationStable(s.table[token], m.table[token], token, other, r, env.verify);
    AuthorizationStable(m.table[token], m.table[token], token, other, r, env.verify);
  }

  /** On an intact relay all missing files can be pulled, one after the other. */
  lemma {:induction false} AllMissingCanBePulled(
    env: Env, s: State, sid: nat, base: nat, request: nat -> Request, content: nat -> Bytes, sealed: nat -> Sealed)
    returns (es: seq<Event>)
    requires Reachable(env, s) && sid in s.sessions && forall k :: k in s.jobs ==> k < base
    requires s.sessions[sid].phase.RelayNext? && s.sessions[sid].link.source.Idle? && !s.sessions[sid].link.cut
    requires forall i :: i in s.sessions[sid].todo ==> Available(env, s, sid, i, request(i), content(i), sealed(i))
    ensures Run(env, s, es).Some? && sid in Run(env, s, es).value.sessions && Run(env, s, es).value.clock == s.clock
    ensures PulledInto(s.sessions[sid], Run(env, s, es).value.sessions[sid], content)
    decreases |s.sessions[sid].todo|
  {
    var r := s.sessions[sid];
    if r.todo == [] {
      var finish := AtSession(sid, FinishLoop);
      es := [finish] + [];
      RunOne(env, s, finish, []);
    } else {
      var first, m := PullFirst(env, s, sid, base, request, content, sealed);
      var rest := AllMissingCanBePulled(env, m, sid, base + 1, request, content, sealed);
      RunComposes(env, s, first, rest);
      es := first + rest;
      PulledIntoStep(r, m.sessions[sid], Run(env, m, rest).value.sessions[sid], content);
    }
  }

  /** The session finished; what it had it still has, and what was missing it got. */
  ghost predicate PulledInto(r: Session, n: Session, content: nat -> Bytes) {
    && n.phase.Finished? && n.files == r.files
    && (forall i :: i in r.downloaded ==> i in n.downloaded && (i in r.todo || n.downloaded[i] == r.downloaded[i]))
    && (forall i :: i in r.todo ==> i in n.downloaded && n.downloaded[i].content == content(i))
  }

  lemma PulledIntoStep(r: Session, m: Session, n: Session, content: nat -> Bytes)
    requires r.todo != [] && r.todo[0] !in r.todo[1..] && PulledInto(m, n, content)
    requires exists d :: m == WithFirst(r, d) && d.content == content(r.todo[0])
    ensures PulledInto(r, n, content)
  {
    forall i | i in r.todo ensures i in n.downloaded && n.downloaded[i].content == content(i) {
      assert i == r.todo[0] || i in m.todo;
    }
  }

  lemma PullFirst(
    env: Env, s: State, sid: nat, base: nat, request: nat -> Request, content: nat -> Bytes, sealed: nat -> Sealed)
    returns (es: seq<Event>, m: State)
    requires Reachable(env, s) && sid in s.sessions && forall k :: k in s.jobs ==> k < base
    requires s.sessions[sid].phase.RelayNext? && s.sessions[sid].link.source.Idle? && !s.sessions[sid].link.cut
    requires s.sessions[sid].todo != []
    requires forall i :: i in s.sessions[sid].todo ==> Available(env, s, sid, i, request(i), content(i), sealed(i))
    ensures Run(env, s, es) == Some(m) && Reachable(env, m) && sid in m.sessions && m.clock == s.clock
    ensures forall k :: k in m.jobs ==> k < base + 1
    ensures var r := s.sessions[sid];
            && r.todo[0] !in r.todo[1..]
            && m.sessions[sid] == WithFirst(r, Delivery(base, content(r.todo[0]), Transport.Relay))
    ensures forall i :: i in m.sessions[sid].todo ==> Available(env, m, sid, i, request(i), content(i), sealed(i))
  {
    var r := s.sessions[sid];
    var i := r.todo[0];
    BetweenFiles(env, s, sid);
    assert i in r.todo && Available(env, s, sid, i, request(i), content(i), sealed(i));
    es := MissingFileCanBePulled(env, s, sid, base, request(i), content(i), sealed(i));
    m := Run(env, s, es).value;
    RunStaysReachable(env, s, es);
    forall j | j in r.todo[1..] ensures Available(env, m, sid, j, request(j), content(j), sealed(j)) {
      assert j in r.todo;
      OthersStayAvailable(env, s, m, sid, base, m.jobs[base], Delivery(base, content(i), Transport.Relay), request(i),
                          j, request(j), content(j), sealed(j));
    }
  }

  lemma {:induction false} SomeBase(jobs: set<nat>) returns (base: nat)
    ensures forall k :: k in jobs ==> k < base
    decreases |jobs|
  {
    if jobs == {} {
      base := 0;
    } else {
      var k :| k in jobs;
      var rest := SomeBase(jobs - {k});
      base := if k < rest then rest else k + 1;
      forall m | m in jobs ensures m < base {
        assert m == k || m in jobs - {k};
      }
    }
  }

  /** Only releases came between: jobs stay or are released, the grant lost only reservations. */
  ghost predicate OnlyFreed(s: State, n: State, token: Token) {
    && n.clock == s.clock
    && (token in s.table ==>
          token in n.table && n.table[token] == s.table[token].(inFlight := n.table[token].inFlight))
    && n.jobs.Keys == s.jobs.Keys
    && forall k :: k in s.jobs ==>
         n.jobs[k] == s.jobs[k]
         || (n.jobs[k].fate.Released? && IsFor(n.jobs[k], s.jobs[k].token, s.jobs[k].index))
  }

  lemma FreedKeeps(env: Env, s: State, n: State, token: Token, i: nat, request: Request)
    requires OnlyFreed(s, n, token)
    ensures Entitled(env, s, token, i, request) ==> Entitled(env, n, token, i, request)
    ensures Unblocked(env, s.jobs, token, i) ==> Unblocked(env, n.jobs, token, i)
    ensures AllReleased(s.jobs, token, i) ==> AllReleased(n.jobs, token, i)
  {
    if Entitled(env, s, token, i, request) {
      AuthorizationStable(s.table[token], n.table[token], token, i, request, env.verify);
      AuthorizationStable(n.table[token], n.table[token], token, i, request, env.verify);
    }
  }

  lemma FreeOne(env: Env, s: State, sid: nat, token: Token, i: nat) returns (es: seq<Event>, n: State)
    requires Reachable(env, s) && sid in s.sessions && !s.sessions[sid].link.source.Busy?
             && Unblocked(env, s.jobs, token, i)
    ensures Run(env, s, es) == Some(n) && Reachable(env, n) && OnlyFreed(s, n, token) && AllReleased(n.jobs, token, i)
    ensures sid in n.sessions && n.sessions[sid] == s.sessions[sid]
  {
    es, n := LetGo(env, s, token, i);
    RunStaysReachable(env, s, es);
    if n != s {
      var k :| k in s.jobs && s.jobs[k].fate.Holding? && OnlyReleased(s, n, k);
      assert s.sessions[sid].link.source != Busy(k);
    }
  }

  /** Everything in the way of the listed indexes lets go, and the session does not notice. */
  lemma {:induction false} FreeAll(env: Env, s: State, sid: nat, token: Token, todo: seq<nat>)
    returns (es: seq<Event>, n: State)
    requires Reachable(env, s) && sid in s.sessions && !s.sessions[sid].link.source.Busy?
    requires forall i :: i in todo ==> Unblocked(env, s.jobs, token, i)
    ensures Run(env, s, es) == Some(n) && Reachable(env, n) && OnlyFreed(s, n, token)
    ensures sid in n.sessions && n.sessions[sid] == s.sessions[sid]
    ensures forall i :: i in todo ==> AllReleased(n.jobs, token, i)
    decreases |todo|
  {
    if todo == [] {
      es, n := [], s;
    } else {
      assert todo[0] in todo;
      var first, m := FreeOne(env, s, sid, token, todo[0]);
      forall i | i in todo[1..] ensures Unblocked(env, m.jobs, token, i) {
        assert Unblocked(env, s.jobs, token, i);
      }
      var rest;
      rest, n := FreeAll(env, m, sid, token, todo[1..]);
      RunComposes(env, s, first, rest);
      es := first + rest;
    }
  }

  /** A session that falls back now, or has, over a relay that is intact. */
  predicate CanFallBack(r: Session) {
    IsDirect(r.phase) || (r.phase.RelayNext? && r.link.source.Idle? && !r.link.cut)
  }

  lemma FallBack(env: Env, s: State, sid: nat) returns (es: seq<Event>, n: State)
    requires Reachable(env, s) && sid in s.sessions && CanFallBack(s.sessions[sid])
    ensures Run(env, s, es) == Some(n) && sid in n.sessions && n == s.(sessions := s.sessions[sid := n.sessions[sid]])
    ensures var r, f := s.sessions[sid], n.sessions[sid];
            && f.phase.RelayNext? && f.link.source.Idle? && !f.link.cut
            && f.token == r.token && f.files == r.files && f.downloaded == r.downloaded
            && forall i :: i in f.todo <==> i in Regular(r.files) - r.downloaded.Keys
  {
    var r := s.sessions[sid];
    ReachableInv(env, s);
    assert SessionOk(env, sid, r, s.jobs);
    if IsDirect(r.phase) {
      MissingExact(r.files, r.downloaded.Keys);
      var giveUp := AtSession(sid, GiveUpDirect);
      n := Next(env, s, giveUp);
      RunOne(env, s, giveUp, []);
      es := [giveUp] + [];
    } else {
      es, n := [], s;
      assert s.sessions[sid := r] == s.sessions;
    }
  }

  /** The fallback works from any point: a session whose direct download breaks off, even in the middle of
      a file that the source still holds for it, has a run that completes it over the relay without any
      time passing, keeps every file saved before, and gets each missing one as the source reads it. All
      it takes is entitled requests for the missing files, and that no job blocks them. */
  lemma FallbackCanComplete(
    env: Env, s: State, sid: nat, request: nat -> Request, content: nat -> Bytes, sealed: nat -> Sealed)
    returns (es: seq<Event>)
    requires Reachable(env, s) && sid in s.sessions && CanFallBack(s.sessions[sid])
    requires forall i :: i in Regular(s.sessions[sid].files) - s.sessions[sid].downloaded.Keys ==>
               && Pullable(env, s, sid, i, request(i), content(i), sealed(i))
               && Unblocked(env, s.jobs, s.sessions[sid].token, i)
    ensures Run(env, s, es).Some? && sid in Run(env, s, es).value.sessions && Run(env, s, es).value.clock == s.clock
    ensures var r, n := s.sessions[sid], Run(env, s, es).value.sessions[sid];
            && n.phase.Finished? && n.downloaded.Keys == Regular(r.files)
            && forall i :: i in n.downloaded ==>
                 if i in r.downloaded then n.downloaded[i] == r.downloaded[i] else n.downloaded[i].content == content(i)
  {
    var r := s.sessions[sid];
    var first, a := FallBack(env, s, sid);
    RunStaysReachable(env, s, first);
    var todo := a.sessions[sid].todo;
    forall i | i in todo ensures Unblocked(env, a.jobs, r.token, i) {
      assert i in Regular(r.files) - r.downloaded.Keys;
    }
    var second, b := FreeAll(env, a, sid, r.token, todo);
    forall i | i in todo ensures Available(env, b, sid, i, request(i), content(i), sealed(i)) {
      assert i in Regular(r.files) - r.downloaded.Keys;
      NowAvailable(env, s, a, b, sid, i, request(i), content(i), sealed(i));
    }
    var base := SomeBase(b.jobs.Keys);
    var third := AllMissingCanBePulled(env, b, sid, base, request, content, sealed);
    es := first + (second + third);
    RunComposes(env, a, second, third);
    RunComposes(env, s, first, second + third);
    RunStaysReachable(env, s, es);
    FinishedIsComplete(env, Run(env, s, es).value, sid);
  }

  lemma NowAvailable(env: Env, s: State, a: State, b: State, sid: nat, i: nat, request: Request, content: Bytes,
                     sealed: Sealed)
    requires sid in s.sessions && sid in a.sessions && sid in b.sessions && Reachable(env, b)
    requires Pullable(env, s, sid, i, request, content, sealed)
    requires a == s.(sessions := a.sessions) && a.sessions[sid] == b.sessions[sid]
    requires a.sessions[sid].token == s.sessions[sid].token && a.sessions[sid].files == s.sessions[sid].files
    requires OnlyFreed(a, b, s.sessions[sid].token) && AllReleased(b.jobs, s.sessions[sid].token, i)
    ensures Available(env, b, sid, i, request, content, sealed)
  {
    FreedKeeps(env, a, b, s.sessions[sid].token, i, request);
    ReleasedIsOpen(env, b, s.sessions[sid].token, i, request);
  }

  // ---------- and no further ----------

  /** The session is past its direct phase, and job `k` is not the one answering it. */
  predicate PastJob(r: Session, k: nat, i: nat) {
    !IsDirect(r.phase) && r.link.answering != Some(k) && (i in r.downloaded ==> r.downloaded[i].job != k)
  }

  lemma SessionKeepsPast(env: Env, r: Session, jobs: map<nat, Job>, m: SessionMove, k: nat, i: nat)
    requires SessionEnabled(env, r, jobs, m) && PastJob(r, k, i)
    ensures PastJob(SessionNext(env, r, jobs, m), k, i) && SessionNext(env, r, jobs, m).token == r.token
  {
  }

  lemma ServeKeepsPast(env: Env, r: Session, j: Job, m: ServeMove, k: nat, i: nat)
    requires ServeEnabled(env, j, m) && PastJob(r, k, i)
    ensures PastJob(r.(link := ServeLink(env, r.link, j, m)), k, i)
  {
  }

  lemma ClaimKeepsPast(env: Env, s: State, e: Event, sid: nat, k: nat, i: nat)
    requires Enabled(env, s, e) && (e.DirectClaim? || e.TakeRequest?)
    requires sid in s.sessions && k in s.jobs && PastJob(s.sessions[sid], k, i)
    ensures sid in Next(env, s, e).sessions && k in Next(env, s, e).jobs && PastJob(Next(env, s, e).sessions[sid], k, i)
    ensures Next(env, s, e).sessions[sid].token == s.sessions[sid].token
  {
    ClaimsOnlyAddJobs(env, s, e);
  }

  lemma StepKeepsPast(env: Env, s: State, e: Event, sid: nat, k: nat, i: nat)
    requires Enabled(env, s, e) && sid in s.sessions && k in s.jobs && PastJob(s.sessions[sid], k, i)
    ensures sid in Next(env, s, e).sessions && k in Next(env, s, e).jobs && PastJob(Next(env, s, e).sessions[sid], k, i)
    ensures Next(env, s, e).sessions[sid].token == s.sessions[sid].token
  {
    match e
    case AtSession(o, m) =>
      if o == sid {
        SessionKeepsPast(env, s.sessions[o], s.jobs, m, k, i);
      }
    case Serve(o, m) =>
      if o == sid {
        ServeKeepsPast(env, s.sessions[o], s.jobs[s.sessions[o].link.source.job], m, k, i);
      }
    case DirectClaim(_, _, _, _, _, _) => ClaimKeepsPast(env, s, e, sid, k, i);
    case TakeRequest(_, _, _) => ClaimKeepsPast(env, s, e, sid, k, i);
    case _ =>
  }

  lemma {:induction false} RunKeepsPast(env: Env, s: State, es: seq<Event>, sid: nat, k: nat, i: nat)
    requires Run(env, s, es).Some? && sid in s.sessions && k in s.jobs && PastJob(s.sessions[sid], k, i)
    ensures var n := Run(env, s, es).value;
            sid in n.sessions && PastJob(n.sessions[sid], k, i) && n.sessions[sid].token == s.sessions[sid].token
    decreases |es|
  {
    if es != [] {
      StepKeepsPast(env, s, es[0], sid, k, i);
      RunKeepsPast(env, Next(env, s, es[0]), es[1..], sid, k, i);
    }
  }

  /** A file that a job blocks never reaches a session that has fallen back, in any continuation. */
  lemma BlockedNeverArrives(env: Env, s: State, es: seq<Event>, sid: nat, k: nat, i: nat)
    requires Reachable(env, s) && Run(env, s, es).Some? && sid in s.sessions && s.sessions[sid].phase.RelayNext?
    requires i !in s.sessions[sid].downloaded
    requires k in s.jobs && IsFor(s.jobs[k], s.sessions[sid].token, i) && Blocking(env, s.jobs[k])
    ensures sid in Run(env, s, es).value.sessions && i !in Run(env, s, es).value.sessions[sid].downloaded
  {
    ReachableInv(env, s);
    assert SessionOk(env, sid, s.sessions[sid], s.jobs);
    RunKeepsPast(env, s, es, sid, k, i);
    RunKeepsBlocking(env, s, es, k);
    RunStaysReachable(env, s, es);
    var n := Run(env, s, es).value;
    ReachableInv(env, n);
    assert SessionOk(env, sid, n.sessions[sid], n.jobs);
    assert Deliveries(env, sid, n.sessions[sid], n.jobs) && Exclusive(n.jobs);
  }

  ghost predicate CanFinish(env: Env, s: State, sid: nat) {
    exists es :: Run(env, s, es).Some? && sid in Run(env, s, es).value.sessions
        && Run(env, s, es).value.sessions[sid].phase.Finished?
  }

  /** When the fallback succeeds, exactly: with entitled requests and readable files, a session that has
      fallen back to an intact relay can still finish if and only if no missing file is blocked. */
  lemma FallbackCompletesExactly(
    env: Env, s: State, sid: nat, request: nat -> Request, content: nat -> Bytes, sealed: nat -> Sealed)
    requires Reachable(env, s) && sid in s.sessions
    requires s.sessions[sid].phase.RelayNext? && s.sessions[sid].link.source.Idle? && !s.sessions[sid].link.cut
    requires forall i :: i in Regular(s.sessions[sid].files) - s.sessions[sid].downloaded.Keys ==>
               Pullable(env, s, sid, i, request(i), content(i), sealed(i))
    ensures CanFinish(env, s, sid) <==>
            forall i :: i in Regular(s.sessions[sid].files) - s.sessions[sid].downloaded.Keys ==>
              Unblocked(env, s.jobs, s.sessions[sid].token, i)
  {
    var r := s.sessions[sid];
    if forall i :: i in Regular(r.files) - r.downloaded.Keys ==> Unblocked(env, s.jobs, r.token, i) {
      var es := FallbackCanComplete(env, s, sid, request, content, sealed);
    } else {
      var i :| i in Regular(r.files) - r.downloaded.Keys && !Unblocked(env, s.jobs, r.token, i);
      var k :| k in s.jobs && IsFor(s.jobs[k], r.token, i) && Blocking(env, s.jobs[k]);
      forall es | Run(env, s, es).Some? && sid in Run(env, s, es).value.sessions
        ensures !Run(env, s, es).value.sessions[sid].phase.Finished?
      {
        BlockedNeverArrives(env, s, es, sid, k, i);
        RunStaysReachable(env, s, es);
        RunKeepsManifest(env, s, es, sid);
        if Run(env, s, es).value.sessions[sid].phase.Finished? {
          FinishedIsComplete(env, Run(env, s, es).value, sid);
        }
      }
    }
  }

  lemma {:induction false} RunKeepsManifest(env: Env, s: State, es: seq<Event>, sid: nat)
    requires Run(env, s, es).Some? && sid in s.sessions
    ensures sid in Run(env, s, es).value.sessions && Run(env, s, es).value.sessions[sid].files == s.sessions[sid].files
    decreases |es|
  {
    if es != [] {
      StepKeepsManifest(env, s, es[0], sid);
      RunKeepsManifest(env, Next(env, s, es[0]), es[1..], sid);
    }
  }

  lemma StepKeepsManifest(env: Env, s: State, e: Event, sid: nat)
    requires Enabled(env, s, e) && sid in s.sessions
    ensures sid in Next(env, s, e).sessions && Next(env, s, e).sessions[sid].files == s.sessions[sid].files
  {
  }

  /** Nothing stands in the way at first: right after registration every file of the selection can be
      claimed, by exactly the requests that the grant authorizes. */
  lemma FreshGrantIsOpen(env: Env, s: State, e: Event, i: nat, request: Request)
    requires e.Register? && Enabled(env, s, e) && e.ttl > 0
    ensures var n := Next(env, s, e);
            Claimed(env, n, e.token, i, request, 0).0.Available? <==>
              i < |e.paths| && Authorized(n.table[e.token], e.token, i, request, env.verify)
  {
    var n := Next(env, s, e);
    ClaimGranted(n.table, e.token, i, request, n.clock, n.clock, env.verify);
  }
}
