/** What every step of the transfer system keeps. */
module TransferInvariant {
  import opened Wrappers
  import opened PeerRegistry
  import opened RelayFrames
  import opened Manifest
  import opened Recipient
  import opened TransferSystem

  // ---------- jobs ----------

  /** Every byte the grant stands for has left the source: the stream yielded its whole length, or
      every frame up to the end marker was sent. */
  predicate FullyEmitted(j: Job) {
    match j.work
    case Streaming(len, yielded) => |yielded| >= len
    case Relaying(_, _, sent) => sent == |Frames(j)|
    case _ => false
  }

  predicate Unsettled(j: Job) {
    j.fate.Holding? || j.fate.Abandoned?
  }

  predicate JobOk(env: Env, j: Job) {
    && (j.fate.Committed? ==> FullyEmitted(j))
    && (j.fate.Released? ==> !FullyEmitted(j))
    && (j.fate.Abandoned? ==> j.work.DirectClaimed?)
    && (j.work.Relaying? ==>
          && j.work.sent <= |Frames(j)|
          && env.open(j.work.sealed.head, j.work.sealed.ciphertext) == Some(j.work.content))
  }

  // ---------- ownership: the registry against its holders ----------

  predicate IsFor(j: Job, token: Token, index: nat) {
    j.token == token && j.index == index
  }

  ghost predicate HeldBy(jobs: map<nat, Job>, k: nat, token: Token, index: nat) {
    k in jobs && IsFor(jobs[k], token, index) && Unsettled(jobs[k])
  }

  ghost predicate CommittedBy(jobs: map<nat, Job>, k: nat, token: Token, index: nat) {
    k in jobs && IsFor(jobs[k], token, index) && jobs[k].fate.Committed?
  }

  /** Two jobs for one index of one token never both hold or have consumed it. */
  ghost predicate Exclusive(jobs: map<nat, Job>) {
    forall j, k :: j in jobs && k in jobs && j != k && !jobs[j].fate.Released? && !jobs[k].fate.Released?
      ==> !IsFor(jobs[j], jobs[k].token, jobs[k].index)
  }

  ghost predicate GrantOwned(token: Token, g: Grant, jobs: map<nat, Job>) {
    && (forall i :: i in g.inFlight ==> i < |g.paths| && exists k :: HeldBy(jobs, k, token, i))
    && (forall i :: i in g.served ==> i < |g.paths| && exists k :: CommittedBy(jobs, k, token, i))
    && (forall k :: k in jobs && jobs[k].token == token && Unsettled(jobs[k]) ==> jobs[k].index in g.inFlight)
    && (forall k :: k in jobs && jobs[k].token == token && jobs[k].fate.Committed? ==> jobs[k].index in g.served)
  }

  ghost predicate Ownership(table: Table, issued: set<Token>, jobs: map<nat, Job>) {
    && Exclusive(jobs)
    && (forall t :: t in table ==> t in issued)
    && (forall k :: k in jobs ==> jobs[k].token in issued)
    && (forall t :: t in table ==> GrantOwned(t, table[t], jobs))
  }

  // ---------- sessions ----------

  function Current(p: Phase): Option<nat> {
    match p
    case DirectAsked(i) => Some(i)
    case DirectReading(i, _, _) => Some(i)
    case RelayHead(i) => Some(i)
    case RelayBody(i, _, _) => Some(i)
    case _ => None
  }

  /** The regular files are split into saved, being pulled, and still to do. */
  ghost predicate Progress(r: Session) {
    && Increasing(r.todo)
    && (forall i :: i in r.todo ==> i in Regular(r.files) && i !in r.downloaded && Current(r.phase) != Some(i))
    && (forall i :: i in r.downloaded ==> i in Regular(r.files) && Current(r.phase) != Some(i))
    && (Current(r.phase).Some? ==> Current(r.phase).value in Regular(r.files))
    && (r.phase.Finished? ==> r.todo == [])
    && (!r.phase.Failed? ==>
          forall i :: i in Regular(r.files) ==> i in r.downloaded || i in r.todo || Current(r.phase) == Some(i))
  }

  /** The saved file is what its job emitted, for that index, to this session, and the job can only
      commit or has committed. */
  predicate DeliveryOk(env: Env, sid: nat, r: Session, i: nat, d: Delivery, jobs: map<nat, Job>) {
    && d.job in jobs
    && IsFor(jobs[d.job], r.token, i) && jobs[d.job].owner == Some(sid)
    && (jobs[d.job].fate.Holding? || jobs[d.job].fate.Committed?)
    && FullyEmitted(jobs[d.job])
    && i < |r.files| && Verified(r.files[i], d.content, env.digest, d.how)
    && (match jobs[d.job].work
        case Streaming(len, yielded) => d.how == Transport.Direct && d.content == yielded[..len]
        case Relaying(content, _, _) => d.how == Transport.Relay && d.content == content
        case _ => false)
  }

  ghost predicate Deliveries(env: Env, sid: nat, r: Session, jobs: map<nat, Job>) {
    forall i :: i in r.downloaded ==> DeliveryOk(env, sid, r, i, r.downloaded[i], jobs)
  }

  predicate ReadingOk(sid: nat, r: Session, jobs: map<nat, Job>) {
    r.phase.DirectReading? ==>
      && r.phase.job in jobs
      && var j := jobs[r.phase.job];
      && IsFor(j, r.token, r.phase.index) && j.owner == Some(sid)
      && (match j.work
          case DirectClaimed => r.phase.got == []
          case Streaming(len, yielded) => |r.phase.got| <= len && r.phase.got <= yielded
          case _ => false)
  }

  /** The serving task of a session works on one of the session's own relay jobs. */
  predicate SourceOk(sid: nat, l: Link, jobs: map<nat, Job>) {
    l.source.Busy? ==>
      && l.source.job in jobs
      && var j := jobs[l.source.job];
      && j.owner == Some(sid) && j.fate.Holding? && (j.work.RelayClaimed? || j.work.Relaying?)
  }

  /** The serving task has nothing left to send. */
  predicate SourceDone(l: Link, jobs: map<nat, Job>) {
    l.source.Busy? ==> l.source.job in jobs && jobs[l.source.job].work.Relaying? && FullyEmitted(jobs[l.source.job])
  }

  /** The recipient's phase is the one the frames read so far lead to. */
  predicate PhaseMatches(r: Session) {
    match r.phase
    case RelayHead(_) => r.link.received == []
    case RelayBody(i, head, got) =>
      && r.link.received != []
      && r.link.received[0].Text? && r.link.received[0].control.Some? && r.link.received[0].control.value.FileHeader?
      && r.link.received[0].control.value.index == i && r.link.received[0].control.value.head == head
      && (forall k :: 1 <= k < |r.link.received| ==> r.link.received[k].Binary?)
      && got == Concat(r.link.received[1..])
    case _ => true
  }

  /** At most one request is outstanding: either it is still on its way, or it was lost or refused,
      or job `answering` serves it and what was read plus what is on its way are the first frames
      that job sent. */
  ghost predicate Outstanding(sid: nat, r: Session, index: nat, jobs: map<nat, Job>) {
    var l := r.link;
    match l.answering
    case None =>
      && l.received == []
      && SourceDone(l, jobs)
      && (l.toSource == [] || (&& |l.toSource| == 1 && RequestOf(l.toSource[0]).Some?
                               && RequestOf(l.toSource[0]).value.0 == r.token
                                  && RequestOf(l.toSource[0]).value.1 == index
                               && l.toRecipient == []))
      && (l.toRecipient == [] || l.toRecipient == [REJECTED])
    case Some(k) =>
      && l.toSource == []
      && k in jobs && IsFor(jobs[k], r.token, index) && jobs[k].owner == Some(sid)
      && (l.source.Busy? ==> l.source.job == k)
      && (match jobs[k].work
          case RelayClaimed => l.received == []
              && (l.toRecipient == [] || (jobs[k].fate.Released? && l.toRecipient == [REJECTED]))
          case Relaying(_, _, sent) =>
            && sent <= |Frames(jobs[k])|
            && l.received + l.toRecipient <= Frames(jobs[k])[..sent]
            && (!l.cut ==> l.received + l.toRecipient == Frames(jobs[k])[..sent])
          case _ => false)
  }

  ghost predicate LinkOk(sid: nat, r: Session, jobs: map<nat, Job>) {
    && SourceOk(sid, r.link, jobs)
    && (IsDirect(r.phase) ==> r.link == FRESH_LINK)
    && (r.phase.RelayNext? ==> r.link.toSource == [] && r.link.toRecipient == [] && r.link.received == []
                               && r.link.answering == None && SourceDone(r.link, jobs))
    && (r.phase.RelayHead? || r.phase.RelayBody? ==> Outstanding(sid, r, r.phase.index, jobs) && PhaseMatches(r))
  }

  ghost predicate SessionOk(env: Env, sid: nat, r: Session, jobs: map<nat, Job>) {
    && Progress(r)
    && Deliveries(env, sid, r, jobs)
    && ReadingOk(sid, r, jobs)
    && LinkOk(sid, r, jobs)
  }

  ghost predicate JobsOk(env: Env, jobs: map<nat, Job>) {
    forall k :: k in jobs ==> JobOk(env, jobs[k])
  }

  ghost predicate SessionsOk(env: Env, sessions: map<nat, Session>, jobs: map<nat, Job>) {
    forall sid :: sid in sessions ==> SessionOk(env, sid, sessions[sid], jobs)
  }

  ghost predicate Inv(env: Env, s: State) {
    && JobsOk(env, s.jobs)
    && Ownership(s.table, s.granted.Keys, s.jobs)
    && SessionsOk(env, s.sessions, s.jobs)
  }

  // ---------- ownership is kept ----------

  predicate SameShares(g: Grant, h: Grant) {
    g.paths == h.paths && g.inFlight == h.inFlight && g.served == h.served
  }

  lemma OwnershipShrinks(table: Table, table': Table, issued: set<Token>, jobs: map<nat, Job>)
    requires Ownership(table, issued, jobs)
    requires forall t :: t in table' ==> t in table && SameShares(table'[t], table[t])
    ensures Ownership(table', issued, jobs)
  {
    forall t | t in table' ensures GrantOwned(t, table'[t], jobs) {
      assert GrantOwned(t, table[t], jobs);
    }
  }

  /** A job changing only in what it is doing leaves ownership alone. */
  lemma OwnershipIgnoresWork(table: Table, issued: set<Token>, jobs: map<nat, Job>, k: nat, j: Job)
    requires Ownership(table, issued, jobs) && k in jobs
    requires IsFor(j, jobs[k].token, jobs[k].index)
    requires Unsettled(j) == Unsettled(jobs[k]) && (j.fate.Committed? <==> jobs[k].fate.Committed?)
    ensures Ownership(table, issued, jobs[k := j])
  {
    var jobs' := jobs[k := j];
    forall t | t in table ensures GrantOwned(t, table[t], jobs') {
      assert GrantOwned(t, table[t], jobs);
      forall i | i in table[t].inFlight ensures exists m :: HeldBy(jobs', m, t, i) {
        var m :| HeldBy(jobs, m, t, i);
        assert HeldBy(jobs', m, t, i);
      }
      forall i | i in table[t].served ensures exists m :: CommittedBy(jobs', m, t, i) {
        var m :| CommittedBy(jobs, m, t, i);
        assert CommittedBy(jobs', m, t, i);
      }
    }
  }

  lemma OwnershipNewJob(table: Table, issued: set<Token>, jobs: map<nat, Job>, k: nat, j: Job)
    requires Ownership(table, issued, jobs) && k !in jobs && j.fate.Holding?
    requires j.token in table && j.index < |table[j.token].paths|
    requires j.index !in table[j.token].inFlight && j.index !in table[j.token].served
    ensures Ownership(table[j.token := table[j.token].(inFlight := table[j.token].inFlight + {j.index})], issued,
                      jobs[k := j])
  {
    var g := table[j.token];
    var table' := table[j.token := g.(inFlight := g.inFlight + {j.index})];
    var jobs' := jobs[k := j];
    assert GrantOwned(j.token, g, jobs);
    forall t | t in table' ensures GrantOwned(t, table'[t], jobs') {
      assert GrantOwned(t, table[t], jobs);
      forall i | i in table'[t].inFlight ensures i < |table'[t].paths| && exists m :: HeldBy(jobs', m, t, i) {
        if i in table[t].inFlight {
          var m :| HeldBy(jobs, m, t, i);
          assert HeldBy(jobs', m, t, i);
        } else {
          assert HeldBy(jobs', k, t, i);
        }
      }
      forall i | i in table'[t].served ensures exists m :: CommittedBy(jobs', m, t, i) {
        var m :| CommittedBy(jobs, m, t, i);
        assert CommittedBy(jobs', m, t, i);
      }
    }
  }

  /** A job of another token does not matter to a grant. */
  lemma GrantIgnoresOthers(token: Token, g: Grant, jobs: map<nat, Job>, k: nat, j: Job)
    requires GrantOwned(token, g, jobs)
    requires j.token != token && (k in jobs ==> jobs[k].token != token)
    ensures GrantOwned(token, g, jobs[k := j])
  {
    var jobs' := jobs[k := j];
    forall i | i in g.inFlight ensures exists m :: HeldBy(jobs', m, token, i) {
      var m :| HeldBy(jobs, m, token, i);
      assert HeldBy(jobs', m, token, i);
    }
    forall i | i in g.served ensures exists m :: CommittedBy(jobs', m, token, i) {
      var m :| CommittedBy(jobs, m, token, i);
      assert CommittedBy(jobs', m, token, i);
    }
  }

  lemma GrantSettles(g: Grant, jobs: map<nat, Job>, k: nat, commit: bool)
    requires k in jobs && jobs[k].fate.Holding? && GrantOwned(jobs[k].token, g, jobs) && Exclusive(jobs)
    ensures var j := jobs[k];
            GrantOwned(j.token,
                       g.(inFlight := g.inFlight - {j.index},
                          served := if commit then g.served + {j.index} else g.served),
                       jobs[k := j.(fate := if commit then Committed else Released)])
  {
    var j := jobs[k];
    var g' := g.(inFlight := g.inFlight - {j.index}, served := if commit then g.served + {j.index} else g.served);
    var jobs' := jobs[k := j.(fate := if commit then Committed else Released)];
    forall i | i in g'.inFlight ensures exists m :: HeldBy(jobs', m, j.token, i) {
      var m :| HeldBy(jobs, m, j.token, i);
      assert HeldBy(jobs', m, j.token, i);
    }
    forall i | i in g'.served ensures exists m :: CommittedBy(jobs', m, j.token, i) {
      if i == j.index && commit {
        assert CommittedBy(jobs', k, j.token, i);
      } else {
        var m :| CommittedBy(jobs, m, j.token, i);
        assert CommittedBy(jobs', m, j.token, i);
      }
    }
  }

  /** A settlement by the holder takes effect on exactly its own index. */
  lemma OwnershipSettles(table: Table, issued: set<Token>, jobs: map<nat, Job>, k: nat, commit: bool)
    requires Ownership(table, issued, jobs) && k in jobs && jobs[k].fate.Holding?
    ensures var j := jobs[k];
            Ownership(if commit then CommitTable(table, j.token, j.index) else ReleaseTable(table, j.token, j.index),
                      issued, jobs[k := j.(fate := if commit then Committed else Released)])
  {
    var j := jobs[k];
    var table' := if commit then CommitTable(table, j.token, j.index) else ReleaseTable(table, j.token, j.index);
    var j' := j.(fate := if commit then Committed else Released);
    forall t | t in table' ensures GrantOwned(t, table'[t], jobs[k := j']) {
      assert GrantOwned(t, table[t], jobs);
      if t == j.token {
        GrantSettles(table[t], jobs, k, commit);
      } else {
        GrantIgnoresOthers(t, table[t], jobs, k, j');
      }
    }
  }

  // ---------- sessions are kept by what happens elsewhere ----------

  /** A job of another session, or a new one, does not matter to a session. */
  lemma SessionIgnoresOthers(env: Env, sid: nat, r: Session, jobs: map<nat, Job>, k: nat, j: Job)
    requires SessionOk(env, sid, r, jobs)
    requires k in jobs ==> jobs[k].owner != Some(sid)
    ensures SessionOk(env, sid, r, jobs[k := j])
  {
    var jobs' := jobs[k := j];
    forall i | i in r.downloaded ensures DeliveryOk(env, sid, r, i, r.downloaded[i], jobs') {
      assert DeliveryOk(env, sid, r, i, r.downloaded[i], jobs);
    }
    if IsWaiting(r.phase) {
      assert Outstanding(sid, r, r.phase.index, jobs');
    }
  }

  lemma DirectMoveKeepsJob(env: Env, j: Job, m: DirectMove)
    requires JobOk(env, j) && DirectEnabled(j, m)
    ensures JobOk(env, DirectJob(j, m))
    ensures m.StreamGone? ==> (DirectJob(j, m).fate.Committed? <==> FullyEmitted(j))
  {
  }

  lemma DirectMoveKeepsSession(env: Env, sid: nat, r: Session, jobs: map<nat, Job>, k: nat, m: DirectMove)
    requires SessionOk(env, sid, r, jobs) && k in jobs && JobOk(env, jobs[k]) && DirectEnabled(jobs[k], m)
    ensures SessionOk(env, sid, r, jobs[k := DirectJob(jobs[k], m)])
  {
    var j := jobs[k];
    var j' := DirectJob(j, m);
    var jobs' := jobs[k := j'];
    DirectMoveKeepsJob(env, j, m);
    forall i | i in r.downloaded ensures DeliveryOk(env, sid, r, i, r.downloaded[i], jobs') {
      assert DeliveryOk(env, sid, r, i, r.downloaded[i], jobs);
      if r.downloaded[i].job == k && m.Yields? {
        assert j'.work.yielded[..j.work.len] == j.work.yielded[..j.work.len];
      }
    }
    if IsWaiting(r.phase) {
      assert Outstanding(sid, r, r.phase.index, jobs');
    }
  }

  // ---------- what the recipient does keeps its session ----------

  lemma SaveKeepsProgress(r: Session, i: nat, d: Delivery, p: Phase)
    requires Progress(r) && Current(r.phase) == Some(i) && !r.phase.Failed?
    requires p.DirectNext? || p.RelayNext?
    ensures Progress(r.(downloaded := r.downloaded[i := d], phase := p))
  {
  }

  lemma AskKeepsProgress(r: Session, p: Phase)
    requires Progress(r) && (r.phase.DirectNext? || r.phase.RelayNext?) && r.todo != []
    requires Current(p) == Some(r.todo[0])
    ensures Progress(r.(todo := r.todo[1..], phase := p))
  {
    var r' := r.(todo := r.todo[1..], phase := p);
    assert r.todo == [r.todo[0]] + r.todo[1..];
    assert r.todo[0] in r.todo;
    forall i | i in r'.todo ensures i in Regular(r'.files) && i !in r'.downloaded && Current(r'.phase) != Some(i) {
      assert i in r.todo;
      var m :| 0 <= m < |r'.todo| && r'.todo[m] == i;
      assert r.todo[0] < r.todo[m + 1];
    }
  }

  lemma RestartKeepsProgress(r: Session)
    requires Progress(r)
    ensures Progress(r.(phase := RelayNext, todo := MissingFileIndexes(r.files, r.downloaded.Keys)))
  {
    MissingExact(r.files, r.downloaded.Keys);
  }

  lemma DeliveriesKeep(env: Env, sid: nat, r: Session, r': Session, jobs: map<nat, Job>)
    requires Deliveries(env, sid, r, jobs)
    requires r'.downloaded == r.downloaded && r'.token == r.token && r'.files == r.files
    ensures Deliveries(env, sid, r', jobs)
  {
    forall i | i in r'.downloaded ensures DeliveryOk(env, sid, r', i, r'.downloaded[i], jobs) {
      assert DeliveryOk(env, sid, r, i, r.downloaded[i], jobs);
    }
  }

  lemma DirectMovesOfSession(env: Env, sid: nat, r: Session, jobs: map<nat, Job>, m: SessionMove)
    requires SessionOk(env, sid, r, jobs) && SessionEnabled(env, r, jobs, m)
    requires m.AskDirect? || m.ReadDirect? || m.GiveUpDirect? || m.FinishLoop? || m.GiveUp?
    ensures SessionOk(env, sid, SessionNext(env, r, jobs, m), jobs)
  {
    var r' := SessionNext(env, r, jobs, m);
    DeliveriesKeep(env, sid, r, r', jobs);
    match m
    case AskDirect => AskKeepsProgress(r, DirectAsked(r.todo[0]));
    case GiveUpDirect => RestartKeepsProgress(r);
    case _ =>
  }

  /** A direct file is saved only when its whole length has arrived, so its job has emitted it all
      and cannot have been released. */
  lemma SaveDirectKeeps(env: Env, sid: nat, r: Session, jobs: map<nat, Job>)
    requires SessionOk(env, sid, r, jobs) && SessionEnabled(env, r, jobs, SaveDirect)
    requires JobOk(env, jobs[r.phase.job])
    ensures SessionOk(env, sid, SessionNext(env, r, jobs, SaveDirect), jobs)
  {
    var r' := SessionNext(env, r, jobs, SaveDirect);
    var index, k, got := r.phase.index, r.phase.job, r.phase.got;
    SaveKeepsProgress(r, index, Delivery(k, got, Transport.Direct), DirectNext);
    assert got == jobs[k].work.yielded[..jobs[k].work.len];
    forall i | i in r'.downloaded ensures DeliveryOk(env, sid, r', i, r'.downloaded[i], jobs) {
      if i != index {
        assert DeliveryOk(env, sid, r, i, r.downloaded[i], jobs);
      }
    }
  }

  lemma AskRelayKeeps(env: Env, sid: nat, r: Session, jobs: map<nat, Job>, request: Request)
    requires SessionOk(env, sid, r, jobs) && SessionEnabled(env, r, jobs, AskRelay(request))
    ensures SessionOk(env, sid, SessionNext(env, r, jobs, AskRelay(request)), jobs)
  {
    var r' := SessionNext(env, r, jobs, AskRelay(request));
    DeliveriesKeep(env, sid, r, r', jobs);
    AskKeepsProgress(r, RelayHead(r.todo[0]));
  }

  lemma LinkMovesOfSession(env: Env, sid: nat, r: Session, jobs: map<nat, Job>, m: SessionMove)
    requires SessionOk(env, sid, r, jobs) && SessionEnabled(env, r, jobs, m)
    requires m.SourceLeaves? || m.ServerCuts?
    ensures SessionOk(env, sid, SessionNext(env, r, jobs, m), jobs)
  {
    var r' := SessionNext(env, r, jobs, m);
    DeliveriesKeep(env, sid, r, r', jobs);
    if IsWaiting(r.phase) {
      var l, l' := r.link, r'.link;
      assert l'.toRecipient <= l.toRecipient;
      assert l'.received + l'.toRecipient <= l.received + l.toRecipient;
    }
  }

  // ---------- reading a frame ----------

  /** The frames of a job: a header, binary chunks, an end; only the last is an end marker. */
  lemma FrameShapes(j: Job, n: nat)
    requires j.work.Relaying? && n < |Frames(j)|
    ensures |Frames(j)| >= 2
    ensures Frames(j)[0] == Text(Some(FileHeader(j.index, |j.work.content|, j.work.sealed.head)))
    ensures 1 <= n < |Frames(j)| - 1 ==> Frames(j)[n].Binary?
    ensures n == |Frames(j)| - 1 ==> Frames(j)[n] == Text(Some(FileEnd(j.index)))
    ensures Frames(j)[1..|Frames(j)| - 1] == ChunkMessages(j.work.sealed.ciphertext)
  {
    ConcatUndoesChunks(j.work.sealed.ciphertext);
  }

  /** The frame read next is the frame the job sent at that place. */
  lemma NextFrameRead(sid: nat, r: Session, jobs: map<nat, Job>)
    requires LinkOk(sid, r, jobs) && IsWaiting(r.phase) && r.link.toRecipient != []
    requires r.link.toRecipient[0] != REJECTED
    ensures r.link.answering.Some? && r.link.answering.value in jobs
    ensures var j := jobs[r.link.answering.value];
            && j.work.Relaying? && IsFor(j, r.token, r.phase.index) && j.owner == Some(sid)
            && |r.link.received| < j.work.sent <= |Frames(j)|
            && r.link.received == Frames(j)[..|r.link.received|]
            && r.link.toRecipient[0] == Frames(j)[|r.link.received|]
  {
    var l := r.link;
    var j := jobs[l.answering.value];
    var all := l.received + l.toRecipient;
    assert all[|l.received|] == l.toRecipient[0];
    assert all[..|l.received|] == l.received;
  }

  lemma OutstandingAfterReading(sid: nat, r: Session, jobs: map<nat, Job>)
    requires LinkOk(sid, r, jobs) && IsWaiting(r.phase) && r.link.toRecipient != []
    requires r.link.toRecipient[0] != REJECTED
    ensures Outstanding(sid, AfterReading(r), r.phase.index, jobs)
  {
    NextFrameRead(sid, r, jobs);
    var l, l' := r.link, AfterReading(r).link;
    assert l'.received + l'.toRecipient == l.received + l.toRecipient;
  }

  lemma FailedKeeps(env: Env, sid: nat, r: Session, l: Link, jobs: map<nat, Job>)
    requires SessionOk(env, sid, r, jobs) && l.source == r.link.source
    ensures SessionOk(env, sid, r.(phase := Failed, link := l), jobs)
  {
    DeliveriesKeep(env, sid, r, r.(phase := Failed, link := l), jobs);
  }

  lemma ReadHeaderKeeps(env: Env, sid: nat, r: Session, jobs: map<nat, Job>)
    requires SessionOk(env, sid, r, jobs) && r.phase.RelayHead? && r.link.toRecipient != []
    requires r.link.toRecipient[0] != REJECTED
    ensures SessionOk(env, sid, SessionNext(env, r, jobs, ReadRelay), jobs)
  {
    NextFrameRead(sid, r, jobs);
    OutstandingAfterReading(sid, r, jobs);
    var j := jobs[r.link.answering.value];
    FrameShapes(j, 0);
    var r' := SessionNext(env, r, jobs, ReadRelay);
    DeliveriesKeep(env, sid, r, r', jobs);
    assert r'.phase == RelayBody(r.phase.index, j.work.sealed.head, []);
    assert r'.link.received[1..] == [];
  }

  lemma ReadChunkKeeps(env: Env, sid: nat, r: Session, jobs: map<nat, Job>)
    requires SessionOk(env, sid, r, jobs) && r.phase.RelayBody? && r.link.toRecipient != []
    requires r.link.toRecipient[0].Binary?
    ensures SessionOk(env, sid, SessionNext(env, r, jobs, ReadRelay), jobs)
  {
    OutstandingAfterReading(sid, r, jobs);
    var bytes := r.link.toRecipient[0].bytes;
    var r' := SessionNext(env, r, jobs, ReadRelay);
    DeliveriesKeep(env, sid, r, r', jobs);
    ConcatAppends(r.link.received[1..], bytes);
    assert r'.link.received[1..] == r.link.received[1..] + [Binary(bytes)];
    assert Outstanding(sid, r', r'.phase.index, jobs);
  }

  /** At the end marker the body gathered is the sealed body, so what opens is the file the source
      read; and the marker was the last frame, so the job has emitted everything. */
  lemma EndMarkerOpens(env: Env, sid: nat, r: Session, jobs: map<nat, Job>)
    requires LinkOk(sid, r, jobs) && r.phase.RelayBody? && r.link.toRecipient != []
    requires r.link.toRecipient[0].Text? && r.link.toRecipient[0] != REJECTED
    requires JobsOk(env, jobs)
    ensures r.link.answering.Some? && r.link.answering.value in jobs
    ensures var j := jobs[r.link.answering.value];
            && j.work.Relaying? && FullyEmitted(j) && |r.link.received| == |Frames(j)| - 1
            && r.link.toRecipient == [Text(Some(FileEnd(j.index)))]
            && env.open(r.phase.head, r.phase.got) == Some(j.work.content)
  {
    NextFrameRead(sid, r, jobs);
    var j := jobs[r.link.answering.value];
    var n := |r.link.received|;
    FrameShapes(j, n);
    assert n == |Frames(j)| - 1 && FullyEmitted(j);
    assert r.link.received[0] == Frames(j)[0];
    assert r.link.received[1..] == Frames(j)[1..|Frames(j)| - 1];
    ConcatUndoesChunks(j.work.sealed.ciphertext);
    assert r.phase.head == j.work.sealed.head && r.phase.got == j.work.sealed.ciphertext;
    assert JobOk(env, j);
    assert r.link.received + r.link.toRecipient <= Frames(j);
    assert |r.link.toRecipient| == 1;
  }

  lemma ReadEndKeeps(env: Env, sid: nat, r: Session, jobs: map<nat, Job>)
    requires SessionOk(env, sid, r, jobs) && r.phase.RelayBody? && r.link.toRecipient != []
    requires r.link.toRecipient[0].Text? && r.link.toRecipient[0] != REJECTED
    requires JobsOk(env, jobs)
    ensures SessionOk(env, sid, SessionNext(env, r, jobs, ReadRelay), jobs)
  {
    NextFrameRead(sid, r, jobs);
    EndMarkerOpens(env, sid, r, jobs);
    var k := r.link.answering.value;
    var j := jobs[k];
    var r' := SessionNext(env, r, jobs, ReadRelay);
    var index := r.phase.index;
    if r'.phase.Failed? {
      FailedKeeps(env, sid, r, r'.link, jobs);
      assert r' == r.(phase := Failed, link := r'.link);
    } else {
      var d := Delivery(k, j.work.content, Transport.Relay);
      SaveKeepsProgress(r, index, d, RelayNext);
      assert r'.downloaded == r.downloaded[index := d];
      forall i | i in r'.downloaded ensures DeliveryOk(env, sid, r', i, r'.downloaded[i], jobs) {
        if i != index {
          assert DeliveryOk(env, sid, r, i, r.downloaded[i], jobs);
        }
      }
      assert SourceDone(r'.link, jobs);
    }
  }

  lemma ReadRelayKeeps(env: Env, sid: nat, r: Session, jobs: map<nat, Job>)
    requires SessionOk(env, sid, r, jobs) && SessionEnabled(env, r, jobs, ReadRelay)
    requires JobsOk(env, jobs)
    ensures SessionOk(env, sid, SessionNext(env, r, jobs, ReadRelay), jobs)
  {
    var m := r.link.toRecipient[0];
    if m == REJECTED {
      FailedKeeps(env, sid, r, AfterReading(r).link, jobs);
    } else if r.phase.RelayHead? {
      ReadHeaderKeeps(env, sid, r, jobs);
    } else if m.Binary? {
      ReadChunkKeeps(env, sid, r, jobs);
    } else {
      NextFrameRead(sid, r, jobs);
      FrameShapes(jobs[r.link.answering.value], |r.link.received|);
      ReadEndKeeps(env, sid, r, jobs);
    }
  }

  lemma SessionMoveKeeps(env: Env, sid: nat, r: Session, jobs: map<nat, Job>, m: SessionMove)
    requires SessionOk(env, sid, r, jobs) && SessionEnabled(env, r, jobs, m)
    requires JobsOk(env, jobs)
    ensures SessionOk(env, sid, SessionNext(env, r, jobs, m), jobs)
  {
    match m
    case SaveDirect => SaveDirectKeeps(env, sid, r, jobs);
    case AskRelay(request) => AskRelayKeeps(env, sid, r, jobs, request);
    case ReadRelay => ReadRelayKeeps(env, sid, r, jobs);
    case SourceLeaves => LinkMovesOfSession(env, sid, r, jobs, m);
    case ServerCuts(_) => LinkMovesOfSession(env, sid, r, jobs, m);
    case _ => DirectMovesOfSession(env, sid, r, jobs, m);
  }

  // ---------- the serving task of a session keeps it ----------

  lemma ServeKeepsJob(env: Env, j: Job, m: ServeMove)
    requires JobOk(env, j) && j.fate.Holding? && ServeEnabled(env, j, m)
    ensures JobOk(env, ServeJob(env, j, m))
  {
  }

  lemma ServeKeepsSession(env: Env, sid: nat, r: Session, jobs: map<nat, Job>, m: ServeMove)
    requires SessionOk(env, sid, r, jobs) && r.link.source.Busy?
    requires r.link.source.job in jobs && JobOk(env, jobs[r.link.source.job])
             && ServeEnabled(env, jobs[r.link.source.job], m)
    ensures var k := r.link.source.job;
            SessionOk(env, sid, r.(link := ServeLink(env, r.link, jobs[k], m)), jobs[k := ServeJob(env, jobs[k], m)])
  {
    var k := r.link.source.job;
    var j := jobs[k];
    var j' := ServeJob(env, j, m);
    var jobs' := jobs[k := j'];
    var l' := ServeLink(env, r.link, j, m);
    var r' := r.(link := l');
    ServeKeepsJob(env, j, m);
    forall i | i in r'.downloaded ensures DeliveryOk(env, sid, r', i, r'.downloaded[i], jobs') {
      assert DeliveryOk(env, sid, r, i, r.downloaded[i], jobs);
    }
    if IsWaiting(r.phase) {
      ServeKeepsOutstanding(env, sid, r, jobs, m);
    }
  }

  lemma FrameGoesOut(frames: seq<Message>, n: nat, received: seq<Message>, underway: seq<Message>)
    requires n < |frames| && received + underway <= frames[..n]
    ensures received + underway <= frames[..n + 1]
    ensures received + underway == frames[..n] ==> received + (underway + [frames[n]]) == frames[..n + 1]
  {
    assert frames[..n + 1] == frames[..n] + [frames[n]];
    assert received + (underway + [frames[n]]) == (received + underway) + [frames[n]];
  }

  lemma ServeKeepsOutstanding(env: Env, sid: nat, r: Session, jobs: map<nat, Job>, m: ServeMove)
    requires LinkOk(sid, r, jobs) && IsWaiting(r.phase) && r.link.source.Busy?
    requires r.link.source.job in jobs && JobOk(env, jobs[r.link.source.job])
             && ServeEnabled(env, jobs[r.link.source.job], m)
    ensures var k := r.link.source.job;
            Outstanding(sid, r.(link := ServeLink(env, r.link, jobs[k], m)), r.phase.index,
                        jobs[k := ServeJob(env, jobs[k], m)])
  {
    var k := r.link.source.job;
    var j := jobs[k];
    var l, l' := r.link, ServeLink(env, r.link, j, m);
    if l.answering.None? {
      assert m.CommitSent?;
    } else if m.SendFrame? {
      var j' := ServeJob(env, j, m);
      assert Frames(j') == Frames(j);
      var sent := j.work.sent;
      FrameGoesOut(Frames(j), sent, l.received, l.toRecipient);
    } else if m.Prepare? {
      assert l.received + l.toRecipient == [];
    }
  }

  lemma TakeKeepsSession(env: Env, sid: nat, r: Session, jobs: map<nat, Job>, k: nat, path: Path)
    requires SessionOk(env, sid, r, jobs) && k !in jobs && r.link.source.Idle? && r.link.toSource != []
    requires RequestOf(r.link.toSource[0]).Some?
    ensures var (token, index, _) := RequestOf(r.link.toSource[0]).value;
            var l := r.link.(toSource := r.link.toSource[1..]);
            && SessionOk(env, sid, r.(link := Push(l, REJECTED)), jobs)
            && SessionOk(env, sid, r.(link := l.(source := Busy(k), answering := Some(k))),
                         jobs[k := Job(token, index, path, Some(sid), RelayClaimed, Holding)])
  {
    var (token, index, _) := RequestOf(r.link.toSource[0]).value;
    var l := r.link.(toSource := r.link.toSource[1..]);
    var refused := r.(link := Push(l, REJECTED));
    DeliveriesKeep(env, sid, r, refused, jobs);
    var jobs' := jobs[k := Job(token, index, path, Some(sid), RelayClaimed, Holding)];
    var taken := r.(link := l.(source := Busy(k), answering := Some(k)));
    forall i | i in taken.downloaded ensures DeliveryOk(env, sid, taken, i, taken.downloaded[i], jobs') {
      assert DeliveryOk(env, sid, r, i, r.downloaded[i], jobs);
    }
  }

  lemma DirectAnswerKeepsSession(env: Env, sid: nat, r: Session, jobs: map<nat, Job>, k: nat, index: nat, path: Path)
    requires SessionOk(env, sid, r, jobs) && k !in jobs && r.phase == DirectAsked(index)
    ensures SessionOk(env, sid, r.(phase := DirectReading(index, k, [])),
                      jobs[k := Job(r.token, index, path, Some(sid), DirectClaimed, Holding)])
  {
    var r' := r.(phase := DirectReading(index, k, []));
    var jobs' := jobs[k := Job(r.token, index, path, Some(sid), DirectClaimed, Holding)];
    forall i | i in r'.downloaded ensures DeliveryOk(env, sid, r', i, r'.downloaded[i], jobs') {
      assert DeliveryOk(env, sid, r, i, r.downloaded[i], jobs);
    }
  }

  lemma StartedSessionOk(env: Env, sid: nat, token: Token, files: seq<FileEntry>, preferRelay: bool,
                         jobs: map<nat, Job>)
    ensures SessionOk(env, sid, StartedSession(token, files, preferRelay), jobs)
  {
    MissingExact(files, {});
  }
}
