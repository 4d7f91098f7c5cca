/** What the source's relay task and the recipients do in single steps, said of the connection and the grant
    alone. */
module TransferSteps {
  import opened Wrappers
  import opened PeerRegistry
  import opened RelayFrames
  import opened TransferSystem
  import opened TransferInvariant
  import opened TransferTheorems

  /** The frames underway to the recipient after the source sends one: lost when the connection is cut. */
  ghost predicate Sends(l: Link, n: Link, m: Message) {
    n.toRecipient == if l.cut then l.toRecipient else l.toRecipient + [m]
  }

  predicate IsReserved(t: Table, token: Token, index: nat) {
    token in t && index in t[token].inFlight
  }

  predicate IsServed(t: Table, token: Token, index: nat) {
    token in t && index in t[token].served
  }

  /** Time passes only by ticks and while a claim or a registration is made. */
  lemma ClockExactly(env: Env, s: State, e: Event)
    requires Enabled(env, s, e)
    ensures Next(env, s, e).clock
         == match e
            case Tick(d) => s.clock + d
            case Register(_, _, _, _, _, _, d) => s.clock + d
            case DirectClaim(_, _, _, _, d, _) => s.clock + d
            case TakeRequest(_, _, d) => s.clock + d
            case _ => s.clock
  {
  }

  /** The source takes one request off the connection; a granted one makes its task busy with a new job for the
      claimed path, a refused one is answered with an error. */
  lemma RequestIsAnswered(env: Env, s: State, e: Event)
    requires e.TakeRequest? && Enabled(env, s, e)
    ensures var (r, n) := (s.sessions[e.sid], Next(env, s, e));
            var (token, index, request) := RequestOf(r.link.toSource[0]).value;
            var l := n.sessions[e.sid].link;
            && l.toSource == r.link.toSource[1..] && l.cut == r.link.cut
            && match Claimed(env, s, token, index, request, e.d).0
               case Available(path) =>
                 && l.source == Busy(e.job) && l.toRecipient == r.link.toRecipient
                 && n.jobs == s.jobs[e.job := Job(token, index, path, Some(e.sid), RelayClaimed, Holding)]
                 && IsReserved(n.table, token, index)
               case _ =>
                 && l.source == r.link.source && Sends(r.link, l, Text(Some(Error("rejected")))) && n.jobs == s.jobs
  {
  }

  /** While the serving task works: a file is prepared, and its frames go out one by one, without touching the
      grant. */
  lemma TaskWorkExactly(env: Env, s: State, e: Event)
    requires e.Serve? && Enabled(env, s, e) && (e.serveMove.Prepare? || e.serveMove.SendFrame?)
    ensures var (r, n) := (s.sessions[e.sid], Next(env, s, e));
            var k := r.link.source.job;
            var j, l := s.jobs[k], n.sessions[e.sid].link;
            && n.table == s.table && n.jobs[k].fate == j.fate
            && n.jobs[k].token == j.token && n.jobs[k].index == j.index
            && if e.serveMove.Prepare?
               then l == r.link && n.jobs[k].work == Relaying(e.serveMove.content, e.serveMove.sealed, 0)
               else
                 && l.source == r.link.source && Sends(r.link, l, Frames(j)[j.work.sent])
                 && n.jobs[k].work == Relaying(j.work.content, j.work.sealed, j.work.sent + 1)
  {
  }

  /** How the task ends a request: a file that cannot be read or sealed is answered with an error, one that
      cannot be sent ends the task, and both give the reservation back; only after the last frame is the index
      consumed. */
  lemma TaskEndExactly(env: Env, s: State, e: Event)
    requires Reachable(env, s) && e.Serve? && Enabled(env, s, e)
    requires !e.serveMove.Prepare? && !e.serveMove.SendFrame?
    ensures var (r, n) := (s.sessions[e.sid], Next(env, s, e));
            var k := r.link.source.job;
            var j, l := s.jobs[k], n.sessions[e.sid].link;
            && !IsReserved(n.table, j.token, j.index)
            && if e.serveMove.PrepareFails?
               then
                 && l.source.Idle? && Sends(r.link, l, Text(Some(Error("rejected"))))
                 && n.jobs[k].fate.Released? && !IsServed(n.table, j.token, j.index)
               else if e.serveMove.SendFails?
               then
                 && l.source.Gone? && l.toRecipient == r.link.toRecipient
                 && n.jobs[k].fate.Released? && !IsServed(n.table, j.token, j.index)
               else
                 && j.work.Relaying? && j.work.sent == |Frames(j)|
                 && l.source.Idle? && l.toRecipient == r.link.toRecipient
                 && n.jobs[k].fate.Committed? && (j.token in n.table ==> IsServed(n.table, j.token, j.index))
  {
    BusyHolds(env, s, e.sid);
    var j := s.jobs[s.sessions[e.sid].link.source.job];
    if j.token in s.table {
      HeldIsNotServed(env, s, s.sessions[e.sid].link.source.job);
    }
    if e.serveMove.CommitSent? {
      SentCompletely(env, j, e.serveMove);
    }
  }

  lemma BusyHolds(env: Env, s: State, sid: nat)
    requires Reachable(env, s) && sid in s.sessions && s.sessions[sid].link.source.Busy?
    ensures var k := s.sessions[sid].link.source.job;
            k in s.jobs && s.jobs[k].fate.Holding? && JobOk(env, s.jobs[k])
  {
    ReachableInv(env, s);
    assert SessionOk(env, sid, s.sessions[sid], s.jobs);
  }

  lemma SentCompletely(env: Env, j: Job, m: ServeMove)
    requires JobOk(env, j) && ServeEnabled(env, j, m) && m.CommitSent?
    ensures j.work.Relaying? && j.work.sent == |Frames(j)|
  {
  }

  lemma HeldIsNotServed(env: Env, s: State, k: nat)
    requires Reachable(env, s) && k in s.jobs && s.jobs[k].fate.Holding? && s.jobs[k].token in s.table
    ensures s.jobs[k].index !in s.table[s.jobs[k].token].served
  {
    OneHolderPerIndex(env, s, s.jobs[k].token);
    assert HeldBy(s.jobs, k, s.jobs[k].token, s.jobs[k].index);
  }

  /** A granted direct claim starts a job for the claimed path and sets its session reading from it; a refused
      one starts nothing and leaves the session asking. */
  lemma DirectClaimIsAnswered(env: Env, s: State, e: Event)
    requires e.DirectClaim? && Enabled(env, s, e)
    ensures var n := Next(env, s, e);
            match Claimed(env, s, e.token, e.index, e.request, e.d).0
            case Available(path) =>
              && n.jobs == s.jobs[e.job := Job(e.token, e.index, path, e.owner, DirectClaimed, Holding)]
              && IsReserved(n.table, e.token, e.index)
              && (e.owner.Some? ==>
                    && e.owner.value in n.sessions
                    && n.sessions[e.owner.value].phase == DirectReading(e.index, e.job, [])
                    && n.sessions[e.owner.value].todo == s.sessions[e.owner.value].todo)
            case _ => n.jobs == s.jobs && n.sessions == s.sessions
  {
  }

  /** The steps of a direct answer: a handler can return early, which leaves the index reserved; the stream
      yields bytes in order, and when it is gone the index is consumed if and only if at least the length of
      the file at its opening was yielded, and given back otherwise. */
  lemma DirectStepExactly(env: Env, s: State, e: Event)
    requires Reachable(env, s) && e.Direct? && Enabled(env, s, e)
    ensures var n := Next(env, s, e);
            var j, m := s.jobs[e.job], n.jobs[e.job];
            && n.sessions == s.sessions && m.token == j.token && m.index == j.index && m.path == j.path
            && match e.directMove
               case HandlerFails => n.table == s.table && m.fate.Abandoned?
               case OpenStream(len) => n.table == s.table && m == j.(work := Streaming(len, []))
               case Yields(bytes) =>
                 n.table == s.table && m == j.(work := Streaming(j.work.len, j.work.yielded + bytes))
               case StreamGone =>
                 && !IsReserved(n.table, j.token, j.index)
                 && (if |j.work.yielded| >= j.work.len
                     then m.fate.Committed? && (j.token in n.table ==> IsServed(n.table, j.token, j.index))
                     else m.fate.Released? && !IsServed(n.table, j.token, j.index))
  {
    if e.directMove.StreamGone? {
      var j := s.jobs[e.job];
      SettleOne(s.table, j.token, j.index, if |j.work.yielded| >= j.work.len then Commit else Release);
      if j.token in s.table {
        HeldIsNotServed(env, s, e.job);
      }
    }
  }

  /** How a session ends is final: neither its outcome nor what it holds changes in any continuation. */
  lemma {:induction false} OutcomeIsFinal(env: Env, s: State, es: seq<Event>, sid: nat)
    requires Run(env, s, es).Some? && sid in s.sessions
    requires s.sessions[sid].phase.Finished? || s.sessions[sid].phase.Failed?
    ensures var n := Run(env, s, es).value;
            && sid in n.sessions && n.sessions[sid].phase == s.sessions[sid].phase
            && n.sessions[sid].downloaded == s.sessions[sid].downloaded
    decreases |es|
  {
    if es != [] {
      StepKeepsOutcome(env, s, es[0], sid);
      OutcomeIsFinal(env, Next(env, s, es[0]), es[1..], sid);
    }
  }

  lemma StepKeepsOutcome(env: Env, s: State, e: Event, sid: nat)
    requires Enabled(env, s, e) && sid in s.sessions
    requires s.sessions[sid].phase.Finished? || s.sessions[sid].phase.Failed?
    ensures var n := Next(env, s, e);
            && sid in n.sessions && n.sessions[sid].phase == s.sessions[sid].phase
            && n.sessions[sid].downloaded == s.sessions[sid].downloaded
  {
  }

  /** How sessions give up, move on to the relay, and lose their connection. */
  lemma SessionStepExactly(env: Env, s: State, e: Event)
    requires e.AtSession? && Enabled(env, s, e)
    ensures var r, n := s.sessions[e.sid], Next(env, s, e).sessions[e.sid];
            && n.token == r.token && n.files == r.files
            && (!e.sessionMove.SaveDirect? && !e.sessionMove.ReadRelay? ==> n.downloaded == r.downloaded)
            && match e.sessionMove
               case AskDirect => n.phase == DirectAsked(r.todo[0]) && n.todo == r.todo[1..]
               case GiveUpDirect => n.phase.RelayNext? && IsDirect(r.phase) && n.link == r.link
               case AskRelay(request) =>
                 && n.phase == RelayHead(r.todo[0]) && n.todo == r.todo[1..]
                 && n.link.toSource == if r.link.cut then r.link.toSource
                                       else r.link.toSource + [Text(Some(FileRequest(r.token, r.todo[0], request)))]
               case FinishLoop => n.phase.Finished? && r.todo == []
               case GiveUp => n.phase.Failed?
               case SourceLeaves => n.link == r.link.(source := Gone) && n.phase == r.phase
               case ServerCuts(keep) =>
                 && n.link.cut && n.link.toSource == [] && n.link.toRecipient == r.link.toRecipient[..keep]
                 && n.phase == r.phase
               case _ => true
  {
  }
}
