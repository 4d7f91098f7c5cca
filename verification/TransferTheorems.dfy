/** What holds in every state of every run of the transfer system. */
module TransferTheorems {
  import opened Wrappers
  import opened PeerRegistry
  import opened RelayFrames
  import opened Manifest
  import opened Recipient
  import opened TransferSystem
  import opened TransferInvariant

  // ---------- every step keeps the invariant ----------

  lemma CleanupKeepsOwnership(table: Table, now: nat, issued: set<Token>, jobs: map<nat, Job>)
    requires Ownership(table, issued, jobs)
    ensures Ownership(Cleanup(table, now), issued, jobs)
  {
    OwnershipShrinks(table, Cleanup(table, now), issued, jobs);
  }

  lemma RefusedClaimKeepsOwnership(env: Env, s: State, token: Token, index: nat, request: Request, d: nat)
    requires Ownership(s.table, s.granted.Keys, s.jobs)
    requires !Claimed(env, s, token, index, request, d).0.Available?
    ensures Ownership(Claimed(env, s, token, index, request, d).1.table, s.granted.Keys, s.jobs)
  {
    OwnershipShrinks(s.table, Claimed(env, s, token, index, request, d).1.table, s.granted.Keys, s.jobs);
  }

  lemma GrantedClaimKeepsOwnership(env: Env, s: State, token: Token, index: nat, request: Request, d: nat, k: nat,
                                   j: Job)
    requires Ownership(s.table, s.granted.Keys, s.jobs) && k !in s.jobs
    requires Claimed(env, s, token, index, request, d).0.Available?
    requires IsFor(j, token, index) && j.fate.Holding?
    ensures Ownership(Claimed(env, s, token, index, request, d).1.table, s.granted.Keys, s.jobs[k := j])
  {
    CleanupKeepsOwnership(s.table, s.clock, s.granted.Keys, s.jobs);
    OwnershipNewJob(Cleanup(s.table, s.clock), s.granted.Keys, s.jobs, k, j);
  }

  lemma RegisterKeepsOwnership(s: State, token: Token, g: Grant)
    requires Ownership(s.table, s.granted.Keys, s.jobs) && token !in s.granted && g.served == {} == g.inFlight
    ensures Ownership(Cleanup(s.table, s.clock)[token := g], s.granted.Keys + {token}, s.jobs)
  {
    CleanupKeepsOwnership(s.table, s.clock, s.granted.Keys, s.jobs);
    var table' := Cleanup(s.table, s.clock)[token := g];
    forall t | t in table' ensures GrantOwned(t, table'[t], s.jobs) {
      if t != token {
        assert GrantOwned(t, Cleanup(s.table, s.clock)[t], s.jobs);
      }
    }
  }

  lemma SettleOne(t: Table, token: Token, index: nat, c: Settlement)
    ensures SettleTable(t, token, index, [c])
         == if c.Commit? then CommitTable(t, token, index) else ReleaseTable(t, token, index)
  {
    assert [c][1..] == [];
  }

  lemma DirectMoveKeepsOwnership(env: Env, s: State, k: nat, m: DirectMove)
    requires Inv(env, s) && k in s.jobs && DirectEnabled(s.jobs[k], m)
    ensures Ownership(DirectTable(s.table, s.jobs[k], m), s.granted.Keys, s.jobs[k := DirectJob(s.jobs[k], m)])
  {
    var j := s.jobs[k];
    if m.StreamGone? {
      var commit := StreamSettlement(j) == [Commit];
      SettleOne(s.table, j.token, j.index, if commit then Commit else Release);
      OwnershipSettles(s.table, s.granted.Keys, s.jobs, k, commit);
    } else {
      OwnershipIgnoresWork(s.table, s.granted.Keys, s.jobs, k, DirectJob(j, m));
    }
  }

  lemma ServeKeepsOwnership(env: Env, s: State, k: nat, m: ServeMove)
    requires Inv(env, s) && k in s.jobs && s.jobs[k].fate.Holding? && ServeEnabled(env, s.jobs[k], m)
    ensures Ownership(ServeTable(s.table, s.jobs[k], m), s.granted.Keys, s.jobs[k := ServeJob(env, s.jobs[k], m)])
  {
    match m
    case CommitSent => OwnershipSettles(s.table, s.granted.Keys, s.jobs, k, true);
    case PrepareFails => OwnershipSettles(s.table, s.granted.Keys, s.jobs, k, false);
    case SendFails => OwnershipSettles(s.table, s.granted.Keys, s.jobs, k, false);
    case _ => OwnershipIgnoresWork(s.table, s.granted.Keys, s.jobs, k, ServeJob(env, s.jobs[k], m));
  }

  // ---------- sessions, all together ----------

  lemma NewJobKeepsSessions(env: Env, sessions: map<nat, Session>, jobs: map<nat, Job>, k: nat, j: Job)
    requires SessionsOk(env, sessions, jobs) && k !in jobs
    ensures SessionsOk(env, sessions, jobs[k := j])
  {
    forall sid | sid in sessions ensures SessionOk(env, sid, sessions[sid], jobs[k := j]) {
      SessionIgnoresOthers(env, sid, sessions[sid], jobs, k, j);
    }
  }

  lemma OneSessionChanges(env: Env, sessions: map<nat, Session>, jobs: map<nat, Job>, sid: nat, r: Session, k: nat,
                          j: Job)
    requires SessionsOk(env, sessions, jobs) && SessionOk(env, sid, r, jobs[k := j])
    requires k in jobs ==> jobs[k].owner == Some(sid)
    ensures SessionsOk(env, sessions[sid := r], jobs[k := j])
  {
    forall o | o in sessions && o != sid ensures SessionOk(env, o, sessions[o], jobs[k := j]) {
      SessionIgnoresOthers(env, o, sessions[o], jobs, k, j);
    }
  }

  lemma DirectMoveKeepsSessions(env: Env, sessions: map<nat, Session>, jobs: map<nat, Job>, k: nat, m: DirectMove)
    requires SessionsOk(env, sessions, jobs) && JobsOk(env, jobs) && k in jobs && DirectEnabled(jobs[k], m)
    ensures SessionsOk(env, sessions, jobs[k := DirectJob(jobs[k], m)])
  {
    forall sid | sid in sessions ensures SessionOk(env, sid, sessions[sid], jobs[k := DirectJob(jobs[k], m)]) {
      DirectMoveKeepsSession(env, sid, sessions[sid], jobs, k, m);
    }
  }

  function ClaimedPath(env: Env, s: State, e: Event): Path
    requires e.DirectClaim? && Claimed(env, s, e.token, e.index, e.request, e.d).0.Available?
  {
    Claimed(env, s, e.token, e.index, e.request, e.d).0.path
  }

  lemma DirectClaimGranted(env: Env, s: State, e: Event, j: Job)
    requires Inv(env, s) && e.DirectClaim? && Enabled(env, s, e)
    requires Claimed(env, s, e.token, e.index, e.request, e.d).0.Available?
    requires j == Job(e.token, e.index, ClaimedPath(env, s, e), e.owner, DirectClaimed, Holding)
    ensures SessionsOk(env, Next(env, s, e).sessions, s.jobs[e.job := j])
  {
    if e.owner.None? {
      NewJobKeepsSessions(env, s.sessions, s.jobs, e.job, j);
    } else {
      var sid := e.owner.value;
      var r := s.sessions[sid];
      DirectAnswerKeepsSession(env, sid, r, s.jobs, e.job, e.index, j.path);
      OneSessionChanges(env, s.sessions, s.jobs, sid, r.(phase := DirectReading(e.index, e.job, [])), e.job, j);
    }
  }

  lemma DirectClaimRefused(env: Env, s: State, e: Event)
    requires Inv(env, s) && e.DirectClaim? && Enabled(env, s, e)
    requires !Claimed(env, s, e.token, e.index, e.request, e.d).0.Available?
    ensures Inv(env, Next(env, s, e))
  {
    RefusedClaimKeepsOwnership(env, s, e.token, e.index, e.request, e.d);
    var n := Next(env, s, e);
    assert n.jobs == s.jobs && n.sessions == s.sessions && n.granted == s.granted;
  }

  lemma AcceptedClaimState(env: Env, s: State, e: Event)
    requires e.DirectClaim? && Enabled(env, s, e)
    requires Claimed(env, s, e.token, e.index, e.request, e.d).0.Available?
    ensures var n := Next(env, s, e);
            && n.table == Claimed(env, s, e.token, e.index, e.request, e.d).1.table && n.granted == s.granted
            && n.jobs == s.jobs[e.job := Job(e.token, e.index, ClaimedPath(env, s, e), e.owner, DirectClaimed, Holding)]
  {
  }

  lemma NewJobIsOk(env: Env, jobs: map<nat, Job>, k: nat, j: Job)
    requires JobsOk(env, jobs) && j.work.DirectClaimed? && j.fate.Holding?
    ensures JobsOk(env, jobs[k := j])
  {
  }

  lemma DirectClaimAccepted(env: Env, s: State, e: Event)
    requires Inv(env, s) && e.DirectClaim? && Enabled(env, s, e)
    requires Claimed(env, s, e.token, e.index, e.request, e.d).0.Available?
    ensures Inv(env, Next(env, s, e))
  {
    var j := Job(e.token, e.index, ClaimedPath(env, s, e), e.owner, DirectClaimed, Holding);
    AcceptedClaimState(env, s, e);
    NewJobIsOk(env, s.jobs, e.job, j);
    GrantedClaimKeepsOwnership(env, s, e.token, e.index, e.request, e.d, e.job, j);
    DirectClaimGranted(env, s, e, j);
  }

  lemma DirectClaimKeeps(env: Env, s: State, e: Event)
    requires Inv(env, s) && e.DirectClaim? && Enabled(env, s, e)
    ensures Inv(env, Next(env, s, e))
  {
    if Claimed(env, s, e.token, e.index, e.request, e.d).0.Available? {
      DirectClaimAccepted(env, s, e);
    } else {
      DirectClaimRefused(env, s, e);
    }
  }

  lemma DirectKeeps(env: Env, s: State, e: Event)
    requires Inv(env, s) && e.Direct? && Enabled(env, s, e)
    ensures Inv(env, Next(env, s, e))
  {
    DirectMoveKeepsOwnership(env, s, e.job, e.directMove);
    DirectMoveKeepsJob(env, s.jobs[e.job], e.directMove);
    DirectMoveKeepsSessions(env, s.sessions, s.jobs, e.job, e.directMove);
  }

  lemma AtSessionKeeps(env: Env, s: State, e: Event)
    requires Inv(env, s) && e.AtSession? && Enabled(env, s, e)
    ensures Inv(env, Next(env, s, e))
  {
    SessionMoveKeeps(env, e.sid, s.sessions[e.sid], s.jobs, e.sessionMove);
  }

  lemma TakeRequestKeeps(env: Env, s: State, e: Event)
    requires Inv(env, s) && e.TakeRequest? && Enabled(env, s, e)
    ensures Inv(env, Next(env, s, e))
  {
    var r := s.sessions[e.sid];
    var (token, index, request) := RequestOf(r.link.toSource[0]).value;
    var l := r.link.(toSource := r.link.toSource[1..]);
    var claim := Claimed(env, s, token, index, request, e.d).0;
    var path := if claim.Available? then claim.path else [];
    TakeKeepsSession(env, e.sid, r, s.jobs, e.job, path);
    if !Claimed(env, s, token, index, request, e.d).0.Available? {
      RefusedClaimKeepsOwnership(env, s, token, index, request, e.d);
    } else {
      var j := Job(token, index, path, Some(e.sid), RelayClaimed, Holding);
      GrantedClaimKeepsOwnership(env, s, token, index, request, e.d, e.job, j);
      OneSessionChanges(env, s.sessions, s.jobs, e.sid, r.(link := l.(source := Busy(e.job), answering := Some(e.job))),
                        e.job, j);
    }
  }

  lemma ServeKeeps(env: Env, s: State, e: Event)
    requires Inv(env, s) && e.Serve? && Enabled(env, s, e)
    ensures Inv(env, Next(env, s, e))
  {
    var r := s.sessions[e.sid];
    var k := r.link.source.job;
    var j := s.jobs[k];
    assert SessionOk(env, e.sid, r, s.jobs);
    ServeKeepsOwnership(env, s, k, e.serveMove);
    ServeKeepsJob(env, j, e.serveMove);
    ServeKeepsSession(env, e.sid, r, s.jobs, e.serveMove);
    OneSessionChanges(env, s.sessions, s.jobs, e.sid, r.(link := ServeLink(env, r.link, j, e.serveMove)),
                      k, ServeJob(env, j, e.serveMove));
  }

  /** Time, registrations and new sessions. */
  lemma SetupKeeps(env: Env, s: State, e: Event)
    requires Inv(env, s) && Enabled(env, s, e) && (e.Tick? || e.Register? || e.Bind? || e.StartSession?)
    ensures Inv(env, Next(env, s, e))
  {
    match e
    case Register(token, clipId, sourceId, keys, paths, ttl, d) =>
      RegisterKeepsOwnership(s, token, FreshGrant(clipId, sourceId, keys, paths, s.clock + d + ttl));
    case Bind(token, boundTo) =>
      OwnershipShrinks(s.table, BindTable(s.table, token, boundTo), s.granted.Keys, s.jobs);
    case StartSession(sid, token, files, preferRelay) => StartedSessionOk(env, sid, token, files, preferRelay, s.jobs);
    case _ =>
  }

  /** One step, whichever it is. */
  lemma StepKeepsInv(env: Env, s: State, e: Event)
    requires Inv(env, s) && Enabled(env, s, e)
    ensures Inv(env, Next(env, s, e))
  {
    match e
    case DirectClaim(_, _, _, _, _, _) => DirectClaimKeeps(env, s, e);
    case Direct(_, _) => DirectKeeps(env, s, e);
    case AtSession(_, _) => AtSessionKeeps(env, s, e);
    case TakeRequest(_, _, _) => TakeRequestKeeps(env, s, e);
    case Serve(_, _) => ServeKeeps(env, s, e);
    case _ => SetupKeeps(env, s, e);
  }

  lemma {:induction false} RunKeepsInv(env: Env, s: State, es: seq<Event>)
    requires Inv(env, s) && Run(env, s, es).Some?
    ensures Inv(env, Run(env, s, es).value)
    decreases |es|
  {
    if es != [] {
      StepKeepsInv(env, s, es[0]);
      RunKeepsInv(env, Next(env, s, es[0]), es[1..]);
    }
  }

  lemma ReachableInv(env: Env, s: State)
    requires Reachable(env, s)
    ensures Inv(env, s)
  {
    var es :| Run(env, START, es) == Some(s);
    RunKeepsInv(env, START, es);
  }

  // ---------- ownership ----------

  /** Under any interleaving of claims, streams, relay jobs, early returns and expiry: in a live
      grant served and in-flight indexes are disjoint and exist, an in-flight index has exactly one
      unsettled holder, a served one has none and exactly one job that consumed it. */
  lemma OneHolderPerIndex(env: Env, s: State, token: Token)
    requires Reachable(env, s) && token in s.table
    ensures var g := s.table[token];
            && g.served !! g.inFlight
            && (forall i :: i in g.served + g.inFlight ==> i < |g.paths|)
            && (forall i :: i in g.inFlight <==> exists k :: HeldBy(s.jobs, k, token, i))
            && (forall i :: i in g.served <==> exists k :: CommittedBy(s.jobs, k, token, i))
            && (forall i, k, m :: HeldBy(s.jobs, k, token, i) && HeldBy(s.jobs, m, token, i) ==> k == m)
            && (forall i, k, m :: CommittedBy(s.jobs, k, token, i) && CommittedBy(s.jobs, m, token, i) ==> k == m)
  {
    ReachableInv(env, s);
    var g := s.table[token];
    assert GrantOwned(token, g, s.jobs);
  }

  /** A claim is granted exactly when the grant is alive at both clock readings, the request is
      authorized, the index exists and every earlier job for it has been released. So a failed
      transfer can be retried at once, and nothing else can. */
  lemma ClaimGrantedExactly(env: Env, s: State, token: Token, index: nat, request: Request, d: nat)
    requires Reachable(env, s)
    ensures Claimed(env, s, token, index, request, d).0.Available? <==>
              && token in s.table && s.clock < s.table[token].expiresAt && s.clock + d <= s.table[token].expiresAt
              && Authorized(s.table[token], token, index, request, env.verify)
              && index < |s.table[token].paths|
              && forall k :: k in s.jobs && IsFor(s.jobs[k], token, index) ==> s.jobs[k].fate.Released?
  {
    ReachableInv(env, s);
    ClaimGranted(s.table, token, index, request, s.clock, s.clock + d, env.verify);
    if token in s.table {
      FreeExactly(token, s.table[token], s.jobs, index);
    }
  }

  lemma FreeExactly(token: Token, g: Grant, jobs: map<nat, Job>, index: nat)
    requires GrantOwned(token, g, jobs)
    ensures index !in g.inFlight && index !in g.served
       <==> forall k :: k in jobs && IsFor(jobs[k], token, index) ==> jobs[k].fate.Released?
  {
    if index in g.inFlight {
      var k :| HeldBy(jobs, k, token, index);
    }
    if index in g.served {
      var k :| CommittedBy(jobs, k, token, index);
    }
  }

  // ---------- one-time over whole runs ----------

  /** Jobs are never forgotten, and settled or abandoned ones never change again. */
  lemma StepKeepsSettled(env: Env, s: State, e: Event, k: nat)
    requires Inv(env, s) && Enabled(env, s, e) && k in s.jobs
    ensures k in Next(env, s, e).jobs && IsFor(Next(env, s, e).jobs[k], s.jobs[k].token, s.jobs[k].index)
    ensures !s.jobs[k].fate.Holding? ==> Next(env, s, e).jobs[k] == s.jobs[k]
  {
    match e
    case DirectClaim(_, _, _, _, _, _) => ClaimsOnlyAddJobs(env, s, e);
    case TakeRequest(_, _, _) => ClaimsOnlyAddJobs(env, s, e);
    case Serve(sid, _) => assert SessionOk(env, sid, s.sessions[sid], s.jobs);
    case _ =>
  }

  lemma ClaimsOnlyAddJobs(env: Env, s: State, e: Event)
    requires (e.DirectClaim? || e.TakeRequest?) && Enabled(env, s, e)
    ensures forall k :: k in s.jobs ==> k in Next(env, s, e).jobs && Next(env, s, e).jobs[k] == s.jobs[k]
  {
  }

  lemma {:induction false} RunKeepsSettled(env: Env, s: State, es: seq<Event>, k: nat)
    requires Inv(env, s) && Run(env, s, es).Some? && k in s.jobs && !s.jobs[k].fate.Holding?
    ensures var s' := Run(env, s, es).value; k in s'.jobs && s'.jobs[k] == s.jobs[k]
    decreases |es|
  {
    if es != [] {
      StepKeepsSettled(env, s, es[0], k);
      StepKeepsInv(env, s, es[0]);
      RunKeepsSettled(env, Next(env, s, es[0]), es[1..], k);
    }
  }

  /** Whether an event is a commit of that index of that token, in the registry or after it expired. */
  predicate Commits(env: Env, s: State, e: Event, token: Token, index: nat)
    requires Enabled(env, s, e)
  {
    match e
    case Direct(k, m) => IsFor(s.jobs[k], token, index) && DirectJob(s.jobs[k], m).fate.Committed?
    case Serve(sid, m) => m.CommitSent? && IsFor(s.jobs[s.sessions[sid].link.source.job], token, index)
    case _ => false
  }

  function CommitCount(env: Env, s: State, es: seq<Event>, token: Token, index: nat): nat
    requires Run(env, s, es).Some?
    decreases |es|
  {
    if es == [] then 0
    else (if Commits(env, s, es[0], token, index) then 1 else 0)
         + CommitCount(env, Next(env, s, es[0]), es[1..], token, index)
  }

  ghost predicate Consumed(s: State, token: Token, index: nat) {
    exists k :: CommittedBy(s.jobs, k, token, index)
  }

  lemma CommitConsumes(env: Env, s: State, e: Event, token: Token, index: nat)
    requires Inv(env, s) && Enabled(env, s, e)
    ensures Commits(env, s, e, token, index) ==> !Consumed(s, token, index) && Consumed(Next(env, s, e), token, index)
    ensures Consumed(s, token, index) ==> Consumed(Next(env, s, e), token, index)
  {
    if Consumed(s, token, index) {
      var k :| CommittedBy(s.jobs, k, token, index);
      StepKeepsSettled(env, s, e, k);
      assert CommittedBy(Next(env, s, e).jobs, k, token, index);
    }
    if Commits(env, s, e, token, index) {
      if e.Serve? {
        assert SessionOk(env, e.sid, s.sessions[e.sid], s.jobs);
      }
      var k := if e.Direct? then e.job else s.sessions[e.sid].link.source.job;
      assert s.jobs[k].fate.Holding?;
      assert CommittedBy(Next(env, s, e).jobs, k, token, index);
    }
  }

  /** In every run each index of each token is committed at most once, even counting commits that
      arrive after the grant is gone. */
  lemma {:induction false} CommittedAtMostOnce(env: Env, s: State, es: seq<Event>, token: Token, index: nat)
    requires Inv(env, s) && Run(env, s, es).Some?
    ensures CommitCount(env, s, es, token, index) <= 1
    ensures Consumed(s, token, index) ==> CommitCount(env, s, es, token, index) == 0
    decreases |es|
  {
    if es != [] {
      CommitConsumes(env, s, es[0], token, index);
      StepKeepsInv(env, s, es[0]);
      CommittedAtMostOnce(env, Next(env, s, es[0]), es[1..], token, index);
    }
  }

  lemma CommittedAtMostOnceEver(env: Env, es: seq<Event>, token: Token, index: nat)
    requires Run(env, START, es).Some?
    ensures CommitCount(env, START, es, token, index) <= 1
  {
    CommittedAtMostOnce(env, START, es, token, index);
  }

  lemma {:induction false} RunComposes(env: Env, s: State, es: seq<Event>, fs: seq<Event>)
    requires Run(env, s, es).Some?
    ensures Run(env, s, es + fs) == Run(env, Run(env, s, es).value, fs)
    decreases |es|
  {
    if es == [] {
      assert es + fs == fs;
    } else {
      assert (es + fs)[1..] == es[1..] + fs;
      RunComposes(env, Next(env, s, es[0]), es[1..], fs);
    }
  }

  lemma RunStaysReachable(env: Env, s: State, es: seq<Event>)
    requires Reachable(env, s) && Run(env, s, es).Some?
    ensures Reachable(env, Run(env, s, es).value)
  {
    var before :| Run(env, START, before) == Some(s);
    RunComposes(env, START, before, es);
  }

  /** After a commit no later claim of that index succeeds, whatever releases, expiries,
      registrations and other claims come in between. */
  lemma NoClaimAfterCommit(env: Env, s: State, es: seq<Event>, token: Token, index: nat, request: Request, d: nat)
    requires Reachable(env, s) && Consumed(s, token, index) && Run(env, s, es).Some?
    ensures !Claimed(env, Run(env, s, es).value, token, index, request, d).0.Available?
  {
    ReachableInv(env, s);
    var k :| CommittedBy(s.jobs, k, token, index);
    RunKeepsSettled(env, s, es, k);
    RunStaysReachable(env, s, es);
    ClaimGrantedExactly(env, Run(env, s, es).value, token, index, request, d);
  }

  /** A direct handler that returns between claim and stream blocks its index for good: no claim of
      it succeeds in any continuation. */
  lemma EarlyReturnBlocksIndex(env: Env, s: State, es: seq<Event>, k: nat, request: Request, d: nat)
    requires Reachable(env, s) && k in s.jobs && s.jobs[k].fate.Abandoned? && Run(env, s, es).Some?
    ensures !Claimed(env, Run(env, s, es).value, s.jobs[k].token, s.jobs[k].index, request, d).0.Available?
  {
    ReachableInv(env, s);
    RunKeepsSettled(env, s, es, k);
    RunStaysReachable(env, s, es);
    ClaimGrantedExactly(env, Run(env, s, es).value, s.jobs[k].token, s.jobs[k].index, request, d);
  }

  // ---------- recipient against source ----------

  /** Both ends: an index in a recipient's map is, while its grant lives, already served, or in
      flight with a holder that has emitted everything. Such a holder has no step but the commit:
      whatever happens next, it still holds or has committed. */
  lemma DeliveredIsServedOrAboutToBe(env: Env, s: State, sid: nat, i: nat)
    requires Reachable(env, s) && sid in s.sessions && i in s.sessions[sid].downloaded
    ensures var r := s.sessions[sid];
            var k := r.downloaded[i].job;
            && k in s.jobs && IsFor(s.jobs[k], r.token, i) && FullyEmitted(s.jobs[k])
            && (s.jobs[k].fate.Committed? || s.jobs[k].fate.Holding?)
            && (r.token in s.table ==>
                  (s.jobs[k].fate.Committed? ==> i in s.table[r.token].served)
                  && (s.jobs[k].fate.Holding? ==> i in s.table[r.token].inFlight))
            && forall e :: Enabled(env, s, e) ==>
                 k in Next(env, s, e).jobs
                 && (Next(env, s, e).jobs[k].fate.Committed? || Next(env, s, e).jobs[k].fate.Holding?)
  {
    ReachableInv(env, s);
    var r := s.sessions[sid];
    assert SessionOk(env, sid, r, s.jobs);
    var d := r.downloaded[i];
    assert DeliveryOk(env, sid, r, i, d, s.jobs);
    if r.token in s.table {
      assert GrantOwned(r.token, s.table[r.token], s.jobs);
    }
    forall e | Enabled(env, s, e)
      ensures d.job in Next(env, s, e).jobs
      ensures Next(env, s, e).jobs[d.job].fate.Committed? || Next(env, s, e).jobs[d.job].fate.Holding?
    {
      EmittedOnlyCommits(env, s, e, d.job);
    }
  }

  /** What has left the source stays sent. */
  lemma StepKeepsEmitted(env: Env, s: State, e: Event, k: nat)
    requires Enabled(env, s, e) && k in s.jobs && FullyEmitted(s.jobs[k])
    ensures k in Next(env, s, e).jobs && FullyEmitted(Next(env, s, e).jobs[k])
  {
    match e
    case DirectClaim(_, _, _, _, _, _) => ClaimsOnlyAddJobs(env, s, e);
    case TakeRequest(_, _, _) => ClaimsOnlyAddJobs(env, s, e);
    case _ =>
  }

  lemma EmittedOnlyCommits(env: Env, s: State, e: Event, k: nat)
    requires Inv(env, s) && Enabled(env, s, e) && k in s.jobs && FullyEmitted(s.jobs[k])
    ensures k in Next(env, s, e).jobs
    ensures Next(env, s, e).jobs[k].fate.Committed? || Next(env, s, e).jobs[k].fate.Holding?
  {
    StepKeepsEmitted(env, s, e, k);
    StepKeepsInv(env, s, e);
    assert JobOk(env, Next(env, s, e).jobs[k]);
  }

  /** Each file of a published selection is delivered at most once: no two sessions, of one or of
      several recipients, ever both hold the same index of the same token. */
  lemma DeliveredAtMostOnce(env: Env, s: State, a: nat, b: nat, i: nat)
    requires Reachable(env, s) && a in s.sessions && b in s.sessions
    requires s.sessions[a].token == s.sessions[b].token
    requires i in s.sessions[a].downloaded && i in s.sessions[b].downloaded
    ensures a == b
  {
    ReachableInv(env, s);
    assert SessionOk(env, a, s.sessions[a], s.jobs) && SessionOk(env, b, s.sessions[b], s.jobs);
    assert DeliveryOk(env, a, s.sessions[a], i, s.sessions[a].downloaded[i], s.jobs);
    assert DeliveryOk(env, b, s.sessions[b], i, s.sessions[b].downloaded[i], s.jobs);
  }

  /** A session reads each frame as the receiving loops do: what ends them badly fails it, the header of
      its index and the end marker move it on, binary frames add to the body, anything else is skipped. */
  lemma SessionReadsAsReceiver(env: Env, r: Session, m: Message)
    requires r.phase.RelayHead? || r.phase.RelayBody?
    ensures r.phase.RelayHead? ==>
              match RecvHeader([m], r.phase.index)
              case Ok((head, _)) => ReadFrame(env, r, m) == r.(phase := RelayBody(r.phase.index, head, []))
              case Err(e) => ReadFrame(env, r, m) == if e.Lost? then r else r.(phase := Failed)
    ensures r.phase.RelayBody? ==>
              match RecvBody([m], r.phase.got)
              case Ok((body, _)) =>
                && body == r.phase.got
                && ReadFrame(env, r, m) == EndOfFile(env, r, r.phase.index, env.open(r.phase.head, body))
              case Err(e) =>
                ReadFrame(env, r, m)
                == if !e.Lost? then r.(phase := Failed)
                   else r.(phase := RelayBody(r.phase.index, r.phase.head, r.phase.got + Concat([m])))
  {
    assert [m][1..] == [];
    assert [m][..0] == [] && Concat([m]) == if m.Binary? then m.bytes else [];
    if r.phase.RelayBody? {
      assert r.phase.got + [] == r.phase.got;
    }
  }

  /** What is saved for an index is what the source emitted for that index: the announced length of
      its stream, or, over the relay, exactly the file the source read; and it passed the checks of
      its own manifest entry. */
  lemma DeliveredIsWhatWasEmitted(env: Env, s: State, sid: nat, i: nat)
    requires Reachable(env, s) && sid in s.sessions && i in s.sessions[sid].downloaded
    ensures var r := s.sessions[sid];
            var d := r.downloaded[i];
            && i < |r.files| && r.files[i].kind.File? && Verified(r.files[i], d.content, env.digest, d.how)
            && d.job in s.jobs && IsFor(s.jobs[d.job], r.token, i)
            && (match s.jobs[d.job].work
                case Streaming(len, yielded) => len <= |yielded| && d.content == yielded[..len]
                case Relaying(content, _, _) => d.content == content
                case _ => false)
  {
    ReachableInv(env, s);
    var r := s.sessions[sid];
    assert SessionOk(env, sid, r, s.jobs);
    assert DeliveryOk(env, sid, r, i, r.downloaded[i], s.jobs);
    assert i in Regular(r.files);
  }

  /** Completeness: a session that finishes, by either path or by falling back from one to the other
      at any point, holds exactly the manifest's regular files. */
  lemma FinishedIsComplete(env: Env, s: State, sid: nat)
    requires Reachable(env, s) && sid in s.sessions && s.sessions[sid].phase.Finished?
    ensures s.sessions[sid].downloaded.Keys == Regular(s.sessions[sid].files)
  {
    ReachableInv(env, s);
    var r := s.sessions[sid];
    assert SessionOk(env, sid, r, s.jobs);
    assert Progress(r);
  }

  /** The index a step asks the source for, if it asks. */
  function AskedBy(s: State, e: Event): Option<(nat, nat)> {
    if e.AtSession? && (e.sessionMove.AskDirect? || e.sessionMove.AskRelay?) && e.sid in s.sessions
       && s.sessions[e.sid].todo != []
    then Some((e.sid, s.sessions[e.sid].todo[0])) else None
  }

  lemma SessionKeepsDownloads(env: Env, r: Session, jobs: map<nat, Job>, m: SessionMove, i: nat)
    requires SessionEnabled(env, r, jobs, m) && i in r.downloaded
    ensures i in SessionNext(env, r, jobs, m).downloaded
  {
  }

  lemma StepKeepsDownloads(env: Env, s: State, e: Event, sid: nat, i: nat)
    requires Enabled(env, s, e) && sid in s.sessions && i in s.sessions[sid].downloaded
    ensures sid in Next(env, s, e).sessions && i in Next(env, s, e).sessions[sid].downloaded
  {
    if e.AtSession? && e.sid == sid {
      SessionKeepsDownloads(env, s.sessions[sid], s.jobs, e.sessionMove, i);
    }
  }

  lemma {:induction false} RunKeepsDownloads(env: Env, s: State, es: seq<Event>, sid: nat, i: nat)
    requires Run(env, s, es).Some? && sid in s.sessions && i in s.sessions[sid].downloaded
    ensures sid in Run(env, s, es).value.sessions && i in Run(env, s, es).value.sessions[sid].downloaded
    decreases |es|
  {
    if es != [] {
      StepKeepsDownloads(env, s, es[0], sid, i);
      RunKeepsDownloads(env, Next(env, s, es[0]), es[1..], sid, i);
    }
  }

  /** Nothing is pulled twice: once an index is in a session's map it stays there, and no later step
      of the run, direct or over the relay, asks for it again. */
  lemma NeverAskedAgain(env: Env, s: State, es: seq<Event>, e: Event, sid: nat, i: nat)
    requires Reachable(env, s) && sid in s.sessions && i in s.sessions[sid].downloaded
    requires Run(env, s, es).Some?
    ensures AskedBy(Run(env, s, es).value, e) != Some((sid, i))
  {
    RunKeepsDownloads(env, s, es, sid, i);
    RunStaysReachable(env, s, es);
    var s' := Run(env, s, es).value;
    ReachableInv(env, s');
    var r := s'.sessions[sid];
    assert SessionOk(env, sid, r, s'.jobs);
    if r.todo != [] {
      assert r.todo[0] in r.todo;
    }
  }

  /** On a relayed connection at most one request is outstanding: while one is on its way no frame
      is, and frames on their way all belong to the index the recipient waits for. */
  lemma OneRequestOutstanding(env: Env, s: State, sid: nat)
    requires Reachable(env, s) && sid in s.sessions && IsWaiting(s.sessions[sid].phase)
    ensures var r := s.sessions[sid];
            && |r.link.toSource| <= 1 && (r.link.toSource != [] ==> r.link.toRecipient == [])
            && (r.link.toSource != [] ==> RequestOf(r.link.toSource[0]).Some?
                                          && RequestOf(r.link.toSource[0]).value.1 == r.phase.index)
            && forall n :: 0 <= n < |r.link.toRecipient| && r.link.toRecipient[n] != REJECTED ==>
                 r.link.answering.Some? && r.link.answering.value in s.jobs
                 && s.jobs[r.link.answering.value].index == r.phase.index
                 && s.jobs[r.link.answering.value].work.Relaying?
                 && r.link.toRecipient[n] in Frames(s.jobs[r.link.answering.value])
  {
    ReachableInv(env, s);
    var r := s.sessions[sid];
    assert SessionOk(env, sid, r, s.jobs);
    var l := r.link;
    forall n | 0 <= n < |l.toRecipient| && l.toRecipient[n] != REJECTED
      ensures l.answering.Some? && l.answering.value in s.jobs && s.jobs[l.answering.value].work.Relaying?
      ensures l.toRecipient[n] in Frames(s.jobs[l.answering.value])
    {
      var j := s.jobs[l.answering.value];
      assert (l.received + l.toRecipient)[|l.received| + n] == l.toRecipient[n];
    }
  }
}
