/** Exactly when a file can be transferred again: a claim that fails now can come to be granted if and
    only if what stands in its way can still let go. */
module TransferRetry {
  import opened Wrappers
  import opened PeerRegistry
  import opened RelayFrames
  import opened Manifest
  import opened Recipient
  import opened TransferSystem
  import opened TransferInvariant
  import opened TransferTheorems

  /** The job has consumed its index, or never settles, or can only do one of the two: everything was
      emitted, or it is a direct handler whose file is missing or empty. */
  predicate Blocking(env: Env, j: Job) {
    || j.fate.Committed?
    || j.fate.Abandoned?
    || (j.fate.Holding? && FullyEmitted(j))
    || (j.fate.Holding? && j.work.DirectClaimed? && (env.file(j.path).Absent? || env.file(j.path) == Fixed([])))
  }

  // ---------- what blocks, blocks for good ----------

  lemma DirectMoveKeepsBlocking(env: Env, j: Job, m: DirectMove)
    requires Blocking(env, j) && DirectEnabled(j, m) && DirectReads(env, j, m)
    ensures Blocking(env, DirectJob(j, m))
  {
  }

  lemma ServeKeepsBlocking(env: Env, j: Job, m: ServeMove)
    requires Blocking(env, j) && ServeEnabled(env, j, m) && j.fate.Holding?
    ensures Blocking(env, ServeJob(env, j, m))
  {
  }

  lemma StepKeepsBlocking(env: Env, s: State, e: Event, k: nat)
    requires Inv(env, s) && Enabled(env, s, e) && k in s.jobs && Blocking(env, s.jobs[k])
    ensures k in Next(env, s, e).jobs && Blocking(env, Next(env, s, e).jobs[k])
    ensures IsFor(Next(env, s, e).jobs[k], s.jobs[k].token, s.jobs[k].index)
  {
    StepKeepsSettled(env, s, e, k);
    if s.jobs[k].fate.Holding? {
      match e
      case DirectClaim(_, _, _, _, _, _) => ClaimsOnlyAddJobs(env, s, e);
      case TakeRequest(_, _, _) => ClaimsOnlyAddJobs(env, s, e);
      case Direct(job, m) =>
        if job == k {
          DirectMoveKeepsBlocking(env, s.jobs[k], m);
        }
      case Serve(sid, m) =>
        if s.sessions[sid].link.source.job == k {
          ServeKeepsBlocking(env, s.jobs[k], m);
        }
      case _ =>
    }
  }

  lemma {:induction false} RunKeepsBlocking(env: Env, s: State, es: seq<Event>, k: nat)
    requires Inv(env, s) && Run(env, s, es).Some? && k in s.jobs && Blocking(env, s.jobs[k])
    ensures var n := Run(env, s, es).value;
            k in n.jobs && Blocking(env, n.jobs[k]) && IsFor(n.jobs[k], s.jobs[k].token, s.jobs[k].index)
    decreases |es|
  {
    if es != [] {
      StepKeepsBlocking(env, s, es[0], k);
      StepKeepsInv(env, s, es[0]);
      RunKeepsBlocking(env, Next(env, s, es[0]), es[1..], k);
    }
  }

  /** In no continuation, at whatever time and by whatever request, is an index claimed that a job blocks. */
  lemma BlockedForGood(env: Env, s: State, es: seq<Event>, k: nat, request: Request, d: nat)
    requires Reachable(env, s) && Run(env, s, es).Some? && k in s.jobs && Blocking(env, s.jobs[k])
    ensures !Claimed(env, Run(env, s, es).value, s.jobs[k].token, s.jobs[k].index, request, d).0.Available?
  {
    ReachableInv(env, s);
    RunKeepsBlocking(env, s, es, k);
    RunStaysReachable(env, s, es);
    ClaimGrantedExactly(env, Run(env, s, es).value, s.jobs[k].token, s.jobs[k].index, request, d);
  }

  // ---------- what does not block can let go ----------

  predicate IsRelay(j: Job) {
    j.work.RelayClaimed? || j.work.Relaying?
  }

  /** A relay job that still holds its index is the one its session's serving task works on. */
  ghost predicate RelayServed(s: State) {
    forall k :: k in s.jobs && s.jobs[k].fate.Holding? && IsRelay(s.jobs[k]) ==>
      && s.jobs[k].owner.Some? && s.jobs[k].owner.value in s.sessions
      && s.sessions[s.jobs[k].owner.value].link.source == Busy(k)
  }

  lemma ClaimKeepsServed(env: Env, s: State, e: Event)
    requires RelayServed(s) && Enabled(env, s, e) && (e.DirectClaim? || e.TakeRequest?)
    ensures RelayServed(Next(env, s, e))
  {
    ClaimsOnlyAddJobs(env, s, e);
  }

  lemma SessionKeepsServed(env: Env, s: State, e: Event)
    requires RelayServed(s) && Enabled(env, s, e) && e.AtSession?
    ensures RelayServed(Next(env, s, e))
  {
    var r := s.sessions[e.sid];
    assert r.link.source.Busy? ==> SessionNext(env, r, s.jobs, e.sessionMove).link.source == r.link.source;
  }

  lemma ServeKeepsServed(env: Env, s: State, e: Event)
    requires Inv(env, s) && RelayServed(s) && Enabled(env, s, e) && e.Serve?
    ensures RelayServed(Next(env, s, e))
  {
    var k := s.sessions[e.sid].link.source.job;
    assert SessionOk(env, e.sid, s.sessions[e.sid], s.jobs);
    ServedJob(env, s.sessions[e.sid].link, s.jobs[k], e.serveMove);
  }

  lemma ServedJob(env: Env, l: Link, j: Job, m: ServeMove)
    requires ServeEnabled(env, j, m) && l.source.Busy?
    ensures ServeLink(env, l, j, m).source == l.source || !ServeJob(env, j, m).fate.Holding?
    ensures ServeJob(env, j, m).owner == j.owner
  {
  }

  lemma StepKeepsServed(env: Env, s: State, e: Event)
    requires Inv(env, s) && RelayServed(s) && Enabled(env, s, e)
    ensures RelayServed(Next(env, s, e))
  {
    match e
    case Serve(_, _) => ServeKeepsServed(env, s, e);
    case AtSession(_, _) => SessionKeepsServed(env, s, e);
    case DirectClaim(_, _, _, _, _, _) => ClaimKeepsServed(env, s, e);
    case TakeRequest(_, _, _) => ClaimKeepsServed(env, s, e);
    case _ =>
  }

  lemma {:induction false} RunKeepsServed(env: Env, s: State, es: seq<Event>)
    requires Inv(env, s) && RelayServed(s) && Run(env, s, es).Some?
    ensures RelayServed(Run(env, s, es).value)
    decreases |es|
  {
    if es != [] {
      StepKeepsServed(env, s, es[0]);
      StepKeepsInv(env, s, es[0]);
      RunKeepsServed(env, Next(env, s, es[0]), es[1..]);
    }
  }

  lemma ReachableServed(env: Env, s: State)
    requires Reachable(env, s)
    ensures RelayServed(s)
  {
    var es :| Run(env, START, es) == Some(s);
    RunKeepsServed(env, START, es);
  }

  lemma RunOne(env: Env, s: State, e: Event, es: seq<Event>)
    requires Enabled(env, s, e)
    ensures Run(env, s, [e] + es) == Run(env, Next(env, s, e), es)
  {
    assert ([e] + es)[1..] == es;
  }

  /** Job `k` was released and nothing else happened, but for the connection it was served on. */
  ghost predicate OnlyReleased(s: State, n: State, k: nat)
    requires k in s.jobs
  {
    && n.clock == s.clock && n.granted == s.granted
    && n.table == ReleaseTable(s.table, s.jobs[k].token, s.jobs[k].index)
    && k in n.jobs && n.jobs == s.jobs[k := n.jobs[k]]
    && n.jobs[k].fate.Released? && IsFor(n.jobs[k], s.jobs[k].token, s.jobs[k].index)
    && n.sessions.Keys == s.sessions.Keys
    && forall sid :: sid in s.sessions && s.sessions[sid].link.source != Busy(k) ==> n.sessions[sid] == s.sessions[sid]
  }

  lemma StreamLetsGo(env: Env, s: State, k: nat) returns (es: seq<Event>, n: State)
    requires k in s.jobs && s.jobs[k].fate.Holding? && s.jobs[k].work.Streaming? && !FullyEmitted(s.jobs[k])
    ensures Run(env, s, es) == Some(n) && OnlyReleased(s, n, k)
  {
    var gone := Event.Direct(k, StreamGone);
    n := Next(env, s, gone);
    SettleOne(s.table, s.jobs[k].token, s.jobs[k].index, Release);
    RunOne(env, s, gone, []);
    es := [gone] + [];
  }

  lemma HandlerLetsGo(env: Env, s: State, k: nat) returns (es: seq<Event>, n: State)
    requires k in s.jobs && s.jobs[k].fate.Holding? && s.jobs[k].work.DirectClaimed? && !Blocking(env, s.jobs[k])
    ensures Run(env, s, es) == Some(n) && OnlyReleased(s, n, k)
  {
    var f := env.file(s.jobs[k].path);
    var open := Event.Direct(k, OpenStream(if f.Fixed? then |f.content| else 1));
    var m := Next(env, s, open);
    var gone: seq<Event>;
    gone, n := StreamLetsGo(env, m, k);
    RunOne(env, s, open, gone);
    assert m.jobs[k := n.jobs[k]] == s.jobs[k := n.jobs[k]];
    es := [open] + gone;
  }

  lemma RelayLetsGo(env: Env, s: State, k: nat) returns (es: seq<Event>, n: State)
    requires k in s.jobs && s.jobs[k].fate.Holding? && IsRelay(s.jobs[k]) && !FullyEmitted(s.jobs[k])
    requires JobOk(env, s.jobs[k]) && RelayServed(s)
    ensures Run(env, s, es) == Some(n) && OnlyReleased(s, n, k)
  {
    var fail := Serve(s.jobs[k].owner.value, if s.jobs[k].work.RelayClaimed? then PrepareFails else SendFails);
    n := Next(env, s, fail);
    RunOne(env, s, fail, []);
    es := [fail] + [];
  }

  lemma HolderLetsGo(env: Env, s: State, k: nat) returns (es: seq<Event>, n: State)
    requires Reachable(env, s) && k in s.jobs && s.jobs[k].fate.Holding? && !Blocking(env, s.jobs[k])
    ensures Run(env, s, es) == Some(n) && OnlyReleased(s, n, k)
  {
    ReachableInv(env, s);
    ReachableServed(env, s);
    assert JobOk(env, s.jobs[k]);
    if s.jobs[k].work.DirectClaimed? {
      es, n := HandlerLetsGo(env, s, k);
    } else if s.jobs[k].work.Streaming? {
      es, n := StreamLetsGo(env, s, k);
    } else {
      es, n := RelayLetsGo(env, s, k);
    }
  }

  // ---------- the exact condition ----------

  /** The grant lives, the request is authorized, and the index exists. */
  ghost predicate Entitled(env: Env, s: State, token: Token, i: nat, request: Request) {
    && token in s.table && s.clock < s.table[token].expiresAt
    && Authorized(s.table[token], token, i, request, env.verify)
    && i < |s.table[token].paths|
  }

  predicate Unblocked(env: Env, jobs: map<nat, Job>, token: Token, i: nat) {
    forall k :: k in jobs && IsFor(jobs[k], token, i) ==> !Blocking(env, jobs[k])
  }

  predicate AllReleased(jobs: map<nat, Job>, token: Token, i: nat) {
    forall k :: k in jobs && IsFor(jobs[k], token, i) ==> jobs[k].fate.Released?
  }

  lemma ReleasedIsOpen(env: Env, s: State, token: Token, i: nat, request: Request)
    requires Reachable(env, s) && Entitled(env, s, token, i, request)
    ensures Claimed(env, s, token, i, request, 0).0.Available? <==> AllReleased(s.jobs, token, i)
  {
    ClaimGrantedExactly(env, s, token, i, request, 0);
  }

  /** A release changes nothing for other indexes and other requests. */
  lemma EntitledStays(env: Env, s: State, n: State, k: nat, token: Token, i: nat, request: Request)
    requires k in s.jobs && OnlyReleased(s, n, k) && Entitled(env, s, token, i, request)
    ensures Entitled(env, n, token, i, request)
  {
    AuthorizationStable(s.table[token], n.table[token], token, i, request, env.verify);
    AuthorizationStable(n.table[token], n.table[token], token, i, request, env.verify);
  }

  lemma JobsStay(env: Env, s: State, n: State, k: nat, token: Token, i: nat)
    requires k in s.jobs && OnlyReleased(s, n, k)
    ensures Unblocked(env, s.jobs, token, i) ==> Unblocked(env, n.jobs, token, i)
    ensures AllReleased(s.jobs, token, i) ==> AllReleased(n.jobs, token, i)
  {
  }

  /** Nothing to do, or the one job that is in the way lets go. */
  lemma LetGo(env: Env, s: State, token: Token, i: nat) returns (es: seq<Event>, n: State)
    requires Reachable(env, s) && Unblocked(env, s.jobs, token, i)
    ensures Run(env, s, es) == Some(n) && AllReleased(n.jobs, token, i)
    ensures n == s || exists k :: k in s.jobs && s.jobs[k].fate.Holding? && OnlyReleased(s, n, k)
  {
    if AllReleased(s.jobs, token, i) {
      es, n := [], s;
    } else {
      ReachableInv(env, s);
      var k :| k in s.jobs && IsFor(s.jobs[k], token, i) && !s.jobs[k].fate.Released?;
      assert !Blocking(env, s.jobs[k]);
      es, n := HolderLetsGo(env, s, k);
      forall m | m in n.jobs && IsFor(n.jobs[m], token, i) ensures n.jobs[m].fate.Released? {
        assert m != k ==> s.jobs[m].fate.Released?;
      }
    }
  }

  /** Some continuation, without any time passing, in which the claim is granted. */
  ghost predicate CanBeClaimed(env: Env, s: State, token: Token, i: nat, request: Request) {
    exists es :: Run(env, s, es).Some? && Run(env, s, es).value.clock == s.clock
                 && Claimed(env, Run(env, s, es).value, token, i, request, 0).0.Available?
  }

  /** "A failed transfer can be retried", exactly: while the grant lives, an authorized claim of an
      existing index can still be granted if and only if no job blocks the index. */
  lemma RetryableExactly(env: Env, s: State, token: Token, i: nat, request: Request)
    requires Reachable(env, s) && Entitled(env, s, token, i, request)
    ensures CanBeClaimed(env, s, token, i, request) <==> Unblocked(env, s.jobs, token, i)
  {
    if Unblocked(env, s.jobs, token, i) {
      var es, n := LetGo(env, s, token, i);
      RunStaysReachable(env, s, es);
      if n != s {
        var k :| k in s.jobs && s.jobs[k].fate.Holding? && OnlyReleased(s, n, k);
        EntitledStays(env, s, n, k, token, i, request);
      }
      ReleasedIsOpen(env, n, token, i, request);
      assert Run(env, s, es).Some?;
    } else {
      var k :| k in s.jobs && IsFor(s.jobs[k], token, i) && Blocking(env, s.jobs[k]);
      forall es | Run(env, s, es).Some?
        ensures !Claimed(env, Run(env, s, es).value, token, i, request, 0).0.Available?
      {
        BlockedForGood(env, s, es, k, request, 0);
      }
    }
  }

  /** The promise does fail: a registration, a claim that any authorized request makes, and a handler
      that returns before its stream leave an index that no continuation can claim, with the grant alive. */
  lemma EarlyReturnHappens(env: Env, token: Token, e: Event, i: nat, request: Request) returns (s: State)
    requires e.Register? && e.token == token && e.ttl > 0 && i < |e.paths|
    requires Authorized(FreshGrant(e.clipId, e.sourceId, e.keys, e.paths, e.d + e.ttl), token, i, request, env.verify)
    ensures Reachable(env, s) && Entitled(env, s, token, i, request)
    ensures !CanBeClaimed(env, s, token, i, request)
    ensures s.jobs == map[0 := Job(token, i, e.paths[i], None, DirectClaimed, Abandoned)]
  {
    var s1 := Next(env, START, e);
    var first, s2 := FirstClaim(env, s1, token, i, request);
    var fail := Event.Direct(0, HandlerFails);
    s := Next(env, s2, fail);
    RunOne(env, s2, fail, []);
    RunComposes(env, s1, first, [fail] + []);
    RunOne(env, START, e, first + ([fail] + []));
    assert Run(env, START, [e] + (first + ([fail] + []))) == Some(s);
    assert Blocking(env, s.jobs[0]);
    RetryableExactly(env, s, token, i, request);
  }

  /** A claim by nobody's session, the first of all jobs. */
  lemma FirstClaim(env: Env, s: State, token: Token, i: nat, request: Request) returns (es: seq<Event>, n: State)
    requires s.jobs == map[] && Entitled(env, s, token, i, request)
    requires i !in s.table[token].served && i !in s.table[token].inFlight
    ensures Run(env, s, es) == Some(n) && Entitled(env, n, token, i, request)
    ensures n.jobs == map[0 := Job(token, i, s.table[token].paths[i], None, DirectClaimed, Holding)]
  {
    var claim := DirectClaim(0, token, i, request, 0, None);
    ClaimGranted(s.table, token, i, request, s.clock, s.clock, env.verify);
    n := Next(env, s, claim);
    RunOne(env, s, claim, []);
    AuthorizationStable(s.table[token], n.table[token], token, i, request, env.verify);
    AuthorizationStable(n.table[token], n.table[token], token, i, request, env.verify);
    es := [claim] + [];
  }

  /** One such run, spelled out. */
  lemma EarlyReturnExample() returns (env: Env, s: State, request: Request)
    ensures Reachable(env, s) && Entitled(env, s, "token", 0, request) && !CanBeClaimed(env, s, "token", 0, request)
  {
    env := Env((key, signature, message) => true, (head, body) => None, content => "", path => Fixed([7]));
    request := Request("clip", "source", "recipient", PEER_FILE_SIGNATURE_ALG, "signature");
    var e := Register("token", None, "source", map["recipient" := "key"], [["file"]], 600, 0);
    s := EarlyReturnHappens(env, "token", e, 0, request);
  }
}
