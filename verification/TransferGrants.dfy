/** How long a grant is there, over whole runs: from its registration until its expiry, whatever claims
    are granted or refused meanwhile, and never again. */
module TransferGrants {
  import opened Wrappers
  import opened PeerRegistry
  import opened TransferSystem
  import opened TransferInvariant
  import opened TransferTheorems

  /** The same grant, apart from its clip and from what was served or is in flight. */
  ghost predicate SameGrant(g: Grant, h: Grant) {
    h.sourceId == g.sourceId && h.keys == g.keys && h.paths == g.paths && h.expiresAt == g.expiresAt
  }

  /** `clip` is the clip bound afterwards. */
  ghost predicate KeepsGrant(s: State, n: State, token: Token, clip: Option<string>)
    requires token in s.table
  {
    && s.clock <= n.clock && s.granted.Keys <= n.granted.Keys
    && (n.clock < s.table[token].expiresAt ==> token in n.table)
    && (token in n.table ==> SameGrant(s.table[token], n.table[token]) && n.table[token].clipId == clip)
  }

  lemma ClaimStepKeepsGrant(env: Env, s: State, token: Token, e: Event)
    requires Enabled(env, s, e) && (e.DirectClaim? || e.TakeRequest?) && token in s.table
    ensures KeepsGrant(s, Next(env, s, e), token, s.table[token].clipId)
  {
    if e.DirectClaim? {
      ClaimKeepsGrant(env, s, token, e.token, e.index, e.request, e.d);
    } else {
      var (other, index, request) := RequestOf(s.sessions[e.sid].link.toSource[0]).value;
      ClaimKeepsGrant(env, s, token, other, index, request, e.d);
    }
  }

  lemma ClaimKeepsGrant(env: Env, s: State, token: Token, other: Token, index: nat, request: Request, d: nat)
    requires token in s.table
    ensures KeepsGrant(s, Claimed(env, s, other, index, request, d).1, token, s.table[token].clipId)
  {
    ClaimGranted(s.table, other, index, request, s.clock, s.clock + d, env.verify);
    ClaimLeavesGrants(s.table, other, index, request, s.clock, s.clock + d, env.verify);
  }

  lemma {:induction false} SettlingKeepsGrants(t: Table, token: Token, index: nat, calls: seq<Settlement>)
    ensures var n := SettleTable(t, token, index, calls);
            n.Keys == t.Keys && forall k :: k in t ==> SameGrant(t[k], n[k]) && n[k].clipId == t[k].clipId
    decreases |calls|
  {
    if calls != [] {
      SettlingKeepsGrants(if calls[0].Commit? then CommitTable(t, token, index) else ReleaseTable(t, token, index),
                          token, index, calls[1..]);
    }
  }

  lemma SettleKeepsGrant(env: Env, s: State, token: Token, e: Event)
    requires Enabled(env, s, e) && (e.Direct? || e.Serve?) && token in s.table
    ensures KeepsGrant(s, Next(env, s, e), token, s.table[token].clipId)
  {
    if e.Direct? && e.directMove.StreamGone? {
      var j := s.jobs[e.job];
      SettlingKeepsGrants(s.table, j.token, j.index, StreamSettlement(j));
    }
  }

  /** The clip a step binds to the token's grant. */
  function ClipAfter(e: Event, token: Token, clip: Option<string>): Option<string> {
    if e.Bind? && e.token == token then Some(e.boundTo) else clip
  }

  lemma StepKeepsGrant(env: Env, s: State, token: Token, e: Event)
    requires Enabled(env, s, e) && token in s.table && token in s.granted
    ensures KeepsGrant(s, Next(env, s, e), token, ClipAfter(e, token, s.table[token].clipId))
  {
    match e
    case DirectClaim(_, _, _, _, _, _) => ClaimStepKeepsGrant(env, s, token, e);
    case TakeRequest(_, _, _) => ClaimStepKeepsGrant(env, s, token, e);
    case Direct(_, _) => SettleKeepsGrant(env, s, token, e);
    case Serve(_, _) => SettleKeepsGrant(env, s, token, e);
    case _ =>
  }

  /** A token that was issued and has no grant gets none any more. */
  lemma StepStaysGone(env: Env, s: State, token: Token, e: Event)
    requires Enabled(env, s, e) && token !in s.table && token in s.granted
    ensures token !in Next(env, s, e).table && token in Next(env, s, e).granted
  {
    match e
    case DirectClaim(_, _, _, _, _, _) =>
      ClaimLeavesGrants(s.table, e.token, e.index, e.request, s.clock, s.clock + e.d, env.verify);
    case TakeRequest(_, _, _) =>
      var (other, index, request) := RequestOf(s.sessions[e.sid].link.toSource[0]).value;
      ClaimLeavesGrants(s.table, other, index, request, s.clock, s.clock + e.d, env.verify);
    case Direct(_, m) =>
      if m.StreamGone? {
        var j := s.jobs[e.job];
        SettlingKeepsGrants(s.table, j.token, j.index, StreamSettlement(j));
      }
    case _ =>
  }

  lemma {:induction false} RunStaysGone(env: Env, s: State, token: Token, es: seq<Event>)
    requires Run(env, s, es).Some? && token !in s.table && token in s.granted
    ensures token !in Run(env, s, es).value.table
    decreases |es|
  {
    if es != [] {
      StepStaysGone(env, s, token, es[0]);
      RunStaysGone(env, Next(env, s, es[0]), token, es[1..]);
    }
  }

  lemma {:induction false} ClockGrows(env: Env, s: State, es: seq<Event>)
    requires Run(env, s, es).Some?
    ensures s.clock <= Run(env, s, es).value.clock && s.granted.Keys <= Run(env, s, es).value.granted.Keys
    decreases |es|
  {
    if es != [] {
      ClockGrows(env, Next(env, s, es[0]), es[1..]);
    }
  }

  /** The clip bound last by a list of events. */
  function ClipAfterAll(es: seq<Event>, token: Token, clip: Option<string>): Option<string> {
    if es == [] then clip else ClipAfterAll(es[1..], token, ClipAfter(es[0], token, clip))
  }

  lemma {:induction false} RunKeepsGrant(env: Env, s: State, token: Token, es: seq<Event>)
    requires Run(env, s, es).Some? && token in s.table && token in s.granted
    ensures KeepsGrant(s, Run(env, s, es).value, token, ClipAfterAll(es, token, s.table[token].clipId))
    decreases |es|
  {
    if es != [] {
      var n := Next(env, s, es[0]);
      StepKeepsGrant(env, s, token, es[0]);
      ClockGrows(env, n, es[1..]);
      if token in n.table {
        RunKeepsGrant(env, n, token, es[1..]);
      } else {
        RunStaysGone(env, n, token, es[1..]);
      }
    }
  }

  // ---------- main results ----------

  /** A grant in the table stays there while the clock is below its expiry, with its paths, keys, source
      and expiry, and the clip bound last: no claim, granted or refused, no settlement and no other
      registration removes or changes it. */
  lemma GrantStays(env: Env, s: State, token: Token, es: seq<Event>)
    requires Reachable(env, s) && Run(env, s, es).Some? && token in s.table
    ensures var n := Run(env, s, es).value;
            && (n.clock < s.table[token].expiresAt ==> token in n.table)
            && (token in n.table ==>
                  && n.table[token].paths == s.table[token].paths && n.table[token].keys == s.table[token].keys
                  && n.table[token].sourceId == s.table[token].sourceId
                  && n.table[token].expiresAt == s.table[token].expiresAt
                  && n.table[token].clipId == ClipAfterAll(es, token, s.table[token].clipId))
  {
    ReachableInv(env, s);
    RunKeepsGrant(env, s, token, es);
  }

  /** Exactly which grants a registration leaves: those not expired, as they are, and the new one. */
  lemma RegistrationLeavesGrants(env: Env, s: State, e: Event, token: Token)
    requires e.Register? && Enabled(env, s, e) && token != e.token
    ensures var n := Next(env, s, e);
            && e.token in n.table && n.table[e.token].served == {} && n.table[e.token].inFlight == {}
            && (token in n.table <==> token in s.table && s.clock < s.table[token].expiresAt)
            && (token in n.table ==> n.table[token] == s.table[token])
  {
  }

  /** The life of a grant: as registered, it is there until its lifetime has passed; from then on every
      claim of it is answered as not found. */
  lemma GrantLivesItsTime(env: Env, s: State, e: Event, es: seq<Event>, index: nat, request: Request, d: nat)
    requires e.Register? && Enabled(env, s, e) && Run(env, Next(env, s, e), es).Some?
    ensures var n := Run(env, Next(env, s, e), es).value;
            var expiry := s.clock + e.d + e.ttl;
            && (n.clock < expiry ==>
                  && e.token in n.table && n.table[e.token].expiresAt == expiry
                  && n.table[e.token].paths == e.paths && n.table[e.token].keys == e.keys
                  && n.table[e.token].sourceId == e.sourceId
                  && n.table[e.token].clipId == ClipAfterAll(es, e.token, e.clipId))
            && (n.clock >= expiry ==> Claimed(env, n, e.token, index, request, d).0 == NotFound)
  {
    RunKeepsGrant(env, Next(env, s, e), e.token, es);
    var n := Run(env, Next(env, s, e), es).value;
    RefusedClaimExactly(n.table, e.token, index, request, n.clock, n.clock + d, env.verify);
  }
}
