/** The source agent's grant registry and the stream that settles a reservation
    (crates/airpaste-agent/src/peer.rs). Each registry method holds one mutex, so each is one
    atomic step on the table of grants; the methods below are tied to the table functions, and the
    laws of the registry are proved about those. */
module PeerRegistry {
  import opened Wrappers
  import opened SigningMessages

  type Token = string
  type Path = seq<string>

  const PEER_FILE_SIGNATURE_ALG := "ed25519-v1"

  /** Ed25519 verification: public key, signature, message. Uninterpreted. */
  type VerifyFn = (string, string, string) -> bool

  datatype Grant = Grant(
    clipId: Option<string>,
    sourceId: string,
    keys: map<string, string>,
    paths: seq<Path>,
    expiresAt: nat,
    served: set<nat>,
    inFlight: set<nat>)

  datatype Request = Request(
    clipId: string, sourceId: string, requesterId: string, signatureAlg: string, signature: string)

  datatype Refusal =
    | ClipMismatch | SourceMismatch | InvalidRequester | UnsupportedAlgorithm | NotTrusted | BadSignature

  datatype Claim = Available(path: Path) | NotFound | Expired | AlreadyServed | Unauthorized(reason: Refusal)

  type Table = map<Token, Grant>

  // ---------- the table functions ----------

  function Cleanup(t: Table, now: nat): Table {
    map token | token in t && t[token].expiresAt > now :: t[token]
  }

  function FreshGrant(clipId: Option<string>, sourceId: string, keys: map<string, string>, paths: seq<Path>,
                      expiresAt: nat): Grant {
    Grant(clipId, sourceId, keys, paths, expiresAt, {}, {})
  }

  /** Who may be served: the checks a claim makes before it looks at the index. */
  function CheckRequest(g: Grant, token: Token, index: nat, r: Request, verify: VerifyFn): Option<Refusal> {
    if g.clipId.Some? && r.clipId != g.clipId.value then Some(ClipMismatch)
    else if r.sourceId != g.sourceId then Some(SourceMismatch)
    else if r.requesterId == "" || r.requesterId == g.sourceId then Some(InvalidRequester)
    else if r.signatureAlg != PEER_FILE_SIGNATURE_ALG then Some(UnsupportedAlgorithm)
    else if r.requesterId !in g.keys then Some(NotTrusted)
    else if !verify(g.keys[r.requesterId], r.signature,
                    PeerFileSigningMessage(PeerFileFields(r.clipId, g.sourceId, r.requesterId, token, index)))
    then Some(BadSignature)
    else None
  }

  /** A claim reads the clock twice: `now` for the cleanup and `later` for the expiry test. */
  function ClaimResult(t: Table, token: Token, index: nat, r: Request, now: nat, later: nat, verify: VerifyFn): Claim {
    if token !in Cleanup(t, now) then NotFound
    else
      var g := t[token];
      if later > g.expiresAt then Expired
      else match CheckRequest(g, token, index, r, verify)
           case Some(reason) => Unauthorized(reason)
           case None =>
             if index in g.served || index in g.inFlight then AlreadyServed
             else if index >= |g.paths| then NotFound
             else Available(g.paths[index])
  }

  function ClaimTable(t: Table, token: Token, index: nat, r: Request, now: nat, later: nat, verify: VerifyFn): Table {
    var c := Cleanup(t, now);
    match ClaimResult(t, token, index, r, now, later, verify)
    case Available(_) => c[token := c[token].(inFlight := c[token].inFlight + {index})]
    case Expired => c - {token}
    case _ => c
  }

  function CommitTable(t: Table, token: Token, index: nat): Table {
    if token in t
    then t[token := t[token].(inFlight := t[token].inFlight - {index}, served := t[token].served + {index})]
    else t
  }

  function ReleaseTable(t: Table, token: Token, index: nat): Table {
    if token in t then t[token := t[token].(inFlight := t[token].inFlight - {index})] else t
  }

  function BindTable(t: Table, token: Token, clipId: string): Table {
    if token in t then t[token := t[token].(clipId := Some(clipId))] else t
  }

  // ---------- the registry object ----------

  class PeerFileRegistry {
    var entries: Table

    constructor ()
      ensures entries == map[]
    {
      entries := map[];
    }

    method CleanupExpired(now: nat)
      modifies this
      ensures entries == Cleanup(old(entries), now)
    {
      entries := map token | token in entries && entries[token].expiresAt > now :: entries[token];
    }

    method Register(token: Token, clipId: Option<string>, sourceId: string, keys: map<string, string>,
                    paths: seq<Path>, ttl: nat, now: nat, later: nat)
      modifies this
      ensures entries == Cleanup(old(entries), now)[token := FreshGrant(clipId, sourceId, keys, paths, later + ttl)]
    {
      CleanupExpired(now);
      entries := entries[token := Grant(clipId, sourceId, keys, paths, later + ttl, {}, {})];
    }

    method BindClipId(token: Token, clipId: string)
      modifies this
      ensures entries == BindTable(old(entries), token, clipId)
    {
      if token !in entries {
        return;
      }
      entries := entries[token := entries[token].(clipId := Some(clipId))];
    }

    method ClaimFile(token: Token, index: nat, request: Request, now: nat, later: nat, verify: VerifyFn)
      returns (claim: Claim)
      modifies this
      ensures claim == ClaimResult(old(entries), token, index, request, now, later, verify)
      ensures entries == ClaimTable(old(entries), token, index, request, now, later, verify)
    {
      CleanupExpired(now);
      if token !in entries {
        return NotFound;
      }
      var grant := entries[token];
      if later > grant.expiresAt {
        entries := entries - {token};
        return Expired;
      }
      if grant.clipId.Some? {
        if request.clipId != grant.clipId.value {
          return Unauthorized(ClipMismatch);
        }
      }
      if request.sourceId != grant.sourceId {
        return Unauthorized(SourceMismatch);
      }
      if request.requesterId == "" || request.requesterId == grant.sourceId {
        return Unauthorized(InvalidRequester);
      }
      if request.signatureAlg != PEER_FILE_SIGNATURE_ALG {
        return Unauthorized(UnsupportedAlgorithm);
      }
      if request.requesterId !in grant.keys {
        return Unauthorized(NotTrusted);
      }
      var message := PeerFileSigningMessage(
        PeerFileFields(request.clipId, grant.sourceId, request.requesterId, token, index));
      if !verify(grant.keys[request.requesterId], request.signature, message) {
        return Unauthorized(BadSignature);
      }
      if index in grant.served || index in grant.inFlight {
        return AlreadyServed;
      }
      if index >= |grant.paths| {
        return NotFound;
      }
      entries := entries[token := grant.(inFlight := grant.inFlight + {index})];
      return Available(grant.paths[index]);
    }

    method CommitServed(token: Token, index: nat)
      modifies this
      ensures entries == CommitTable(old(entries), token, index)
    {
      if token in entries {
        var grant := entries[token];
        grant := grant.(inFlight := grant.inFlight - {index});
        grant := grant.(served := grant.served + {index});
        entries := entries[token := grant];
      }
    }

    method Release(token: Token, index: nat)
      modifies this
      ensures entries == ReleaseTable(old(entries), token, index)
    {
      if token in entries {
        var grant := entries[token];
        entries := entries[token := grant.(inFlight := grant.inFlight - {index})];
      }
    }
  }

  // ---------- laws of a claim ----------

  ghost predicate Authorized(g: Grant, token: Token, index: nat, r: Request, verify: VerifyFn) {
    && (g.clipId.Some? ==> r.clipId == g.clipId.value)
    && r.sourceId == g.sourceId
    && r.requesterId != "" && r.requesterId != g.sourceId
    && r.signatureAlg == PEER_FILE_SIGNATURE_ALG
    && r.requesterId in g.keys
    && verify(g.keys[r.requesterId], r.signature,
              PeerFileSigningMessage(PeerFileFields(r.clipId, g.sourceId, r.requesterId, token, index)))
  }

  /** The grant is there at both clock readings of a claim. */
  ghost predicate Alive(t: Table, token: Token, now: nat, later: nat) {
    token in t && now < t[token].expiresAt && later <= t[token].expiresAt
  }

  /** A claim is granted exactly when the grant is alive at both clock readings, the request is
      authorized, and the index exists and is neither served nor in flight. A granted claim
      reserves that index and nothing else; a refused one reserves nothing. */
  lemma ClaimGranted(t: Table, token: Token, index: nat, r: Request, now: nat, later: nat, verify: VerifyFn)
    requires now <= later
    ensures ClaimResult(t, token, index, r, now, later, verify).Available? <==>
            && Alive(t, token, now, later)
            && Authorized(t[token], token, index, r, verify)
            && index < |t[token].paths|
            && index !in t[token].served && index !in t[token].inFlight
    ensures ClaimResult(t, token, index, r, now, later, verify).Available? ==>
              ClaimResult(t, token, index, r, now, later, verify).path == t[token].paths[index]
    ensures var t' := ClaimTable(t, token, index, r, now, later, verify);
            && t'.Keys <= t.Keys
            && forall k :: k in t' ==>
                 t'[k] == if k == token && ClaimResult(t, token, index, r, now, later, verify).Available?
                          then t[k].(inFlight := t[k].inFlight + {index}) else t[k]
  {
  }

  /** Exactly which grants a claim leaves, whatever it answers: those not expired when it cleans up, less
      the claimed one if it expires before the second look at the clock. */
  lemma ClaimLeavesGrants(t: Table, token: Token, index: nat, r: Request, now: nat, later: nat, verify: VerifyFn)
    ensures forall k :: k in ClaimTable(t, token, index, r, now, later, verify) <==>
              && k in t && now < t[k].expiresAt
              && !(k == token && later > t[token].expiresAt)
  {
  }

  /** Exactly when each refusal is answered. */
  lemma RefusedClaimExactly(t: Table, token: Token, index: nat, r: Request, now: nat, later: nat, verify: VerifyFn)
    ensures var claim := ClaimResult(t, token, index, r, now, later, verify);
            && (claim.Expired? <==> token in t && now < t[token].expiresAt < later)
            && (claim.Unauthorized? <==>
                  Alive(t, token, now, later) && !Authorized(t[token], token, index, r, verify))
            && (claim.AlreadyServed? <==>
                  && Alive(t, token, now, later) && Authorized(t[token], token, index, r, verify)
                  && (index in t[token].served || index in t[token].inFlight))
            && (claim.NotFound? <==>
                  || token !in t || t[token].expiresAt <= now
                  || (&& Alive(t, token, now, later) && Authorized(t[token], token, index, r, verify)
                      && index !in t[token].served && index !in t[token].inFlight && index >= |t[token].paths|))
  {
  }

  /** The reason given to a request that is not authorized: the first in this order that applies. */
  lemma RefusalIsTheFirst(t: Table, token: Token, index: nat, r: Request, now: nat, later: nat, verify: VerifyFn)
    requires ClaimResult(t, token, index, r, now, later, verify).Unauthorized?
    ensures var g := t[token];
            var clip := g.clipId.None? || r.clipId == g.clipId.value;
            var source := clip && r.sourceId == g.sourceId;
            var requester := source && r.requesterId != "" && r.requesterId != g.sourceId;
            var alg := requester && r.signatureAlg == PEER_FILE_SIGNATURE_ALG;
            match ClaimResult(t, token, index, r, now, later, verify).reason
            case ClipMismatch => !clip
            case SourceMismatch => clip && !source
            case InvalidRequester => source && !requester
            case UnsupportedAlgorithm => requester && !alg
            case NotTrusted => alg && r.requesterId !in g.keys
            case BadSignature => alg && r.requesterId in g.keys
  {
  }

  /** Whether a request passes depends on nothing that claims, commits and releases change. */
  lemma AuthorizationStable(g: Grant, h: Grant, token: Token, index: nat, r: Request, verify: VerifyFn)
    requires h == g.(served := h.served, inFlight := h.inFlight)
    ensures CheckRequest(g, token, index, r, verify) == CheckRequest(h, token, index, r, verify)
    ensures CheckRequest(g, token, index, r, verify).None? <==> Authorized(g, token, index, r, verify)
  {
  }

  // ---------- calls by anyone, in any order ----------

  datatype Call =
    | DoClaim(token: Token, index: nat, request: Request, now: nat, later: nat)
    | DoCommit(token: Token, index: nat)
    | DoRelease(token: Token, index: nat)
    | DoBind(token: Token, clipId: string)
    | DoRegister(token: Token, grant: Grant, now: nat)

  function CallTable(t: Table, c: Call, verify: VerifyFn): Table {
    match c
    case DoClaim(token, index, r, now, later) => ClaimTable(t, token, index, r, now, later, verify)
    case DoCommit(token, index) => CommitTable(t, token, index)
    case DoRelease(token, index) => ReleaseTable(t, token, index)
    case DoBind(token, clipId) => BindTable(t, token, clipId)
    case DoRegister(token, g, now) => Cleanup(t, now)[token := g.(served := {}, inFlight := {})]
  }

  function CallsTable(t: Table, calls: seq<Call>, verify: VerifyFn): Table
    decreases |calls|
  {
    if calls == [] then t else CallsTable(CallTable(t, calls[0], verify), calls[1..], verify)
  }

  ghost predicate NotReissued(calls: seq<Call>, token: Token) {
    forall k :: 0 <= k < |calls| ==> !(calls[k].DoRegister? && calls[k].token == token)
  }

  /** Once an index is served, or the grant is gone, no sequence of further calls by anyone (claims,
      commits, releases, expiry, other registrations) makes a claim of it succeed, as long as the
      token is not issued a second time. Tokens are fresh, so it never is. */
  lemma {:induction false} ServedIsFinal(t: Table, calls: seq<Call>, token: Token, index: nat,
                                         r: Request, now: nat, later: nat, verify: VerifyFn)
    requires token in t ==> index in t[token].served
    requires NotReissued(calls, token)
    ensures !ClaimResult(CallsTable(t, calls, verify), token, index, r, now, later, verify).Available?
    decreases |calls|
  {
    if calls == [] {
    } else {
      assert calls[0] == calls[0] && !(calls[0].DoRegister? && calls[0].token == token);
      assert NotReissued(calls[1..], token);
      ServedIsFinal(CallTable(t, calls[0], verify), calls[1..], token, index, r, now, later, verify);
    }
  }

  /** A release undoes a claim: the table is what the cleanup alone would have left. */
  lemma ReleaseUndoesClaim(t: Table, token: Token, index: nat, r: Request, now: nat, later: nat, verify: VerifyFn)
    requires ClaimResult(t, token, index, r, now, later, verify).Available?
    ensures ReleaseTable(ClaimTable(t, token, index, r, now, later, verify), token, index) == Cleanup(t, now)
  {
    var c := Cleanup(t, now);
    assert c[token].inFlight + {index} - {index} == c[token].inFlight;
  }

  // ---------- GrantStream ----------

  datatype StreamState = StreamState(remaining: nat, settled: bool)

  /** What the wrapped file stream answers to a poll, and the drop of the wrapper. */
  datatype StreamEvent = Chunk(len: nat) | Fault | Pending | End | Dropped

  datatype Settlement = Commit | Release

  function SaturatingSub(a: nat, b: nat): nat {
    if a < b then 0 else a - b
  }

  function Settle(s: StreamState): (StreamState, seq<Settlement>) {
    if s.settled then (s, [])
    else (s.(settled := true), [if s.remaining == 0 then Commit else Release])
  }

  function StreamStep(s: StreamState, e: StreamEvent): (StreamState, seq<Settlement>) {
    match e
    case Chunk(n) => (s.(remaining := SaturatingSub(s.remaining, n)), [])
    case Fault => (s, [])
    case Pending => (s, [])
    case End => Settle(s)
    case Dropped => Settle(s)
  }

  function SettleTable(t: Table, token: Token, index: nat, calls: seq<Settlement>): Table
    decreases |calls|
  {
    if calls == [] then t
    else SettleTable(match calls[0] case Commit => CommitTable(t, token, index)
                                    case Release => ReleaseTable(t, token, index),
                     token, index, calls[1..])
  }

  class GrantStream {
    const registry: PeerFileRegistry
    const token: Token
    const index: nat
    var remaining: nat
    var settled: bool

    constructor (registry: PeerFileRegistry, token: Token, index: nat, len: nat)
      ensures this.registry == registry && this.token == token && this.index == index
      ensures remaining == len && !settled
    {
      this.registry := registry;
      this.token := token;
      this.index := index;
      this.remaining := len;
      this.settled := false;
    }

    function State(): StreamState
      reads this
    {
      StreamState(remaining, settled)
    }

    method SettleOnce()
      modifies this, registry
      ensures State() == Settle(old(State())).0
      ensures registry.entries == SettleTable(old(registry.entries), token, index, Settle(old(State())).1)
    {
      if settled {
        return;
      }
      settled := true;
      if remaining == 0 {
        registry.CommitServed(token, index);
      } else {
        registry.Release(token, index);
      }
    }

    /** One poll; `answer` is what the inner stream returns. */
    method PollNext(answer: StreamEvent)
      requires !answer.Dropped?
      modifies this, registry
      ensures State() == StreamStep(old(State()), answer).0
      ensures registry.entries == SettleTable(old(registry.entries), token, index, StreamStep(old(State()), answer).1)
    {
      match answer
      case Chunk(len) => remaining := if remaining < len then 0 else remaining - len;
      case End => SettleOnce();
      case _ =>
    }

    method Drop()
      modifies this, registry
      ensures State() == StreamStep(old(State()), Dropped).0
      ensures registry.entries == SettleTable(old(registry.entries), token, index, StreamStep(old(State()), Dropped).1)
    {
      SettleOnce();
    }
  }

  function StreamRun(s: StreamState, es: seq<StreamEvent>): (StreamState, seq<Settlement>)
    decreases |es|
  {
    if es == [] then (s, [])
    else
      var (s1, c1) := StreamStep(s, es[0]);
      var (s2, c2) := StreamRun(s1, es[1..]);
      (s2, c1 + c2)
  }

  function Yielded(es: seq<StreamEvent>): nat {
    if es == [] then 0 else (if es[0].Chunk? then es[0].len else 0) + Yielded(es[1..])
  }

  /** Bytes yielded before the stream first ends or is dropped. */
  function YieldedBeforeEnd(es: seq<StreamEvent>): nat {
    if es == [] || es[0].End? || es[0].Dropped? then 0
    else (if es[0].Chunk? then es[0].len else 0) + YieldedBeforeEnd(es[1..])
  }

  lemma {:induction false} SettledStaysQuiet(s: StreamState, es: seq<StreamEvent>)
    requires s.settled
    ensures StreamRun(s, es).1 == []
    ensures StreamRun(s, es).0 == StreamState(SaturatingSub(s.remaining, Yielded(es)), true)
    decreases |es|
  {
    if es == [] {
    } else {
      SettledStaysQuiet(StreamStep(s, es[0]).0, es[1..]);
    }
  }

  /** Whatever the file stream does (chunks of any size, errors, end, polls after the end), by the
      time the wrapper is dropped it has settled its reservation exactly once: a commit when at
      least `len` bytes were yielded before it first ended or was dropped, a release otherwise.
      Throughout, `remaining` is the part of `len` not yet yielded. */
  lemma {:induction false} StreamSettlesOnce(len: nat, es: seq<StreamEvent>)
    ensures var run := StreamRun(StreamState(len, false), es + [Dropped]);
            && run.1 == [if YieldedBeforeEnd(es) >= len then Commit else Release]
            && run.0 == StreamState(SaturatingSub(len, Yielded(es)), true)
    decreases |es|
  {
    if es == [] {
      assert [Dropped][1..] == [];
    } else {
      assert (es + [Dropped])[1..] == es[1..] + [Dropped];
      var s := StreamState(len, false);
      if es[0].End? || es[0].Dropped? {
        SettledStaysQuiet(StreamStep(s, es[0]).0, es[1..] + [Dropped]);
        YieldedAppend(es[1..]);
      } else {
        StreamSettlesOnce(StreamStep(s, es[0]).0.remaining, es[1..]);
      }
    }
  }

  lemma {:induction false} YieldedAppend(es: seq<StreamEvent>)
    ensures Yielded(es + [Dropped]) == Yielded(es)
  {
    if es == [] {
      assert [Dropped][1..] == [];
    } else {
      assert (es + [Dropped])[1..] == es[1..] + [Dropped];
      YieldedAppend(es[1..]);
    }
  }
}
