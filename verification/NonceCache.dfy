/** The server's memory of used nonces (crates/airpaste-server/src/state.rs): entries expire and are
    purged, and yet, while time does not run backwards, it answers like an unbounded log. */
module NonceCache {
  import opened Wrappers

  /** A device id and a nonce. */
  type Key = (string, string)

  /** `now` is read before the lock is taken, so calls can be processed out of their times' order. */
  datatype Call = Call(key: Key, now: int)

  type Entries = map<Key, int>

  function Retained(entries: Entries, now: int): Entries {
    map k | k in entries && entries[k] > now :: entries[k]
  }

  predicate IsFresh(entries: Entries, c: Call) {
    !(c.key in entries && entries[c.key] > c.now)
  }

  function Recorded(entries: Entries, c: Call, ttl: nat): Entries {
    if IsFresh(entries, c) then Retained(entries, c.now)[c.key := c.now + ttl] else Retained(entries, c.now)
  }

  class NonceCache {
    const ttl: nat
    var entries: Entries

    constructor (ttl: nat)
      ensures this.ttl == ttl && entries == map[]
    {
      this.ttl := ttl;
      entries := map[];
    }

    method Record(deviceId: string, nonce: string, now: int) returns (unused: bool)
      modifies this
      ensures unused == IsFresh(old(entries), Call((deviceId, nonce), now))
      ensures entries == Recorded(old(entries), Call((deviceId, nonce), now), ttl)
    {
      entries := map k | k in entries && entries[k] > now :: entries[k];
      var key := (deviceId, nonce);
      if key in entries {
        return false;
      }
      entries := entries[key := now + ttl];
      return true;
    }
  }

  // ---------- histories ----------

  function After(cs: seq<Call>, ttl: nat): Entries {
    if cs == [] then map[] else Recorded(After(cs[..|cs| - 1], ttl), cs[|cs| - 1], ttl)
  }

  predicate Accepted(cs: seq<Call>, i: nat, ttl: nat)
    requires i < |cs|
  {
    IsFresh(After(cs[..i], ttl), cs[i])
  }

  /** The i-th call was accepted, and no call since came as late as its expiry. */
  predicate Live(cs: seq<Call>, i: nat, ttl: nat)
    requires i < |cs|
  {
    Accepted(cs, i, ttl) && forall k :: i < k < |cs| ==> cs[k].now < cs[i].now + ttl
  }

  ghost predicate SomeLive(cs: seq<Call>, key: Key, ttl: nat) {
    exists i :: 0 <= i < |cs| && cs[i].key == key && Live(cs, i, ttl)
  }

  lemma AcceptedInPrefix(cs: seq<Call>, n: nat, i: nat, ttl: nat)
    requires i < n <= |cs|
    ensures Accepted(cs[..n], i, ttl) == Accepted(cs, i, ttl)
  {
    assert cs[..n][..i] == cs[..i];
  }

  lemma LiveInPrefix(cs: seq<Call>, i: nat, ttl: nat)
    requires i < |cs| - 1
    ensures Live(cs, i, ttl) <==> Live(cs[..|cs| - 1], i, ttl) && cs[|cs| - 1].now < cs[i].now + ttl
  {
    var before := cs[..|cs| - 1];
    AcceptedInPrefix(cs, |cs| - 1, i, ttl);
    if Live(before, i, ttl) && cs[|cs| - 1].now < cs[i].now + ttl {
      forall k | i < k < |cs| ensures cs[k].now < cs[i].now + ttl {
        assert k < |before| ==> before[k].now < before[i].now + ttl;
      }
    }
    if Live(cs, i, ttl) {
      forall k | i < k < |before| ensures before[k].now < before[i].now + ttl {
        assert cs[k].now < cs[i].now + ttl;
      }
    }
  }

  /** What is in the map, said of the history alone: the accepted calls that are still live. */
  lemma {:induction false} EntriesAreLive(cs: seq<Call>, ttl: nat, key: Key)
    ensures key in After(cs, ttl) <==> SomeLive(cs, key, ttl)
    ensures forall i :: 0 <= i < |cs| && cs[i].key == key && Live(cs, i, ttl) ==> After(cs, ttl)[key] == cs[i].now + ttl
    decreases |cs|
  {
    if cs != [] {
      var before, last := cs[..|cs| - 1], cs[|cs| - 1];
      EntriesAreLive(before, ttl, key);
      if key in After(before, ttl) && After(before, ttl)[key] > last.now {
        var i :| 0 <= i < |before| && before[i].key == key && Live(before, i, ttl);
        LiveInPrefix(cs, i, ttl);
        assert cs[i].key == key && Live(cs, i, ttl);
      }
      if key == last.key && Accepted(cs, |cs| - 1, ttl) {
        assert cs[|cs| - 1].key == key && Live(cs, |cs| - 1, ttl);
      }
      forall i | 0 <= i < |cs| && cs[i].key == key && Live(cs, i, ttl)
        ensures key in After(cs, ttl) && After(cs, ttl)[key] == cs[i].now + ttl
      {
        if i < |cs| - 1 {
          LiveInPrefix(cs, i, ttl);
          assert before[i].key == key && Live(before, i, ttl);
        }
      }
    }
  }

  /** A call is refused exactly when an earlier accepted call had the same key and every call since,
      this one included, came before that one's expiry. */
  lemma RefusedExactly(cs: seq<Call>, i: nat, ttl: nat)
    requires i < |cs|
    ensures !Accepted(cs, i, ttl) <==>
            exists j :: 0 <= j < i && cs[j].key == cs[i].key && Accepted(cs, j, ttl)
                        && forall k :: j < k <= i ==> cs[k].now < cs[j].now + ttl
  {
    var before := cs[..i];
    EntriesAreLive(before, ttl, cs[i].key);
    if !Accepted(cs, i, ttl) {
      var j :| 0 <= j < |before| && before[j].key == cs[i].key && Live(before, j, ttl);
      AcceptedInPrefix(cs, i, j, ttl);
      forall k | j < k <= i ensures cs[k].now < cs[j].now + ttl {
        assert k < i ==> before[k].now < before[j].now + ttl;
      }
    }
    if j :| 0 <= j < i && cs[j].key == cs[i].key && Accepted(cs, j, ttl)
            && forall k :: j < k <= i ==> cs[k].now < cs[j].now + ttl {
      AcceptedInPrefix(cs, i, j, ttl);
      assert before[j].key == cs[i].key && Live(before, j, ttl);
    }
  }

  predicate Monotone(cs: seq<Call>) {
    forall j, k :: 0 <= j <= k < |cs| ==> cs[j].now <= cs[k].now
  }

  /** When calls come in the order of their times, purging is invisible: a call is refused exactly when
      the same key was accepted less than `ttl` before. */
  lemma RefinesUnboundedLog(cs: seq<Call>, i: nat, ttl: nat)
    requires i < |cs| && Monotone(cs)
    ensures !Accepted(cs, i, ttl) <==>
            exists j :: 0 <= j < i && cs[j].key == cs[i].key && Accepted(cs, j, ttl) && cs[i].now < cs[j].now + ttl
  {
    RefusedExactly(cs, i, ttl);
  }

  /** No call's time lies more than `slack` after that of a call processed later. */
  predicate NearlyOrdered(cs: seq<Call>, slack: nat) {
    forall j, k :: 0 <= j <= k < |cs| ==> cs[j].now <= cs[k].now + slack
  }

  /** With times that much out of order, the log is refined up to the same amount: a refusal has its
      reason, and a key is not accepted again until the lifetime less the disorder has passed. */
  lemma NearlyRefinesLog(cs: seq<Call>, i: nat, ttl: nat, slack: nat)
    requires i < |cs| && NearlyOrdered(cs, slack)
    ensures !Accepted(cs, i, ttl) ==>
              exists j :: 0 <= j < i && cs[j].key == cs[i].key && Accepted(cs, j, ttl) && cs[i].now < cs[j].now + ttl
    ensures Accepted(cs, i, ttl) ==>
              forall j :: 0 <= j < i && cs[j].key == cs[i].key && Accepted(cs, j, ttl) ==>
                cs[j].now + ttl <= cs[i].now + slack
  {
    RefusedExactly(cs, i, ttl);
    forall j | 0 <= j < i && Accepted(cs, i, ttl) && cs[j].key == cs[i].key && Accepted(cs, j, ttl)
      ensures cs[j].now + ttl <= cs[i].now + slack
    {
      var k :| j < k <= i && cs[k].now >= cs[j].now + ttl;
      assert cs[k].now <= cs[i].now + slack;
    }
  }

  /** Out of order it is not: a later time purges what a call with an earlier time would have met. */
  lemma ReorderedCallForgets(key: Key, other: Key, ttl: nat)
    requires key != other && ttl > 0
    ensures var cs := [Call(key, 0), Call(other, ttl), Call(key, ttl - 1)];
            Accepted(cs, 0, ttl) && cs[2].now < cs[0].now + ttl && Accepted(cs, 2, ttl)
  {
    var cs := [Call(key, 0), Call(other, ttl), Call(key, ttl - 1)];
    RefusedExactly(cs, 2, ttl);
    assert cs[..0] == [];
  }
}
