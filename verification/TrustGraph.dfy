/** The server's device and pairing tables, and who may change them
    (crates/airpaste-server/src/store.rs, routes.rs). */
module TrustGraph {
  import opened Wrappers
  import opened Characters

  const DEFAULT_PAIRING_TTL := 600
  const MIN_PAIRING_TTL := 60
  const MAX_PAIRING_TTL := 3600
  const MAX_DEVICE_NAME_CHARS := 64

  datatype Device = Device(
    id: string, name: string, publicKey: string, encryptionKey: string, trusted: bool, createdAt: int,
    lastSeen: Option<int>)

  datatype Pairing = Pairing(
    code: string, createdBy: Option<string>, candidate: Option<string>, expiresAt: int, confirmed: bool)

  datatype Db = Db(devices: map<string, Device>, pairings: map<string, Pairing>)

  datatype StoreError = NotFound

  // ---------- the store ----------

  function PairingTtl(seconds: Option<int>): int {
    var s := if seconds.Some? then seconds.value else DEFAULT_PAIRING_TTL;
    if s < MIN_PAIRING_TTL then MIN_PAIRING_TTL else if s > MAX_PAIRING_TTL then MAX_PAIRING_TTL else s
  }

  function WithDevice(db: Db, d: Device): Db {
    db.(devices := db.devices[d.id := d])
  }

  predicate Trusted(db: Db, id: string) {
    id in db.devices && db.devices[id].trusted
  }

  predicate Valid(db: Db) {
    forall id :: id in db.devices ==> db.devices[id].id == id
  }

  function Registered(db: Db, id: string, name: string, publicKey: string, encryptionKey: string, now: int): Db {
    WithDevice(db, Device(id, name, publicKey, encryptionKey, db.devices == map[], now, None))
  }

  function TrustedDb(db: Db, id: string): Db {
    if id in db.devices then WithDevice(db, db.devices[id].(trusted := true)) else db
  }

  function RenamedDb(db: Db, id: string, name: string): Db {
    if id in db.devices then WithDevice(db, db.devices[id].(name := name)) else db
  }

  function TouchedDb(db: Db, id: string, now: int): Db {
    if id in db.devices then WithDevice(db, db.devices[id].(lastSeen := Some(now))) else db
  }

  function PairedDb(db: Db, code: string, createdBy: Option<string>, ttl: Option<int>, now: int): Db {
    db.(pairings := db.pairings[code := Pairing(code, createdBy, None, now + PairingTtl(ttl), false)])
  }

  predicate CodeWorks(db: Db, code: string, now: int) {
    code in db.pairings && now <= db.pairings[code].expiresAt
  }

  /** The pairing record is marked even when the device then turns out to be unknown. */
  function ConfirmedDb(db: Db, code: string, id: string, now: int): Db {
    if !CodeWorks(db, code, now) then db
    else
      var session := db.pairings[code].(confirmed := true, candidate := Some(id));
      TrustedDb(db.(pairings := db.pairings[code := session]), id)
  }

  /** Records are stored under their own key: device ids and codes. */
  class Store {
    var devices: map<string, Device>
    var pairings: map<string, Pairing>

    constructor ()
      ensures State() == Db(map[], map[])
    {
      devices := map[];
      pairings := map[];
    }

    function State(): Db
      reads this
    {
      Db(devices, pairings)
    }

    /** `id` is the new device's fresh identifier. */
    method RegisterDevice(id: string, name: string, publicKey: string, encryptionKey: string, now: int)
      returns (device: Device)
      requires id !in devices
      modifies this
      ensures State() == Registered(old(State()), id, name, publicKey, encryptionKey, now)
      ensures device == devices[id] && (device.trusted <==> old(devices) == map[])
      ensures && device.id == id && device.name == name && device.publicKey == publicKey
              && device.encryptionKey == encryptionKey && device.createdAt == now && device.lastSeen == None
    {
      var trusted := |devices| == 0;
      device := Device(id, name, publicKey, encryptionKey, trusted, now, None);
      devices := devices[device.id := device];
    }

    method TrustDevice(id: string) returns (r: Result<Device, StoreError>)
      requires Valid(State())
      modifies this
      ensures State() == TrustedDb(old(State()), id)
      ensures r == if id in old(devices) then Ok(devices[id]) else Err(NotFound)
    {
      if id !in devices {
        return Err(NotFound);
      }
      var device := devices[id].(trusted := true);
      devices := devices[device.id := device];
      r := Ok(device);
    }

    method RenameDevice(id: string, name: string) returns (r: Result<Device, StoreError>)
      requires Valid(State())
      modifies this
      ensures State() == RenamedDb(old(State()), id, name)
      ensures r == if id in old(devices) then Ok(devices[id]) else Err(NotFound)
    {
      if id !in devices {
        return Err(NotFound);
      }
      var device := devices[id].(name := name);
      devices := devices[device.id := device];
      r := Ok(device);
    }

    method TouchDevice(id: string, now: int) returns (r: Option<Device>)
      requires Valid(State())
      modifies this
      ensures State() == TouchedDb(old(State()), id, now)
      ensures r == if id in old(devices) then Some(devices[id]) else None
    {
      if id !in devices {
        return None;
      }
      var device := devices[id].(lastSeen := Some(now));
      devices := devices[device.id := device];
      r := Some(device);
    }

    /** `code` is a random six-digit code; one that is still in use is overwritten. */
    method StartPairing(createdBy: Option<string>, ttlSeconds: Option<int>, code: string, now: int)
      returns (session: Pairing)
      modifies this
      ensures State() == PairedDb(old(State()), code, createdBy, ttlSeconds, now)
      ensures session == pairings[code] && session.code == code && session.createdBy == createdBy
      ensures session.candidate == None && !session.confirmed
      ensures now + 60 <= session.expiresAt <= now + 3600
      ensures ttlSeconds.None? ==> session.expiresAt == now + 600
      ensures ttlSeconds.Some? && 60 <= ttlSeconds.value <= 3600 ==> session.expiresAt == now + ttlSeconds.value
      ensures ttlSeconds.Some? && ttlSeconds.value < 60 ==> session.expiresAt == now + 60
      ensures ttlSeconds.Some? && ttlSeconds.value > 3600 ==> session.expiresAt == now + 3600
    {
      var ttl := if ttlSeconds.Some? then ttlSeconds.value else DEFAULT_PAIRING_TTL;
      if ttl < MIN_PAIRING_TTL {
        ttl := MIN_PAIRING_TTL;
      } else if ttl > MAX_PAIRING_TTL {
        ttl := MAX_PAIRING_TTL;
      }
      session := Pairing(code, createdBy, None, now + ttl, false);
      pairings := pairings[session.code := session];
    }

    /** Whether the code was confirmed before does not matter. */
    method ConfirmPairing(code: string, id: string, now: int) returns (r: Result<Device, StoreError>)
      requires Valid(State()) && forall c :: c in pairings ==> pairings[c].code == c
      modifies this
      ensures State() == ConfirmedDb(old(State()), code, id, now)
      ensures r.Ok? <==> CodeWorks(old(State()), code, now) && id in old(devices)
      ensures r.Ok? ==> r.value == devices[id] && r.value.trusted
    {
      if code !in pairings {
        return Err(NotFound);
      }
      var session := pairings[code];
      if session.expiresAt < now {
        return Err(NotFound);
      }
      session := session.(confirmed := true, candidate := Some(id));
      pairings := pairings[session.code := session];
      r := TrustDevice(id);
    }
  }

  // ---------- who may call ----------

  /** `Register` carries the new device's fresh id, `StartPairing` its random code. */
  datatype Call =
    | Register(id: string, name: string, publicKey: string, encryptionKey: string)
    | Trust(id: string)
    | Rename(id: string, name: string)
    | StartPairing(createdBy: Option<string>, ttl: Option<int>, code: string)
    | Confirm(code: string, id: string)

  function Method(c: Call): string {
    "POST"
  }

  function Path(c: Call): string {
    match c
    case Register(_, _, _, _) => "/v1/devices"
    case Trust(id) => "/v1/devices/" + id + "/trust"
    case Rename(id, _) => "/v1/devices/" + id + "/rename"
    case StartPairing(_, _, _) => "/v1/pair/start"
    case Confirm(_, _) => "/v1/pair/confirm"
  }

  predicate RequiresDeviceSignature(verb: string, path: string) {
    !(verb == "POST" && (path == "/v1/devices" || path == "/v1/pair/confirm"))
  }

  /** `validate_trusted_device`: registered, trusted, and with a key to verify with. */
  predicate MayCall(db: Db, signer: string) {
    Trusted(db, signer) && Trim(db.devices[signer].publicKey) != ""
  }

  /** A call passes the gate unsigned only on the two open routes; otherwise it has a signer whose
      signature was verified. */
  predicate Admitted(db: Db, signer: Option<string>, c: Call) {
    RequiresDeviceSignature(Method(c), Path(c)) ==> signer.Some? && MayCall(db, signer.value)
  }

  /** Exactly two calls are open to anyone, whatever the ids in the paths look like. */
  lemma OpenRoutes(c: Call)
    ensures RequiresDeviceSignature(Method(c), Path(c)) <==> !c.Register? && !c.Confirm?
  {
    if c.Trust? || c.Rename? {
      assert Path(c)[11] == '/' && |Path(c)| > 11;
      assert "/v1/pair/confirm"[4] == 'p' && Path(c)[4] == 'd';
    } else if c.StartPairing? {
      assert Path(c)[9] == 's' && "/v1/pair/confirm"[9] == 'c';
      assert |"/v1/devices"| == 11 && |Path(c)| == 14;
    }
  }

  // ---------- runs ----------

  /** Who was first trusted when, and on whose authority. */
  datatype Grant = Grant(device: string, sponsor: Option<string>)

  datatype Sys = Sys(db: Db, now: int, registered: seq<string>, grants: seq<Grant>)

  const EMPTY := Sys(Db(map[], map[]), 0, [], [])

  datatype Event =
    | Request(signer: Option<string>, call: Call)
    | Seen(id: string)
    | Tick(seconds: nat)

  /** New devices get unused identifiers. */
  predicate Enabled(s: Sys, e: Event) {
    e.Request? && e.call.Register? ==> e.call.id !in s.db.devices
  }

  function Handle(s: Sys, signer: Option<string>, c: Call): Db {
    if !Admitted(s.db, signer, c) then s.db
    else match c
      case Register(id, name, publicKey, encryptionKey) => Registered(s.db, id, name, publicKey, encryptionKey, s.now)
      case Trust(id) => TrustedDb(s.db, id)
      case Rename(id, name) =>
        if 0 < |Trim(name)| <= MAX_DEVICE_NAME_CHARS then RenamedDb(s.db, id, Trim(name)) else s.db
      case StartPairing(createdBy, ttl, code) =>
        if createdBy.Some? && createdBy != signer then s.db else PairedDb(s.db, code, signer, ttl, s.now)
      case Confirm(code, id) => ConfirmedDb(s.db, code, id, s.now)
  }

  function NextDb(s: Sys, e: Event): Db {
    match e
    case Request(signer, call) => Handle(s, signer, call)
    case Seen(id) => TouchedDb(s.db, id, s.now)
    case Tick(_) => s.db
  }

  /** The device an event can make trusted. */
  function Candidate(e: Event): Option<string> {
    if e.Request? && (e.call.Register? || e.call.Trust? || e.call.Confirm?) then Some(e.call.id) else None
  }

  /** On whose authority: the approving device, or the one that minted the code. */
  function Sponsor(s: Sys, e: Event): Option<string> {
    if e.Request? && e.call.Trust? then e.signer
    else if e.Request? && e.call.Confirm? && e.call.code in s.db.pairings then s.db.pairings[e.call.code].createdBy
    else None
  }

  function NewGrants(s: Sys, e: Event): seq<Grant> {
    var c := Candidate(e);
    if c.Some? && !Trusted(s.db, c.value) && Trusted(NextDb(s, e), c.value) then [Grant(c.value, Sponsor(s, e))] else []
  }

  function Next(s: Sys, e: Event): Sys {
    Sys(
      NextDb(s, e),
      if e.Tick? then s.now + e.seconds else s.now,
      if e.Request? && e.call.Register? then s.registered + [e.call.id] else s.registered,
      s.grants + NewGrants(s, e))
  }

  function Run(s: Sys, es: seq<Event>): Option<Sys>
    decreases |es|
  {
    if es == [] then Some(s)
    else if !Enabled(s, es[0]) then None
    else Run(Next(s, es[0]), es[1..])
  }

  ghost predicate Reachable(s: Sys) {
    exists es :: Run(EMPTY, es) == Some(s)
  }

  // ---------- what every run keeps ----------

  ghost predicate Granted(grants: seq<Grant>, id: string, before: nat) {
    exists k :: 0 <= k < before && k < |grants| && grants[k].device == id
  }

  ghost predicate DevicesOk(s: Sys) {
    && Valid(s.db)
    && (forall id :: id in s.db.devices <==> id in s.registered)
    && (forall id :: Trusted(s.db, id) <==> Granted(s.grants, id, |s.grants|))
  }

  /** Codes are minted by devices that were trusted by then. */
  ghost predicate PairingsOk(s: Sys) {
    forall code :: code in s.db.pairings ==>
      && s.db.pairings[code].code == code
      && s.db.pairings[code].createdBy.Some? && Trusted(s.db, s.db.pairings[code].createdBy.value)
  }

  ghost predicate GrantsOk(s: Sys) {
    && (s.registered != [] ==> s.grants != [] && s.grants[0] == Grant(s.registered[0], None))
    && (s.registered == [] ==> s.grants == [])
    && (forall k :: 1 <= k < |s.grants| ==>
          s.grants[k].sponsor.Some? && Granted(s.grants, s.grants[k].sponsor.value, k))
    && (forall j, k :: 0 <= j < k < |s.grants| ==> s.grants[j].device != s.grants[k].device)
  }

  ghost predicate Inv(s: Sys) {
    DevicesOk(s) && PairingsOk(s) && GrantsOk(s)
  }

  /** No step takes trust away, and only the candidate can gain it. */
  lemma StepTrust(s: Sys, e: Event, id: string)
    requires Valid(s.db) && Enabled(s, e)
    ensures Valid(NextDb(s, e))
    ensures Trusted(s.db, id) ==> Trusted(NextDb(s, e), id)
    ensures Trusted(NextDb(s, e), id) && !Trusted(s.db, id) ==> Candidate(e) == Some(id)
  {
  }

  lemma GrantedAppends(grants: seq<Grant>, more: seq<Grant>, id: string)
    requires |more| <= 1
    ensures Granted(grants + more, id, |grants + more|)
            <==> Granted(grants, id, |grants|) || (more != [] && more[0].device == id)
  {
    if Granted(grants, id, |grants|) {
      var k :| 0 <= k < |grants| && grants[k].device == id;
      assert (grants + more)[k].device == id;
    }
    if more != [] && more[0].device == id {
      assert (grants + more)[|grants|].device == id;
    }
  }

  lemma DevicesKept(s: Sys, e: Event)
    requires Inv(s) && Enabled(s, e)
    ensures DevicesOk(Next(s, e))
  {
    var n := Next(s, e);
    StepTrust(s, e, "");
    forall id ensures Trusted(n.db, id) <==> Granted(n.grants, id, |n.grants|) {
      StepTrust(s, e, id);
      GrantedAppends(s.grants, NewGrants(s, e), id);
    }
    OnlyRegisterAdds(s, e);
  }

  lemma OnlyRegisterAdds(s: Sys, e: Event)
    requires Valid(s.db) && Enabled(s, e)
    ensures NextDb(s, e).devices.Keys ==
            s.db.devices.Keys + (if e.Request? && e.call.Register? then {e.call.id} else {})
  {
    if e.Request? {
      OpenRoutes(e.call);
    }
  }

  lemma PairingsKept(s: Sys, e: Event)
    requires Inv(s) && Enabled(s, e)
    ensures PairingsOk(Next(s, e))
  {
    var n := Next(s, e);
    if e.Request? {
      OpenRoutes(e.call);
    }
    forall code | code in n.db.pairings
      ensures n.db.pairings[code].code == code
      ensures n.db.pairings[code].createdBy.Some? && Trusted(n.db, n.db.pairings[code].createdBy.value)
    {
      if code in s.db.pairings {
        StepTrust(s, e, s.db.pairings[code].createdBy.value);
      }
      if e.Request? && e.call.StartPairing? && e.signer.Some? {
        StepTrust(s, e, e.signer.value);
      }
    }
  }

  /** A new grant is the root's, or has a sponsor that is trusted already. */
  lemma NewGrantOk(s: Sys, e: Event)
    requires Inv(s) && Enabled(s, e) && NewGrants(s, e) != []
    ensures var g := NewGrants(s, e)[0];
            if s.registered == [] then e.Request? && e.call.Register? && g == Grant(e.call.id, None)
            else g.sponsor.Some? && Trusted(s.db, g.sponsor.value)
  {
    OpenRoutes(e.call);
    if s.registered == [] {
      assert s.db.devices == map[];
    } else {
      assert s.registered[0] in s.db.devices;
      assert s.db.devices != map[];
    }
  }

  lemma GrantsKept(s: Sys, e: Event)
    requires Inv(s) && Enabled(s, e)
    ensures GrantsOk(Next(s, e))
  {
    var n := Next(s, e);
    var more := NewGrants(s, e);
    forall k | 1 <= k < |n.grants|
      ensures n.grants[k].sponsor.Some? && Granted(n.grants, n.grants[k].sponsor.value, k)
    {
      if k == |s.grants| {
        NewGrantOk(s, e);
      }
      var j :| 0 <= j < k && j < |s.grants| && s.grants[j].device == n.grants[k].sponsor.value;
      assert n.grants[j].device == n.grants[k].sponsor.value;
    }
    forall j, k | 0 <= j < k < |n.grants| ensures n.grants[j].device != n.grants[k].device {
      if k == |s.grants| {
        assert s.grants[j].device == n.grants[k].device ==> Granted(s.grants, n.grants[k].device, |s.grants|);
      }
    }
    RootKept(s, e);
  }

  lemma RootKept(s: Sys, e: Event)
    requires Inv(s) && Enabled(s, e)
    ensures var n := Next(s, e);
            && (n.registered != [] ==> n.grants != [] && n.grants[0] == Grant(n.registered[0], None))
            && (n.registered == [] ==> n.grants == [])
  {
    var n := Next(s, e);
    if NewGrants(s, e) != [] {
      NewGrantOk(s, e);
    }
    if s.registered == [] && e.Request? && e.call.Register? {
      OpenRoutes(e.call);
      assert s.db.devices == map[];
    }
  }

  lemma StepKeepsInv(s: Sys, e: Event)
    requires Inv(s) && Enabled(s, e)
    ensures Inv(Next(s, e))
  {
    DevicesKept(s, e);
    PairingsKept(s, e);
    GrantsKept(s, e);
  }

  lemma {:induction false} RunKeepsInv(s: Sys, es: seq<Event>)
    requires Inv(s)
    ensures Run(s, es).Some? ==> Inv(Run(s, es).value)
    decreases |es|
  {
    if es != [] && Enabled(s, es[0]) {
      StepKeepsInv(s, es[0]);
      RunKeepsInv(Next(s, es[0]), es[1..]);
    }
  }

  lemma ReachableInv(s: Sys)
    requires Reachable(s)
    ensures Inv(s)
  {
    var es :| Run(EMPTY, es) == Some(s);
    RunKeepsInv(EMPTY, es);
  }

  // ---------- main results ----------

  /** The trusted devices are exactly those granted trust, each once. The one grant without a sponsor
      is the first registered device's; every other has a sponsor that was granted trust strictly
      earlier. A registry that is not empty has a trusted device. */
  lemma TrustForest(s: Sys)
    requires Reachable(s)
    ensures forall id :: Trusted(s.db, id) <==> Granted(s.grants, id, |s.grants|)
    ensures forall j, k :: 0 <= j < k < |s.grants| ==> s.grants[j].device != s.grants[k].device
    ensures forall k :: 0 <= k < |s.grants| ==> (s.grants[k].sponsor.None? <==> k == 0)
    ensures forall k :: 1 <= k < |s.grants| ==> Granted(s.grants, s.grants[k].sponsor.value, k)
    ensures s.db.devices != map[] ==> s.registered != [] && Trusted(s.db, s.registered[0])
    ensures s.grants != [] ==> s.registered != [] && s.grants[0].device == s.registered[0]
  {
    ReachableInv(s);
    if s.db.devices != map[] {
      var id :| id in s.db.devices;
      assert id in s.registered;
      assert Granted(s.grants, s.registered[0], |s.grants|);
    }
  }

  /** Each link's sponsor is the next link's device. */
  predicate ChainOfTrust(chain: seq<nat>, grants: seq<Grant>) {
    && chain != [] && chain[|chain| - 1] == 0
    && (forall i :: 0 <= i < |chain| ==> chain[i] < |grants|)
    && (forall i :: 0 <= i < |chain| - 1 ==> chain[i + 1] < chain[i])
    && (forall i :: 0 <= i < |chain| - 1 ==> grants[chain[i]].sponsor == Some(grants[chain[i + 1]].device))
  }

  lemma {:induction false} ChainFrom(grants: seq<Grant>, k: nat) returns (chain: seq<nat>)
    requires k < |grants|
    requires forall j :: 1 <= j < |grants| ==> grants[j].sponsor.Some? && Granted(grants, grants[j].sponsor.value, j)
    ensures ChainOfTrust(chain, grants) && chain[0] == k
  {
    if k == 0 {
      chain := [0];
    } else {
      assert Granted(grants, grants[k].sponsor.value, k);
      var j :| 0 <= j < k && grants[j].device == grants[k].sponsor.value;
      var rest := ChainFrom(grants, j);
      chain := [k] + rest;
    }
  }

  /** From every trusted device sponsors lead, ever earlier, to the first registered device. */
  lemma EveryTrustLeadsToRoot(s: Sys, id: string) returns (chain: seq<nat>)
    requires Reachable(s) && Trusted(s.db, id)
    ensures ChainOfTrust(chain, s.grants) && s.grants[chain[0]].device == id
    ensures s.registered != [] && s.grants[0].device == s.registered[0]
  {
    TrustForest(s);
    var k :| 0 <= k < |s.grants| && s.grants[k].device == id;
    chain := ChainFrom(s.grants, k);
  }

  lemma {:induction false} TrustNeverShrinks(s: Sys, es: seq<Event>, id: string)
    requires Valid(s.db) && Trusted(s.db, id) && Run(s, es).Some?
    ensures Trusted(Run(s, es).value.db, id)
    decreases |es|
  {
    if es != [] {
      StepTrust(s, es[0], id);
      TrustNeverShrinks(Next(s, es[0]), es[1..], id);
    }
  }

  /** What of a device can change, and by what: its name by an admitted renaming, trimmed and of at most 64
      characters, its last-seen time by being seen; its keys and its date of registration never. */
  lemma StepChangesDevice(s: Sys, e: Event, id: string)
    requires Valid(s.db) && Enabled(s, e) && id in s.db.devices
    ensures id in NextDb(s, e).devices
    ensures var d, n := s.db.devices[id], NextDb(s, e).devices[id];
            && n.id == d.id && n.publicKey == d.publicKey && n.encryptionKey == d.encryptionKey
            && n.createdAt == d.createdAt
            && (n.name != d.name ==>
                  && e.Request? && e.call.Rename? && e.call.id == id
                  && e.signer.Some? && MayCall(s.db, e.signer.value)
                  && n.name == Trim(e.call.name) && 1 <= |n.name| <= 64)
            && (n.lastSeen != d.lastSeen ==> e == Seen(id) && n.lastSeen == Some(s.now))
  {
    if e.Request? {
      OpenRoutes(e.call);
    }
  }

  /** An admitted renaming to a name that fits does rename. */
  lemma RenameWorksExactly(s: Sys, signer: Option<string>, id: string, name: string)
    requires Valid(s.db) && id in s.db.devices
    ensures NextDb(s, Request(signer, Rename(id, name))).devices[id].name
         == if signer.Some? && MayCall(s.db, signer.value) && 1 <= |Trim(name)| <= 64 then Trim(name)
            else s.db.devices[id].name
  {
    OpenRoutes(Rename(id, name));
  }

  /** Being seen is recorded, and only ticks move the clock. */
  lemma SeenExactly(s: Sys, e: Event, id: string)
    requires id in s.db.devices
    requires s.db.devices[id].id == id
    ensures NextDb(s, Seen(id)).devices == s.db.devices[id := s.db.devices[id].(lastSeen := Some(s.now))]
    ensures Next(s, e).now == s.now + (if e.Tick? then e.seconds else 0)
  {
  }

  /** A working code that is confirmed remembers the last device it was confirmed for, known or not. */
  lemma ConfirmIsRecorded(s: Sys, signer: Option<string>, code: string, id: string)
    requires code in s.db.pairings
    ensures var n := NextDb(s, Request(signer, Confirm(code, id)));
            && code in n.pairings
            && (s.now <= s.db.pairings[code].expiresAt ==>
                  n.pairings[code] == s.db.pairings[code].(confirmed := true, candidate := Some(id)))
            && (s.now > s.db.pairings[code].expiresAt ==> n == s.db)
  {
    OpenRoutes(Confirm(code, id));
  }

  /** A device keeps the keys it registered with, in every run. */
  lemma {:induction false} KeysNeverChange(s: Sys, es: seq<Event>, id: string)
    requires Valid(s.db) && id in s.db.devices && Run(s, es).Some?
    ensures var n := Run(s, es).value;
            && id in n.db.devices
            && n.db.devices[id].publicKey == s.db.devices[id].publicKey
            && n.db.devices[id].encryptionKey == s.db.devices[id].encryptionKey
    decreases |es|
  {
    if es != [] {
      StepTrust(s, es[0], id);
      StepChangesDevice(s, es[0], id);
      KeysNeverChange(Next(s, es[0]), es[1..], id);
    }
  }

  /** Exactly when a request makes a device trusted that was not: the first registration, approval by a
      device that may call, or confirmation of a working code. */
  lemma GainsTrustExactly(s: Sys, signer: Option<string>, c: Call, id: string)
    requires Valid(s.db) && Enabled(s, Request(signer, c)) && !Trusted(s.db, id)
    ensures Trusted(NextDb(s, Request(signer, c)), id) <==>
            match c
            case Register(newId, _, _, _) => newId == id && s.db.devices == map[]
            case Trust(other) => other == id && id in s.db.devices && signer.Some? && MayCall(s.db, signer.value)
            case Confirm(code, other) =>
              other == id && id in s.db.devices && code in s.db.pairings && s.now <= s.db.pairings[code].expiresAt
            case _ => false
  {
    OpenRoutes(c);
  }

  /** Exactly when a code is minted, and in whose name: by a device that may call, for itself. */
  lemma MintsExactly(s: Sys, signer: Option<string>, createdBy: Option<string>, ttl: Option<int>, code: string)
    ensures var n := NextDb(s, Request(signer, StartPairing(createdBy, ttl, code)));
            if signer.Some? && MayCall(s.db, signer.value) && (createdBy.None? || createdBy == signer)
            then && code in n.pairings && n.pairings[code].createdBy == signer
                 && s.now + 60 <= n.pairings[code].expiresAt <= s.now + 3600
            else n == s.db
  {
    OpenRoutes(StartPairing(createdBy, ttl, code));
  }

  predicate NotMinted(es: seq<Event>, code: string) {
    forall k :: 0 <= k < |es| ==> !(es[k].Request? && es[k].call.StartPairing? && es[k].call.code == code)
  }

  lemma CodeStep(s: Sys, e: Event, code: string)
    requires Enabled(s, e) && code in s.db.pairings
    requires !(e.Request? && e.call.StartPairing? && e.call.code == code)
    ensures s.now <= Next(s, e).now
    ensures code in NextDb(s, e).pairings && NextDb(s, e).pairings[code].expiresAt == s.db.pairings[code].expiresAt
  {
  }

  /** Confirming neither uses up nor prolongs a code: while it is not minted anew, it works exactly until
      its expiry, for any number of devices. */
  lemma {:induction false} CodeWorksUntilExpiry(s: Sys, es: seq<Event>, code: string)
    requires code in s.db.pairings && NotMinted(es, code) && Run(s, es).Some?
    ensures var n := Run(s, es).value;
            && s.now <= n.now
            && (CodeWorks(n.db, code, n.now) <==> n.now <= s.db.pairings[code].expiresAt)
    decreases |es|
  {
    if es != [] {
      CodeStep(s, es[0], code);
      assert NotMinted(es[1..], code);
      CodeWorksUntilExpiry(Next(s, es[0]), es[1..], code);
    }
  }

  /** So a device can only be paired within an hour of a trusted device minting the code. */
  lemma PairedWithinTheHour(s: Sys, signer: string, createdBy: Option<string>, ttl: Option<int>, code: string,
                            es: seq<Event>)
    requires MayCall(s.db, signer) && (createdBy.None? || createdBy == Some(signer)) && NotMinted(es, code)
    requires var m := Next(s, Request(Some(signer), StartPairing(createdBy, ttl, code))); Run(m, es).Some?
    ensures var m := Next(s, Request(Some(signer), StartPairing(createdBy, ttl, code)));
            var n := Run(m, es).value;
            && (CodeWorks(n.db, code, n.now) ==> n.now <= s.now + MAX_PAIRING_TTL)
            && (n.now <= s.now + MIN_PAIRING_TTL ==> CodeWorks(n.db, code, n.now))
  {
    var m := Next(s, Request(Some(signer), StartPairing(createdBy, ttl, code)));
    CodeWorksUntilExpiry(m, es, code);
  }

  /** The store reads a record and writes it back in two transactions. Were a record that was read
      before other steps written back after them, trust would be lost exactly if it was gained in between. */
  lemma StaleWriteLosesTrust(s: Sys, es: seq<Event>, id: string, seen: int)
    requires Reachable(s) && id in s.db.devices && Run(s, es).Some?
    ensures var n := Run(s, es).value;
            var stale := WithDevice(n.db, s.db.devices[id].(lastSeen := Some(seen)));
            && (Trusted(n.db, id) && !Trusted(stale, id) <==> !Trusted(s.db, id) && Trusted(n.db, id))
            && forall other :: other != id ==> Trusted(stale, other) == Trusted(n.db, other)
  {
    ReachableInv(s);
    if Trusted(s.db, id) {
      TrustNeverShrinks(s, es, id);
    }
  }
}
