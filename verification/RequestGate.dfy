/** Verification of signed requests (crates/airpaste-server/src/routes.rs): who signed, when, and
    whether the same request was let through before. */
module RequestGate {
  import opened Wrappers
  import opened Characters
  import Base64Url
  import SigningMessages
  import TrustGraph
  import NonceCache

  /** 300 seconds, in nanoseconds: the timestamp's largest skew and the nonces' lifetime. */
  const WINDOW: nat := 300_000_000_000

  const SIGNATURE_ALG := "ed25519-rest-v1"
  const ALG_HEADER := "x-airpaste-signature-alg"
  const DEVICE_ID_HEADER := "x-airpaste-device-id"
  const TIMESTAMP_HEADER := "x-airpaste-timestamp"
  const NONCE_HEADER := "x-airpaste-nonce"
  const BODY_SHA256_HEADER := "x-airpaste-body-sha256"
  const SIGNATURE_HEADER := "x-airpaste-signature"

  /** A request as it comes in: no body when it is too long or breaks off; headers that are not readable
      as text count as absent. */
  datatype Incoming = Incoming(verb: string, path: string, body: Option<Bytes>, headers: map<string, string>)

  /** The same with its signed fields. */
  datatype Request = Request(
    verb: string, path: string, body: Bytes, deviceId: string, timestamp: string, nonce: string,
    bodySha256: string, signature: string)

  /** RFC 3339 parsing, the hash of a body as text, and signature verification (which includes decoding
      the key). */
  datatype Env = Env(
    parse: string -> Option<int>, bodyHash: Bytes -> string, verify: (string, string, string) -> bool)

  datatype GateError =
    | BodyUnreadable | MissingHeader(name: string) | UnsupportedAlgorithm
    | BodyHashMismatch | NotRegistered | NotTrusted | KeyMissing | BadTimestamp | StaleTimestamp
    | BadSignature | NonceUsed

  function Fields(r: Request): SigningMessages.RestFields {
    SigningMessages.RestFields(r.verb, r.path, r.deviceId, r.timestamp, r.nonce, r.bodySha256)
  }

  function Message(r: Request): string {
    SigningMessages.RestSigningMessage(Fields(r))
  }

  function HeaderValue(headers: map<string, string>, name: string): Option<string> {
    if name in headers && Trim(headers[name]) != "" then Some(Trim(headers[name])) else None
  }

  const SIGNED_HEADERS := [DEVICE_ID_HEADER, TIMESTAMP_HEADER, NONCE_HEADER, BODY_SHA256_HEADER, SIGNATURE_HEADER]

  /** `name` is missing, and those listed before it are not. */
  predicate FirstMissing(headers: map<string, string>, names: seq<string>, name: string) {
    exists k :: 0 <= k < |names| && names[k] == name && HeaderValue(headers, name).None?
                && forall m :: 0 <= m < k ==> HeaderValue(headers, names[m]).Some?
  }

  predicate AllPresent(headers: map<string, string>) {
    forall name :: name in SIGNED_HEADERS ==> HeaderValue(headers, name).Some?
  }

  function RequestOf(q: Incoming): Request
    requires q.body.Some? && AllPresent(q.headers)
  {
    Request(q.verb, q.path, q.body.value,
            HeaderValue(q.headers, DEVICE_ID_HEADER).value, HeaderValue(q.headers, TIMESTAMP_HEADER).value,
            HeaderValue(q.headers, NONCE_HEADER).value, HeaderValue(q.headers, BODY_SHA256_HEADER).value,
            HeaderValue(q.headers, SIGNATURE_HEADER).value)
  }

  predicate Readable(q: Incoming) {
    q.body.Some? && HeaderValue(q.headers, ALG_HEADER) == Some(SIGNATURE_ALG) && AllPresent(q.headers)
  }

  /** Why a request cannot be read: the first of these that applies. */
  ghost predicate Unreadable(q: Incoming, e: GateError) {
    if q.body.None? then e == BodyUnreadable
    else if HeaderValue(q.headers, ALG_HEADER).None? then e == MissingHeader(ALG_HEADER)
    else if HeaderValue(q.headers, ALG_HEADER).value != SIGNATURE_ALG then e == UnsupportedAlgorithm
    else e.MissingHeader? && FirstMissing(q.headers, SIGNED_HEADERS, e.name)
  }

  method ReadRequest(q: Incoming) returns (r: Result<Request, GateError>)
    ensures r.Ok? <==> Readable(q)
    ensures r.Ok? ==> r.value == RequestOf(q)
    ensures r.Err? ==> Unreadable(q, r.error)
  {
    if q.body.None? {
      return Err(BodyUnreadable);
    }
    var alg := HeaderValue(q.headers, ALG_HEADER);
    if alg.None? {
      return Err(MissingHeader(ALG_HEADER));
    }
    if alg.value != SIGNATURE_ALG {
      return Err(UnsupportedAlgorithm);
    }
    var deviceId := HeaderValue(q.headers, DEVICE_ID_HEADER);
    if deviceId.None? {
      assert SIGNED_HEADERS[0] == DEVICE_ID_HEADER;
      return Err(MissingHeader(DEVICE_ID_HEADER));
    }
    var timestamp := HeaderValue(q.headers, TIMESTAMP_HEADER);
    if timestamp.None? {
      assert SIGNED_HEADERS[1] == TIMESTAMP_HEADER;
      return Err(MissingHeader(TIMESTAMP_HEADER));
    }
    var nonce := HeaderValue(q.headers, NONCE_HEADER);
    if nonce.None? {
      assert SIGNED_HEADERS[2] == NONCE_HEADER;
      return Err(MissingHeader(NONCE_HEADER));
    }
    var bodySha256 := HeaderValue(q.headers, BODY_SHA256_HEADER);
    if bodySha256.None? {
      assert SIGNED_HEADERS[3] == BODY_SHA256_HEADER;
      return Err(MissingHeader(BODY_SHA256_HEADER));
    }
    var signature := HeaderValue(q.headers, SIGNATURE_HEADER);
    if signature.None? {
      assert SIGNED_HEADERS[4] == SIGNATURE_HEADER;
      return Err(MissingHeader(SIGNATURE_HEADER));
    }
    return Ok(Request(q.verb, q.path, q.body.value, deviceId.value, timestamp.value, nonce.value, bodySha256.value,
                      signature.value));
  }

  function Skew(timestamp: int, now: int): nat {
    if timestamp > now then timestamp - now else now - timestamp
  }

  /** The checks before the nonce, in the order they are made. */
  function Check(env: Env, db: TrustGraph.Db, r: Request, now: int): Option<GateError> {
    if env.bodyHash(r.body) != r.bodySha256 then Some(BodyHashMismatch)
    else if r.deviceId !in db.devices then Some(NotRegistered)
    else if !db.devices[r.deviceId].trusted then Some(NotTrusted)
    else if Trim(db.devices[r.deviceId].publicKey) == "" then Some(KeyMissing)
    else if env.parse(r.timestamp).None? then Some(BadTimestamp)
    else if Skew(env.parse(r.timestamp).value, now) > WINDOW then Some(StaleTimestamp)
    else if !env.verify(db.devices[r.deviceId].publicKey, Message(r), r.signature) then Some(BadSignature)
    else None
  }

  // ---------- what passing means ----------

  /** The device's registered key signs exactly this request. */
  ghost predicate Signed(env: Env, db: TrustGraph.Db, r: Request) {
    && r.deviceId in db.devices
    && env.verify(db.devices[r.deviceId].publicKey,
                  SigningMessages.RestSigningMessage(
                    SigningMessages.RestFields(
                      r.verb, r.path, r.deviceId, r.timestamp, r.nonce, r.bodySha256)),
                  r.signature)
  }

  /** The timestamp is one, and neither more than five minutes old nor more than five minutes ahead. */
  ghost predicate Timely(env: Env, timestamp: string, now: int) {
    && env.parse(timestamp).Some?
    && now - 300_000_000_000 <= env.parse(timestamp).value <= now + 300_000_000_000
  }

  ghost predicate Genuine(env: Env, db: TrustGraph.Db, r: Request, now: int) {
    && env.bodyHash(r.body) == r.bodySha256
    && r.deviceId in db.devices && db.devices[r.deviceId].trusted && Trim(db.devices[r.deviceId].publicKey) != ""
    && Timely(env, r.timestamp, now) && Signed(env, db, r)
  }

  /** A request passes the checks if and only if its body is the one hashed, it comes from a trusted device
      with a key, in time on both sides of the clock, signed by that key; and what is wrong with a refused
      one is the first of these that fails. */
  lemma PassesExactly(env: Env, db: TrustGraph.Db, r: Request, now: int)
    ensures Check(env, db, r, now).None? <==> Genuine(env, db, r, now)
    ensures Check(env, db, r, now).Some? ==>
              var hashed := env.bodyHash(r.body) == r.bodySha256;
              var known := hashed && r.deviceId in db.devices;
              var trusted := known && db.devices[r.deviceId].trusted;
              var keyed := trusted && Trim(db.devices[r.deviceId].publicKey) != "";
              var dated := keyed && env.parse(r.timestamp).Some?;
              match Check(env, db, r, now).value
              case BodyHashMismatch => !hashed
              case NotRegistered => hashed && r.deviceId !in db.devices
              case NotTrusted => known && !db.devices[r.deviceId].trusted
              case KeyMissing => trusted && Trim(db.devices[r.deviceId].publicKey) == ""
              case BadTimestamp => keyed && env.parse(r.timestamp).None?
              case StaleTimestamp => dated && !Timely(env, r.timestamp, now)
              case BadSignature => dated && Timely(env, r.timestamp, now) && !Signed(env, db, r)
              case _ => false
  {
  }

  function CallOf(r: Request, now: int): NonceCache.Call {
    NonceCache.Call((r.deviceId, r.nonce), now)
  }

  /** The checks of a request that could be read, and the nonce. */
  method CheckAndRecord(
      env: Env, db: TrustGraph.Db, cache: NonceCache.NonceCache, r: Request, checkedAt: int, recordedAt: int)
    returns (result: Result<TrustGraph.Device, GateError>)
    modifies cache
    ensures result.Ok? <==>
            Genuine(env, db, r, checkedAt) && NonceCache.IsFresh(old(cache.entries), CallOf(r, recordedAt))
    ensures result.Ok? ==> TrustGraph.MayCall(db, r.deviceId) && result.value == db.devices[r.deviceId]
    ensures result.Err? ==>
              result.error == (if Check(env, db, r, checkedAt).Some? then Check(env, db, r, checkedAt).value
                               else NonceUsed)
    ensures cache.entries ==
            if Genuine(env, db, r, checkedAt)
            then NonceCache.Recorded(old(cache.entries), CallOf(r, recordedAt), cache.ttl)
            else old(cache.entries)
  {
    PassesExactly(env, db, r, checkedAt);
    if env.bodyHash(r.body) != r.bodySha256 {
      return Err(BodyHashMismatch);
    }
    if r.deviceId !in db.devices {
      return Err(NotRegistered);
    }
    var device := db.devices[r.deviceId];
    if !device.trusted {
      return Err(NotTrusted);
    }
    if Trim(device.publicKey) == "" {
      return Err(KeyMissing);
    }
    var timestamp := env.parse(r.timestamp);
    if timestamp.None? {
      return Err(BadTimestamp);
    }
    var skew := if timestamp.value > checkedAt then timestamp.value - checkedAt else checkedAt - timestamp.value;
    if skew > WINDOW {
      return Err(StaleTimestamp);
    }
    if !env.verify(device.publicKey, Message(r), r.signature) {
      return Err(BadSignature);
    }
    var unused := cache.Record(r.deviceId, r.nonce, recordedAt);
    if !unused {
      return Err(NonceUsed);
    }
    return Ok(device);
  }

  /** Only a request that passed every other check uses up its nonce. */
  method VerifySignedRequest(
      env: Env, db: TrustGraph.Db, cache: NonceCache.NonceCache, q: Incoming, checkedAt: int, recordedAt: int)
    returns (result: Result<TrustGraph.Device, GateError>)
    modifies cache
    ensures result.Ok? <==>
              && Readable(q) && Genuine(env, db, RequestOf(q), checkedAt)
              && NonceCache.IsFresh(old(cache.entries), CallOf(RequestOf(q), recordedAt))
    ensures result.Ok? ==>
              && TrustGraph.MayCall(db, RequestOf(q).deviceId) && result.value == db.devices[RequestOf(q).deviceId]
    ensures cache.entries ==
            if Readable(q) && Genuine(env, db, RequestOf(q), checkedAt)
            then NonceCache.Recorded(old(cache.entries), CallOf(RequestOf(q), recordedAt), cache.ttl)
            else old(cache.entries)
    ensures result.Err? ==>
              if !Readable(q) then Unreadable(q, result.error)
              else result.error == (if Check(env, db, RequestOf(q), checkedAt).Some?
                                    then Check(env, db, RequestOf(q), checkedAt).value else NonceUsed)
  {
    var r := ReadRequest(q);
    if r.Err? {
      return Err(r.error);
    }
    result := CheckAndRecord(env, db, cache, r.value, checkedAt, recordedAt);
  }

  // ---------- the client's side ----------

  /** The headers a client adds to a request it signs (crates/airpaste-agent/src/client.rs). */
  function SignedHeaders(env: Env, verb: string, path: string, body: Bytes, deviceId: string, timestamp: string,
                         nonce: string, sign: string -> string): map<string, string>
  {
    var hash := env.bodyHash(body);
    map[ALG_HEADER := SIGNATURE_ALG, DEVICE_ID_HEADER := deviceId, TIMESTAMP_HEADER := timestamp,
        NONCE_HEADER := nonce, BODY_SHA256_HEADER := hash,
        SIGNATURE_HEADER := sign(SigningMessages.RestSigningMessage(
          SigningMessages.RestFields(verb, path, deviceId, timestamp, nonce, hash)))]
  }

  predicate Tidy(s: string) {
    s != "" && Trim(s) == s
  }

  /** Header values are read without the whitespace around them, and count as missing when nothing is left. */
  lemma HeaderExactly(headers: map<string, string>, name: string)
    ensures HeaderValue(headers, name).Some? <==> name in headers && Trim(headers[name]) != ""
    ensures HeaderValue(headers, name).Some? ==> HeaderValue(headers, name).value == Trim(headers[name])
  {
  }

  lemma TidyStays(headers: map<string, string>, name: string)
    requires name in headers && Tidy(headers[name])
    ensures HeaderValue(headers, name) == Some(headers[name])
  {
  }

  /** Signing and verifying fit together: what a trusted device signs with the key it registered, at a time
      that is within the window when it arrives, is read back field by field and passes every check, so
      with an unused nonce it is let through. */
  lemma HonestRequestPasses(env: Env, db: TrustGraph.Db, verb: string, path: string, body: Bytes, deviceId: string,
                            timestamp: string, nonce: string, sign: string -> string, now: int)
    requires Tidy(deviceId) && Tidy(timestamp) && Tidy(nonce) && Tidy(env.bodyHash(body))
    requires forall m :: Tidy(sign(m))
    requires TrustGraph.MayCall(db, deviceId) && Timely(env, timestamp, now)
    requires forall m :: env.verify(db.devices[deviceId].publicKey, m, sign(m))
    ensures var q := Incoming(verb, path, Some(body),
                              SignedHeaders(env, verb, path, body, deviceId, timestamp, nonce, sign));
            && Readable(q)
            && RequestOf(q).deviceId == deviceId && RequestOf(q).timestamp == timestamp
            && RequestOf(q).nonce == nonce && RequestOf(q).bodySha256 == env.bodyHash(body)
            && Genuine(env, db, RequestOf(q), now)
  {
    var headers := SignedHeaders(env, verb, path, body, deviceId, timestamp, nonce, sign);
    HeaderEntries(env, verb, path, body, deviceId, timestamp, nonce, sign);
    AlgorithmIsTidy();
    ReadBack(Incoming(verb, path, Some(body), headers));
  }

  /** Which header holds what. */
  lemma HeaderEntries(env: Env, verb: string, path: string, body: Bytes, deviceId: string, timestamp: string,
                      nonce: string, sign: string -> string)
    ensures var headers := SignedHeaders(env, verb, path, body, deviceId, timestamp, nonce, sign);
            && headers.Keys == {ALG_HEADER, DEVICE_ID_HEADER, TIMESTAMP_HEADER, NONCE_HEADER, BODY_SHA256_HEADER,
                                SIGNATURE_HEADER}
            && headers[ALG_HEADER] == SIGNATURE_ALG && headers[DEVICE_ID_HEADER] == deviceId
            && headers[TIMESTAMP_HEADER] == timestamp && headers[NONCE_HEADER] == nonce
            && headers[BODY_SHA256_HEADER] == env.bodyHash(body)
            && headers[SIGNATURE_HEADER] == sign(SigningMessages.RestSigningMessage(
                 SigningMessages.RestFields(verb, path, deviceId, timestamp, nonce, env.bodyHash(body))))
  {
    HeadersDiffer();
  }

  lemma ReadBack(q: Incoming)
    requires q.body.Some?
    requires q.headers.Keys == {ALG_HEADER, DEVICE_ID_HEADER, TIMESTAMP_HEADER, NONCE_HEADER, BODY_SHA256_HEADER,
                                SIGNATURE_HEADER}
    requires forall name :: name in q.headers ==> Tidy(q.headers[name])
    requires q.headers[ALG_HEADER] == SIGNATURE_ALG
    ensures Readable(q)
    ensures RequestOf(q)
         == Request(q.verb, q.path, q.body.value, q.headers[DEVICE_ID_HEADER], q.headers[TIMESTAMP_HEADER],
                    q.headers[NONCE_HEADER], q.headers[BODY_SHA256_HEADER], q.headers[SIGNATURE_HEADER])
  {
    forall name | name in q.headers ensures HeaderValue(q.headers, name) == Some(q.headers[name]) {
      TidyStays(q.headers, name);
    }
    assert forall name :: name in SIGNED_HEADERS ==> name in q.headers;
  }

  lemma HeadersDiffer()
    ensures |ALG_HEADER| == 24 && |NONCE_HEADER| == 16 && |BODY_SHA256_HEADER| == 22
    ensures |DEVICE_ID_HEADER| == |TIMESTAMP_HEADER| == |SIGNATURE_HEADER| == 20
    ensures DEVICE_ID_HEADER[11] == 'd' && TIMESTAMP_HEADER[11] == 't' && SIGNATURE_HEADER[11] == 's'
  {
  }

  lemma AlgorithmIsTidy()
    ensures Tidy(SIGNATURE_ALG)
  {
    InRangesExactly('e', WHITESPACE);
    InRangesExactly('1', WHITESPACE);
    assert SIGNATURE_ALG[0] == 'e' && SIGNATURE_ALG[|SIGNATURE_ALG| - 1] == '1';
    TrimStays(SIGNATURE_ALG);
  }

  // ---------- histories ----------

  /** A request as it meets the server: the tables it was checked against, and when the timestamp was
      checked and the nonce recorded. */
  datatype Arrival = Arrival(db: TrustGraph.Db, request: Request, checkedAt: int, recordedAt: int)

  predicate Passes(env: Env, a: Arrival) {
    Check(env, a.db, a.request, a.checkedAt).None?
  }

  /** The calls of the nonce cache that a list of arrivals makes. */
  function Calls(env: Env, arrivals: seq<Arrival>): seq<NonceCache.Call> {
    if arrivals == [] then []
    else
      var last := arrivals[|arrivals| - 1];
      Calls(env, arrivals[..|arrivals| - 1])
          + (if Passes(env, last) then [CallOf(last.request, last.recordedAt)] else [])
  }

  predicate LetThrough(env: Env, arrivals: seq<Arrival>, i: nat)
    requires i < |arrivals|
  {
    && Passes(env, arrivals[i])
    && NonceCache.IsFresh(NonceCache.After(Calls(env, arrivals[..i]), WINDOW),
                          CallOf(arrivals[i].request, arrivals[i].recordedAt))
  }

  /** The nonces are recorded in the order of their times, up to `slack`: the time is read before the
      lock is taken, so requests can overtake one another in between. */
  predicate InOrder(arrivals: seq<Arrival>, slack: nat) {
    forall j, k :: 0 <= j <= k < |arrivals| ==> arrivals[j].recordedAt <= arrivals[k].recordedAt + slack
  }

  lemma {:induction false} CallsOfPrefix(env: Env, arrivals: seq<Arrival>, n: nat)
    requires n <= |arrivals|
    ensures Calls(env, arrivals[..n]) <= Calls(env, arrivals)
    decreases |arrivals|
  {
    if n == |arrivals| {
      assert arrivals[..n] == arrivals;
    } else {
      assert arrivals[..|arrivals| - 1][..n] == arrivals[..n];
      CallsOfPrefix(env, arrivals[..|arrivals| - 1], n);
    }
  }

  /** Where a passing arrival's call is found among all calls. */
  lemma CallAt(env: Env, arrivals: seq<Arrival>, i: nat) returns (p: nat)
    requires i < |arrivals| && Passes(env, arrivals[i])
    ensures p == |Calls(env, arrivals[..i])| < |Calls(env, arrivals)|
    ensures Calls(env, arrivals)[p] == CallOf(arrivals[i].request, arrivals[i].recordedAt)
    ensures NonceCache.Accepted(Calls(env, arrivals), p, WINDOW) == LetThrough(env, arrivals, i)
  {
    p := |Calls(env, arrivals[..i])|;
    assert arrivals[..i + 1][..i] == arrivals[..i];
    CallsOfPrefix(env, arrivals, i + 1);
    CallsOfPrefix(env, arrivals, i);
    assert Calls(env, arrivals)[..p] == Calls(env, arrivals[..i]);
  }

  lemma OrderAppends(cs: seq<NonceCache.Call>, c: NonceCache.Call, slack: nat)
    requires NonceCache.NearlyOrdered(cs, slack) && forall k :: 0 <= k < |cs| ==> cs[k].now <= c.now + slack
    ensures NonceCache.NearlyOrdered(cs + [c], slack)
  {
  }

  lemma {:induction false} CallTimes(env: Env, arrivals: seq<Arrival>, last: int, slack: nat)
    requires InOrder(arrivals, slack) && forall k :: 0 <= k < |arrivals| ==> arrivals[k].recordedAt <= last + slack
    ensures NonceCache.NearlyOrdered(Calls(env, arrivals), slack)
    ensures forall k :: 0 <= k < |Calls(env, arrivals)| ==> Calls(env, arrivals)[k].now <= last + slack
  {
    if arrivals != [] {
      var before, a := arrivals[..|arrivals| - 1], arrivals[|arrivals| - 1];
      CallTimes(env, before, last, slack);
      CallTimes(env, before, a.recordedAt, slack);
      OrderAppends(Calls(env, before), CallOf(a.request, a.recordedAt), slack);
    }
  }

  /** A nonce that was let through is let through again only a full window later, less what requests
      can be out of order. */
  lemma LetThroughApart(env: Env, arrivals: seq<Arrival>, slack: nat, i: nat, j: nat)
    requires i < j < |arrivals| && InOrder(arrivals, slack)
    requires LetThrough(env, arrivals, i) && LetThrough(env, arrivals, j)
    requires arrivals[i].request.deviceId == arrivals[j].request.deviceId
    requires arrivals[i].request.nonce == arrivals[j].request.nonce
    ensures arrivals[i].recordedAt + WINDOW <= arrivals[j].recordedAt + slack
  {
    var p := CallAt(env, arrivals, i);
    var q := CallAt(env, arrivals, j);
    CallTimes(env, arrivals, arrivals[|arrivals| - 1].recordedAt, slack);
    assert p < q by {
      assert arrivals[..j][..i] == arrivals[..i] && arrivals[..j][i] == arrivals[i];
      var p' := CallAt(env, arrivals[..j], i);
    }
    NonceCache.NearlyRefinesLog(Calls(env, arrivals), q, WINDOW, slack);
  }

  /** A request is let through at most once in any run if its timestamp lies before its first acceptance
      by more than the time the repetition then spends between its two clock readings and what requests
      can be out of order. */
  lemma LetThroughAtMostOnce(env: Env, arrivals: seq<Arrival>, slack: nat, i: nat, j: nat)
    requires i < j < |arrivals| && InOrder(arrivals, slack) && LetThrough(env, arrivals, i)
    requires arrivals[i].request.deviceId == arrivals[j].request.deviceId
    requires arrivals[i].request.nonce == arrivals[j].request.nonce
    requires arrivals[i].request.timestamp == arrivals[j].request.timestamp
    requires env.parse(arrivals[i].request.timestamp).Some?
    requires env.parse(arrivals[i].request.timestamp).value + (arrivals[j].recordedAt - arrivals[j].checkedAt) + slack
             < arrivals[i].recordedAt
    ensures !LetThrough(env, arrivals, j)
  {
    if LetThrough(env, arrivals, j) {
      LetThroughApart(env, arrivals, slack, i, j);
    }
  }

  /** Everything let through, in any run, was signed: by the key then registered for its device, which was
      trusted, over exactly its own fields, the hash of its body among them, and in time. */
  lemma LetThroughWasSigned(env: Env, arrivals: seq<Arrival>, i: nat)
    requires i < |arrivals| && LetThrough(env, arrivals, i)
    ensures var (db, r) := (arrivals[i].db, arrivals[i].request);
            && r.deviceId in db.devices && db.devices[r.deviceId].trusted
            && env.bodyHash(r.body) == r.bodySha256
            && env.verify(db.devices[r.deviceId].publicKey,
                          SigningMessages.RestSigningMessage(
                            SigningMessages.RestFields(
                              r.verb, r.path, r.deviceId, r.timestamp, r.nonce, env.bodyHash(r.body))),
                          r.signature)
            && Timely(env, r.timestamp, arrivals[i].checkedAt)
  {
    PassesExactly(env, arrivals[i].db, arrivals[i].request, arrivals[i].checkedAt);
  }

  /** What a signature covers: two requests that pass with the same signed message agree in device, path,
      timestamp and nonce, in the verb up to ASCII case, and in the hash of their bodies. */
  lemma SignedMessageFixesRequest(env: Env, a: Arrival, b: Arrival)
    requires Passes(env, a) && Passes(env, b) && Message(a.request) == Message(b.request)
    requires SigningMessages.RestNewlineFree(Fields(a.request)) && SigningMessages.RestNewlineFree(Fields(b.request))
    ensures a.request.deviceId == b.request.deviceId && a.request.path == b.request.path
    ensures a.request.timestamp == b.request.timestamp && a.request.nonce == b.request.nonce
    ensures SigningMessages.ToAsciiUppercase(a.request.verb) == SigningMessages.ToAsciiUppercase(b.request.verb)
    ensures env.bodyHash(a.request.body) == env.bodyHash(b.request.body)
  {
    SigningMessages.RestMessageUnambiguous(Fields(a.request), Fields(b.request));
  }

  /** The hash as text is the digest in base64url, so no two digests share it. */
  lemma BodyHashFixesDigest(digest: Bytes -> Bytes, a: Bytes, b: Bytes)
    ensures Base64Url.Encode(digest(a)) == Base64Url.Encode(digest(b)) <==> digest(a) == digest(b)
  {
    if Base64Url.Encode(digest(a)) == Base64Url.Encode(digest(b)) {
      Base64Url.EncodeInjective(digest(a), digest(b));
    }
  }

  /** The condition is sharp: repeated one window after its first acceptance, the same request passes
      again exactly when its timestamp is not before that acceptance. */
  lemma RepeatedAfterWindow(env: Env, db: TrustGraph.Db, r: Request, now: int)
    requires Check(env, db, r, now).None?
    ensures var arrivals := [Arrival(db, r, now, now), Arrival(db, r, now + WINDOW, now + WINDOW)];
            && InOrder(arrivals, 0) && LetThrough(env, arrivals, 0)
            && (LetThrough(env, arrivals, 1) <==> env.parse(r.timestamp).value >= now)
  {
    var arrivals := [Arrival(db, r, now, now), Arrival(db, r, now + WINDOW, now + WINDOW)];
    assert arrivals[..0] == [] && arrivals[..1] == [arrivals[0]];
    assert [arrivals[0]][..0] == [];
    var calls := [CallOf(r, now)];
    assert Calls(env, arrivals[..1]) == calls;
    assert calls[..0] == [];
    assert NonceCache.After(calls, WINDOW) == map[(r.deviceId, r.nonce) := now + WINDOW];
  }
}
