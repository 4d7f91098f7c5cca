/** Sealing a body for a list of devices and opening it again (crates/airpaste-crypto/src/lib.rs), over
    abstract primitives of which only the functional laws are used. */
module SealOpen {
  import opened Wrappers

  const KEY_LEN: nat := 32
  const NONCE_LEN: nat := 24

  type Key = b: Bytes | |b| == KEY_LEN witness seq(KEY_LEN, _ => 0)

  type Nonce = b: Bytes | |b| == NONCE_LEN witness seq(NONCE_LEN, _ => 0)

  /** X25519, HKDF-SHA256 to 32 bytes, XChaCha20-Poly1305 (key, nonce, associated data, text), and
      standard base64. Encryption refuses texts beyond `longest`. */
  datatype Primitives = Primitives(
    publicKey: Key -> Key,
    agree: (Key, Key) -> Bytes,
    hkdf: (Bytes, Bytes) -> Key,
    encrypt: (Key, Nonce, Bytes, Bytes) -> Bytes,
    decrypt: (Key, Nonce, Bytes, Bytes) -> Option<Bytes>,
    encode: Bytes -> string,
    decode: string -> Option<Bytes>,
    longest: nat)

  ghost predicate Lawful(c: Primitives) {
    && (forall a, b :: c.agree(a, c.publicKey(b)) == c.agree(b, c.publicKey(a)))
    && (forall k, n, aad, m :: c.decrypt(k, n, aad, c.encrypt(k, n, aad, m)) == Some(m))
    && (forall b :: c.decode(c.encode(b)) == Some(b))
    && KEY_LEN <= c.longest
  }

  function CharsOf(b: Bytes): string {
    seq(|b|, k requires 0 <= k < |b| => b[k] as char)
  }

  function BytesFrom(s: string): Option<Bytes> {
    if forall k :: 0 <= k < |s| ==> s[k] as int < 256
    then Some(seq(|s|, k requires 0 <= k < |s| => s[k] as int))
    else None
  }

  /** The laws can be met, so what follows from them is not empty. */
  lemma LawsAreConsistent() returns (c: Primitives)
    ensures Lawful(c)
  {
    c := Primitives(
      k => k, (a, b) => [], (shared, info) => seq(KEY_LEN, _ => 0), (k, n, aad, m) => m, (k, n, aad, m) => Some(m),
      CharsOf, BytesFrom, KEY_LEN);
    forall b: Bytes ensures c.decode(c.encode(b)) == Some(b) {
      assert BytesFrom(CharsOf(b)).value == b;
    }
  }

  datatype CryptoError = Base64Error | LengthError | AeadError | NoWrappedKey

  datatype Recipient = Recipient(deviceId: string, publicKey: string)

  datatype WrappedKey = WrappedKey(deviceId: string, ephemeral: string, nonce: string, ciphertext: string)

  datatype Sealed = Sealed(ciphertext: Bytes, nonce: Nonce, wrappedKeys: seq<WrappedKey>)

  /** The random values one call draws: the content key, the body nonce, and for every recipient an
      ephemeral secret and a nonce. */
  datatype Draws = Draws(contentKey: Key, bodyNonce: Nonce, ephemerals: seq<Key>, nonces: seq<Nonce>)

  function Ascii(s: string): Bytes
    requires forall k :: 0 <= k < |s| ==> s[k] as int < 128
  {
    seq(|s|, k requires 0 <= k < |s| => s[k] as int)
  }

  const KEY_WRAP_INFO: Bytes := Ascii("airpaste-key-wrap-v1")
  const BODY_AAD: Bytes := Ascii("airpaste-text-body-v1")

  function WrapInfo(ephemeral: Key, recipient: Key): Bytes {
    KEY_WRAP_INFO + ephemeral + recipient
  }

  method DeriveWrapKey(c: Primitives, shared: Bytes, ephemeral: Key, recipient: Key) returns (key: Key)
    ensures key == c.hkdf(shared, WrapInfo(ephemeral, recipient))
  {
    var info := KEY_WRAP_INFO;
    info := info + ephemeral;
    info := info + recipient;
    key := c.hkdf(shared, info);
  }

  /** A wrapping key is bound to both public keys: no other pair gives the same derivation input. */
  lemma WrapInfoBindsKeys(e: Key, r: Key, e': Key, r': Key)
    ensures WrapInfo(e, r) == WrapInfo(e', r') <==> e == e' && r == r'
  {
    var n := |KEY_WRAP_INFO|;
    assert WrapInfo(e, r)[n..n + KEY_LEN] == e && WrapInfo(e, r)[n + KEY_LEN..] == r;
    assert WrapInfo(e', r')[n..n + KEY_LEN] == e' && WrapInfo(e', r')[n + KEY_LEN..] == r';
  }

  // ---------- decoding fields ----------

  function DecodeArray(c: Primitives, n: nat, value: string): (r: Result<Bytes, CryptoError>)
    ensures r.Ok? ==> |r.value| == n && c.decode(value) == Some(r.value)
  {
    var bytes := c.decode(value);
    if bytes.None? then Err(Base64Error) else if |bytes.value| != n then Err(LengthError) else Ok(bytes.value)
  }

  function DecodeKey(c: Primitives, value: string): Result<Key, CryptoError> {
    var bytes := DecodeArray(c, KEY_LEN, value);
    if bytes.Ok? then Ok(bytes.value) else Err(bytes.error)
  }

  // ---------- sealing ----------

  function WrapOne(c: Primitives, r: Recipient, contentKey: Key, ephemeral: Key, nonce: Nonce):
    Result<WrappedKey, CryptoError>
  {
    var recipient := DecodeKey(c, r.publicKey);
    if recipient.Err? then Err(recipient.error)
    else
      var public := c.publicKey(ephemeral);
      var wrapKey := c.hkdf(c.agree(ephemeral, recipient.value), WrapInfo(public, recipient.value));
      if |contentKey| > c.longest then Err(AeadError)
      else Ok(WrappedKey(r.deviceId, c.encode(public), c.encode(nonce),
                         c.encode(c.encrypt(wrapKey, nonce, [], contentKey))))
  }

  /** Draws enough for the recipients. */
  predicate Enough(d: Draws, recipients: seq<Recipient>) {
    |d.ephemerals| == |recipients| && |d.nonces| == |recipients|
  }

  /** The keys wrapped for the first `n` recipients, or the first one's error. */
  function WrapAll(c: Primitives, recipients: seq<Recipient>, d: Draws, n: nat): Result<seq<WrappedKey>, CryptoError>
    requires n <= |recipients| && Enough(d, recipients)
  {
    if n == 0 then Ok([])
    else
      var before := WrapAll(c, recipients, d, n - 1);
      if before.Err? then before
      else
        var last := WrapOne(c, recipients[n - 1], d.contentKey, d.ephemerals[n - 1], d.nonces[n - 1]);
        if last.Err? then Err(last.error) else Ok(before.value + [last.value])
  }

  function Seal(c: Primitives, plaintext: Bytes, recipients: seq<Recipient>, d: Draws): Result<Sealed, CryptoError>
    requires Enough(d, recipients)
  {
    if recipients == [] then Err(NoWrappedKey)
    else if |plaintext| > c.longest then Err(AeadError)
    else
      var keys := WrapAll(c, recipients, d, |recipients|);
      if keys.Err? then Err(keys.error)
      else Ok(Sealed(c.encrypt(d.contentKey, d.bodyNonce, BODY_AAD, plaintext), d.bodyNonce, keys.value))
  }

  method SealBytes(c: Primitives, plaintext: Bytes, recipients: seq<Recipient>, d: Draws)
    returns (r: Result<Sealed, CryptoError>)
    requires Enough(d, recipients)
    ensures r == Seal(c, plaintext, recipients, d)
  {
    if |recipients| == 0 {
      return Err(NoWrappedKey);
    }
    if |plaintext| > c.longest {
      return Err(AeadError);
    }
    var body := c.encrypt(d.contentKey, d.bodyNonce, BODY_AAD, plaintext);
    var wrappedKeys: seq<WrappedKey> := [];
    for k := 0 to |recipients|
      invariant WrapAll(c, recipients, d, k) == Ok(wrappedKeys)
    {
      var recipient := DecodeKey(c, recipients[k].publicKey);
      if recipient.Err? {
        ErrorStays(c, recipients, d, k + 1);
        return Err(recipient.error);
      }
      var public := c.publicKey(d.ephemerals[k]);
      var shared := c.agree(d.ephemerals[k], recipient.value);
      var wrapKey := DeriveWrapKey(c, shared, public, recipient.value);
      if |d.contentKey| > c.longest {
        ErrorStays(c, recipients, d, k + 1);
        return Err(AeadError);
      }
      var wrapped := c.encrypt(wrapKey, d.nonces[k], [], d.contentKey);
      wrappedKeys := wrappedKeys + [
        WrappedKey(recipients[k].deviceId, c.encode(public), c.encode(d.nonces[k]), c.encode(wrapped))];
    }
    r := Ok(Sealed(body, d.bodyNonce, wrappedKeys));
  }

  lemma {:induction false} ErrorStays(c: Primitives, recipients: seq<Recipient>, d: Draws, n: nat)
    requires n <= |recipients| && Enough(d, recipients) && WrapAll(c, recipients, d, n).Err?
    ensures WrapAll(c, recipients, d, |recipients|) == WrapAll(c, recipients, d, n)
    decreases |recipients| - n
  {
    if n < |recipients| {
      ErrorStays(c, recipients, d, n + 1);
    }
  }

  // ---------- opening ----------

  function FirstFor(keys: seq<WrappedKey>, deviceId: string): Option<WrappedKey> {
    if keys == [] then None
    else if keys[0].deviceId == deviceId then Some(keys[0])
    else FirstFor(keys[1..], deviceId)
  }

  function UnwrapContentKey(c: Primitives, wrapped: WrappedKey, secret: Key): Result<Key, CryptoError> {
    var ephemeral := DecodeKey(c, wrapped.ephemeral);
    if ephemeral.Err? then Err(ephemeral.error)
    else
      var wrapKey := c.hkdf(c.agree(secret, ephemeral.value), WrapInfo(ephemeral.value, c.publicKey(secret)));
      var nonce := DecodeArray(c, NONCE_LEN, wrapped.nonce);
      if nonce.Err? then Err(nonce.error)
      else
        var ciphertext := c.decode(wrapped.ciphertext);
        if ciphertext.None? then Err(Base64Error)
        else
          var contentKey := c.decrypt(wrapKey, nonce.value, [], ciphertext.value);
          if contentKey.None? then Err(AeadError)
          else if |contentKey.value| != KEY_LEN then Err(LengthError)
          else Ok(contentKey.value)
  }

  function Open(c: Primitives, ciphertext: Bytes, nonce: Bytes, keys: seq<WrappedKey>, deviceId: string, secret: Key)
    : Result<Bytes, CryptoError>
  {
    var wrapped := FirstFor(keys, deviceId);
    if wrapped.None? then Err(NoWrappedKey)
    else
      var contentKey := UnwrapContentKey(c, wrapped.value, secret);
      if contentKey.Err? then Err(contentKey.error)
      else if |nonce| != NONCE_LEN then Err(LengthError)
      else
        var plaintext := c.decrypt(contentKey.value, nonce, BODY_AAD, ciphertext);
        if plaintext.None? then Err(AeadError) else Ok(plaintext.value)
  }

  // ---------- main results ----------

  lemma {:induction false} WrappedInOrder(c: Primitives, recipients: seq<Recipient>, d: Draws, n: nat, k: nat)
    requires k < n <= |recipients| && Enough(d, recipients) && WrapAll(c, recipients, d, n).Ok?
    ensures |WrapAll(c, recipients, d, n).value| == n
    ensures Ok(WrapAll(c, recipients, d, n).value[k])
         == WrapOne(c, recipients[k], d.contentKey, d.ephemerals[k], d.nonces[k])
  {
    if n == 1 {
    } else if k < n - 1 {
      WrappedInOrder(c, recipients, d, n - 1, k);
    } else {
      WrappedInOrder(c, recipients, d, n - 1, 0);
    }
  }

  predicate GoodKey(c: Primitives, r: Recipient) {
    c.decode(r.publicKey).Some? && |c.decode(r.publicKey).value| == KEY_LEN
  }

  lemma {:induction false} WrapSucceedsExactly(c: Primitives, recipients: seq<Recipient>, d: Draws, n: nat)
    requires Lawful(c) && n <= |recipients| && Enough(d, recipients)
    ensures WrapAll(c, recipients, d, n).Ok? <==> forall k :: 0 <= k < n ==> GoodKey(c, recipients[k])
  {
    if n > 0 {
      WrapSucceedsExactly(c, recipients, d, n - 1);
    }
  }

  /** Sealing succeeds exactly when there are recipients, the body is not too long, and every listed key
      decodes to 32 bytes; then there is one wrapped key per recipient, in order. */
  lemma SealSucceedsExactly(c: Primitives, plaintext: Bytes, recipients: seq<Recipient>, d: Draws)
    requires Lawful(c) && Enough(d, recipients)
    ensures var r := Seal(c, plaintext, recipients, d);
            && (r.Ok? <==> recipients != [] && |plaintext| <= c.longest
                           && forall k :: 0 <= k < |recipients| ==> GoodKey(c, recipients[k]))
            && (r.Ok? ==> |r.value.wrappedKeys| == |recipients|)
            && (r.Ok? ==> forall k :: 0 <= k < |recipients| ==>
                r.value.wrappedKeys[k].deviceId == recipients[k].deviceId)
  {
    WrapSucceedsExactly(c, recipients, d, |recipients|);
    if Seal(c, plaintext, recipients, d).Ok? {
      forall k | 0 <= k < |recipients|
        ensures |WrapAll(c, recipients, d, |recipients|).value| == |recipients|
        ensures WrapAll(c, recipients, d, |recipients|).value[k].deviceId == recipients[k].deviceId
      {
        WrappedInOrder(c, recipients, d, |recipients|, k);
      }
      WrappedInOrder(c, recipients, d, |recipients|, 0);
    }
  }

  /** The error of a listed key that is not one. */
  function KeyProblem(c: Primitives, r: Recipient): CryptoError {
    if c.decode(r.publicKey).None? then Base64Error else LengthError
  }

  lemma {:induction false} FirstBadKey(c: Primitives, recipients: seq<Recipient>, d: Draws, n: nat, k: nat)
    requires Lawful(c) && k < n <= |recipients| && Enough(d, recipients)
    requires !GoodKey(c, recipients[k]) && forall j :: 0 <= j < k ==> GoodKey(c, recipients[j])
    ensures WrapAll(c, recipients, d, n) == Err(KeyProblem(c, recipients[k]))
  {
    WrapSucceedsExactly(c, recipients, d, k);
    if n - 1 > k {
      FirstBadKey(c, recipients, d, n - 1, k);
    }
  }

  /** Why sealing fails: without recipients, for a body that is too long, and otherwise for the first listed
      key that is not base64 or not 32 bytes long. */
  lemma SealFailsExactly(c: Primitives, plaintext: Bytes, recipients: seq<Recipient>, d: Draws)
    requires Lawful(c) && Enough(d, recipients)
    ensures Seal(c, plaintext, recipients, d) == Err(NoWrappedKey) <==> recipients == []
    ensures Seal(c, plaintext, recipients, d) == Err(AeadError) <==> recipients != [] && |plaintext| > c.longest
    ensures forall k :: && 0 <= k < |recipients| && |plaintext| <= c.longest && !GoodKey(c, recipients[k])
                        && (forall j :: 0 <= j < k ==> GoodKey(c, recipients[j])) ==>
              Seal(c, plaintext, recipients, d) == Err(KeyProblem(c, recipients[k]))
  {
    forall k | && 0 <= k < |recipients| && !GoodKey(c, recipients[k])
               && forall j :: 0 <= j < k ==> GoodKey(c, recipients[j])
      ensures WrapAll(c, recipients, d, |recipients|) == Err(KeyProblem(c, recipients[k]))
    {
      FirstBadKey(c, recipients, d, |recipients|, k);
    }
    if WrapAll(c, recipients, d, |recipients|).Err? {
      WrapErrors(c, recipients, d, |recipients|);
    }
  }

  lemma {:induction false} WrapErrors(c: Primitives, recipients: seq<Recipient>, d: Draws, n: nat)
    requires Lawful(c) && n <= |recipients| && Enough(d, recipients) && WrapAll(c, recipients, d, n).Err?
    ensures WrapAll(c, recipients, d, n).error in {Base64Error, LengthError}
  {
    if n > 0 && WrapAll(c, recipients, d, n - 1).Err? {
      WrapErrors(c, recipients, d, n - 1);
    }
  }

  lemma {:induction false} FirstForFinds(keys: seq<WrappedKey>, deviceId: string, i: nat)
    requires i < |keys| && keys[i].deviceId == deviceId && forall k :: 0 <= k < i ==> keys[k].deviceId != deviceId
    ensures FirstFor(keys, deviceId) == Some(keys[i])
  {
    if i > 0 {
      FirstForFinds(keys[1..], deviceId, i - 1);
    }
  }

  lemma {:induction false} FirstForMisses(keys: seq<WrappedKey>, deviceId: string)
    requires forall k :: 0 <= k < |keys| ==> keys[k].deviceId != deviceId
    ensures FirstFor(keys, deviceId).None?
  {
    if keys != [] {
      FirstForMisses(keys[1..], deviceId);
    }
  }

  /** Why opening fails: no key for the device; else what unwrapping its first key reports; else a nonce that
      is not 24 bytes long; else a body that does not decrypt. */
  lemma OpenExactly(c: Primitives, ciphertext: Bytes, nonce: Bytes, keys: seq<WrappedKey>, deviceId: string,
                    secret: Key, i: nat)
    requires i <= |keys| && forall k :: 0 <= k < i ==> keys[k].deviceId != deviceId
    requires i < |keys| ==> keys[i].deviceId == deviceId
    ensures i == |keys| ==> Open(c, ciphertext, nonce, keys, deviceId, secret) == Err(NoWrappedKey)
    ensures i < |keys| ==>
              match UnwrapContentKey(c, keys[i], secret)
              case Err(e) => Open(c, ciphertext, nonce, keys, deviceId, secret) == Err(e)
              case Ok(key) =>
                if |nonce| != 24 then Open(c, ciphertext, nonce, keys, deviceId, secret) == Err(LengthError)
                else match c.decrypt(key, nonce, BODY_AAD, ciphertext)
                     case None => Open(c, ciphertext, nonce, keys, deviceId, secret) == Err(AeadError)
                     case Some(text) => Open(c, ciphertext, nonce, keys, deviceId, secret) == Ok(text)
  {
    if i == |keys| {
      FirstForMisses(keys, deviceId);
    } else {
      FirstForFinds(keys, deviceId, i);
    }
  }

  /** What unwrapping reports: a field that is not base64, one of the wrong length, or a key that was not
      wrapped for this secret, in the order the fields are used. */
  lemma UnwrapExactly(c: Primitives, wrapped: WrappedKey, secret: Key)
    ensures var r := UnwrapContentKey(c, wrapped, secret);
            var ephemeral, nonce := c.decode(wrapped.ephemeral), c.decode(wrapped.nonce);
            var text := c.decode(wrapped.ciphertext);
            && (ephemeral.None? ==> r == Err(Base64Error))
            && (ephemeral.Some? && |ephemeral.value| != 32 ==> r == Err(LengthError))
            && (ephemeral.Some? && |ephemeral.value| == 32 ==>
                  && (nonce.None? ==> r == Err(Base64Error))
                  && (nonce.Some? && |nonce.value| != 24 ==> r == Err(LengthError))
                  && (nonce.Some? && |nonce.value| == 24 ==>
                        && (text.None? ==> r == Err(Base64Error))
                        && (text.Some? ==>
                              var e: Key, n: Nonce := ephemeral.value, nonce.value;
                              var key := c.hkdf(c.agree(secret, e), WrapInfo(e, c.publicKey(secret)));
                              match c.decrypt(key, n, [], text.value)
                              case None => r == Err(AeadError)
                              case Some(k) => r == if |k| == 32 then Ok(k) else Err(LengthError))))
  {
  }

  /** Both sides agree on the wrapping key, so the content key comes back. */
  lemma UnwrapUndoesWrap(c: Primitives, r: Recipient, contentKey: Key, ephemeral: Key, nonce: Nonce, secret: Key)
    requires Lawful(c) && c.decode(r.publicKey) == Some(c.publicKey(secret))
    ensures var wrapped := WrapOne(c, r, contentKey, ephemeral, nonce);
            wrapped.Ok? && UnwrapContentKey(c, wrapped.value, secret) == Ok(contentKey)
  {
    var public, recipient := c.publicKey(ephemeral), c.publicKey(secret);
    assert c.agree(ephemeral, recipient) == c.agree(secret, public);
    var wrapKey := c.hkdf(c.agree(ephemeral, recipient), WrapInfo(public, recipient));
    assert c.decode(c.encode(public)) == Some(public) && c.decode(c.encode(nonce)) == Some(nonce);
    var ciphertext := c.encrypt(wrapKey, nonce, [], contentKey);
    assert c.decode(c.encode(ciphertext)) == Some(ciphertext);
    assert c.decrypt(wrapKey, nonce, [], ciphertext) == Some(contentKey);
  }

  /** Every recipient whose secret matches its listed key opens to exactly the plaintext - of several
      entries for one device the first, so all of them when ids are distinct. */
  lemma OpenUndoesSeal(c: Primitives, plaintext: Bytes, recipients: seq<Recipient>, d: Draws, i: nat, secret: Key)
    requires Lawful(c) && Enough(d, recipients) && Seal(c, plaintext, recipients, d).Ok?
    requires i < |recipients| && forall k :: 0 <= k < i ==> recipients[k].deviceId != recipients[i].deviceId
    requires c.decode(recipients[i].publicKey) == Some(c.publicKey(secret))
    ensures var s := Seal(c, plaintext, recipients, d).value;
            Open(c, s.ciphertext, s.nonce, s.wrappedKeys, recipients[i].deviceId, secret) == Ok(plaintext)
  {
    var s := Seal(c, plaintext, recipients, d).value;
    SealSucceedsExactly(c, plaintext, recipients, d);
    WrappedInOrder(c, recipients, d, |recipients|, i);
    FirstForFinds(s.wrappedKeys, recipients[i].deviceId, i);
    UnwrapUndoesWrap(c, recipients[i], d.contentKey, d.ephemerals[i], d.nonces[i], secret);
  }

  /** A device that is not listed gets no key, whatever secret it holds. */
  lemma UnlistedHasNoKey(c: Primitives, plaintext: Bytes, recipients: seq<Recipient>, d: Draws, deviceId: string,
                         secret: Key)
    requires Lawful(c) && Enough(d, recipients) && Seal(c, plaintext, recipients, d).Ok?
    requires forall k :: 0 <= k < |recipients| ==> recipients[k].deviceId != deviceId
    ensures var s := Seal(c, plaintext, recipients, d).value;
            Open(c, s.ciphertext, s.nonce, s.wrappedKeys, deviceId, secret) == Err(NoWrappedKey)
  {
    SealSucceedsExactly(c, plaintext, recipients, d);
    FirstForMisses(Seal(c, plaintext, recipients, d).value.wrappedKeys, deviceId);
  }
}
