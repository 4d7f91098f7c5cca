/** The relayed file and its encryption together: what `seal_bytes` makes for the one recipient of a
    relay session is what that recipient's `open_bytes` opens, so the transfer system's assumption about
    prepared files is met (crates/airpaste-agent/src/relay.rs, crates/airpaste-crypto/src/lib.rs). */
module SealedTransfer {
  import opened Wrappers
  import SealOpen
  import RelayFrames
  import TransferSystem

  /** How the body nonce and the wrapped keys travel in a file header. */
  datatype HeadCodec = HeadCodec(
    write: (Bytes, seq<SealOpen.WrappedKey>) -> RelayFrames.Head,
    read: RelayFrames.Head -> Option<(Bytes, seq<SealOpen.WrappedKey>)>)

  ghost predicate Faithful(codec: HeadCodec) {
    forall nonce, keys :: codec.read(codec.write(nonce, keys)) == Some((nonce, keys))
  }

  /** The recipient's decryption of a relayed body. */
  function OpenBody(c: SealOpen.Primitives, codec: HeadCodec, deviceId: string, secret: SealOpen.Key,
                    head: RelayFrames.Head, ciphertext: Bytes): Option<Bytes>
  {
    var fields := codec.read(head);
    if fields.None? then None
    else
      var plaintext := SealOpen.Open(c, ciphertext, fields.value.0, fields.value.1, deviceId, secret);
      if plaintext.Ok? then Some(plaintext.value) else None
  }

  /** `prepare_relay_file`: the file sealed for the session's recipient only. */
  function Prepared(c: SealOpen.Primitives, codec: HeadCodec, content: Bytes, recipient: SealOpen.Recipient,
                    d: SealOpen.Draws)
    : Option<RelayFrames.Sealed>
    requires SealOpen.Enough(d, [recipient])
  {
    var sealed := SealOpen.Seal(c, content, [recipient], d);
    if sealed.Err? then None
    else Some(RelayFrames.Sealed(codec.write(sealed.value.nonce, sealed.value.wrappedKeys), sealed.value.ciphertext))
  }

  /** Preparing a file of admissible length, as the disk has it, for a recipient with a well-formed key
      succeeds, and what it yields is a move of the serving task: the recipient that holds the matching
      secret opens it to exactly the file. */
  lemma PreparedFileOpens(
    env: TransferSystem.Env, c: SealOpen.Primitives, codec: HeadCodec, content: Bytes, deviceId: string,
    secret: SealOpen.Key, d: SealOpen.Draws, j: TransferSystem.Job)
    requires SealOpen.Lawful(c) && Faithful(codec) && |content| <= c.longest && j.work.RelayClaimed?
    requires |d.ephemerals| == 1 && |d.nonces| == 1 && TransferSystem.CanRead(env.file(j.path), content)
    requires forall head, ciphertext ::
             env.open(head, ciphertext) == OpenBody(c, codec, deviceId, secret, head, ciphertext)
    ensures var r := SealOpen.Recipient(deviceId, c.encode(c.publicKey(secret)));
            var sealed := Prepared(c, codec, content, r, d);
            && sealed.Some?
            && TransferSystem.ServeEnabled(env, j, TransferSystem.Prepare(content, sealed.value))
            && TransferSystem.ServeReads(env, j, TransferSystem.Prepare(content, sealed.value))
  {
    var r := SealOpen.Recipient(deviceId, c.encode(c.publicKey(secret)));
    assert c.decode(r.publicKey) == Some(c.publicKey(secret));
    SealOpen.SealSucceedsExactly(c, content, [r], d);
    assert SealOpen.GoodKey(c, [r][0]);
    SealOpen.OpenUndoesSeal(c, content, [r], d, 0, secret);
    var s := SealOpen.Seal(c, content, [r], d).value;
    assert codec.read(codec.write(s.nonce, s.wrappedKeys)) == Some((s.nonce, s.wrappedKeys));
  }
}
