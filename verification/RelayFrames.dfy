/** The frames of a relayed file, sent by the source and received by the recipient
    (crates/airpaste-agent/src/relay.rs). */
module RelayFrames {
  import opened Wrappers
  import opened PeerRegistry

  const RELAY_CHUNK_BYTES: nat := 256 * 1024

  /** The clear part of a sealed file: body nonce and wrapped keys, kept abstract here. */
  type Head = string

  datatype Sealed = Sealed(head: Head, ciphertext: Bytes)

  datatype Control =
    | FileRequest(token: Token, index: nat, request: Request)
    | FileHeader(index: nat, size: nat, head: Head)
    | FileEnd(index: nat)
    | Error(message: string)

  /** A websocket message: text that parses as a control or does not, bytes, close, anything else. */
  datatype Message = Text(control: Option<Control>) | Binary(bytes: Bytes) | Close | Other

  datatype RecvError = SourceError(message: string) | Unparsable | Closed | Lost

  // ---------- sending ----------

  /** `ciphertext.chunks(RELAY_CHUNK_BYTES)`, one binary message each. */
  function ChunkMessages(ciphertext: Bytes): seq<Message> {
    if ciphertext == [] then []
    else if |ciphertext| <= RELAY_CHUNK_BYTES then [Binary(ciphertext)]
    else [Binary(ciphertext[..RELAY_CHUNK_BYTES])] + ChunkMessages(ciphertext[RELAY_CHUNK_BYTES..])
  }

  function FileMessages(index: nat, size: nat, sealed: Sealed): seq<Message> {
    [Text(Some(FileHeader(index, size, sealed.head)))]
    + ChunkMessages(sealed.ciphertext)
    + [Text(Some(FileEnd(index)))]
  }

  function Min(a: nat, b: nat): nat { if a < b then a else b }

  /** Answer one request over the relay: claim, read and seal, send, then commit or release.
      `prepared` is the outcome of reading and sealing (its plaintext size and sealed form);
      the first `accepts` sends succeed and the next one fails. */
  method ServeRequest(registry: PeerFileRegistry, token: Token, index: nat, request: Request, now: nat, later: nat,
                      verify: VerifyFn, prepared: Option<(nat, Sealed)>, accepts: nat)
    returns (sent: seq<Message>, alive: bool)
    modifies registry
    ensures var t := old(registry.entries);
            var claimed := ClaimTable(t, token, index, request, now, later, verify);
            if !ClaimResult(t, token, index, request, now, later, verify).Available? then
              && registry.entries == claimed
              && |sent| == Min(1, accepts)
                 && (sent == [] || (sent[0].Text? && sent[0].control.Some? && sent[0].control.value.Error?))
              && alive == (accepts > 0)
            else if prepared.None? then
              && registry.entries == ReleaseTable(claimed, token, index) == Cleanup(t, now)
              && |sent| == Min(1, accepts)
                 && (sent == [] || (sent[0].Text? && sent[0].control.Some? && sent[0].control.value.Error?))
              && alive == (accepts > 0)
            else
              var all := FileMessages(index, prepared.value.0, prepared.value.1);
              && sent == all[..Min(|all|, accepts)]
              && alive == (sent == all)
              && registry.entries == (if sent == all then CommitTable(claimed, token, index)
                                      else Cleanup(t, now))
  {
    ReleaseUndoesClaimIfGranted(registry.entries, token, index, request, now, later, verify);
    var claim := registry.ClaimFile(token, index, request, now, later, verify);
    if !claim.Available? || prepared.None? {
      if claim.Available? {
        registry.Release(token, index);
      }
      sent := if accepts > 0 then [Text(Some(Error("rejected")))] else [];
      return sent, accepts > 0;
    }
    sent, alive := SendFile(index, prepared.value.0, prepared.value.1, accepts);
    if alive {
      registry.CommitServed(token, index);
    } else {
      registry.Release(token, index);
    }
  }

  lemma ReleaseUndoesClaimIfGranted(t: Table, token: Token, index: nat, r: Request, now: nat, later: nat,
                                    verify: VerifyFn)
    ensures ClaimResult(t, token, index, r, now, later, verify).Available?
        ==> ReleaseTable(ClaimTable(t, token, index, r, now, later, verify), token, index) == Cleanup(t, now)
  {
    if ClaimResult(t, token, index, r, now, later, verify).Available? {
      ReleaseUndoesClaim(t, token, index, r, now, later, verify);
    }
  }

  /** Header, chunks, end; the first `accepts` sends succeed. */
  method SendFile(index: nat, size: nat, sealed: Sealed, accepts: nat) returns (sent: seq<Message>, ok: bool)
    ensures var all := FileMessages(index, size, sealed);
            sent == all[..Min(|all|, accepts)] && ok == (sent == all)
  {
    ghost var all := FileMessages(index, size, sealed);
    if accepts == 0 {
      return [], false;
    }
    sent := [Text(Some(FileHeader(index, size, sealed.head)))];
    var rest := sealed.ciphertext;
    while rest != []
      invariant sent + ChunkMessages(rest) + [Text(Some(FileEnd(index)))] == all
      invariant |sent| <= accepts
      decreases |rest|
    {
      if |sent| == accepts {
        assert sent == all[..|sent|];
        return sent, false;
      }
      var n := if |rest| <= RELAY_CHUNK_BYTES then |rest| else RELAY_CHUNK_BYTES;
      assert rest[..n] == rest || n == RELAY_CHUNK_BYTES;
      sent := sent + [Binary(rest[..n])];
      rest := rest[n..];
    }
    if |sent| == accepts {
      assert sent == all[..|sent|];
      return sent, false;
    }
    sent := sent + [Text(Some(FileEnd(index)))];
    ok := true;
  }

  // ---------- receiving ----------

  /** What waiting for the header of `index` yields on a stream of messages: the head and the rest
      of the stream. Running out of messages is a closed or stalled connection. */
  function RecvHeader(ms: seq<Message>, index: nat): Result<(Head, seq<Message>), RecvError> {
    if ms == [] then Err(Lost)
    else match ms[0]
      case Text(None) => Err(Unparsable)
      case Text(Some(FileHeader(i, _, head))) =>
        if i == index then Ok((head, ms[1..])) else RecvHeader(ms[1..], index)
      case Text(Some(Error(message))) => Err(SourceError(message))
      case Close => Err(Closed)
      case _ => RecvHeader(ms[1..], index)
  }

  function RecvBody(ms: seq<Message>, got: Bytes): Result<(Bytes, seq<Message>), RecvError>
    decreases |ms|
  {
    if ms == [] then Err(Lost)
    else match ms[0]
      case Binary(bytes) => RecvBody(ms[1..], got + bytes)
      case Text(None) => Err(Unparsable)
      case Text(Some(FileEnd(_))) => Ok((got, ms[1..]))
      case Text(Some(Error(message))) => Err(SourceError(message))
      case Close => Err(Closed)
      case _ => RecvBody(ms[1..], got)
  }

  method RecvFileHeader(ms: seq<Message>, index: nat) returns (r: Result<(Head, seq<Message>), RecvError>)
    ensures r == RecvHeader(ms, index)
  {
    var at := 0;
    while at < |ms|
      invariant at <= |ms|
      invariant RecvHeader(ms[at..], index) == RecvHeader(ms, index)
    {
      var message := ms[at];
      at := at + 1;
      assert ms[at - 1..][0] == message && ms[at - 1..][1..] == ms[at..];
      match message
      case Text(None) => return Err(Unparsable);
      case Text(Some(FileHeader(i, _, head))) =>
        if i == index {
          return Ok((head, ms[at..]));
        }
      case Text(Some(Error(text))) => return Err(SourceError(text));
      case Close => return Err(Closed);
      case _ =>
    }
    return Err(Lost);
  }

  method RecvFileBody(ms: seq<Message>) returns (r: Result<(Bytes, seq<Message>), RecvError>)
    ensures r == RecvBody(ms, [])
  {
    var ciphertext: Bytes := [];
    var at := 0;
    while at < |ms|
      invariant at <= |ms|
      invariant RecvBody(ms[at..], ciphertext) == RecvBody(ms, [])
    {
      var message := ms[at];
      at := at + 1;
      assert ms[at - 1..][0] == message && ms[at - 1..][1..] == ms[at..];
      match message
      case Binary(bytes) => ciphertext := ciphertext + bytes;
      case Text(None) => return Err(Unparsable);
      case Text(Some(FileEnd(_))) => return Ok((ciphertext, ms[at..]));
      case Text(Some(Error(text))) => return Err(SourceError(text));
      case Close => return Err(Closed);
      case _ =>
    }
    return Err(Lost);
  }

  // ---------- receiving undoes sending ----------

  lemma {:induction false} RecvBodyUndoesChunks(ciphertext: Bytes, index: nat, rest: seq<Message>, got: Bytes)
    ensures RecvBody(ChunkMessages(ciphertext) + [Text(Some(FileEnd(index)))] + rest, got)
         == Ok((got + ciphertext, rest))
    decreases |ciphertext|
  {
    var end := [Text(Some(FileEnd(index)))];
    var ms := ChunkMessages(ciphertext) + end + rest;
    if ciphertext == [] {
      assert ms[1..] == rest && got + ciphertext == got;
    } else if |ciphertext| <= RELAY_CHUNK_BYTES {
      assert ms[0] == Binary(ciphertext) && ms[1..] == end + rest;
      assert (end + rest)[1..] == rest;
    } else {
      var first, more := ciphertext[..RELAY_CHUNK_BYTES], ciphertext[RELAY_CHUNK_BYTES..];
      assert ms[0] == Binary(first) && ms[1..] == ChunkMessages(more) + end + rest;
      RecvBodyUndoesChunks(more, index, rest, got + first);
      assert got + first + more == got + ciphertext;
    }
  }

  /** Messages a receiver waiting for the header of `index` passes over. */
  predicate SkippedBeforeHeader(m: Message, index: nat) {
    match m
    case Text(Some(FileHeader(i, _, _))) => i != index
    case Text(Some(FileEnd(_))) => true
    case Text(Some(FileRequest(_, _, _))) => true
    case Binary(_) => true
    case Other => true
    case _ => false
  }

  /** The exchange of one file: after any messages that belong to no header of `index`, the frames
      the source sends are received as exactly the sealed head and body, for every file and index,
      and what follows the end marker is left unread. */
  lemma {:induction false} ReceiveUndoesSend(noise: seq<Message>, index: nat, size: nat, sealed: Sealed,
                                             rest: seq<Message>)
    requires forall m :: m in noise ==> SkippedBeforeHeader(m, index)
    ensures var header := RecvHeader(noise + FileMessages(index, size, sealed) + rest, index);
            && header.Ok? && header.value.0 == sealed.head
            && RecvBody(header.value.1, []) == Ok((sealed.ciphertext, rest))
  {
    var ms := noise + FileMessages(index, size, sealed) + rest;
    if noise == [] {
      var body := ChunkMessages(sealed.ciphertext) + [Text(Some(FileEnd(index)))] + rest;
      assert ms[0] == Text(Some(FileHeader(index, size, sealed.head)));
      assert ms[1..] == body;
      RecvBodyUndoesChunks(sealed.ciphertext, index, rest, []);
      assert [] + sealed.ciphertext == sealed.ciphertext;
    } else {
      assert ms[0] in noise && ms[1..] == noise[1..] + FileMessages(index, size, sealed) + rest;
      ReceiveUndoesSend(noise[1..], index, size, sealed, rest);
    }
  }

  /** Each frame but the last is full and none exceeds the chunk size; an empty body has none. */
  lemma {:induction false} ChunkSizes(ciphertext: Bytes)
    ensures var c := ChunkMessages(ciphertext);
            && (forall k :: 0 <= k < |c| ==> c[k].Binary? && 0 < |c[k].bytes| <= RELAY_CHUNK_BYTES)
            && (forall k :: 0 <= k < |c| - 1 ==> |c[k].bytes| == RELAY_CHUNK_BYTES)
    decreases |ciphertext|
  {
    if |ciphertext| > RELAY_CHUNK_BYTES {
      var more := ciphertext[RELAY_CHUNK_BYTES..];
      ChunkSizes(more);
      var c := ChunkMessages(ciphertext);
      assert c[0] == Binary(ciphertext[..RELAY_CHUNK_BYTES]) && c[1..] == ChunkMessages(more);
      forall k | 1 <= k < |c| ensures c[k] == c[1..][k - 1] {}
    }
  }

  // ---------- what is received, and when it fails ----------

  /** The bytes of the binary messages, in order. */
  function Concat(ms: seq<Message>): Bytes {
    if ms == [] then [] else Concat(ms[..|ms| - 1]) + (if ms[|ms| - 1].Binary? then ms[|ms| - 1].bytes else [])
  }

  lemma {:induction false} ConcatOfPair(a: seq<Message>, b: seq<Message>)
    ensures Concat(a + b) == Concat(a) + Concat(b)
    decreases |b|
  {
    if b == [] {
      assert a + b == a;
    } else {
      assert (a + b)[..|a + b| - 1] == a + b[..|b| - 1];
      ConcatOfPair(a, b[..|b| - 1]);
    }
  }

  lemma {:induction false} ConcatAppends(ms: seq<Message>, bytes: Bytes)
    ensures Concat(ms + [Binary(bytes)]) == Concat(ms) + bytes
  {
    assert (ms + [Binary(bytes)])[..|ms|] == ms;
  }

  lemma ConcatOfOne(bytes: Bytes)
    ensures Concat([Binary(bytes)]) == bytes
  {
    ConcatAppends([], bytes);
    assert [] + [Binary(bytes)] == [Binary(bytes)];
  }

  lemma {:induction false} ConcatUndoesChunks(ciphertext: Bytes)
    ensures Concat(ChunkMessages(ciphertext)) == ciphertext
    ensures forall k :: 0 <= k < |ChunkMessages(ciphertext)| ==> ChunkMessages(ciphertext)[k].Binary?
    decreases |ciphertext|
  {
    if ciphertext == [] {
    } else if |ciphertext| <= RELAY_CHUNK_BYTES {
      ConcatOfOne(ciphertext);
    } else {
      var first, more := ciphertext[..RELAY_CHUNK_BYTES], ciphertext[RELAY_CHUNK_BYTES..];
      ConcatUndoesChunks(more);
      ConcatOfOne(first);
      ConcatOfPair([Binary(first)], ChunkMessages(more));
      assert first + more == ciphertext;
    }
  }

  lemma ConcatNext(m: Message, rest: seq<Message>)
    ensures Concat([m] + rest) == (if m.Binary? then m.bytes else []) + Concat(rest)
  {
    ConcatOfPair([m], rest);
    assert [m][..0] == [];
    assert Concat([m]) == (if m.Binary? then m.bytes else []);
  }

  /** A message that ends a transfer badly, and the error it stands for. */
  function Breaking(m: Message): Option<RecvError> {
    match m
    case Text(None) => Some(Unparsable)
    case Text(Some(Error(message))) => Some(SourceError(message))
    case Close => Some(Closed)
    case _ => None
  }

  predicate EndsFile(m: Message) {
    m.Text? && m.control.Some? && m.control.value.FileEnd?
  }

  predicate Heads(m: Message, index: nat) {
    m.Text? && m.control.Some? && m.control.value.FileHeader? && m.control.value.index == index
  }

  /** Message p is the first that ends the body, well or badly. */
  ghost predicate BodyEndsAt(ms: seq<Message>, p: nat) {
    && p < |ms| && (EndsFile(ms[p]) || Breaking(ms[p]).Some?)
    && forall k :: 0 <= k < p ==> !EndsFile(ms[k]) && Breaking(ms[k]).None?
  }

  /** Message p is the first that ends the wait for the header of `index`, well or badly. */
  ghost predicate WaitEndsAt(ms: seq<Message>, index: nat, p: nat) {
    && p < |ms| && (Heads(ms[p], index) || Breaking(ms[p]).Some?)
    && forall k :: 0 <= k < p ==> !Heads(ms[k], index) && Breaking(ms[k]).None?
  }

  lemma {:induction false} BodyEnds(ms: seq<Message>, got: Bytes, p: nat)
    requires BodyEndsAt(ms, p)
    ensures RecvBody(ms, got)
         == if EndsFile(ms[p]) then Ok((got + Concat(ms[..p]), ms[p + 1..])) else Err(Breaking(ms[p]).value)
    decreases |ms|
  {
    if p == 0 {
      assert ms[..0] == [] && got + [] == got;
    } else {
      var m, rest := ms[0], ms[1..];
      assert !EndsFile(m) && Breaking(m).None?;
      var more := if m.Binary? then m.bytes else [];
      assert RecvBody(ms, got) == RecvBody(rest, got + more) by {
        assert got + [] == got;
      }
      BodyEnds(rest, got + more, p - 1);
      assert ms[..p] == [m] + rest[..p - 1] && rest[p..] == ms[p + 1..];
      ConcatNext(m, rest[..p - 1]);
      assert got + more + Concat(rest[..p - 1]) == got + Concat(ms[..p]);
    }
  }

  lemma {:induction false} BodyGoesOn(ms: seq<Message>, got: Bytes)
    requires forall k :: 0 <= k < |ms| ==> !EndsFile(ms[k]) && Breaking(ms[k]).None?
    ensures RecvBody(ms, got) == Err(Lost)
    decreases |ms|
  {
    if ms != [] {
      assert !EndsFile(ms[0]) && Breaking(ms[0]).None?;
      BodyGoesOn(ms[1..], got);
      if ms[0].Binary? {
        BodyGoesOn(ms[1..], got + ms[0].bytes);
      }
    }
  }

  lemma {:induction false} HeaderEnds(ms: seq<Message>, index: nat, p: nat)
    requires WaitEndsAt(ms, index, p)
    ensures RecvHeader(ms, index)
         == if Heads(ms[p], index) then Ok((ms[p].control.value.head, ms[p + 1..])) else Err(Breaking(ms[p]).value)
    decreases |ms|
  {
    if p > 0 {
      assert !Heads(ms[0], index) && Breaking(ms[0]).None?;
      HeaderEnds(ms[1..], index, p - 1);
      assert ms[1..][p..] == ms[p + 1..];
    }
  }

  lemma {:induction false} WaitGoesOn(ms: seq<Message>, index: nat)
    requires forall k :: 0 <= k < |ms| ==> !Heads(ms[k], index) && Breaking(ms[k]).None?
    ensures RecvHeader(ms, index) == Err(Lost)
    decreases |ms|
  {
    if ms != [] {
      assert !Heads(ms[0], index) && Breaking(ms[0]).None?;
      WaitGoesOn(ms[1..], index);
    }
  }

  lemma {:induction false} FirstBodyEnd(ms: seq<Message>, k: nat) returns (p: nat)
    requires k < |ms| && (EndsFile(ms[k]) || Breaking(ms[k]).Some?)
    ensures BodyEndsAt(ms, p) && p <= k
    decreases k
  {
    p := k;
    if j :| 0 <= j < k && (EndsFile(ms[j]) || Breaking(ms[j]).Some?) {
      p := FirstBodyEnd(ms, j);
    }
  }

  /** A body is received if and only if an end marker comes before every unparsable text, error and close:
      it is the binary messages before the marker, and the messages after it stay unread. Otherwise the
      error is that of the first such message, or the connection is lost when there is none. */
  lemma RecvBodyExactly(ms: seq<Message>, p: nat)
    requires p <= |ms|
    requires forall k :: 0 <= k < p ==>
               && !ms[k].Close?
               && (ms[k].Text? ==> ms[k].control.Some? && !ms[k].control.value.FileEnd? && !ms[k].control.value.Error?)
    ensures p == |ms| ==> RecvBody(ms, []) == Err(Lost)
    ensures p < |ms| ==>
              match ms[p]
              case Close => RecvBody(ms, []) == Err(Closed)
              case Text(None) => RecvBody(ms, []) == Err(Unparsable)
              case Text(Some(Error(message))) => RecvBody(ms, []) == Err(SourceError(message))
              case Text(Some(FileEnd(_))) => RecvBody(ms, []) == Ok((Concat(ms[..p]), ms[p + 1..]))
              case _ => true
  {
    if p == |ms| {
      BodyGoesOn(ms, []);
    } else if EndsFile(ms[p]) || Breaking(ms[p]).Some? {
      BodyEnds(ms, [], p);
      assert [] + Concat(ms[..p]) == Concat(ms[..p]);
    }
  }

  /** The same of a header: it is received if and only if one of the wanted index comes before every
      unparsable text, error and close. */
  lemma RecvHeaderExactly(ms: seq<Message>, index: nat, p: nat)
    requires p <= |ms|
    requires forall k :: 0 <= k < p ==>
               && !ms[k].Close?
               && (ms[k].Text? ==> ms[k].control.Some? && !ms[k].control.value.Error?
                                   && (ms[k].control.value.FileHeader? ==> ms[k].control.value.index != index))
    ensures p == |ms| ==> RecvHeader(ms, index) == Err(Lost)
    ensures p < |ms| ==>
              match ms[p]
              case Close => RecvHeader(ms, index) == Err(Closed)
              case Text(None) => RecvHeader(ms, index) == Err(Unparsable)
              case Text(Some(Error(message))) => RecvHeader(ms, index) == Err(SourceError(message))
              case Text(Some(FileHeader(i, _, head))) => i == index ==> RecvHeader(ms, index) == Ok((head, ms[p + 1..]))
              case _ => true
  {
    if p == |ms| {
      WaitGoesOn(ms, index);
    } else if Heads(ms[p], index) || Breaking(ms[p]).Some? {
      HeaderEnds(ms, index, p);
    }
  }

  /** Every received body ends with an end marker that nothing bad comes before. */
  lemma ReceivedEndsWithMarker(ms: seq<Message>) returns (p: nat)
    requires RecvBody(ms, []).Ok?
    ensures p < |ms| && ms[p].Text? && ms[p].control.Some? && ms[p].control.value.FileEnd?
    ensures forall k :: 0 <= k < p ==>
              && !ms[k].Close?
              && (ms[k].Text? ==> ms[k].control.Some? && !ms[k].control.value.FileEnd? && !ms[k].control.value.Error?)
  {
    if k :| 0 <= k < |ms| && (EndsFile(ms[k]) || Breaking(ms[k]).Some?) {
      p := FirstBodyEnd(ms, k);
      BodyEnds(ms, [], p);
      forall k | 0 <= k < p
        ensures && !ms[k].Close?
                && (ms[k].Text? ==>
                      ms[k].control.Some? && !ms[k].control.value.FileEnd? && !ms[k].control.value.Error?)
      {
        assert !EndsFile(ms[k]) && Breaking(ms[k]).None?;
      }
    } else {
      BodyGoesOn(ms, []);
      assert false;
    }
  }

  /** A file cut short anywhere in the pipe is never taken for a complete one, whether nothing follows or
      a close, an error or an unparsable text does, and whatever comes after that. */
  lemma CutFileIsNeverAccepted(index: nat, size: nat, sealed: Sealed, n: nat, tail: seq<Message>)
    requires n < |FileMessages(index, size, sealed)|
    requires tail == [] || Breaking(tail[0]).Some?
    ensures var header := RecvHeader(FileMessages(index, size, sealed)[..n] + tail, index);
            var error := if tail == [] then Lost else Breaking(tail[0]).value;
            header == Err(error) || (header.Ok? && RecvBody(header.value.1, []) == Err(error))
  {
    var all := FileMessages(index, size, sealed);
    var ms := all[..n] + tail;
    if n == 0 {
      assert ms == tail;
      if tail == [] {
        WaitGoesOn(ms, index);
      } else {
        HeaderEnds(ms, index, 0);
      }
    } else {
      var body := ChunkMessages(sealed.ciphertext)[..n - 1];
      assert all[..n] == [all[0]] + body;
      assert ms[0] == all[0] && ms[1..] == body + tail;
      HeaderEnds(ms, index, 0);
      ConcatUndoesChunks(sealed.ciphertext);
      forall k | 0 <= k < |body| ensures (body + tail)[k].Binary? {
        assert body[k] == ChunkMessages(sealed.ciphertext)[k];
      }
      if tail == [] {
        BodyGoesOn(body + tail, []);
      } else {
        BodyEnds(body + tail, [], |body|);
      }
    }
  }
}
