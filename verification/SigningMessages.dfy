/** The two messages that devices sign: REST requests (crates/airpaste-protocol/src/api.rs)
    and peer-file requests (crates/airpaste-agent/src/identity.rs). Both are newline-terminated
    `label:value` lines under a version line; parsing them back shows that they are unambiguous. */
module SigningMessages {
  import opened Wrappers

  datatype RestFields = RestFields(
    verb: string, path: string, deviceId: string, timestamp: string, nonce: string, bodySha256: string)

  datatype PeerFileFields = PeerFileFields(
    clipId: string, sourceId: string, requesterId: string, token: string, index: nat)

  const REST_VERSION := "airpaste-rest-v1"
  const PEER_FILE_VERSION := "airpaste-peer-file-v1"

  // ---------- formatting ----------

  /** Every line followed by a newline. */
  function Unlines(lines: seq<string>): string {
    if lines == [] then "" else lines[0] + "\n" + Unlines(lines[1..])
  }

  function UpperChar(c: char): char {
    if 'a' <= c <= 'z' then c - 32 as char else c
  }

  function ToAsciiUppercase(s: string): (r: string)
    ensures |r| == |s|
    ensures forall i :: 0 <= i < |s| ==> r[i] == UpperChar(s[i])
  {
    seq(|s|, i requires 0 <= i < |s| => UpperChar(s[i]))
  }

  function Digit(d: nat): char
    requires d < 10
  {
    d as char + '0'
  }

  /** Decimal rendering of an index, as `{index}` formats it. */
  function Decimal(n: nat): string {
    if n < 10 then [Digit(n)] else Decimal(n / 10) + [Digit(n % 10)]
  }

  function RestSigningMessage(f: RestFields): string {
    Unlines([REST_VERSION,
             "method:" + ToAsciiUppercase(f.verb),
             "path:" + f.path,
             "device_id:" + f.deviceId,
             "timestamp:" + f.timestamp,
             "nonce:" + f.nonce,
             "body_sha256:" + f.bodySha256])
  }

  function PeerFileSigningMessage(f: PeerFileFields): string {
    Unlines([PEER_FILE_VERSION,
             "clip_id:" + f.clipId,
             "source_device_id:" + f.sourceId,
             "requester_device_id:" + f.requesterId,
             "transfer_token:" + f.token,
             "index:" + Decimal(f.index)])
  }

  // ---------- parsing ----------

  predicate NewlineFree(s: string) {
    '\n' !in s
  }

  ghost predicate RestNewlineFree(f: RestFields) {
    && NewlineFree(f.verb) && NewlineFree(f.path) && NewlineFree(f.deviceId)
    && NewlineFree(f.timestamp) && NewlineFree(f.nonce) && NewlineFree(f.bodySha256)
  }

  /** The clip id may hold anything: on the relay it comes as JSON, and an unbound grant takes any. */
  ghost predicate PeerFileNewlineFree(f: PeerFileFields) {
    NewlineFree(f.sourceId) && NewlineFree(f.requesterId) && NewlineFree(f.token)
  }

  /** The lines of a newline-terminated text; `current` is the line read so far. */
  function SplitLines(s: string, current: string): seq<string>
    decreases |s|
  {
    if s == "" then []
    else if s[0] == '\n' then [current] + SplitLines(s[1..], "")
    else SplitLines(s[1..], current + [s[0]])
  }

  function StripPrefix(s: string, prefix: string): Option<string> {
    if prefix <= s then Some(s[|prefix|..]) else None
  }

  function ParseDecimal(s: string): nat {
    if s == "" then 0
    else 10 * ParseDecimal(s[..|s| - 1])
         + (if '0' <= s[|s| - 1] <= '9' then (s[|s| - 1] - '0') as nat else 0)
  }

  function ParseRest(message: string): Option<RestFields> {
    var l := SplitLines(message, "");
    if |l| != 7 || l[0] != REST_VERSION then None
    else match (StripPrefix(l[1], "method:"), StripPrefix(l[2], "path:"), StripPrefix(l[3], "device_id:"),
                StripPrefix(l[4], "timestamp:"), StripPrefix(l[5], "nonce:"), StripPrefix(l[6], "body_sha256:"))
         case (Some(m), Some(p), Some(d), Some(t), Some(n), Some(b)) => Some(RestFields(m, p, d, t, n, b))
         case _ => None
  }

  /** Where the last line of a text starts. */
  function LastLine(s: string): nat {
    if s == "" || s[|s| - 1] == '\n' then |s| else LastLine(s[..|s| - 1])
  }

  /** Takes the last line off a newline-terminated text. */
  function PopLine(s: string): (r: Option<(string, string)>)
    ensures r.Some? ==> |r.value.0| < |s|
  {
    if s == "" || s[|s| - 1] != '\n' then None
    else
      var body := s[..|s| - 1];
      LastLineBounds(body);
      Some((body[..LastLine(body)], body[LastLine(body)..]))
  }

  lemma {:induction false} LastLineBounds(s: string)
    ensures LastLine(s) <= |s|
  {
    if s != "" && s[|s| - 1] != '\n' {
      LastLineBounds(s[..|s| - 1]);
    }
  }

  /** The `n` last lines, in order, and what comes before. */
  function PopLines(s: string, n: nat): Option<(string, seq<string>)>
    decreases n
  {
    if n == 0 then Some((s, []))
    else
      var last := PopLine(s);
      if last.None? then None
      else
        var more := PopLines(last.value.0, n - 1);
        if more.None? then None else Some((more.value.0, more.value.1 + [last.value.1]))
  }

  const PEER_FILE_START := PEER_FILE_VERSION + "\nclip_id:"

  /** Read from the right: four lines, and whatever is left after the start is the clip id. */
  function ParsePeerFile(message: string): Option<PeerFileFields> {
    var lines := PopLines(message, 4);
    if lines.None? || |lines.value.1| != 4 then None
    else
      var (start, l) := lines.value;
      if start == "" then None
      else match (StripPrefix(start[..|start| - 1], PEER_FILE_START), StripPrefix(l[0], "source_device_id:"),
                  StripPrefix(l[1], "requester_device_id:"), StripPrefix(l[2], "transfer_token:"),
                  StripPrefix(l[3], "index:"))
           case (Some(c), Some(s), Some(r), Some(t), Some(i)) => Some(PeerFileFields(c, s, r, t, ParseDecimal(i)))
           case _ => None
  }

  // ---------- parsing undoes formatting ----------

  lemma {:induction false} SplitSkipsLine(line: string, rest: string, current: string)
    requires NewlineFree(line)
    ensures SplitLines(line + "\n" + rest, current) == [current + line] + SplitLines(rest, "")
    decreases |line|
  {
    var s := line + "\n" + rest;
    if line == "" {
      assert s[1..] == rest && current + line == current;
    } else {
      assert s[1..] == line[1..] + "\n" + rest;
      SplitSkipsLine(line[1..], rest, current + [line[0]]);
      assert current + [line[0]] + line[1..] == current + line;
    }
  }

  lemma {:induction false} SplitUndoesUnlines(lines: seq<string>)
    requires forall l :: l in lines ==> NewlineFree(l)
    ensures SplitLines(Unlines(lines), "") == lines
  {
    if lines == [] {
    } else {
      SplitSkipsLine(lines[0], Unlines(lines[1..]), "");
      SplitUndoesUnlines(lines[1..]);
      assert "" + lines[0] == lines[0];
    }
  }

  lemma {:induction false} DecimalIsDigits(n: nat)
    ensures Decimal(n) != "" && forall c :: c in Decimal(n) ==> '0' <= c <= '9'
  {
    if n < 10 {
    } else {
      DecimalIsDigits(n / 10);
    }
  }

  lemma {:induction false} ParseUndoesDecimal(n: nat)
    ensures ParseDecimal(Decimal(n)) == n
  {
    if n < 10 {
      assert Decimal(n)[..0] == "";
    } else {
      ParseUndoesDecimal(n / 10);
      assert Decimal(n)[..|Decimal(n)| - 1] == Decimal(n / 10);
    }
  }

  lemma StripUndoesPrefix(prefix: string, s: string)
    ensures StripPrefix(prefix + s, prefix) == Some(s)
  {
    assert (prefix + s)[|prefix|..] == s;
  }

  lemma ParseUndoesRestMessage(f: RestFields)
    requires RestNewlineFree(f)
    ensures ParseRest(RestSigningMessage(f)) == Some(f.(verb := ToAsciiUppercase(f.verb)))
  {
    var lines := [REST_VERSION, "method:" + ToAsciiUppercase(f.verb), "path:" + f.path, "device_id:" + f.deviceId,
                  "timestamp:" + f.timestamp, "nonce:" + f.nonce, "body_sha256:" + f.bodySha256];
    assert forall l :: l in lines ==> NewlineFree(l);
    SplitUndoesUnlines(lines);
    StripUndoesPrefix("method:", ToAsciiUppercase(f.verb));
    StripUndoesPrefix("path:", f.path);
    StripUndoesPrefix("device_id:", f.deviceId);
    StripUndoesPrefix("timestamp:", f.timestamp);
    StripUndoesPrefix("nonce:", f.nonce);
    StripUndoesPrefix("body_sha256:", f.bodySha256);
  }

  lemma UnlinesOne(line: string, rest: seq<string>)
    ensures Unlines([line] + rest) == line + "\n" + Unlines(rest)
  {
    assert ([line] + rest)[1..] == rest;
  }

  /** The text of a request message, line by line. */
  lemma RestMessageText(f: RestFields)
    ensures RestSigningMessage(f)
         == "airpaste-rest-v1" + "\n" + ("method:" + ToAsciiUppercase(f.verb) + "\n" + ("path:" + f.path + "\n" + (
            "device_id:" + f.deviceId + "\n" + ("timestamp:" + f.timestamp + "\n" + ("nonce:" + f.nonce + "\n" + (
            "body_sha256:" + f.bodySha256 + "\n"))))))
  {
    var l := [REST_VERSION, "method:" + ToAsciiUppercase(f.verb), "path:" + f.path, "device_id:" + f.deviceId,
              "timestamp:" + f.timestamp, "nonce:" + f.nonce, "body_sha256:" + f.bodySha256];
    SevenLines(l);
  }

  lemma SevenLines(l: seq<string>)
    requires |l| == 7
    ensures Unlines(l)
         == l[0] + "\n" + (l[1] + "\n" + (l[2] + "\n" + (l[3] + "\n" + (l[4] + "\n" + (l[5] + "\n" + (l[6] + "\n"))))))
  {
    SixLines(l[1..]);
    UnlinesOne(l[0], l[1..]);
    assert l == [l[0]] + l[1..];
  }

  lemma SixLines(l: seq<string>)
    requires |l| == 6
    ensures Unlines(l) == l[0] + "\n" + (l[1] + "\n" + (l[2] + "\n" + (l[3] + "\n" + (l[4] + "\n" + (l[5] + "\n")))))
  {
    ThreeLines(l[3..]);
    UnlinesOne(l[2], l[3..]);
    UnlinesOne(l[1], [l[2]] + l[3..]);
    UnlinesOne(l[0], [l[1]] + ([l[2]] + l[3..]));
    assert l == [l[0]] + ([l[1]] + ([l[2]] + l[3..]));
  }

  lemma ThreeLines(l: seq<string>)
    requires |l| == 3
    ensures Unlines(l) == l[0] + "\n" + (l[1] + "\n" + (l[2] + "\n"))
  {
    assert l[1..] == [l[1], l[2]];
    UnlinesPair(l[1], l[2]);
    UnlinesOne(l[0], l[1..]);
    assert l == [l[0]] + l[1..];
    assert l[1] + "\n" + l[2] + "\n" == l[1] + "\n" + (l[2] + "\n");
  }

  /** The text of a peer-file message, line by line. */
  lemma PeerFileMessageText(f: PeerFileFields)
    ensures PeerFileSigningMessage(f)
         == "airpaste-peer-file-v1" + "\n" + ("clip_id:" + f.clipId + "\n" + (
            "source_device_id:" + f.sourceId + "\n" + (
            "requester_device_id:" + f.requesterId + "\n" + ("transfer_token:" + f.token + "\n" + (
            "index:" + Decimal(f.index) + "\n")))))
  {
    var l := [PEER_FILE_VERSION, "clip_id:" + f.clipId, "source_device_id:" + f.sourceId,
              "requester_device_id:" + f.requesterId, "transfer_token:" + f.token, "index:" + Decimal(f.index)];
    SixLines(l);
  }

  lemma {:induction false} LastLineOf(before: string, line: string)
    requires NewlineFree(line) && (before == "" || before[|before| - 1] == '\n')
    ensures LastLine(before + line) == |before|
    decreases |line|
  {
    var s := before + line;
    if line == "" {
      assert s == before;
    } else {
      assert s[..|s| - 1] == before + line[..|line| - 1] && s[|s| - 1] == line[|line| - 1];
      assert line[|line| - 1] in line;
      LastLineOf(before, line[..|line| - 1]);
    }
  }

  lemma PopUndoesLine(before: string, line: string)
    requires NewlineFree(line) && (before == "" || before[|before| - 1] == '\n')
    ensures PopLine(before + line + "\n") == Some((before, line))
  {
    var s := before + line + "\n";
    assert s[..|s| - 1] == before + line;
    LastLineOf(before, line);
  }

  lemma {:induction false} PopUndoesUnlines(before: string, lines: seq<string>)
    requires forall l :: l in lines ==> NewlineFree(l)
    requires before == "" || before[|before| - 1] == '\n'
    ensures PopLines(before + Unlines(lines), |lines|) == Some((before, lines))
    decreases |lines|
  {
    if lines == [] {
      assert before + "" == before;
    } else {
      var init, last := lines[..|lines| - 1], lines[|lines| - 1];
      assert lines == init + [last];
      UnlinesLast(before, init, last);
      UnlinesEnd(before, init);
      PopUndoesLine(before + Unlines(init), last);
      PopUndoesUnlines(before, init);
    }
  }

  lemma UnlinesLast(before: string, init: seq<string>, last: string)
    ensures before + Unlines(init + [last]) == before + Unlines(init) + last + "\n"
  {
    UnlinesAppend(init, [last]);
    assert Unlines([last]) == last + "\n" + Unlines([]) == last + "\n";
  }

  lemma {:induction false} UnlinesEnd(before: string, lines: seq<string>)
    requires before == "" || before[|before| - 1] == '\n'
    ensures var s := before + Unlines(lines); s == "" || s[|s| - 1] == '\n'
    decreases |lines|
  {
    if lines == [] {
      assert before + "" == before;
    } else {
      var next := before + lines[0] + "\n";
      assert before + Unlines(lines) == next + Unlines(lines[1..]);
      UnlinesEnd(next, lines[1..]);
    }
  }

  lemma PeerFileMessageParts(f: PeerFileFields)
    ensures PeerFileSigningMessage(f)
         == (PEER_FILE_START + f.clipId + "\n")
            + Unlines(["source_device_id:" + f.sourceId, "requester_device_id:" + f.requesterId,
                       "transfer_token:" + f.token, "index:" + Decimal(f.index)])
  {
    var start := [PEER_FILE_VERSION, "clip_id:" + f.clipId];
    var rest := ["source_device_id:" + f.sourceId, "requester_device_id:" + f.requesterId,
                 "transfer_token:" + f.token, "index:" + Decimal(f.index)];
    UnlinesAppend(start, rest);
    UnlinesPair(start[0], start[1]);
    assert start + rest == [start[0], start[1], rest[0], rest[1], rest[2], rest[3]];
    var nl := "\n";
    assert nl + "clip_id:" == "\nclip_id:";
    assert start[0] + "\n" + start[1] + "\n" == PEER_FILE_START + f.clipId + "\n";
  }

  /** For every clip id, and newline-free other ids and token. */
  lemma ParseUndoesPeerFileMessage(f: PeerFileFields)
    requires PeerFileNewlineFree(f)
    ensures ParsePeerFile(PeerFileSigningMessage(f)) == Some(f)
  {
    var start := PEER_FILE_START + f.clipId + "\n";
    var rest := ["source_device_id:" + f.sourceId, "requester_device_id:" + f.requesterId,
                 "transfer_token:" + f.token, "index:" + Decimal(f.index)];
    PeerFileMessageParts(f);
    DecimalIsDigits(f.index);
    PopUndoesUnlines(start, rest);
    assert start[..|start| - 1] == PEER_FILE_START + f.clipId;
    StripUndoesPrefix(PEER_FILE_START, f.clipId);
    StripUndoesPrefix("source_device_id:", f.sourceId);
    StripUndoesPrefix("requester_device_id:", f.requesterId);
    StripUndoesPrefix("transfer_token:", f.token);
    StripUndoesPrefix("index:", Decimal(f.index));
    ParseUndoesDecimal(f.index);
  }

  // ---------- unambiguity ----------

  /** Equal REST messages mean equal fields, the method up to ASCII case; and conversely. */
  lemma RestMessageUnambiguous(f: RestFields, g: RestFields)
    requires RestNewlineFree(f) && RestNewlineFree(g)
    ensures RestSigningMessage(f) == RestSigningMessage(g)
       <==> f.(verb := ToAsciiUppercase(f.verb)) == g.(verb := ToAsciiUppercase(g.verb))
  {
    ParseUndoesRestMessage(f);
    ParseUndoesRestMessage(g);
  }

  /** Equal peer-file messages mean equal clip, source, requester, token and index, even when a clip id
      holds newlines. */
  lemma PeerFileMessageUnambiguous(f: PeerFileFields, g: PeerFileFields)
    requires PeerFileNewlineFree(f) && PeerFileNewlineFree(g)
    ensures PeerFileSigningMessage(f) == PeerFileSigningMessage(g) <==> f == g
  {
    ParseUndoesPeerFileMessage(f);
    ParseUndoesPeerFileMessage(g);
  }

  /** No REST message is a peer-file message, whatever the fields hold: a signature made for one
      purpose never fits the other. */
  lemma MessageKindsDisjoint(f: RestFields, g: PeerFileFields)
    ensures RestSigningMessage(f) != PeerFileSigningMessage(g)
  {
    assert RestSigningMessage(f)[9] == 'r';
    assert PeerFileSigningMessage(g)[9] == 'p';
  }

  /** The newline-free condition is needed: a newline inside a field lets two different requests
      share one message, for every choice of the other fields. HTTP header values and URIs cannot
      carry one. */
  lemma NewlineMakesRestAmbiguous(f: RestFields, d: string, x: string, y: string)
    ensures var a := f.(deviceId := d + "\ntimestamp:" + x, timestamp := y);
            var b := f.(deviceId := d, timestamp := x + "\ntimestamp:" + y);
            a != b && RestSigningMessage(a) == RestSigningMessage(b)
  {
    var a := f.(deviceId := d + "\ntimestamp:" + x, timestamp := y);
    var b := f.(deviceId := d, timestamp := x + "\ntimestamp:" + y);
    assert |a.deviceId| > |b.deviceId|;
    var head := [REST_VERSION, "method:" + ToAsciiUppercase(f.verb), "path:" + f.path];
    var tail := ["nonce:" + f.nonce, "body_sha256:" + f.bodySha256];
    var mid, mid' := ["device_id:" + a.deviceId, "timestamp:" + y], ["device_id:" + d, "timestamp:" + b.timestamp];
    SplitFieldSameText(d, x, y);
    UnlinesAppend(mid, tail);
    UnlinesAppend(mid', tail);
    UnlinesAppend(head, mid + tail);
    UnlinesAppend(head, mid' + tail);
    assert head + (mid + tail) == [head[0], head[1], head[2], mid[0], mid[1], tail[0], tail[1]];
    assert head + (mid' + tail) == [head[0], head[1], head[2], mid'[0], mid'[1], tail[0], tail[1]];
  }

  lemma SplitFieldSameText(d: string, x: string, y: string)
    ensures Unlines(["device_id:" + (d + "\ntimestamp:" + x), "timestamp:" + y])
         == Unlines(["device_id:" + d, "timestamp:" + (x + "\ntimestamp:" + y)])
  {
    var nl := "\n";
    var t := "timestamp:";
    assert "\ntimestamp:" == nl + t;
    UnlinesPair("device_id:" + (d + "\ntimestamp:" + x), t + y);
    UnlinesPair("device_id:" + d, t + (x + "\ntimestamp:" + y));
  }

  lemma UnlinesPair(a: string, b: string)
    ensures Unlines([a, b]) == a + "\n" + b + "\n"
  {
    assert [a, b][1..] == [b];
    assert Unlines([b]) == b + "\n" + Unlines([]) == b + "\n";
  }

  lemma {:induction false} UnlinesAppend(a: seq<string>, b: seq<string>)
    ensures Unlines(a + b) == Unlines(a) + Unlines(b)
  {
    if a == [] {
      assert a + b == b;
    } else {
      assert (a + b)[1..] == a[1..] + b;
      UnlinesAppend(a[1..], b);
    }
  }
}
