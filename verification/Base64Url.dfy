/** The unpadded URL-safe encoder used for body hashes (crates/airpaste-protocol/src/api.rs): base64url
    of section 5 of RFC 4648, without padding as its section 3.2 allows. */
module Base64Url {
  import opened Wrappers

  const ALPHABET: string :=
    "ABCDEFGHIJKLM" + "NOPQRSTUVWXYZ" + "abcdefghijklm" + "nopqrstuvwxyz" + "0123456789-_"

  type Sextet = v: int | 0 <= v < 64

  /** Table 2 of the RFC, and back. */
  function Symbol(v: Sextet): char {
    if v < 26 then ('A' as int + v) as char
    else if v < 52 then ('a' as int + v - 26) as char
    else if v < 62 then ('0' as int + v - 52) as char
    else if v == 62 then '-' else '_'
  }

  function Index(c: char): Option<Sextet> {
    if 'A' <= c <= 'Z' then Some(c as int - 'A' as int)
    else if 'a' <= c <= 'z' then Some(c as int - 'a' as int + 26)
    else if '0' <= c <= '9' then Some(c as int - '0' as int + 52)
    else if c == '-' then Some(62)
    else if c == '_' then Some(63)
    else None
  }

  lemma AlphabetIsTable(v: Sextet)
    ensures |ALPHABET| == 64 && ALPHABET[v] == Symbol(v)
  {
  }

  function Text(groups: seq<Sextet>): string {
    seq(|groups|, k requires 0 <= k < |groups| => Symbol(groups[k]))
  }

  /** The groups a text stands for, None when it holds a foreign character. */
  function Read(s: string): Option<seq<Sextet>> {
    if forall k :: 0 <= k < |s| ==> Index(s[k]).Some?
    then Some(seq(|s|, k requires 0 <= k < |s| => Index(s[k]).value)) else None
  }

  lemma ReadUndoesText(groups: seq<Sextet>)
    ensures Read(Text(groups)) == Some(groups)
  {
    assert forall k :: 0 <= k < |groups| ==> Index(Text(groups)[k]) == Some(groups[k]);
    assert Read(Text(groups)).value == groups;
  }

  lemma TextUndoesRead(s: string)
    requires Read(s).Some?
    ensures Text(Read(s).value) == s
  {
    var text := Text(Read(s).value);
    forall k | 0 <= k < |s| ensures text[k] == s[k] {
      SymbolOfIndex(s[k]);
    }
    assert text == s;
  }

  lemma SymbolOfIndex(c: char)
    requires Index(c).Some?
    ensures Symbol(Index(c).value) == c
  {
  }

  lemma TextAppends(a: seq<Sextet>, b: seq<Sextet>)
    ensures Text(a + b) == Text(a) + Text(b)
  {
  }

  // ---------- encoding ----------

  function Bits24(a: int, b: int, c: int): int {
    a * 65536 + b * 256 + c
  }

  /** 24 bits cut into four groups of six. */
  function Cut(value: int): seq<Sextet> {
    [value / 262144 % 64, value / 4096 % 64, value / 64 % 64, value % 64]
  }

  /** The k-th group of three bytes. */
  function Triple(bytes: Bytes, k: nat): nat
    requires 3 * k + 3 <= |bytes|
  {
    Bits24(bytes[3 * k], bytes[3 * k + 1], bytes[3 * k + 2])
  }

  function Tail(rest: Bytes): seq<Sextet>
    requires |rest| < 3
  {
    if |rest| == 1 then Cut(Bits24(rest[0], 0, 0))[..2]
    else if |rest| == 2 then Cut(Bits24(rest[0], rest[1], 0))[..3]
    else []
  }

  function Quads(bytes: Bytes, n: nat): seq<Sextet>
    requires 3 * n <= |bytes|
  {
    if n == 0 then [] else Quads(bytes, n - 1) + Cut(Triple(bytes, n - 1))
  }

  /** With `n` whole groups of three bytes. */
  function Groups(bytes: Bytes, n: nat): seq<Sextet>
    requires 3 * n <= |bytes| < 3 * n + 3
  {
    Quads(bytes, n) + Tail(bytes[3 * n..])
  }

  function Encode(bytes: Bytes): string {
    Text(Groups(bytes, |bytes| / 3))
  }

  method Base64UrlNoPad(bytes: Bytes) returns (output: string)
    ensures output == Encode(bytes)
  {
    output := "";
    for n := 0 to |bytes| / 3
      invariant output == Text(Quads(bytes, n))
    {
      var value := Bits24(bytes[3 * n], bytes[3 * n + 1], bytes[3 * n + 2]);
      var quad := Symbols(value);
      TextAppends(Quads(bytes, n), Cut(value));
      output := output + quad;
    }
    TextAppends(Quads(bytes, |bytes| / 3), Tail(bytes[3 * (|bytes| / 3)..]));
    var rest := TailSymbols(bytes[3 * (|bytes| / 3)..]);
    output := output + rest;
  }

  method Symbols(value: nat) returns (output: string)
    ensures output == Text(Cut(value))
  {
    AlphabetIsTable(value / 262144 % 64);
    AlphabetIsTable(value / 4096 % 64);
    AlphabetIsTable(value / 64 % 64);
    AlphabetIsTable(value % 64);
    output := [ALPHABET[value / 262144 % 64]];
    output := output + [ALPHABET[value / 4096 % 64]];
    output := output + [ALPHABET[value / 64 % 64]];
    output := output + [ALPHABET[value % 64]];
  }

  method TailSymbols(remainder: Bytes) returns (output: string)
    requires |remainder| < 3
    ensures output == Text(Tail(remainder))
  {
    output := "";
    if |remainder| == 1 {
      var quad := Symbols(Bits24(remainder[0], 0, 0));
      output := quad[..2];
    } else if |remainder| == 2 {
      var quad := Symbols(Bits24(remainder[0], remainder[1], 0));
      output := quad[..3];
    }
  }

  // ---------- what the symbols stand for ----------

  /** The bytes, and the groups, as one big-endian number. */
  function BytesValue(bytes: Bytes): nat {
    if bytes == [] then 0 else BytesValue(bytes[..|bytes| - 1]) * 256 + bytes[|bytes| - 1]
  }

  function GroupsValue(groups: seq<Sextet>): nat {
    if groups == [] then 0 else GroupsValue(groups[..|groups| - 1]) * 64 + groups[|groups| - 1]
  }

  lemma GroupsAppend(groups: seq<Sextet>, v: Sextet)
    ensures GroupsValue(groups + [v]) == GroupsValue(groups) * 64 + v
  {
    assert (groups + [v])[..|groups|] == groups;
  }

  lemma BytesAppend(bytes: Bytes, b: byte)
    ensures BytesValue(bytes + [b]) == BytesValue(bytes) * 256 + b
  {
    assert (bytes + [b])[..|bytes|] == bytes;
  }

  lemma BytesNext(bytes: Bytes, k: nat)
    requires k + 3 <= |bytes|
    ensures BytesValue(bytes[..k + 3])
            == BytesValue(bytes[..k]) * 16777216 + Bits24(bytes[k], bytes[k + 1], bytes[k + 2])
  {
    var before := bytes[..k];
    BytesAppend(before, bytes[k]);
    BytesAppend(before + [bytes[k]], bytes[k + 1]);
    BytesAppend(before + [bytes[k]] + [bytes[k + 1]], bytes[k + 2]);
    assert bytes[..k + 3] == before + [bytes[k]] + [bytes[k + 1]] + [bytes[k + 2]];
  }

  lemma CutKeepsValue(value: int)
    requires 0 <= value < 16777216
    ensures value == ((value / 262144 % 64 * 64 + value / 4096 % 64) * 64 + value / 64 % 64) * 64 + value % 64
  {
  }

  lemma GroupsAppendFour(groups: seq<Sextet>, w: Sextet, x: Sextet, y: Sextet, z: Sextet)
    ensures GroupsValue(groups + [w, x, y, z]) == GroupsValue(groups) * 16777216 + ((w * 64 + x) * 64 + y) * 64 + z
  {
    GroupsAppend(groups, w);
    GroupsAppend(groups + [w], x);
    GroupsAppend(groups + [w] + [x], y);
    GroupsAppend(groups + [w] + [x] + [y], z);
    assert groups + [w, x, y, z] == groups + [w] + [x] + [y] + [z];
  }

  lemma CutAppend(groups: seq<Sextet>, value: int)
    requires 0 <= value < 16777216
    ensures GroupsValue(groups + Cut(value)) == GroupsValue(groups) * 16777216 + value
  {
    CutKeepsValue(value);
    GroupsAppendFour(groups, value / 262144 % 64, value / 4096 % 64, value / 64 % 64, value % 64);
  }

  lemma {:induction false} QuadsMean(bytes: Bytes, n: nat)
    requires 3 * n <= |bytes|
    ensures |Quads(bytes, n)| == 4 * n && GroupsValue(Quads(bytes, n)) == BytesValue(bytes[..3 * n])
  {
    if n == 0 {
      assert bytes[..0] == [];
    } else {
      QuadsMean(bytes, n - 1);
      CutAppend(Quads(bytes, n - 1), Triple(bytes, n - 1));
      BytesNext(bytes, 3 * (n - 1));
    }
  }

  /** A value with the zero bits that fill up the last group when `rest` bytes are left over. */
  function Padded(value: nat, rest: nat): nat {
    if rest == 0 then value else if rest == 1 then value * 16 else value * 4
  }

  function TailLength(rest: nat): nat {
    if rest == 0 then 0 else rest + 1
  }

  lemma TopGroup(group: Sextet, low: nat)
    requires low < 262144
    ensures (group * 262144 + low) / 262144 % 64 == group
  {
  }

  lemma MiddleGroup(high: nat, group: Sextet, low: nat)
    requires low < 4096
    ensures (high * 262144 + group * 4096 + low) / 4096 % 64 == group
  {
    assert (high * 262144 + group * 4096 + low) / 4096 == high * 64 + group;
  }

  lemma LowGroup(high: nat, group: Sextet)
    ensures (high * 4096 + group * 64) / 64 % 64 == group
  {
    assert (high * 4096 + group * 64) / 64 == high * 64 + group;
  }

  lemma TailGroups(a: byte, b: byte)
    ensures Bits24(a, b, 0) / 262144 % 64 == a / 4
    ensures Bits24(a, b, 0) / 4096 % 64 == a % 4 * 16 + b / 16
    ensures Bits24(a, b, 0) / 64 % 64 == b % 16 * 4
  {
    var v: int, w: int := a, b;
    TopGroup(v / 4, v % 4 * 65536 + w * 256);
    MiddleGroup(v / 4, v % 4 * 16 + w / 16, w % 16 * 256);
    LowGroup(v * 16 + w / 16, w % 16 * 4);
  }

  lemma TailOfOne(a: byte)
    ensures Tail([a]) == [a / 4, a % 4 * 16]
  {
    TailGroups(a, 0);
  }

  lemma TailOfTwo(a: byte, b: byte)
    ensures Tail([a, b]) == [a / 4, a % 4 * 16 + b / 16, b % 16 * 4]
  {
    TailGroups(a, b);
  }

  /** A tail keeps its one or two bytes and fills the last group with zero bits. */
  lemma TailAppend(groups: seq<Sextet>, bytes: Bytes, rest: Bytes)
    requires GroupsValue(groups) == BytesValue(bytes) && |rest| < 3
    ensures |Tail(rest)| == TailLength(|rest|)
    ensures GroupsValue(groups + Tail(rest)) == Padded(BytesValue(bytes + rest), |rest|)
  {
    if |rest| == 0 {
      assert groups + [] == groups && bytes + rest == bytes;
    } else if |rest| == 1 {
      var v: int := rest[0];
      assert rest == [rest[0]];
      TailOfOne(rest[0]);
      GroupsAppend(groups, v / 4);
      GroupsAppend(groups + [v / 4], v % 4 * 16);
      assert groups + [v / 4, v % 4 * 16] == groups + [v / 4] + [v % 4 * 16];
      BytesAppend(bytes, rest[0]);
    } else {
      TailOfTwoAppend(groups, bytes, rest);
    }
  }

  lemma TailOfTwoAppend(groups: seq<Sextet>, bytes: Bytes, rest: Bytes)
    requires GroupsValue(groups) == BytesValue(bytes) && |rest| == 2
    ensures |Tail(rest)| == 3 && GroupsValue(groups + Tail(rest)) == BytesValue(bytes + rest) * 4
  {
    var v: int, w: int := rest[0], rest[1];
    assert rest == [rest[0], rest[1]];
    TailOfTwo(rest[0], rest[1]);
    var x, y, z: Sextet := v / 4, v % 4 * 16 + w / 16, w % 16 * 4;
    GroupsAppend(groups, x);
    GroupsAppend(groups + [x], y);
    GroupsAppend(groups + [x] + [y], z);
    assert groups + [x, y, z] == groups + [x] + [y] + [z];
    BytesAppend(bytes, rest[0]);
    BytesAppend(bytes + [rest[0]], rest[1]);
    assert bytes + rest == bytes + [rest[0]] + [rest[1]];
  }

  lemma GroupsMean(bytes: Bytes, n: nat)
    requires 3 * n <= |bytes| < 3 * n + 3
    ensures |Groups(bytes, n)| == 4 * n + TailLength(|bytes| - 3 * n)
    ensures GroupsValue(Groups(bytes, n)) == Padded(BytesValue(bytes), |bytes| - 3 * n)
  {
    QuadsMean(bytes, n);
    TailAppend(Quads(bytes, n), bytes[..3 * n], bytes[3 * n..]);
    Rejoined(bytes, 3 * n);
  }

  lemma Rejoined(bytes: Bytes, k: nat)
    requires k <= |bytes|
    ensures bytes[..k] + bytes[k..] == bytes
  {
  }

  /** What `s` has to be to stand for `bytes`, without saying how it is made: as many URL-safe symbols
      as the bits need, and as a number in base 64 the bytes in base 256, padded with zero bits. */
  predicate StandsFor(s: string, bytes: Bytes) {
    && |s| == (4 * |bytes| + 2) / 3
    && Read(s).Some?
    && GroupsValue(Read(s).value) == Padded(BytesValue(bytes), |bytes| % 3)
  }

  lemma Lengths(n: nat)
    ensures (4 * n + 2) / 3 == 4 * (n / 3) + TailLength(n % 3)
    ensures n - 3 * (n / 3) == n % 3
  {
  }

  lemma EncodeMeans(bytes: Bytes)
    ensures StandsFor(Encode(bytes), bytes)
  {
    GroupsMean(bytes, |bytes| / 3);
    ReadUndoesText(Groups(bytes, |bytes| / 3));
    Lengths(|bytes|);
  }

  lemma {:induction false} GroupsValueInjective(g: seq<Sextet>, h: seq<Sextet>)
    requires |g| == |h| && GroupsValue(g) == GroupsValue(h)
    ensures g == h
  {
    if g != [] {
      var n := |g| - 1;
      assert g[n] == h[n] && GroupsValue(g[..n]) == GroupsValue(h[..n]);
      GroupsValueInjective(g[..n], h[..n]);
      assert g == g[..n] + [g[n]] && h == h[..n] + [h[n]];
    }
  }

  /** Length, alphabet and value leave only one possible output. */
  lemma EncodeIsOnly(bytes: Bytes, s: string)
    ensures StandsFor(s, bytes) <==> s == Encode(bytes)
  {
    EncodeMeans(bytes);
    if StandsFor(s, bytes) {
      GroupsValueInjective(Read(s).value, Read(Encode(bytes)).value);
      TextUndoesRead(s);
      TextUndoesRead(Encode(bytes));
    }
  }

  // ---------- decoding ----------

  /** The `n` low-order bytes of a number. */
  function BytesOf(value: nat, n: nat): Bytes {
    if n == 0 then [] else BytesOf(value / 256, n - 1) + [value % 256]
  }

  /** Reads the symbols as a number, drops the padding bits, and cuts the number into bytes; refuses
      foreign characters, a lone last symbol, and padding bits that are not zero. */
  function Decode(s: string): Option<Bytes> {
    if Read(s).None? || |s| % 4 == 1 then None
    else
      var rest := if |s| % 4 == 0 then 0 else |s| % 4 - 1;
      var padded := GroupsValue(Read(s).value);
      var value := Unpadded(padded, rest);
      if Padded(value, rest) != padded then None else Some(BytesOf(value, 3 * (|s| / 4) + rest))
  }

  function Unpadded(value: nat, rest: nat): nat {
    if rest == 0 then value else if rest == 1 then value / 16 else value / 4
  }

  lemma {:induction false} BytesOfValue(bytes: Bytes)
    ensures BytesOf(BytesValue(bytes), |bytes|) == bytes
  {
    if bytes != [] {
      var init, last := bytes[..|bytes| - 1], bytes[|bytes| - 1];
      assert BytesValue(bytes) / 256 == BytesValue(init) && BytesValue(bytes) % 256 == last;
      BytesOfValue(init);
    }
  }

  lemma DecodedLength(q: nat, r: nat)
    requires r < 3
    ensures (4 * q + TailLength(r)) % 4 == TailLength(r) && (4 * q + TailLength(r)) / 4 == q
  {
  }

  lemma UnpaddedUndoesPadded(value: nat, rest: nat)
    ensures Unpadded(Padded(value, rest), rest) == value
  {
  }

  lemma DecodeByValue(s: string, bytes: Bytes, q: nat, r: nat)
    requires r < 3 && |bytes| == 3 * q + r && |s| == 4 * q + TailLength(r)
    requires Read(s).Some? && GroupsValue(Read(s).value) == Padded(BytesValue(bytes), r)
    ensures Decode(s) == Some(bytes)
  {
    DecodedLength(q, r);
    UnpaddedUndoesPadded(BytesValue(bytes), r);
    BytesOfValue(bytes);
  }

  /** For every byte string, of any length, decoding undoes encoding. */
  lemma DecodeUndoesEncode(bytes: Bytes)
    ensures Decode(Encode(bytes)) == Some(bytes)
  {
    EncodeMeans(bytes);
    Lengths(|bytes|);
    DecodeByValue(Encode(bytes), bytes, |bytes| / 3, |bytes| % 3);
  }

  lemma EncodeInjective(a: Bytes, b: Bytes)
    requires Encode(a) == Encode(b)
    ensures a == b
  {
    DecodeUndoesEncode(a);
    DecodeUndoesEncode(b);
  }

  /** Test vectors of section 10 of RFC 4648, and one with the two symbols that set the URL-safe alphabet
      apart. */
  lemma KnownAnswers()
    ensures Encode([102]) == "Zg" && Encode([102, 111]) == "Zm8" && Encode([102, 111, 111]) == "Zm9v"
    ensures Encode([251, 240]) == "-_A"
  {
    var one, two, three: Bytes := [102], [102, 111], [102, 111, 111];
    assert two[..1] == one && three[..2] == two;
    assert BytesValue(one) == 102 && BytesValue(two) == 26223;
    KnownGroups();
    Answer(one, "Zg", [25, 32]);
    Answer(two, "Zm8", [25, 38, 60]);
    Answer(three, "Zm9v", [25, 38, 61, 47]);
    UrlSafeAnswer();
  }

  lemma KnownGroups()
    ensures GroupsValue([25, 32]) == 1632 && GroupsValue([25, 38, 60]) == 104892
    ensures GroupsValue([25, 38, 61, 47]) == 6713199
  {
    var a, b: seq<Sextet> := [25, 38], [25, 38, 61];
    assert a[..1] == [25] && b[..2] == a;
    assert GroupsValue([25]) == 25 && GroupsValue(a) == 1638 && GroupsValue(b) == 104893;
    assert [25, 32][..1] == [25] && [25, 38, 60][..2] == a && [25, 38, 61, 47][..3] == b;
  }

  lemma UrlSafeAnswer()
    ensures Encode([251, 240]) == "-_A"
  {
    assert [251, 240][..1] == [251] && BytesValue([251]) == 251;
    assert [62, 63, 0][..2] == [62, 63] && [62, 63][..1] == [62] && GroupsValue([62]) == 62;
    Answer([251, 240], "-_A", [62, 63, 0]);
  }

  lemma Answer(bytes: Bytes, s: string, groups: seq<Sextet>)
    requires |s| == |groups| == (4 * |bytes| + 2) / 3
    requires forall k :: 0 <= k < |s| ==> Index(s[k]) == Some(groups[k])
    requires GroupsValue(groups) == Padded(BytesValue(bytes), |bytes| % 3)
    ensures Encode(bytes) == s
  {
    assert Read(s) == Some(groups) by {
      assert Read(s).Some? && Read(s).value == groups;
    }
    EncodeIsOnly(bytes, s);
  }
}
