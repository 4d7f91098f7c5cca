/** Character classes, and the `trim` of Rust's `str`. */
module Characters {
  datatype Range = Range(first: char, last: char)

  predicate InRanges(c: char, ranges: seq<Range>) {
    ranges != [] && (ranges[0].first <= c <= ranges[0].last || InRanges(c, ranges[1..]))
  }

  lemma {:induction false} InRangesExactly(c: char, ranges: seq<Range>)
    ensures InRanges(c, ranges) <==> exists k :: 0 <= k < |ranges| && ranges[k].first <= c <= ranges[k].last
  {
    if ranges != [] {
      InRangesExactly(c, ranges[1..]);
      if k :| 1 <= k < |ranges| && ranges[k].first <= c <= ranges[k].last {
        assert ranges[1..][k - 1] == ranges[k];
      }
    }
  }

  /** The Unicode White_Space property, which `str::trim` removes. */
  const WHITESPACE: seq<Range> := [
    Range('\U{9}', '\U{D}'), Range(' ', ' '), Range('\U{85}', '\U{85}'), Range('\U{A0}', '\U{A0}'),
    Range('\U{1680}', '\U{1680}'), Range('\U{2000}', '\U{200A}'), Range('\U{2028}', '\U{2029}'),
    Range('\U{202F}', '\U{202F}'), Range('\U{205F}', '\U{205F}'), Range('\U{3000}', '\U{3000}')]

  predicate IsWhitespace(c: char) {
    InRanges(c, WHITESPACE)
  }

  function TrimStart(s: string): string {
    if s != "" && IsWhitespace(s[0]) then TrimStart(s[1..]) else s
  }

  function TrimEnd(s: string): string {
    if s != "" && IsWhitespace(s[|s| - 1]) then TrimEnd(s[..|s| - 1]) else s
  }

  function Trim(s: string): string {
    TrimEnd(TrimStart(s))
  }

  lemma {:induction false} TrimStartLaw(s: string)
    ensures var r := TrimStart(s);
            |r| <= |s| && r == s[|s| - |r|..] && (r == "" || !IsWhitespace(r[0]))
  {
    if s != "" && IsWhitespace(s[0]) {
      TrimStartLaw(s[1..]);
    }
  }

  lemma {:induction false} TrimEndLaw(s: string)
    ensures var r := TrimEnd(s);
            |r| <= |s| && r == s[..|r|] && (r == "" || !IsWhitespace(r[|r| - 1]))
  {
    if s != "" && IsWhitespace(s[|s| - 1]) {
      TrimEndLaw(s[..|s| - 1]);
    }
  }

  /** What is trimmed off is whitespace, and what is left starts and ends with something else. */
  lemma TrimExactly(s: string)
    ensures var r := Trim(s);
            var start := |TrimStart(s)|;
            && |r| <= start <= |s| && r == s[|s| - start..|s| - start + |r|]
            && (forall k :: 0 <= k < |s| - start ==> IsWhitespace(s[k]))
            && (forall k :: |s| - start + |r| <= k < |s| ==> IsWhitespace(s[k]))
            && (r != "" ==> !IsWhitespace(r[0]) && !IsWhitespace(r[|r| - 1]))
  {
    TrimStartLaw(s);
    TrimEndLaw(TrimStart(s));
    StartWasWhitespace(s);
    EndWasWhitespace(TrimStart(s));
  }

  lemma {:induction false} StartWasWhitespace(s: string)
    ensures |TrimStart(s)| <= |s| && forall k :: 0 <= k < |s| - |TrimStart(s)| ==> IsWhitespace(s[k])
  {
    if s != "" && IsWhitespace(s[0]) {
      StartWasWhitespace(s[1..]);
      assert forall k :: 1 <= k < |s| ==> s[k] == s[1..][k - 1];
    }
  }

  lemma {:induction false} EndWasWhitespace(s: string)
    ensures |TrimEnd(s)| <= |s| && forall k :: |TrimEnd(s)| <= k < |s| ==> IsWhitespace(s[k])
  {
    if s != "" && IsWhitespace(s[|s| - 1]) {
      EndWasWhitespace(s[..|s| - 1]);
    }
  }

  lemma TrimStays(s: string)
    requires s != "" ==> !IsWhitespace(s[0]) && !IsWhitespace(s[|s| - 1])
    ensures Trim(s) == s
  {
  }
}
