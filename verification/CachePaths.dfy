/** Where a downloaded entry is written (safe_cache_path and sanitize_component in
    crates/airpaste-agent/src/lib.rs). A path is its list of components. */
module CachePaths {
  import opened Wrappers
  import opened Characters
  import opened PeerRegistry

  // ---------- character classes ----------

  /** `char::is_control`. */
  predicate IsControl(c: char) {
    c <= '\U{1F}' || '\U{7F}' <= c <= '\U{9F}'
  }

  /** Characters replaced by an underscore. */
  predicate IsIllegal(c: char) {
    || c == '<' || c == '>' || c == ':' || c == '"' || c == '|' || c == '?' || c == '*' || c == '/' || c == '\\'
    || IsControl(c)
  }

  predicate IsSeparator(c: char) {
    c == '/' || c == '\\'
  }

  predicate IsSpaceOrDot(c: char) {
    c == ' ' || c == '.'
  }

  // ---------- sanitizing one component ----------

  function TrimSpacesAndDots(s: string): string {
    if s != "" && IsSpaceOrDot(s[|s| - 1]) then TrimSpacesAndDots(s[..|s| - 1]) else s
  }

  function ReplaceIllegal(s: string): string
  {
    if s == "" then "" else [if IsIllegal(s[0]) then '_' else s[0]] + ReplaceIllegal(s[1..])
  }

  function SanitizeComponent(component: string): Option<string> {
    var trimmed := Trim(component);
    if trimmed == "" || trimmed == "." || trimmed == ".." then None
    else
      var cleaned := TrimSpacesAndDots(ReplaceIllegal(trimmed));
      if cleaned == "" then None else Some(cleaned)
  }

  lemma {:induction false} TrimSpacesAndDotsLaw(s: string)
    ensures var r := TrimSpacesAndDots(s);
            |r| <= |s| && r == s[..|r|] && (r == "" || !IsSpaceOrDot(r[|r| - 1]))
  {
    if s != "" && IsSpaceOrDot(s[|s| - 1]) {
      TrimSpacesAndDotsLaw(s[..|s| - 1]);
    }
  }

  lemma {:induction false} ReplaceIllegalLaw(s: string)
    ensures var r := ReplaceIllegal(s);
            |r| == |s| && forall k :: 0 <= k < |s| ==> r[k] == if IsIllegal(s[k]) then '_' else s[k]
  {
    if s != "" {
      ReplaceIllegalLaw(s[1..]);
    }
  }

  lemma {:induction false} ReplaceIllegalKeeps(s: string)
    requires forall c :: c in s ==> !IsIllegal(c)
    ensures ReplaceIllegal(s) == s
  {
    if s != "" {
      assert s[0] in s;
      ReplaceIllegalKeeps(s[1..]);
    }
  }

  /** By code point: the separators, the others Windows refuses, and the C0 and C1 control characters. */
  lemma IllegalExactly(c: char)
    ensures IsIllegal(c) <==>
            c as int in {34, 42, 47, 58, 60, 62, 63, 92, 124} || c as int < 32 || 127 <= c as int <= 159
  {
  }

  /** A component that names exactly one entry of its parent directory. */
  predicate Normal(name: string) {
    && name != "" && name != "." && name != ".."
    && forall c :: c in name ==> !IsSeparator(c) && c != '\0'
  }

  lemma SeparatorsAreIllegal()
    ensures IsIllegal('/') && IsIllegal('\\') && IsIllegal('\0') && !IsIllegal('_')
  {
  }

  lemma {:induction false} ReplacedIsHarmless(s: string)
    ensures forall c :: c in ReplaceIllegal(s) ==> !IsSeparator(c) && c != '\0'
  {
    if s != "" {
      SeparatorsAreIllegal();
      ReplacedIsHarmless(s[1..]);
    }
  }

  /** Whatever the sender wrote, a sanitized component is a single ordinary name. */
  lemma SanitizedIsNormal(component: string)
    ensures SanitizeComponent(component).Some? ==> Normal(SanitizeComponent(component).value)
  {
    var trimmed := Trim(component);
    ReplacedIsHarmless(trimmed);
    TrimSpacesAndDotsLaw(ReplaceIllegal(trimmed));
  }

  /** What sanitizing makes of a component without surrounding whitespace: every replaced character an
      underscore, the others as they are, without the spaces and dots at the end; and nothing when nothing
      is left or the component is a dot or two. */
  lemma SanitizedExactly(component: string)
    requires Trim(component) == component
    ensures var r := SanitizeComponent(component);
            && (r.Some? ==>
                  && component != "." && component != ".." && 0 < |r.value| <= |component|
                  && (forall k :: 0 <= k < |r.value| ==>
                        r.value[k] == if IsIllegal(component[k]) then '_' else component[k])
                  && r.value[|r.value| - 1] != ' ' && r.value[|r.value| - 1] != '.'
                  && (forall k :: |r.value| <= k < |component| ==> component[k] == ' ' || component[k] == '.'))
            && (r.None? ==> forall k :: 0 <= k < |component| ==> component[k] == ' ' || component[k] == '.')
  {
    var replaced := ReplaceIllegal(component);
    ReplaceIllegalLaw(component);
    TrimmedWereSpacesAndDots(replaced);
    TrimSpacesAndDotsLaw(replaced);
    DotsAreNothing(component);
    forall k | |TrimSpacesAndDots(replaced)| <= k < |component| ensures component[k] == ' ' || component[k] == '.' {
      assert IsSpaceOrDot(replaced[k]);
    }
  }

  lemma DotsAreNothing(component: string)
    ensures component == "" || component == "." || component == ".." ==>
              forall k :: 0 <= k < |component| ==> IsSpaceOrDot(component[k])
  {
  }

  lemma {:induction false} TrimmedWereSpacesAndDots(s: string)
    ensures var r := TrimSpacesAndDots(s);
            |r| <= |s| && forall k :: |r| <= k < |s| ==> IsSpaceOrDot(s[k])
  {
    if s != "" && IsSpaceOrDot(s[|s| - 1]) {
      TrimmedWereSpacesAndDots(s[..|s| - 1]);
    }
  }

  /** Surrounding whitespace does not matter. */
  lemma SanitizedIgnoresMargins(component: string)
    ensures SanitizeComponent(component) == SanitizeComponent(Trim(component))
  {
    TrimExactly(component);
    TrimStays(Trim(component));
  }

  /** A name sanitizing leaves alone. */
  predicate Fixed(name: string) {
    SanitizeComponent(name) == Some(name)
  }

  lemma FixedIsNormal(name: string)
    requires Fixed(name)
    ensures Normal(name)
  {
    SanitizedIsNormal(name);
  }

  /** Ordinary names without illegal characters that neither start with whitespace nor end with
      whitespace or a dot. */
  predicate Clean(name: string) {
    && name != ""
    && (forall c :: c in name ==> !IsIllegal(c))
    && !IsWhitespace(name[0]) && !IsWhitespace(name[|name| - 1]) && !IsSpaceOrDot(name[|name| - 1])
  }

  /** Exactly which names sanitizing leaves alone. */
  lemma FixedCharacterized(name: string)
    ensures Fixed(name) <==> Clean(name)
  {
    if Fixed(name) {
      FixedIsClean(name);
    }
    if Clean(name) {
      ReplaceIllegalKeeps(name);
      assert TrimStart(name) == name && TrimEnd(name) == name && TrimSpacesAndDots(name) == name;
    }
  }

  lemma {:induction false} UnreplacedIsLegal(s: string)
    requires ReplaceIllegal(s) == s
    ensures forall c :: c in s ==> !IsIllegal(c)
  {
    if s != "" {
      SeparatorsAreIllegal();
      assert ReplaceIllegal(s)[1..] == s[1..];
      UnreplacedIsLegal(s[1..]);
      assert s == [s[0]] + s[1..];
    }
  }

  lemma FixedIsClean(name: string)
    requires Fixed(name)
    ensures Clean(name)
  {
    var start := TrimStart(name);
    var trimmed := TrimEnd(start);
    var replaced := ReplaceIllegal(trimmed);
    TrimStartLaw(name);
    TrimEndLaw(start);
    ReplaceIllegalLaw(trimmed);
    TrimSpacesAndDotsLaw(replaced);
    assert TrimSpacesAndDots(replaced) == name;
    assert |start| == |trimmed| == |replaced| == |name|;
    assert start == name;
    assert trimmed == name;
    assert replaced == name;
    UnreplacedIsLegal(name);
  }

  // ---------- splitting and joining ----------

  /** `relative_path.split(['/', '\\'])`; `current` is the part read so far. */
  function Split(s: string, current: string): (r: seq<string>)
    ensures r != []
    decreases |s|
  {
    if s == "" then [current]
    else if IsSeparator(s[0]) then [current] + Split(s[1..], "")
    else Split(s[1..], current + [s[0]])
  }

  function Join(names: seq<string>): string {
    if names == [] then "" else if |names| == 1 then names[0] else names[0] + "/" + Join(names[1..])
  }

  lemma {:induction false} SplitReadsName(name: string, rest: string, current: string)
    requires forall c :: c in name ==> !IsSeparator(c)
    ensures Split(name, current) == [current + name]
    ensures Split(name + "/" + rest, current) == [current + name] + Split(rest, "")
    decreases |name|
  {
    var s := name + "/" + rest;
    if name == "" {
      assert s[1..] == rest && current + name == current;
    } else {
      assert s[1..] == name[1..] + "/" + rest;
      SplitReadsName(name[1..], rest, current + [name[0]]);
      assert current + [name[0]] + name[1..] == current + name;
    }
  }

  lemma {:induction false} SplitUndoesJoin(names: seq<string>)
    requires names != []
    requires forall n :: n in names ==> Normal(n)
    ensures Split(Join(names), "") == names
  {
    assert names[0] in names;
    SplitReadsName(names[0], Join(names[1..]), "");
    assert "" + names[0] == names[0];
    if |names| > 1 {
      SplitUndoesJoin(names[1..]);
    }
  }

  lemma {:induction false} SplitFrom(s: string, current: string)
    ensures Split(s, current) == [current + Split(s, "")[0]] + Split(s, "")[1..]
    decreases |s|
  {
    if s == "" {
      assert current + "" == current;
    } else if IsSeparator(s[0]) {
      assert current + "" == current;
      assert ([""] + Split(s[1..], ""))[1..] == Split(s[1..], "");
    } else {
      SplitFrom(s[1..], current + [s[0]]);
      SplitFrom(s[1..], "" + [s[0]]);
      var rest := Split(s[1..], "");
      assert current + [s[0]] + rest[0] == current + ("" + [s[0]] + rest[0]);
      assert ([("" + [s[0]]) + rest[0]] + rest[1..])[1..] == rest[1..];
    }
  }

  /** Splitting is determined by what it does at a separator, of either kind, and to a text without one. */
  lemma {:induction false} SplitExactly(a: string, separator: char, b: string)
    requires separator == '/' || separator == '\\'
    ensures Split(a + [separator] + b, "") == Split(a, "") + Split(b, "")
    ensures '/' !in a && '\\' !in a ==> Split(a, "") == [a]
    decreases |a|
  {
    var s := a + [separator] + b;
    if a == "" {
      assert s[0] == separator && s[1..] == b;
    } else {
      assert s[1..] == a[1..] + [separator] + b;
      SplitExactly(a[1..], separator, b);
      if !IsSeparator(a[0]) {
        SplitFrom(s[1..], "" + [a[0]]);
        SplitFrom(a[1..], "" + [a[0]]);
        assert Split(s, "") == Split(s[1..], "" + [a[0]]);
        assert Split(a, "") == Split(a[1..], "" + [a[0]]);
        SplitJoins(Split(a[1..], ""), Split(b, ""), "" + [a[0]]);
        assert a == [a[0]] + a[1..];
        if '/' !in a && '\\' !in a {
          assert '/' !in a[1..] && '\\' !in a[1..];
          assert Split(a[1..], "") == [a[1..]] && [a[1..]][1..] == [];
          assert "" + [a[0]] + a[1..] == a;
        }
      } else {
        assert a[0] in a;
      }
    }
  }

  lemma SplitJoins(a: seq<string>, b: seq<string>, first: string)
    requires a != []
    ensures [first + (a + b)[0]] + (a + b)[1..] == [first + a[0]] + a[1..] + b
  {
  }

  // ---------- the destination ----------

  function Kept(part: string): seq<string> {
    if SanitizeComponent(part).Some? then [SanitizeComponent(part).value] else []
  }

  function Usable(parts: seq<string>): seq<string> {
    if parts == [] then [] else Kept(parts[0]) + Usable(parts[1..])
  }

  const FALLBACK := "download.bin"

  function DestinationTail(relativePath: string, displayName: string): seq<string> {
    var parts := Usable(Split(relativePath, ""));
    if parts != [] then parts
    else [Fallback(displayName)]
  }

  method SafeCachePath(cacheDir: Path, relativePath: string, displayName: string) returns (path: Path)
    ensures path == cacheDir + DestinationTail(relativePath, displayName)
  {
    path := cacheDir;
    var pushed := false;
    var parts := Split(relativePath, "");
    ghost var done: seq<string> := [];
    for k := 0 to |parts|
      invariant path == cacheDir + done
      invariant done + Usable(parts[k..]) == Usable(parts)
      invariant pushed == (done != [])
    {
      UsableStep(parts, k, done);
      var name := SanitizeComponent(parts[k]);
      done := done + Kept(parts[k]);
      if name.Some? {
        path := path + [name.value];
        pushed := true;
      }
    }
    if !pushed {
      var name := SanitizeComponent(displayName);
      path := path + [if name.Some? then name.value else FALLBACK];
    }
  }

  lemma UsableStep(parts: seq<string>, k: nat, done: seq<string>)
    requires k < |parts|
    ensures done + Usable(parts[k..]) == done + Kept(parts[k]) + Usable(parts[k + 1..])
  {
    assert parts[k..][1..] == parts[k + 1..];
  }

  lemma {:induction false} UsableAreNormal(parts: seq<string>)
    ensures forall n :: n in Usable(parts) ==> Normal(n)
  {
    if parts != [] {
      SanitizedIsNormal(parts[0]);
      UsableAreNormal(parts[1..]);
    }
  }

  function Fallback(displayName: string): string {
    match SanitizeComponent(displayName)
    case Some(name) => name
    case None => FALLBACK
  }

  lemma FallbackIsNormal(displayName: string)
    ensures Normal(Fallback(displayName))
  {
    SanitizedIsNormal(displayName);
    assert FALLBACK[0] == 'd' && forall c :: c in FALLBACK ==> c in "download.bin";
  }

  lemma {:induction false} UsableOfPair(a: seq<string>, b: seq<string>)
    ensures Usable(a + b) == Usable(a) + Usable(b)
  {
    if a == [] {
      assert a + b == b;
    } else {
      assert (a + b)[1..] == a[1..] + b;
      UsableOfPair(a[1..], b);
    }
  }

  /** The destination is made of the usable parts, in order and sanitized; when there are none, of the display
      name, and when that is not usable either, of a fixed one. */
  lemma DestinationExactly(relativePath: string, displayName: string, part: string)
    ensures DestinationTail(relativePath, displayName)
         == if Usable(Split(relativePath, "")) != [] then Usable(Split(relativePath, ""))
            else [if SanitizeComponent(displayName).Some? then SanitizeComponent(displayName).value
                  else "download.bin"]
    ensures Usable([part])
         == if SanitizeComponent(part).Some? then [SanitizeComponent(part).value] else []
    ensures Usable([]) == []
  {
    assert [part][1..] == [];
  }

  /** No manifest escapes the cache directory: the destination is the directory followed by one or
      more components, each a single ordinary name. */
  lemma DestinationNeverEscapes(relativePath: string, displayName: string)
    ensures var tail := DestinationTail(relativePath, displayName);
            |tail| >= 1 && forall n :: n in tail ==> Normal(n)
  {
    var parts := Usable(Split(relativePath, ""));
    if parts == [] {
      FallbackIsNormal(displayName);
    } else {
      UsableAreNormal(Split(relativePath, ""));
    }
  }

  lemma {:induction false} UsableKeepsFixed(names: seq<string>)
    requires forall n :: n in names ==> Fixed(n)
    ensures Usable(names) == names
  {
    if names != [] {
      assert names[0] in names;
      UsableKeepsFixed(names[1..]);
    }
  }

  /** A path joined from fixed names is recreated component by component. */
  lemma DestinationUndoesJoin(names: seq<string>, displayName: string)
    requires names != [] && forall n :: n in names ==> Fixed(n)
    ensures DestinationTail(Join(names), displayName) == names
  {
    forall n | n in names ensures Normal(n) {
      FixedIsNormal(n);
    }
    SplitUndoesJoin(names);
    UsableKeepsFixed(names);
  }

  lemma {:induction false} UsableIsShort(names: seq<string>)
    ensures |Usable(names)| <= |names|
  {
    if names != [] {
      UsableIsShort(names[1..]);
    }
  }

  lemma {:induction false} KeptAreFixed(names: seq<string>)
    requires Usable(names) == names
    ensures forall n :: n in names ==> Fixed(n)
  {
    if names != [] {
      UsableIsShort(names[1..]);
      assert Kept(names[0]) == [names[0]];
      assert Usable(names)[1..] == Usable(names[1..]);
      KeptAreFixed(names[1..]);
      assert names == [names[0]] + names[1..];
    }
  }

  /** The name taken when nothing else is usable is not the file's own: that one is unusable too. */
  lemma FallbackIsAnother(name: string)
    requires SanitizeComponent(name).None?
    ensures Fallback(name) != name
  {
    FallbackIsUsable();
  }

  lemma FallbackIsUsable()
    ensures SanitizeComponent(FALLBACK).Some?
  {
    assert |FALLBACK| == 12 && FALLBACK[0] == 'd' && FALLBACK[11] == 'n';
    LettersStay();
    FirmEndsAreUsable(FALLBACK);
  }

  lemma FirmEndsAreUsable(s: string)
    requires s != "" && !IsWhitespace(s[0]) && !IsWhitespace(s[|s| - 1]) && !IsSpaceOrDot(s[|s| - 1])
    ensures SanitizeComponent(s).Some?
  {
    assert TrimStart(s) == s && TrimEnd(s) == s;
    ReplaceIllegalLaw(s);
    assert TrimSpacesAndDots(ReplaceIllegal(s)) == ReplaceIllegal(s);
  }

  lemma LettersStay()
    ensures !IsWhitespace('d') && !IsWhitespace('n')
  {
    InRangesExactly('d', WHITESPACE);
    InRangesExactly('n', WHITESPACE);
  }

  lemma OnlyFallback(names: seq<string>)
    requires names != [] && Usable(names) == []
    ensures names != [Fallback(names[|names| - 1])]
  {
    if |names| == 1 {
      assert Usable(names) == Kept(names[0]) + Usable(names[1..]);
      FallbackIsAnother(names[0]);
    }
  }

  /** Exactly which paths are recreated, for the display name the publisher announces: those of fixed
      names. */
  lemma RecreatedExactly(names: seq<string>, displayName: string)
    requires names != []
    requires (forall n :: n in names ==> Normal(n)) ==> displayName == names[|names| - 1]
    ensures DestinationTail(Join(names), displayName) == names <==> forall n :: n in names ==> Fixed(n)
  {
    if forall n :: n in names ==> Fixed(n) {
      DestinationUndoesJoin(names, displayName);
    }
    if DestinationTail(Join(names), displayName) == names {
      DestinationNeverEscapes(Join(names), displayName);
      SplitUndoesJoin(names);
      assert Usable(names) != [] by {
        if Usable(names) == [] {
          OnlyFallback(names);
        }
      }
      KeptAreFixed(names);
    }
  }
}
