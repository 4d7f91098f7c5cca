/** Flattening a selection into the files to publish (collect_publish_files and walk_publish_dir in
    crates/airpaste-agent/src/lib.rs), and the receiver's undoing of it. */
module PublishWalk {
  import opened Wrappers
  import opened PeerRegistry
  import opened Manifest
  import opened CachePaths
  import CacheDisk

  /** What is at a path: a regular file, a directory and its entries as the system lists them,
      something that is skipped (symlink, socket), or something that cannot be read. */
  datatype Node = RegularFile | Dir(entries: seq<DirEntry>) | Special | Unreadable

  datatype DirEntry = DirEntry(name: string, node: Node)

  datatype Input = Input(path: Path, node: Node)

  function Size(n: Node): nat {
    1 + if n.Dir? then SizeAll(n.entries) else 0
  }

  function SizeAll(es: seq<DirEntry>): nat {
    if es == [] then 0 else Size(es[0].node) + SizeAll(es[1..])
  }

  // ---------- sorting a directory by name ----------

  predicate NameLess(a: string, b: string) {
    if b == "" then false
    else if a == "" then true
    else a[0] < b[0] || (a[0] == b[0] && NameLess(a[1..], b[1..]))
  }

  function Insert(e: DirEntry, es: seq<DirEntry>): seq<DirEntry> {
    if es == [] then [e]
    else if NameLess(es[0].name, e.name) then [es[0]] + Insert(e, es[1..])
    else [e] + es
  }

  function Sort(es: seq<DirEntry>): seq<DirEntry> {
    if es == [] then [] else Insert(es[0], Sort(es[1..]))
  }

  lemma {:induction false} InsertSize(e: DirEntry, es: seq<DirEntry>)
    ensures SizeAll(Insert(e, es)) == Size(e.node) + SizeAll(es)
    ensures multiset(Insert(e, es)) == multiset{e} + multiset(es)
  {
    if es == [] {
    } else if NameLess(es[0].name, e.name) {
      InsertSize(e, es[1..]);
      assert es == [es[0]] + es[1..];
    }
  }

  lemma {:induction false} SortSize(es: seq<DirEntry>)
    ensures SizeAll(Sort(es)) == SizeAll(es)
    ensures multiset(Sort(es)) == multiset(es)
  {
    if es != [] {
      SortSize(es[1..]);
      InsertSize(es[0], Sort(es[1..]));
      assert es == [es[0]] + es[1..];
    }
  }

  // ---------- the walk, as lists of names ----------

  function Under(name: string, below: seq<seq<string>>): seq<seq<string>> {
    seq(|below|, k requires 0 <= k < |below| => [name] + below[k])
  }

  function Both(a: Option<seq<seq<string>>>, b: Option<seq<seq<string>>>): Option<seq<seq<string>>> {
    if a.Some? && b.Some? then Some(a.value + b.value) else None
  }

  /** The regular files below a directory, each as the names leading to it, in publishing order;
      None when something below cannot be read. */
  function WalkDir(es: seq<DirEntry>): Option<seq<seq<string>>>
    decreases SizeAll(es), 2
  {
    SortSize(es);
    WalkSorted(Sort(es))
  }

  function WalkSorted(es: seq<DirEntry>): Option<seq<seq<string>>>
    decreases SizeAll(es), 1
  {
    if es == [] then Some([])
    else
      assert SizeAll(es) == Size(es[0].node) + SizeAll(es[1..]);
      Both(WalkEntry(es[0]), WalkSorted(es[1..]))
  }

  function WalkEntry(e: DirEntry): Option<seq<seq<string>>>
    decreases Size(e.node), 0
  {
    match e.node
    case RegularFile => Some([[e.name]])
    case Dir(sub) => (var w := WalkDir(sub); if w.Some? then Some(Under(e.name, w.value)) else None)
    case Special => Some([])
    case Unreadable => None
  }

  /** The published form of files found below `rel` / `source`. */
  function Render(rel: string, source: Path, found: seq<seq<string>>): seq<Selected> {
    seq(|found|, k requires 0 <= k < |found| => Selected(rel + "/" + Join(found[k]), source + found[k]))
  }

  method WalkPublishDir(es: seq<DirEntry>, rel: string, dir: Path, before: seq<Selected>)
    returns (out: Option<seq<Selected>>)
    ensures WalkDir(es).None? ==> out.None?
    ensures WalkDir(es).Some? ==> out == Some(before + Render(rel, dir, WalkDir(es).value))
    decreases SizeAll(es), 1
  {
    SortSize(es);
    var sorted := Sort(es);
    var acc := before;
    ghost var found: seq<seq<string>> := [];
    assert sorted[0..] == sorted;
    BothUnit(WalkSorted(sorted));
    for k := 0 to |sorted|
      invariant acc == before + Render(rel, dir, found)
      invariant WalkDir(es) == Both(Some(found), WalkSorted(sorted[k..]))
      invariant SizeAll(sorted[k..]) <= SizeAll(es)
    {
      var e := sorted[k];
      WalkStep(sorted, k, found);
      var added := WalkOne(e, rel, dir, acc);
      if added.None? {
        return None;
      }
      acc := added.value;
      RenderMore(rel, dir, before, found, WalkEntry(e).value);
      found := found + WalkEntry(e).value;
    }
    assert sorted[|sorted|..] == [] && found + [] == found;
    return Some(acc);
  }

  lemma RenderMore(rel: string, dir: Path, before: seq<Selected>, a: seq<seq<string>>, b: seq<seq<string>>)
    ensures before + Render(rel, dir, a) + Render(rel, dir, b) == before + Render(rel, dir, a + b)
  {
    RenderAppend(rel, dir, a, b);
  }

  /** One turn of the loop over a directory's entries. */
  method WalkOne(e: DirEntry, rel: string, dir: Path, before: seq<Selected>) returns (out: Option<seq<Selected>>)
    ensures WalkEntry(e).None? ==> out.None?
    ensures WalkEntry(e).Some? ==> out == Some(before + Render(rel, dir, WalkEntry(e).value))
    decreases Size(e.node), 0
  {
    match e.node {
      case RegularFile =>
        RenderOne(rel, dir, e.name);
        return Some(before + [Selected(rel + "/" + e.name, dir + [e.name])]);
      case Dir(sub) =>
        out := WalkPublishDir(sub, rel + "/" + e.name, dir + [e.name], before);
        if out.Some? {
          WalkedNonEmpty(sub);
          RenderUnder(rel, dir, e.name, WalkDir(sub).value);
        }
      case Special =>
        assert Render(rel, dir, []) == [] && before + [] == before;
        return Some(before);
      case Unreadable =>
        return None;
    }
  }

  lemma WalkStep(es: seq<DirEntry>, k: nat, found: seq<seq<string>>)
    requires k < |es|
    ensures SizeAll(es[k..]) == Size(es[k].node) + SizeAll(es[k + 1..])
    ensures Both(Some(found), WalkSorted(es[k..]))
         == if WalkEntry(es[k]).Some?
            then Both(Some(found + WalkEntry(es[k]).value), WalkSorted(es[k + 1..])) else None
  {
    assert es[k..][1..] == es[k + 1..];
    if WalkEntry(es[k]).Some? && WalkSorted(es[k + 1..]).Some? {
      assert found + (WalkEntry(es[k]).value + WalkSorted(es[k + 1..]).value)
          == found + WalkEntry(es[k]).value + WalkSorted(es[k + 1..]).value;
    }
  }

  lemma BothUnit(w: Option<seq<seq<string>>>)
    ensures Both(Some([]), w) == w
  {
    if w.Some? {
      assert [] + w.value == w.value;
    }
  }

  lemma RenderAppend(rel: string, source: Path, a: seq<seq<string>>, b: seq<seq<string>>)
    ensures Render(rel, source, a + b) == Render(rel, source, a) + Render(rel, source, b)
  {
  }

  lemma RenderOne(rel: string, source: Path, name: string)
    ensures Render(rel, source, [[name]]) == [Selected(rel + "/" + name, source + [name])]
  {
    assert Join([name]) == name;
  }

  lemma RenderUnder(rel: string, source: Path, name: string, below: seq<seq<string>>)
    requires forall k :: 0 <= k < |below| ==> below[k] != []
    ensures Render(rel, source, Under(name, below)) == Render(rel + "/" + name, source + [name], below)
  {
    forall k | 0 <= k < |below|
      ensures rel + "/" + Join([name] + below[k]) == rel + "/" + name + "/" + Join(below[k])
      ensures source + ([name] + below[k]) == source + [name] + below[k]
    {
      assert ([name] + below[k])[1..] == below[k];
    }
  }

  lemma {:induction false} WalkedNonEmpty(es: seq<DirEntry>)
    ensures WalkDir(es).Some? ==> forall k :: 0 <= k < |WalkDir(es).value| ==> WalkDir(es).value[k] != []
  {
    WalkedNonEmptySorted(Sort(es));
  }

  lemma {:induction false} WalkedNonEmptySorted(es: seq<DirEntry>)
    ensures WalkSorted(es).Some? ==> forall k :: 0 <= k < |WalkSorted(es).value| ==> WalkSorted(es).value[k] != []
  {
    if es != [] {
      WalkedNonEmptySorted(es[1..]);
    }
  }

  // ---------- the walk finds each regular file once ----------

  /** Names leading through directories to a node that is none, read off the tree itself. */
  ghost predicate Reaches(es: seq<DirEntry>, names: seq<string>, end: Node)
    requires !end.Dir?
    decreases |names|, 1
  {
    exists e :: e in es && Leads(e, names, end)
  }

  ghost predicate Leads(e: DirEntry, names: seq<string>, end: Node)
    requires !end.Dir?
    decreases |names|, 0
  {
    && names != [] && e.name == names[0]
    && if |names| == 1 then e.node == end else e.node.Dir? && Reaches(e.node.entries, names[1..], end)
  }

  /** No directory of the tree lists a name twice. */
  predicate WellNamed(es: seq<DirEntry>)
    decreases SizeAll(es)
  {
    es == [] ||
    (assert SizeAll(es) == Size(es[0].node) + SizeAll(es[1..]);
     && Unlisted(es[0].name, es[1..])
     && (es[0].node.Dir? ==> WellNamed(es[0].node.entries))
     && WellNamed(es[1..]))
  }

  predicate Unlisted(name: string, es: seq<DirEntry>) {
    forall e :: e in es ==> e.name != name
  }

  ghost predicate NoDuplicates(found: seq<seq<string>>) {
    forall i, j :: 0 <= i < j < |found| ==> found[i] != found[j]
  }

  lemma {:induction false} InsertWellNamed(e: DirEntry, es: seq<DirEntry>)
    requires WellNamed(es) && Unlisted(e.name, es) && (e.node.Dir? ==> WellNamed(e.node.entries))
    ensures WellNamed(Insert(e, es))
  {
    if es != [] && NameLess(es[0].name, e.name) {
      InsertWellNamed(e, es[1..]);
      InsertSize(e, es[1..]);
      forall x | x in Insert(e, es[1..]) ensures x.name != es[0].name {
        assert x in multiset(Insert(e, es[1..]));
      }
      assert Insert(e, es)[1..] == Insert(e, es[1..]);
    } else {
      assert ([e] + es)[1..] == es;
    }
  }

  lemma {:induction false} SortWellNamed(es: seq<DirEntry>)
    requires WellNamed(es)
    ensures WellNamed(Sort(es))
  {
    if es != [] {
      SortWellNamed(es[1..]);
      SortMembers(es[1..]);
      InsertWellNamed(es[0], Sort(es[1..]));
    }
  }

  lemma SortMembers(es: seq<DirEntry>)
    ensures forall e :: e in Sort(es) <==> e in es
  {
    SortSize(es);
    forall e ensures e in Sort(es) <==> e in es {
      assert e in Sort(es) <==> e in multiset(Sort(es));
      assert e in es <==> e in multiset(es);
    }
  }

  lemma {:induction false} EntryExact(e: DirEntry)
    requires e.node.Dir? ==> WellNamed(e.node.entries)
    requires WalkEntry(e).Some?
    ensures NoDuplicates(WalkEntry(e).value)
    ensures forall names :: names in WalkEntry(e).value <==> Leads(e, names, RegularFile)
    decreases Size(e.node), 0
  {
    var found := WalkEntry(e).value;
    if e.node.Dir? {
      var below := WalkDir(e.node.entries).value;
      WalkIsExact(e.node.entries);
      WalkedNonEmpty(e.node.entries);
      forall names | names in found ensures Leads(e, names, RegularFile) {
        var k :| 0 <= k < |found| && found[k] == names;
        assert names[1..] == below[k] && below[k] in below;
      }
      forall names | Leads(e, names, RegularFile) ensures names in found {
        assert |names| != 1;
        assert names[1..] in below;
        var k :| 0 <= k < |below| && below[k] == names[1..];
        assert found[k] == names;
      }
      forall i, j | 0 <= i < j < |found| ensures found[i] != found[j] {
        assert found[i][1..] == below[i] && found[j][1..] == below[j];
      }
    } else if e.node.RegularFile? {
      forall names ensures names in found <==> Leads(e, names, RegularFile) {
        if Leads(e, names, RegularFile) {
          assert names == [e.name];
        }
      }
    }
  }

  lemma {:induction false} SortedExact(es: seq<DirEntry>)
    requires WellNamed(es) && WalkSorted(es).Some?
    ensures NoDuplicates(WalkSorted(es).value)
    ensures forall names :: names in WalkSorted(es).value <==> Reaches(es, names, RegularFile)
    decreases SizeAll(es), 1
  {
    if es != [] {
      assert SizeAll(es) == Size(es[0].node) + SizeAll(es[1..]);
      var first, rest := WalkEntry(es[0]).value, WalkSorted(es[1..]).value;
      EntryExact(es[0]);
      SortedExact(es[1..]);
      assert WalkSorted(es).value == first + rest;
      forall names ensures names in first + rest <==> Reaches(es, names, RegularFile) {
        assert es[0] in es;
        assert forall e :: e in es <==> e == es[0] || e in es[1..];
      }
      forall x, y | x in first && y in rest ensures x != y {
        assert Leads(es[0], x, RegularFile) && Reaches(es[1..], y, RegularFile);
      }
      forall i, j | 0 <= i < j < |first + rest| ensures (first + rest)[i] != (first + rest)[j] {
        if i < |first| <= j {
          assert (first + rest)[i] in first && (first + rest)[j] in rest;
        }
      }
    }
  }

  /** Each regular file of the tree is found exactly once, and nothing else is: symlinks and
      special files are not, and neither is anything the tree does not hold. */
  lemma {:induction false} WalkIsExact(es: seq<DirEntry>)
    requires WellNamed(es) && WalkDir(es).Some?
    ensures NoDuplicates(WalkDir(es).value)
    ensures forall names :: names in WalkDir(es).value <==> Reaches(es, names, RegularFile)
    decreases SizeAll(es), 2
  {
    SortSize(es);
    SortWellNamed(es);
    SortMembers(es);
    SortedExact(Sort(es));
    forall names ensures Reaches(Sort(es), names, RegularFile) <==> Reaches(es, names, RegularFile) {
    }
  }

  // ---------- the published order does not depend on the listing order ----------

  /** Names are ordered as dictionaries order words: by the first character that differs, or the shorter
      first. */
  lemma {:induction false} NameLessExactly(a: string, b: string)
    ensures NameLess(a, b) <==>
            exists k :: 0 <= k <= |a| && k < |b| && a[..k] == b[..k] && (k == |a| || a[k] < b[k])
  {
    if a == "" {
      assert b != "" ==> a[..0] == b[..0];
    } else if b != "" {
      NameLessExactly(a[1..], b[1..]);
      if NameLess(a, b) {
        if a[0] < b[0] {
          assert a[..0] == b[..0];
        } else {
          var k :| 0 <= k <= |a| - 1 && k < |b| - 1 && a[1..][..k] == b[1..][..k]
                   && (k == |a| - 1 || a[1..][k] < b[1..][k]);
          assert a[..k + 1] == [a[0]] + a[1..][..k] && b[..k + 1] == [b[0]] + b[1..][..k];
        }
      }
      if k :| 0 <= k <= |a| && k < |b| && a[..k] == b[..k] && (k == |a| || a[k] < b[k]) {
        if k > 0 {
          assert a[0] == a[..k][0] == b[..k][0] == b[0];
          assert a[1..][..k - 1] == a[..k][1..] && b[1..][..k - 1] == b[..k][1..];
        }
      }
    }
  }

  lemma {:induction false} NameLessTotal(a: string, b: string)
    ensures NameLess(a, b) || NameLess(b, a) || a == b
    ensures !(NameLess(a, b) && NameLess(b, a)) && !NameLess(a, a)
  {
    if a != "" && b != "" {
      if a[0] == b[0] {
        NameLessTotal(a[1..], b[1..]);
        assert a == [a[0]] + a[1..] && b == [b[0]] + b[1..];
      }
      NameLessTotal(a[1..], a[1..]);
    } else if a != "" {
      NameLessTotal(a[1..], a[1..]);
    }
  }

  lemma {:induction false} NameLessTransitive(a: string, b: string, c: string)
    requires NameLess(a, b) && NameLess(b, c)
    ensures NameLess(a, c)
  {
    if a != "" && a[0] == b[0] == c[0] {
      NameLessTransitive(a[1..], b[1..], c[1..]);
    }
  }

  ghost predicate Ascending(es: seq<DirEntry>) {
    forall i, j :: 0 <= i < j < |es| ==> NameLess(es[i].name, es[j].name)
  }

  lemma FrontAscending(e: DirEntry, es: seq<DirEntry>)
    requires Ascending(es) && forall x :: x in es ==> NameLess(e.name, x.name)
    ensures Ascending([e] + es)
  {
    assert forall j :: 0 <= j < |es| ==> es[j] in es;
  }

  lemma InsertMembers(e: DirEntry, es: seq<DirEntry>, x: DirEntry)
    requires x in Insert(e, es)
    ensures x == e || x in es
  {
    InsertSize(e, es);
    assert x in multiset(Insert(e, es));
  }

  lemma {:induction false} InsertAscending(e: DirEntry, es: seq<DirEntry>)
    requires Ascending(es) && Unlisted(e.name, es)
    ensures Ascending(Insert(e, es))
  {
    if es == [] {
    } else if NameLess(es[0].name, e.name) {
      InsertAscending(e, es[1..]);
      forall x | x in Insert(e, es[1..]) ensures NameLess(es[0].name, x.name) {
        InsertMembers(e, es[1..], x);
      }
      FrontAscending(es[0], Insert(e, es[1..]));
    } else {
      assert es[0] in es;
      NameLessTotal(es[0].name, e.name);
      forall x | x in es ensures NameLess(e.name, x.name) {
        if x != es[0] {
          NameLessTransitive(e.name, es[0].name, x.name);
        }
      }
      FrontAscending(e, es);
    }
  }

  lemma {:induction false} SortAscending(es: seq<DirEntry>)
    requires WellNamed(es)
    ensures Ascending(Sort(es))
  {
    if es != [] {
      SortAscending(es[1..]);
      SortMembers(es[1..]);
      InsertAscending(es[0], Sort(es[1..]));
    }
  }

  lemma SameHead(a: seq<DirEntry>, b: seq<DirEntry>)
    requires Ascending(a) && Ascending(b) && a != [] && b != [] && multiset(a) == multiset(b)
    ensures a[0] == b[0]
  {
    assert a[0] in multiset(b) && b[0] in multiset(a);
    var i :| 0 <= i < |b| && b[i] == a[0];
    var j :| 0 <= j < |a| && a[j] == b[0];
    NameLessTotal(a[0].name, b[0].name);
  }

  lemma {:induction false} AscendingUnique(a: seq<DirEntry>, b: seq<DirEntry>)
    requires Ascending(a) && Ascending(b) && multiset(a) == multiset(b)
    ensures a == b
  {
    assert |a| == |multiset(a)| && |b| == |multiset(b)|;
    if a != [] {
      SameHead(a, b);
      assert a == [a[0]] + a[1..] && b == [b[0]] + b[1..];
      assert multiset(a) == multiset{a[0]} + multiset(a[1..]);
      assert multiset(b) == multiset{b[0]} + multiset(b[1..]);
      assert multiset(a[1..]) == multiset(a) - multiset{a[0]};
      assert multiset(b[1..]) == multiset(b) - multiset{b[0]};
      AscendingUnique(a[1..], b[1..]);
    }
  }

  /** However the system lists a directory, the same files are published in the same order, so the
      manifest's index i and the served path i are stable. */
  lemma WalkIgnoresListingOrder(p: seq<DirEntry>, q: seq<DirEntry>)
    requires WellNamed(p) && WellNamed(q) && multiset(p) == multiset(q)
    ensures WalkDir(p) == WalkDir(q)
  {
    SortSize(p);
    SortSize(q);
    SortAscending(p);
    SortAscending(q);
    AscendingUnique(Sort(p), Sort(q));
  }

  // ---------- when the walk fails ----------

  /** Something below, at any depth, cannot be read. */
  ghost predicate SomeUnreadable(es: seq<DirEntry>) {
    exists names :: Reaches(es, names, Unreadable)
  }

  ghost predicate EntryUnreadable(e: DirEntry) {
    exists names :: Leads(e, names, Unreadable)
  }

  lemma UnreadableMember(es: seq<DirEntry>)
    ensures SomeUnreadable(es) <==> exists e :: e in es && EntryUnreadable(e)
  {
    if SomeUnreadable(es) {
      var names :| Reaches(es, names, Unreadable);
      var e :| e in es && Leads(e, names, Unreadable);
      assert EntryUnreadable(e);
    }
    if e :| e in es && EntryUnreadable(e) {
      var names :| Leads(e, names, Unreadable);
      assert Reaches(es, names, Unreadable);
    }
  }

  /** The walk fails if and only if something in the tree cannot be read. */
  lemma {:induction false} WalkFailsExactly(es: seq<DirEntry>)
    ensures WalkDir(es).None? <==> SomeUnreadable(es)
    decreases SizeAll(es), 2
  {
    SortSize(es);
    SortMembers(es);
    SortedFailsExactly(Sort(es));
    UnreadableMember(es);
    UnreadableMember(Sort(es));
  }

  lemma {:induction false} SortedFailsExactly(es: seq<DirEntry>)
    ensures WalkSorted(es).None? <==> SomeUnreadable(es)
    decreases SizeAll(es), 1
  {
    UnreadableMember(es);
    if es != [] {
      assert SizeAll(es) == Size(es[0].node) + SizeAll(es[1..]);
      EntryFailsExactly(es[0]);
      SortedFailsExactly(es[1..]);
      UnreadableMember(es[1..]);
      assert es[0] in es && forall e :: e in es <==> e == es[0] || e in es[1..];
    }
  }

  lemma {:induction false} EntryFailsExactly(e: DirEntry)
    ensures WalkEntry(e).None? <==> EntryUnreadable(e)
    decreases Size(e.node), 0
  {
    if e.node.Unreadable? {
      assert Leads(e, [e.name], Unreadable);
    } else if e.node.Dir? {
      WalkFailsExactly(e.node.entries);
      if SomeUnreadable(e.node.entries) {
        var names :| Reaches(e.node.entries, names, Unreadable);
        assert ([e.name] + names)[1..] == names;
        assert Leads(e, [e.name] + names, Unreadable);
      }
      if EntryUnreadable(e) {
        var names :| Leads(e, names, Unreadable);
        assert Reaches(e.node.entries, names[1..], Unreadable);
      }
    }
  }

  // ---------- the order of the files ----------

  /** The first name that differs comes earlier. */
  ghost predicate Precedes(a: seq<string>, b: seq<string>) {
    exists k :: 0 <= k < |a| && k < |b| && a[..k] == b[..k] && NameLess(a[k], b[k])
  }

  ghost predicate InOrder(found: seq<seq<string>>) {
    forall i, j :: 0 <= i < j < |found| ==> Precedes(found[i], found[j])
  }

  lemma PrecedesUnder(name: string, a: seq<string>, b: seq<string>)
    requires Precedes(a, b)
    ensures Precedes([name] + a, [name] + b)
  {
    var k :| 0 <= k < |a| && k < |b| && a[..k] == b[..k] && NameLess(a[k], b[k]);
    var x, y := [name] + a, [name] + b;
    assert x[..k + 1] == [name] + a[..k] && y[..k + 1] == [name] + b[..k];
    assert x[k + 1] == a[k] && y[k + 1] == b[k];
  }

  lemma FirstNamePrecedes(a: seq<string>, b: seq<string>)
    requires a != [] && b != [] && NameLess(a[0], b[0])
    ensures Precedes(a, b)
  {
    assert a[..0] == b[..0];
  }

  /** Every file found in an entry starts with the entry's name. */
  lemma EntryStartsWithName(e: DirEntry)
    ensures WalkEntry(e).Some? ==>
              forall k :: 0 <= k < |WalkEntry(e).value| ==>
                WalkEntry(e).value[k] != [] && WalkEntry(e).value[k][0] == e.name
  {
  }

  lemma {:induction false} SortedStartWithNames(es: seq<DirEntry>)
    ensures WalkSorted(es).Some? ==>
              forall k :: 0 <= k < |WalkSorted(es).value| ==>
                && WalkSorted(es).value[k] != []
                && exists e :: e in es && WalkSorted(es).value[k][0] == e.name
  {
    if es != [] && WalkSorted(es).Some? {
      SortedStartWithNames(es[1..]);
      EntryStartsWithName(es[0]);
      var first, rest := WalkEntry(es[0]).value, WalkSorted(es[1..]).value;
      forall k | 0 <= k < |first + rest|
        ensures (first + rest)[k] != [] && exists e :: e in es && (first + rest)[k][0] == e.name
      {
        if k < |first| {
          assert es[0] in es;
        } else {
          var e :| e in es[1..] && rest[k - |first|][0] == e.name;
          assert e in es;
        }
      }
    }
  }

  /** Files are published in the order of their names, directory by directory. */
  lemma {:induction false} WalkInOrder(es: seq<DirEntry>)
    requires WellNamed(es) && WalkDir(es).Some?
    ensures InOrder(WalkDir(es).value)
    decreases SizeAll(es), 2
  {
    SortSize(es);
    SortWellNamed(es);
    SortAscending(es);
    SortedInOrder(Sort(es));
  }

  lemma {:induction false} SortedInOrder(es: seq<DirEntry>)
    requires WellNamed(es) && Ascending(es) && WalkSorted(es).Some?
    ensures InOrder(WalkSorted(es).value)
    decreases SizeAll(es), 1
  {
    if es != [] {
      assert SizeAll(es) == Size(es[0].node) + SizeAll(es[1..]);
      EntryInOrder(es[0]);
      SortedInOrder(es[1..]);
      EntryStartsWithName(es[0]);
      SortedStartWithNames(es[1..]);
      var first, rest := WalkEntry(es[0]).value, WalkSorted(es[1..]).value;
      forall i, j | 0 <= i < |first| && 0 <= j < |rest| ensures Precedes(first[i], rest[j]) {
        var e :| e in es[1..] && rest[j][0] == e.name;
        FirstNamePrecedes(first[i], rest[j]);
      }
      InOrderJoins(first, rest);
    }
  }

  lemma InOrderJoins(a: seq<seq<string>>, b: seq<seq<string>>)
    requires InOrder(a) && InOrder(b)
    requires forall i, j :: 0 <= i < |a| && 0 <= j < |b| ==> Precedes(a[i], b[j])
    ensures InOrder(a + b)
  {
  }

  lemma {:induction false} EntryInOrder(e: DirEntry)
    requires WalkEntry(e).Some? && (e.node.Dir? ==> WellNamed(e.node.entries))
    ensures InOrder(WalkEntry(e).value)
    decreases Size(e.node), 0
  {
    if e.node.Dir? {
      WalkInOrder(e.node.entries);
      var below := WalkDir(e.node.entries).value;
      forall i, j | 0 <= i < j < |below| ensures Precedes(Under(e.name, below)[i], Under(e.name, below)[j]) {
        PrecedesUnder(e.name, below[i], below[j]);
      }
    }
  }

  // ---------- the whole selection, and its way back ----------

  const UNNAMED := "item"

  /** `file_name()` of the selected path, or a stand-in for a path that has none. */
  function Base(i: Input): string {
    if i.path == [] || i.path[|i.path| - 1] == ".." || i.path[|i.path| - 1] == "" then UNNAMED
    else i.path[|i.path| - 1]
  }

  function InputFiles(i: Input): Option<seq<Selected>> {
    match i.node
    case RegularFile => Some([Selected(Base(i), i.path)])
    case Dir(es) => (var w := WalkDir(es); if w.Some? then Some(Render(Base(i), i.path, w.value)) else None)
    case Special => Some([])
    case Unreadable => None
  }

  function Collected(inputs: seq<Input>): Option<seq<Selected>> {
    if inputs == [] then Some([])
    else
      var before, here := Collected(inputs[..|inputs| - 1]), InputFiles(inputs[|inputs| - 1]);
      if before.Some? && here.Some? then Some(before.value + here.value) else None
  }

  method CollectPublishFiles(inputs: seq<Input>) returns (out: Option<seq<Selected>>)
    ensures out == Collected(inputs)
  {
    var acc: seq<Selected> := [];
    for k := 0 to |inputs|
      invariant Collected(inputs[..k]) == Some(acc)
    {
      assert inputs[..k + 1][..k] == inputs[..k];
      var i := inputs[k];
      match i.node {
        case RegularFile => acc := acc + [Selected(Base(i), i.path)];
        case Dir(es) =>
          var deeper := WalkPublishDir(es, Base(i), i.path, acc);
          if deeper.None? {
            CollectedNone(inputs, k);
            return None;
          }
          acc := deeper.value;
        case Special => acc := acc + [];
        case Unreadable =>
          CollectedNone(inputs, k);
          return None;
      }
    }
    assert inputs[..|inputs|] == inputs;
    return Some(acc);
  }

  lemma {:induction false} CollectedNone(inputs: seq<Input>, k: nat)
    requires k < |inputs| && InputFiles(inputs[k]).None?
    ensures Collected(inputs).None?
  {
    if k < |inputs| - 1 {
      CollectedNone(inputs[..|inputs| - 1], k);
    }
  }

  /** What one selected path contributes: a regular file itself, a directory what its walk finds, anything
      else nothing; and what makes it fail. */
  lemma InputExactly(i: Input)
    ensures i.node.RegularFile? ==> InputFiles(i) == Some([Selected(Base(i), i.path)])
    ensures i.node.Special? ==> InputFiles(i) == Some([])
    ensures InputFiles(i).None? <==> i.node.Unreadable? || (i.node.Dir? && SomeUnreadable(i.node.entries))
  {
    if i.node.Dir? {
      WalkFailsExactly(i.node.entries);
    }
  }

  /** The base name is the path's last name, or "item" for a path that ends in none. */
  lemma BaseExactly(i: Input)
    ensures Base(i) == if i.path != [] && i.path[|i.path| - 1] != "" && i.path[|i.path| - 1] != ".."
                       then i.path[|i.path| - 1] else "item"
  {
  }

  /** A selection fails if and only if one of its inputs does, and otherwise has the files of all, input by
      input. */
  lemma {:induction false} CollectedExactly(inputs: seq<Input>)
    ensures Collected(inputs).None? <==> exists k :: 0 <= k < |inputs| && InputFiles(inputs[k]).None?
    ensures Collected([]) == Some([])
    ensures inputs != [] && Collected(inputs).Some? ==>
              var last := |inputs| - 1;
              && Collected(inputs[..last]).Some? && InputFiles(inputs[last]).Some?
              && Collected(inputs).value == Collected(inputs[..last]).value + InputFiles(inputs[last]).value
  {
    if inputs != [] {
      var last := |inputs| - 1;
      CollectedExactly(inputs[..last]);
      if k :| 0 <= k < last && InputFiles(inputs[..last][k]).None? {
        assert InputFiles(inputs[k]).None?;
      }
    }
  }

  /** Names, below the selected path, of the files one input contributes. */
  function NamesOf(i: Input): Option<seq<seq<string>>> {
    if i.node.RegularFile? then Some([[]])
    else if i.node.Dir? then WalkDir(i.node.entries)
    else if i.node.Special? then Some([])
    else None
  }

  /** Every name in the tree is one sanitizing leaves alone. */
  predicate AllFixed(es: seq<DirEntry>)
    decreases SizeAll(es)
  {
    es == [] ||
    (assert SizeAll(es) == Size(es[0].node) + SizeAll(es[1..]);
     && Fixed(es[0].name)
     && (es[0].node.Dir? ==> AllFixed(es[0].node.entries))
     && AllFixed(es[1..]))
  }

  lemma {:induction false} FixedMember(es: seq<DirEntry>, e: DirEntry)
    requires AllFixed(es) && e in es
    ensures Fixed(e.name) && (e.node.Dir? ==> AllFixed(e.node.entries))
  {
    if e != es[0] {
      FixedMember(es[1..], e);
    }
  }

  lemma {:induction false} ReachedAreFixed(es: seq<DirEntry>, names: seq<string>)
    requires AllFixed(es) && Reaches(es, names, RegularFile)
    ensures forall n :: n in names ==> Fixed(n)
    decreases |names|
  {
    var e :| e in es && Leads(e, names, RegularFile);
    FixedMember(es, e);
    if |names| > 1 {
      ReachedAreFixed(e.node.entries, names[1..]);
    }
    forall n | n in names ensures Fixed(n) {
      var k :| 0 <= k < |names| && names[k] == n;
      if k > 0 {
        assert names[1..][k - 1] == n;
      }
    }
  }

  ghost predicate Receivable(i: Input) {
    && Fixed(Base(i))
    && (i.node.Dir? ==> WellNamed(i.node.entries) && AllFixed(i.node.entries))
    && NamesOf(i).Some?
  }

  /** Publishing and receiving undo each other: file k of an input, announced under its joined
      path, is written under exactly the components it had below the selection. */
  lemma ReceivedWhereItWas(i: Input, k: nat, displayName: string)
    requires Receivable(i) && k < |NamesOf(i).value|
    ensures InputFiles(i).Some? && |InputFiles(i).value| == |NamesOf(i).value|
    ensures var s := InputFiles(i).value[k];
            && DestinationTail(s.relativePath, displayName) == [Base(i)] + NamesOf(i).value[k]
            && s.source == i.path + NamesOf(i).value[k]
  {
    var names := NamesOf(i).value[k];
    var all := [Base(i)] + names;
    if i.node.Dir? {
      WalkIsExact(i.node.entries);
      assert names in WalkDir(i.node.entries).value;
      ReachedAreFixed(i.node.entries, names);
      WalkedNonEmpty(i.node.entries);
      assert all[1..] == names;
      assert InputFiles(i).value[k].relativePath == Base(i) + "/" + Join(names) == Join(all);
    } else {
      assert names == [] && all == [Base(i)] && Join(all) == Base(i);
      assert i.path + names == i.path;
    }
    DestinationUndoesJoin(all, displayName);
  }

  lemma {:induction false} BaseNameStops(s: string, name: string, upTo: nat)
    requires upTo <= |s| && |s| >= |name| && s[|s| - |name|..] == name && '/' !in name && upTo >= |s| - |name|
    requires |s| == |name| || s[|s| - |name| - 1] == '/'
    ensures BaseName(s, upTo) == name
    decreases upTo
  {
    if upTo > |s| - |name| {
      assert s[upTo - 1] == name[upTo - 1 - (|s| - |name|)];
      BaseNameStops(s, name, upTo - 1);
    }
  }

  lemma {:induction false} JoinEnds(names: seq<string>)
    requires names != []
    ensures var s, name := Join(names), names[|names| - 1];
            |s| >= |name| && s[|s| - |name|..] == name && (|s| == |name| || s[|s| - |name| - 1] == '/')
  {
    if |names| > 1 {
      JoinEnds(names[1..]);
    }
  }

  /** The announced display name is the last of the names. */
  lemma AnnouncedName(names: seq<string>, source: Path, size: nat, sha256: string)
    requires names != [] && Normal(names[|names| - 1])
    ensures Entry(Selected(Join(names), source), size, sha256).displayName == names[|names| - 1]
  {
    JoinEnds(names);
    BaseNameStops(Join(names), names[|names| - 1], |Join(names)|);
  }

  lemma RelativePathOf(i: Input, k: nat)
    requires NamesOf(i).Some? && k < |NamesOf(i).value|
    ensures InputFiles(i).Some? && |InputFiles(i).value| == |NamesOf(i).value|
    ensures InputFiles(i).value[k] == Selected(Join([Base(i)] + NamesOf(i).value[k]), i.path + NamesOf(i).value[k])
  {
    var names := NamesOf(i).value[k];
    var all := [Base(i)] + names;
    if i.node.Dir? {
      WalkedNonEmpty(i.node.entries);
      assert names in WalkDir(i.node.entries).value;
      assert all[1..] == names;
    } else {
      assert all == [Base(i)] && i.path + names == i.path;
    }
  }

  /** Exactly which files keep their place: those whose every name, the selection's included,
      sanitizing leaves alone. */
  lemma KeepsItsPlaceExactly(i: Input, k: nat, size: nat, sha256: string)
    requires NamesOf(i).Some? && k < |NamesOf(i).value|
    ensures InputFiles(i).Some? && |InputFiles(i).value| == |NamesOf(i).value|
    ensures var e := Entry(InputFiles(i).value[k], size, sha256);
            var names := [Base(i)] + NamesOf(i).value[k];
            DestinationTail(e.relativePath, e.displayName) == names <==> forall n :: n in names ==> Fixed(n)
  {
    RelativePathOf(i, k);
    var s := InputFiles(i).value[k];
    var names := [Base(i)] + NamesOf(i).value[k];
    if Normal(names[|names| - 1]) {
      AnnouncedName(names, s.source, size, sha256);
    }
    RecreatedExactly(names, Entry(s, size, sha256).displayName);
  }

  /** Within one selected input, distinct files land at distinct destinations. */
  lemma DestinationsDistinct(i: Input, k: nat, m: nat, d: string, e: string)
    requires Receivable(i) && k < m < |NamesOf(i).value|
    ensures InputFiles(i).Some? && m < |InputFiles(i).value|
    ensures DestinationTail(InputFiles(i).value[k].relativePath, d)
            != DestinationTail(InputFiles(i).value[m].relativePath, e)
  {
    ReceivedWhereItWas(i, k, d);
    ReceivedWhereItWas(i, m, e);
    var names := NamesOf(i).value;
    if i.node.Dir? {
      WalkIsExact(i.node.entries);
      assert names[k] != names[m];
      assert ([Base(i)] + names[k])[1..] == names[k] && ([Base(i)] + names[m])[1..] == names[m];
    }
  }

  /** Where the files of one input go on the receiver. */
  ghost predicate PlacedUnder(cacheDir: Path, i: Input, paths: seq<Path>) {
    && InputFiles(i).Some? && |paths| == |InputFiles(i).value|
    && forall k :: 0 <= k < |paths| ==>
         exists d :: paths[k] == cacheDir + DestinationTail(InputFiles(i).value[k].relativePath, d)
  }

  /** One selected tree of fixed names, none with a temporary file's extension, is received without one
      file disturbing another, over either transport or a mix of both. */
  lemma OneInputStaysApart(i: Input, cacheDir: Path, paths: seq<Path>, contents: seq<Bytes>, n: nat, broken: bool)
    requires Receivable(i) && PlacedUnder(cacheDir, i, paths)
    requires |paths| == |contents| && n <= |paths| && (broken ==> n < |paths|)
    requires forall k :: 0 <= k < |NamesOf(i).value| ==> !CacheDisk.TakesTemporaryName([Base(i)] + NamesOf(i).value[k])
    ensures CacheDisk.KeptApart(paths, contents, n, broken)
  {
    forall k | 0 <= k < |paths|
      ensures k < |NamesOf(i).value| && paths[k] == cacheDir + ([Base(i)] + NamesOf(i).value[k])
    {
      var d :| paths[k] == cacheDir + DestinationTail(InputFiles(i).value[k].relativePath, d);
      RelativePathOf(i, 0);
      ReceivedWhereItWas(i, k, d);
    }
    forall k | 0 <= k < |paths| ensures paths[k] != [] && !CacheDisk.TakesTemporaryName(paths[k]) {
      var names := [Base(i)] + NamesOf(i).value[k];
      assert paths[k][|paths[k]| - 1] == names[|names| - 1];
    }
    forall k, m | 0 <= k < m < |paths| ensures paths[k] != paths[m] {
      DestinationsDistinct(i, k, m, "", "");
      ReceivedWhereItWas(i, k, "");
      ReceivedWhereItWas(i, m, "");
      assert paths[k][|cacheDir|..] == [Base(i)] + NamesOf(i).value[k];
      assert paths[m][|cacheDir|..] == [Base(i)] + NamesOf(i).value[m];
    }
    CacheDisk.DistinctIsApart(paths, contents, n, broken);
  }

  /** Across two selected inputs that does not hold: file k of one and file m of the other are
      written to the same place exactly when the inputs have the same base name and the files the
      same place below it, as two single files named alike in different directories do. */
  lemma InputsCollideExactly(i: Input, j: Input, k: nat, m: nat, d: string, e: string)
    requires Receivable(i) && Receivable(j) && k < |NamesOf(i).value| && m < |NamesOf(j).value|
    ensures && InputFiles(i).Some? && |InputFiles(i).value| == |NamesOf(i).value|
            && InputFiles(j).Some? && |InputFiles(j).value| == |NamesOf(j).value|
    ensures DestinationTail(InputFiles(i).value[k].relativePath, d)
            == DestinationTail(InputFiles(j).value[m].relativePath, e)
       <==> Base(i) == Base(j) && NamesOf(i).value[k] == NamesOf(j).value[m]
  {
    ReceivedWhereItWas(i, k, d);
    ReceivedWhereItWas(j, m, e);
    var a, b := [Base(i)] + NamesOf(i).value[k], [Base(j)] + NamesOf(j).value[m];
    assert a[0] == Base(i) && b[0] == Base(j) && a[1..] == NamesOf(i).value[k] && b[1..] == NamesOf(j).value[m];
  }

  /** Two files of the same name selected from different directories: one overwrites the other. */
  lemma SameNameOverwrites(name: string, p: Path, q: Path, d: string, e: string)
    requires Fixed(name) && p != q
    ensures var i, j := Input(p + [name], RegularFile), Input(q + [name], RegularFile);
            && i.path != j.path
            && InputFiles(i).Some? && InputFiles(j).Some? && |InputFiles(i).value| == |InputFiles(j).value| == 1
            && InputFiles(i).value[0].source != InputFiles(j).value[0].source
            && DestinationTail(InputFiles(i).value[0].relativePath, d)
               == DestinationTail(InputFiles(j).value[0].relativePath, e)
  {
    var i, j := Input(p + [name], RegularFile), Input(q + [name], RegularFile);
    FixedIsNormal(name);
    assert i.path[..|p|] == p && j.path[..|q|] == q;
    InputsCollideExactly(i, j, 0, 0, d, e);
  }
}
