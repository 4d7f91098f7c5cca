/** What the files of the cache hold after a download (download_peer_file_to_cache in
    crates/airpaste-agent/src/lib.rs and the last lines of download_via_relay in
    crates/airpaste-agent/src/relay.rs). A direct download goes to a temporary file beside the
    destination and is renamed; a relayed one is written to the destination itself. */
module CacheDisk {
  import opened Wrappers
  import opened PeerRegistry

  type Disk = map<Path, Bytes>

  /** A finished direct download, a finished relayed one, and a direct one that failed once its
      temporary file existed. */
  datatype Write = Renamed(path: Path, content: Bytes) | Written(path: Path, content: Bytes) | Broken(path: Path)

  // ---------- the temporary name ----------

  const TEMPORARY := "airpaste-download"

  function LastDot(name: string, upTo: nat): (r: Option<nat>)
    requires upTo <= |name|
    ensures r.Some? ==> r.value < upTo
  {
    if upTo == 0 then None
    else if name[upTo - 1] == '.' then Some(upTo - 1)
    else LastDot(name, upTo - 1)
  }

  /** `Path::file_stem`: the part before the last dot, unless that is the first character. */
  function Stem(name: string): string {
    var dot := LastDot(name, |name|);
    if name == ".." || dot.None? || dot.value == 0 then name else name[..dot.value]
  }

  /** `with_extension("airpaste-download")`. */
  function Temporary(path: Path): Path {
    if path == [] then path else path[..|path| - 1] + [Stem(path[|path| - 1]) + "." + TEMPORARY]
  }

  // ---------- the effect of writes ----------

  function After(disk: Disk, w: Write): Disk {
    match w
    case Renamed(path, content) => (disk - {Temporary(path)})[path := content]
    case Written(path, content) => disk[path := content]
    case Broken(path) => disk - {Temporary(path)}
  }

  function AfterAll(disk: Disk, ws: seq<Write>): Disk {
    if ws == [] then disk else After(AfterAll(disk, ws[..|ws| - 1]), ws[|ws| - 1])
  }

  predicate Saves(w: Write, path: Path) {
    !w.Broken? && w.path == path
  }

  /** The write takes the path for its temporary file, which is gone afterwards. */
  predicate Ruins(w: Write, path: Path) {
    !w.Written? && Temporary(w.path) == path && !Saves(w, path)
  }

  predicate Touches(w: Write, path: Path) {
    Saves(w, path) || Ruins(w, path)
  }

  ghost predicate Holds(disk: Disk, path: Path, content: Bytes) {
    path in disk && disk[path] == content
  }

  lemma AfterOne(disk: Disk, w: Write, path: Path)
    ensures Saves(w, path) ==> Holds(After(disk, w), path, w.content)
    ensures Ruins(w, path) ==> path !in After(disk, w)
    ensures !Touches(w, path) ==> (path in After(disk, w) <==> path in disk)
                                  && (path in disk ==> After(disk, w)[path] == disk[path])
  {
  }

  /** Write m is the last to touch the path. */
  ghost predicate LastTouch(ws: seq<Write>, m: nat, path: Path) {
    m < |ws| && Touches(ws[m], path) && forall l :: m < l < |ws| ==> !Touches(ws[l], path)
  }

  /** The last write to touch a path decides what it holds. */
  lemma {:induction false} LastTouchDecides(disk: Disk, ws: seq<Write>, m: nat, path: Path)
    requires LastTouch(ws, m, path)
    ensures Saves(ws[m], path) ==> Holds(AfterAll(disk, ws), path, ws[m].content)
    ensures Ruins(ws[m], path) ==> path !in AfterAll(disk, ws)
    decreases |ws|
  {
    var last := |ws| - 1;
    AfterOne(AfterAll(disk, ws[..last]), ws[last], path);
    if m < last {
      LastTouchDecides(disk, ws[..last], m, path);
    }
  }

  lemma {:induction false} LastTouchExists(ws: seq<Write>, k: nat, path: Path) returns (m: nat)
    requires k < |ws| && Touches(ws[k], path)
    ensures k <= m && LastTouch(ws, m, path)
    decreases |ws| - k
  {
    m := k;
    if l :| k < l < |ws| && Touches(ws[l], path) {
      m := LastTouchExists(ws, l, path);
    }
  }

  /** Whatever is saved is there at the end. */
  ghost predicate AllIntact(disk: Disk, ws: seq<Write>) {
    forall k :: 0 <= k < |ws| && !ws[k].Broken? ==> Holds(disk, ws[k].path, ws[k].content)
  }

  ghost predicate SavedAfter(ws: seq<Write>, m: nat, path: Path) {
    exists l :: m < l < |ws| && Saves(ws[l], path)
  }

  /** Two saves to one place agree, and a place taken for a temporary file is saved again later. */
  ghost predicate Undisturbed(ws: seq<Write>) {
    && (forall k, m :: 0 <= k < m < |ws| && !ws[k].Broken? && Saves(ws[m], ws[k].path) ==>
                         ws[k].content == ws[m].content)
    && (forall k, m :: 0 <= k < |ws| && 0 <= m < |ws| && !ws[k].Broken? && Ruins(ws[m], ws[k].path) ==>
                         SavedAfter(ws, m, ws[k].path))
  }

  lemma UndisturbedIsIntact(disk: Disk, ws: seq<Write>, k: nat)
    requires Undisturbed(ws) && k < |ws| && !ws[k].Broken?
    ensures Holds(AfterAll(disk, ws), ws[k].path, ws[k].content)
  {
    var path := ws[k].path;
    var m := LastTouchExists(ws, k, path);
    LastTouchDecides(disk, ws, m, path);
    assert Ruins(ws[m], path) ==> SavedAfter(ws, m, path);
  }

  lemma RuinedIsSavedAfter(disk: Disk, ws: seq<Write>, k: nat, m: nat)
    requires k < |ws| && m < |ws| && !ws[k].Broken? && Ruins(ws[m], ws[k].path)
    requires Holds(AfterAll(disk, ws), ws[k].path, ws[k].content)
    ensures SavedAfter(ws, m, ws[k].path)
  {
    var last := LastTouchExists(ws, m, ws[k].path);
    LastTouchDecides(disk, ws, last, ws[k].path);
    assert Saves(ws[last], ws[k].path);
  }

  /** Exactly when every saved file is on disk with its content at the end. */
  lemma AllIntactExactly(disk: Disk, ws: seq<Write>)
    ensures AllIntact(AfterAll(disk, ws), ws) <==> Undisturbed(ws)
  {
    if Undisturbed(ws) {
      forall k | 0 <= k < |ws| && !ws[k].Broken? ensures Holds(AfterAll(disk, ws), ws[k].path, ws[k].content) {
        UndisturbedIsIntact(disk, ws, k);
      }
    }
    if AllIntact(AfterAll(disk, ws), ws) {
      forall k, m | 0 <= k < |ws| && 0 <= m < |ws| && !ws[k].Broken? && Ruins(ws[m], ws[k].path)
        ensures SavedAfter(ws, m, ws[k].path)
      {
        RuinedIsSavedAfter(disk, ws, k, m);
      }
    }
  }

  // ---------- a download: some files directly, the others over the relay ----------

  /** The first `n` arrive directly, the others over the relay; `broken` is whether the direct attempt
      at the next one got as far as its temporary file. */
  function Writes(paths: seq<Path>, contents: seq<Bytes>, n: nat, broken: bool): seq<Write>
    requires |paths| == |contents| && n <= |paths| && (broken ==> n < |paths|)
  {
    DirectWrites(paths[..n], contents[..n]) + Attempt(paths, n, broken) + RelayWrites(paths[n..], contents[n..])
  }

  function DirectWrites(paths: seq<Path>, contents: seq<Bytes>): (r: seq<Write>)
    requires |paths| == |contents|
    ensures |r| == |paths|
  {
    seq(|paths|, k requires 0 <= k < |paths| => Renamed(paths[k], contents[k]))
  }

  function Attempt(paths: seq<Path>, n: nat, broken: bool): seq<Write>
    requires broken ==> n < |paths|
  {
    if broken then [Broken(paths[n])] else []
  }

  function RelayWrites(paths: seq<Path>, contents: seq<Bytes>): (r: seq<Write>)
    requires |paths| == |contents|
    ensures |r| == |paths|
  {
    seq(|paths|, k requires 0 <= k < |paths| => Written(paths[k], contents[k]))
  }

  lemma {:induction false} AfterAllOfPair(disk: Disk, a: seq<Write>, b: seq<Write>)
    ensures AfterAll(disk, a + b) == AfterAll(AfterAll(disk, a), b)
    decreases |b|
  {
    if b == [] {
      assert a + b == a;
    } else {
      var last := |b| - 1;
      assert (a + b)[..|a + b| - 1] == a + b[..last];
      AfterAllOfPair(disk, a, b[..last]);
    }
  }

  lemma AfterOneMore(disk: Disk, ws: seq<Write>, w: Write)
    ensures AfterAll(disk, ws + [w]) == After(AfterAll(disk, ws), w)
  {
    assert (ws + [w])[..|ws|] == ws;
  }

  lemma NextDirectWrite(disk: Disk, paths: seq<Path>, contents: seq<Bytes>, k: nat)
    requires k < |paths| && k < |contents|
    ensures AfterAll(disk, DirectWrites(paths[..k + 1], contents[..k + 1]))
         == After(AfterAll(disk, DirectWrites(paths[..k], contents[..k])), Renamed(paths[k], contents[k]))
  {
    AfterOneMore(disk, DirectWrites(paths[..k], contents[..k]), Renamed(paths[k], contents[k]));
    assert DirectWrites(paths[..k + 1], contents[..k + 1])
        == DirectWrites(paths[..k], contents[..k]) + [Renamed(paths[k], contents[k])];
  }

  lemma NextRelayWrite(disk: Disk, paths: seq<Path>, contents: seq<Bytes>, k: nat)
    requires k < |paths| && k < |contents|
    ensures AfterAll(disk, RelayWrites(paths[..k + 1], contents[..k + 1]))
         == After(AfterAll(disk, RelayWrites(paths[..k], contents[..k])), Written(paths[k], contents[k]))
  {
    AfterOneMore(disk, RelayWrites(paths[..k], contents[..k]), Written(paths[k], contents[k]));
    assert RelayWrites(paths[..k + 1], contents[..k + 1])
        == RelayWrites(paths[..k], contents[..k]) + [Written(paths[k], contents[k])];
  }

  ghost predicate PlacedFrom(paths: seq<Path>, from: nat, path: Path) {
    exists l :: from <= l < |paths| && paths[l] == path
  }

  /** Files of one destination have the same content; and no direct download takes another file's
      destination for its temporary file, unless a file is placed there again after it. */
  ghost predicate KeptApart(paths: seq<Path>, contents: seq<Bytes>, n: nat, broken: bool)
    requires |paths| == |contents| && n <= |paths| && (broken ==> n < |paths|)
  {
    && (forall i, j :: 0 <= i < j < |paths| && paths[i] == paths[j] ==> contents[i] == contents[j])
    && (forall i, j :: 0 <= i < |paths| && 0 <= j < n && Temporary(paths[j]) == paths[i] != paths[j] ==>
                         PlacedFrom(paths, j + 1, paths[i]))
    && (broken ==> forall i :: 0 <= i < |paths| && Temporary(paths[n]) == paths[i] ==> PlacedFrom(paths, n, paths[i]))
  }

  /** The position of file i among the writes. */
  function At(i: nat, n: nat, broken: bool): nat {
    if i < n || !broken then i else i + 1
  }

  lemma WritesAt(paths: seq<Path>, contents: seq<Bytes>, n: nat, broken: bool)
    requires |paths| == |contents| && n <= |paths| && (broken ==> n < |paths|)
    ensures var ws := Writes(paths, contents, n, broken);
            && |ws| == |paths| + (if broken then 1 else 0)
            && (forall i: nat :: i < |paths| ==>
                  ws[At(i, n, broken)]
                  == if i < n then Renamed(paths[i], contents[i]) else Written(paths[i], contents[i]))
            && (broken ==> ws[n] == Broken(paths[n]))
  {
  }

  /** The file that write k saves, unless it is the broken attempt. */
  function FileOf(k: nat, n: nat, broken: bool): nat {
    if k <= n || !broken then k else k - 1
  }

  lemma WriteIsFile(paths: seq<Path>, contents: seq<Bytes>, n: nat, broken: bool, k: nat)
    requires |paths| == |contents| && n <= |paths| && (broken ==> n < |paths|)
    requires k < |Writes(paths, contents, n, broken)|
    ensures var w, i := Writes(paths, contents, n, broken)[k], FileOf(k, n, broken);
            if broken && k == n then w == Broken(paths[n])
            else i < |paths| && w == if i < n then Renamed(paths[i], contents[i]) else Written(paths[i], contents[i])
  {
    WritesAt(paths, contents, n, broken);
    if !(broken && k == n) {
      assert At(FileOf(k, n, broken), n, broken) == k;
    }
  }

  ghost predicate AllOnDisk(disk: Disk, paths: seq<Path>, contents: seq<Bytes>)
    requires |paths| == |contents|
  {
    forall i :: 0 <= i < |paths| ==> Holds(disk, paths[i], contents[i])
  }

  lemma OnDiskIsIntact(disk: Disk, paths: seq<Path>, contents: seq<Bytes>, n: nat, broken: bool)
    requires |paths| == |contents| && n <= |paths| && (broken ==> n < |paths|)
    ensures AllOnDisk(disk, paths, contents) <==> AllIntact(disk, Writes(paths, contents, n, broken))
  {
    var ws := Writes(paths, contents, n, broken);
    WritesAt(paths, contents, n, broken);
    forall k | 0 <= k < |ws| && !ws[k].Broken?
      ensures var i := FileOf(k, n, broken); i < |paths| && ws[k].path == paths[i] && ws[k].content == contents[i]
    {
      WriteIsFile(paths, contents, n, broken, k);
    }
    forall i: nat | i < |paths|
      ensures var w := ws[At(i, n, broken)]; !w.Broken? && w.path == paths[i] && w.content == contents[i]
    {
    }
  }

  lemma ApartSavesAgree(paths: seq<Path>, contents: seq<Bytes>, n: nat, broken: bool, k: nat, m: nat)
    requires |paths| == |contents| && n <= |paths| && (broken ==> n < |paths|)
    requires KeptApart(paths, contents, n, broken)
    requires var ws := Writes(paths, contents, n, broken);
             k < m < |ws| && !ws[k].Broken? && Saves(ws[m], ws[k].path)
    ensures var ws := Writes(paths, contents, n, broken); ws[k].content == ws[m].content
  {
    WriteIsFile(paths, contents, n, broken, k);
    WriteIsFile(paths, contents, n, broken, m);
    assert FileOf(k, n, broken) < FileOf(m, n, broken);
  }

  lemma ApartSavedAfter(paths: seq<Path>, contents: seq<Bytes>, n: nat, broken: bool, k: nat, m: nat)
    requires |paths| == |contents| && n <= |paths| && (broken ==> n < |paths|)
    requires KeptApart(paths, contents, n, broken)
    requires var ws := Writes(paths, contents, n, broken);
             k < |ws| && m < |ws| && !ws[k].Broken? && Ruins(ws[m], ws[k].path)
    ensures var ws := Writes(paths, contents, n, broken); SavedAfter(ws, m, ws[k].path)
  {
    var ws := Writes(paths, contents, n, broken);
    WriteIsFile(paths, contents, n, broken, k);
    WriteIsFile(paths, contents, n, broken, m);
    var path := ws[k].path;
    assert paths[FileOf(k, n, broken)] == path;
    PlacedIsSaved(paths, contents, n, broken, m, path);
  }

  lemma PlacedIsSaved(paths: seq<Path>, contents: seq<Bytes>, n: nat, broken: bool, m: nat, path: Path)
    requires |paths| == |contents| && n <= |paths| && (broken ==> n < |paths|)
    requires m < n || (broken && m == n)
    requires PlacedFrom(paths, if m < n then m + 1 else n, path)
    ensures SavedAfter(Writes(paths, contents, n, broken), m, path)
  {
    var from := if m < n then m + 1 else n;
    var l :| from <= l < |paths| && paths[l] == path;
    WritesAt(paths, contents, n, broken);
    assert Saves(Writes(paths, contents, n, broken)[At(l, n, broken)], path);
  }

  lemma ApartIsUndisturbed(paths: seq<Path>, contents: seq<Bytes>, n: nat, broken: bool)
    requires |paths| == |contents| && n <= |paths| && (broken ==> n < |paths|)
    requires KeptApart(paths, contents, n, broken)
    ensures Undisturbed(Writes(paths, contents, n, broken))
  {
    var ws := Writes(paths, contents, n, broken);
    forall k, m | 0 <= k < |ws| && 0 <= m < |ws| && !ws[k].Broken? && Ruins(ws[m], ws[k].path)
      ensures SavedAfter(ws, m, ws[k].path)
    {
      ApartSavedAfter(paths, contents, n, broken, k, m);
    }
    forall k, m | 0 <= k < m < |ws| && !ws[k].Broken? && Saves(ws[m], ws[k].path)
      ensures ws[k].content == ws[m].content
    {
      ApartSavesAgree(paths, contents, n, broken, k, m);
    }
  }

  lemma UndisturbedIsApart(paths: seq<Path>, contents: seq<Bytes>, n: nat, broken: bool)
    requires |paths| == |contents| && n <= |paths| && (broken ==> n < |paths|)
    requires Undisturbed(Writes(paths, contents, n, broken))
    ensures KeptApart(paths, contents, n, broken)
  {
    var ws := Writes(paths, contents, n, broken);
    WritesAt(paths, contents, n, broken);
    forall i, j | 0 <= i < j < |paths| && paths[i] == paths[j] ensures contents[i] == contents[j] {
      assert Saves(ws[At(j, n, broken)], ws[At(i, n, broken)].path);
    }
    forall i, j | 0 <= i < |paths| && 0 <= j < n && Temporary(paths[j]) == paths[i] != paths[j]
      ensures PlacedFrom(paths, j + 1, paths[i])
    {
      assert At(j, n, broken) == j;
      assert Ruins(ws[j], ws[At(i, n, broken)].path);
      PlacedAgain(paths, contents, n, broken, j, paths[i]);
    }
    if broken {
      forall i | 0 <= i < |paths| && Temporary(paths[n]) == paths[i] ensures PlacedFrom(paths, n, paths[i]) {
        assert Ruins(ws[n], ws[At(i, n, broken)].path);
        PlacedAgain(paths, contents, n, broken, n, paths[i]);
      }
    }
  }

  lemma PlacedAgain(paths: seq<Path>, contents: seq<Bytes>, n: nat, broken: bool, m: nat, path: Path)
    requires |paths| == |contents| && n <= |paths| && (broken ==> n < |paths|)
    requires m < n || (broken && m == n)
    requires SavedAfter(Writes(paths, contents, n, broken), m, path)
    ensures PlacedFrom(paths, if m < n then m + 1 else n, path)
  {
    var ws := Writes(paths, contents, n, broken);
    WritesAt(paths, contents, n, broken);
    var l :| m < l < |ws| && Saves(ws[l], path);
    WriteIsFile(paths, contents, n, broken, l);
    assert paths[FileOf(l, n, broken)] == path;
  }

  /** Exactly when every file is at its destination with its content after the whole download. */
  lemma AllOnDiskExactly(disk: Disk, paths: seq<Path>, contents: seq<Bytes>, n: nat, broken: bool)
    requires |paths| == |contents| && n <= |paths| && (broken ==> n < |paths|)
    ensures AllOnDisk(AfterAll(disk, Writes(paths, contents, n, broken)), paths, contents)
       <==> KeptApart(paths, contents, n, broken)
  {
    var ws := Writes(paths, contents, n, broken);
    OnDiskIsIntact(AfterAll(disk, ws), paths, contents, n, broken);
    AllIntactExactly(disk, ws);
    if Undisturbed(ws) {
      UndisturbedIsApart(paths, contents, n, broken);
    }
    if KeptApart(paths, contents, n, broken) {
      ApartIsUndisturbed(paths, contents, n, broken);
    }
  }

  // ---------- when files disturb each other ----------

  predicate TakesTemporaryName(path: Path) {
    path != [] && EndsWith(path[|path| - 1], "." + TEMPORARY)
  }

  predicate EndsWith(s: string, end: string) {
    |end| <= |s| && s[|s| - |end|..] == end
  }

  lemma TemporaryTakesName(path: Path)
    requires path != []
    ensures TakesTemporaryName(Temporary(path))
  {
  }

  /** Distinct destinations without a temporary file's extension are enough. */
  lemma DistinctIsApart(paths: seq<Path>, contents: seq<Bytes>, n: nat, broken: bool)
    requires |paths| == |contents| && n <= |paths| && (broken ==> n < |paths|)
    requires forall i, j :: 0 <= i < j < |paths| ==> paths[i] != paths[j]
    requires forall i :: 0 <= i < |paths| ==> paths[i] != [] && !TakesTemporaryName(paths[i])
    ensures KeptApart(paths, contents, n, broken)
  {
    forall j | 0 <= j < |paths| ensures TakesTemporaryName(Temporary(paths[j])) {
      TemporaryTakesName(paths[j]);
    }
  }

  lemma {:induction false} LastDotFound(stem: string, ext: string, upTo: nat)
    requires '.' !in ext && |stem| < upTo <= |stem + "." + ext|
    ensures LastDot(stem + "." + ext, upTo) == Some(|stem|)
    decreases upTo
  {
    var name := stem + "." + ext;
    if upTo - 1 > |stem| {
      assert name[upTo - 1] == ext[upTo - 1 - |stem| - 1];
      LastDotFound(stem, ext, upTo - 1);
    }
  }

  lemma {:induction false} NoDotFound(name: string, upTo: nat)
    requires upTo <= |name| && '.' !in name[..upTo]
    ensures LastDot(name, upTo).None?
  {
    if upTo > 0 {
      assert name[upTo - 1] in name[..upTo];
      assert name[..upTo] == name[..upTo - 1] + [name[upTo - 1]];
      NoDotFound(name, upTo - 1);
    }
  }

  /** The stem: what comes before the last dot, but all of a name without a dot, of one whose only dot is its
      first character, and of two dots. */
  lemma StemExactly(stem: string, ext: string)
    requires '.' !in ext
    ensures Stem(ext) == ext && Stem("..") == ".." && Stem("." + ext) == "." + ext
    ensures stem != "" && stem + "." + ext != ".." ==> Stem(stem + "." + ext) == stem
  {
    assert ext[..|ext|] == ext;
    NoDotFound(ext, |ext|);
    assert "" + "." + ext == "." + ext;
    LastDotFound("", ext, |"" + "." + ext|);
    LastDotFound(stem, ext, |stem + "." + ext|);
    assert (stem + "." + ext)[..|stem|] == stem;
  }

  /** A folder holding `x.airpaste-download` and then `x.txt`: the direct download of the second
      destroys the first. */
  lemma TemporaryNameIsLost(disk: Disk, dir: Path, stem: string, ext: string, a: Bytes, b: Bytes)
    requires stem != "" && ext != "" && '.' !in ext && ext != TEMPORARY
    ensures var paths := [dir + [stem + "." + TEMPORARY], dir + [stem + "." + ext]];
            && paths[0] != paths[1]
            && paths[0] !in AfterAll(disk, Writes(paths, [a, b], 2, false))
  {
    var p, q := dir + [stem + "." + TEMPORARY], dir + [stem + "." + ext];
    LastDotFound(stem, ext, |stem + "." + ext|);
    assert (stem + "." + ext)[..|stem|] == stem;
    assert q[|q| - 1] == stem + "." + ext && q[..|q| - 1] == dir;
    assert Temporary(q) == p;
    assert (stem + "." + ext)[|stem| + 1..] == ext && (stem + "." + TEMPORARY)[|stem| + 1..] == TEMPORARY;
    assert p[|p| - 1] == stem + "." + TEMPORARY;
    var ws := Writes([p, q], [a, b], 2, false);
    assert ws == [Renamed(p, a), Renamed(q, b)];
    assert Ruins(ws[1], p) && LastTouch(ws, 1, p);
    LastTouchDecides(disk, ws, 1, p);
  }
}
