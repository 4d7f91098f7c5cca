/** Pulling the files of a remote clip: directly, through the relay, or directly and then the rest
    through the relay (apply_file_clip, download_remote_files, missing_file_indexes in
    crates/airpaste-agent/src/lib.rs; download_via_relay in crates/airpaste-agent/src/relay.rs). */
module Recipient {
  import opened Wrappers
  import opened PeerRegistry
  import opened RelayFrames
  import opened Manifest
  import opened CacheDisk
  import SigningMessages

  datatype Saved = Saved(path: Path, content: Bytes)

  type Downloads = map<nat, Saved>

  // ---------- which files are still missing ----------

  function MissingFrom(files: seq<FileEntry>, have: set<nat>, at: nat): seq<nat>
    requires at <= |files|
    decreases |files| - at
  {
    if at == |files| then []
    else (if files[at].kind.File? && at !in have then [at] else []) + MissingFrom(files, have, at + 1)
  }

  function MissingFileIndexes(files: seq<FileEntry>, have: set<nat>): seq<nat> {
    MissingFrom(files, have, 0)
  }

  /** The indexes of the regular files of a manifest. */
  function Regular(files: seq<FileEntry>): set<nat> {
    set i: nat | i < |files| && files[i].kind.File?
  }

  ghost predicate Increasing(s: seq<nat>) {
    forall i, j :: 0 <= i < j < |s| ==> s[i] < s[j]
  }

  lemma PrependIncreasing(first: nat, rest: seq<nat>)
    requires Increasing(rest) && forall i :: i in rest ==> first < i
    ensures Increasing([first] + rest)
  {
    assert forall k :: 0 <= k < |rest| ==> rest[k] in rest;
  }

  lemma {:induction false} MissingFromMembers(files: seq<FileEntry>, have: set<nat>, at: nat, i: nat)
    requires at <= |files|
    ensures i in MissingFrom(files, have, at) <==> at <= i && i in Regular(files) && i !in have
    decreases |files| - at
  {
    if at < |files| {
      MissingFromMembers(files, have, at + 1, i);
    }
  }

  lemma {:induction false} MissingFromIncreasing(files: seq<FileEntry>, have: set<nat>, at: nat)
    requires at <= |files|
    ensures Increasing(MissingFrom(files, have, at))
    decreases |files| - at
  {
    if at < |files| {
      MissingFromIncreasing(files, have, at + 1);
      var rest := MissingFrom(files, have, at + 1);
      if files[at].kind.File? && at !in have {
        forall i | i in rest ensures at < i {
          MissingFromMembers(files, have, at + 1, i);
        }
        PrependIncreasing(at, rest);
      } else {
        assert [] + rest == rest;
      }
    }
  }

  /** Exactly the regular files not yet held, each once, in index order. */
  lemma MissingExact(files: seq<FileEntry>, have: set<nat>)
    ensures var m := MissingFileIndexes(files, have);
            Increasing(m) && forall i :: i in m <==> i in Regular(files) - have
  {
    MissingFromIncreasing(files, have, 0);
    forall i: nat ensures i in MissingFileIndexes(files, have) <==> i in Regular(files) - have {
      MissingFromMembers(files, have, 0, i);
    }
  }

  // ---------- checking one file ----------

  function LowerChar(c: char): char {
    if 'A' <= c <= 'Z' then c + 32 as char else c
  }

  predicate EqualIgnoringAsciiCase(a: string, b: string) {
    |a| == |b| && forall k :: 0 <= k < |a| ==> LowerChar(a[k]) == LowerChar(b[k])
  }

  datatype Transport = Direct | Relay

  /** The size announced for the entry, and its hash when one was announced: the direct path
      compares hex digits ignoring case, the relay path exactly. */
  predicate Verified(e: FileEntry, content: Bytes, digest: Bytes -> string, how: Transport) {
    && |content| == e.size
    && (e.sha256.Some? ==>
          if how.Direct? then EqualIgnoringAsciiCase(e.sha256.value, digest(content))
          else digest(content) == e.sha256.value)
  }

  ghost predicate LowerCase(s: string) {
    forall k :: 0 <= k < |s| ==> !('A' <= s[k] <= 'Z')
  }

  /** Letter by letter the same, or the upper case of it. */
  ghost predicate CaseVariant(h: string, d: string) {
    |h| == |d| && forall k :: 0 <= k < |d| ==> h[k] == d[k] || h[k] == SigningMessages.UpperChar(d[k])
  }

  lemma CaseVariantExactly(h: string, d: string)
    requires LowerCase(d)
    ensures EqualIgnoringAsciiCase(h, d) <==> CaseVariant(h, d)
  {
  }

  lemma LowerCaseVariantIsSame(h: string, c: string, d: string)
    requires LowerCase(c) && LowerCase(d) && CaseVariant(h, c) && CaseVariant(h, d)
    ensures c == d
  {
  }

  /** What passing the checks means: with digests written in lower case, and none but the original's own
      content sharing its digest, an entry that announces the original's size and hash accepts exactly
      the original. The direct path takes the hash in any letter case, the relay only as it is written. */
  lemma VerifiedIsOriginal(e: FileEntry, original: Bytes, content: Bytes, digest: Bytes -> string)
    requires e.size == |original| && e.sha256.Some? && CaseVariant(e.sha256.value, digest(original))
    requires LowerCase(digest(original)) && LowerCase(digest(content))
    requires digest(content) == digest(original) ==> content == original
    ensures Verified(e, content, digest, Direct) <==> content == original
    ensures Verified(e, content, digest, Relay) <==> content == original && e.sha256.value == digest(original)
  {
    var h := e.sha256.value;
    CaseVariantExactly(h, digest(original));
    CaseVariantExactly(h, digest(content));
    if Verified(e, content, digest, Direct) {
      LowerCaseVariantIsSame(h, digest(content), digest(original));
    }
    if Verified(e, content, digest, Relay) {
      assert CaseVariant(h, digest(content));
      LowerCaseVariantIsSame(h, digest(content), digest(original));
    }
  }

  /** An entry without a hash is judged by its size alone. */
  lemma UnhashedIsSized(e: FileEntry, content: Bytes, digest: Bytes -> string, how: Transport)
    requires e.sha256.None?
    ensures Verified(e, content, digest, how) <==> |content| == e.size
  {
  }

  /** Saved where the entry belongs, with content that passed the entry's own checks. `place` is
      safe_cache_path under the clip's cache directory (module CachePaths). */
  ghost predicate Good(e: FileEntry, s: Saved, place: FileEntry -> Path, digest: Bytes -> string, how: Transport) {
    s.path == place(e) && Verified(e, s.content, digest, how)
  }

  // ---------- the two loops ----------

  /** What a loop over `todo` leaves: it delivered the first `n` of them, and asked for one more
      only if that one failed. */
  ghost predicate Pulled(files: seq<FileEntry>, place: FileEntry -> Path, digest: Bytes -> string, how: Transport,
                         todo: seq<nat>, before: Downloads, after: Downloads, n: nat)
  {
    && n <= |todo|
    && (forall i :: i in after <==> i in before || i in todo[..n])
    && (forall i :: i in before && i !in todo ==> after[i] == before[i])
    && (forall k :: 0 <= k < n ==> todo[k] < |files| && todo[k] in after
                                   && Good(files[todo[k]], after[todo[k]], place, digest, how))
  }

  /** The same, with the contents of the files in the order asked. */
  ghost predicate PulledContents(files: seq<FileEntry>, place: FileEntry -> Path, digest: Bytes -> string,
                                 how: Transport, todo: seq<nat>, before: Downloads, after: Downloads,
                                 contents: seq<Bytes>, n: nat)
  {
    && Pulled(files, place, digest, how, todo, before, after, n)
    && n <= |contents|
    && forall k :: 0 <= k < n ==> after[todo[k]].content == contents[k]
  }

  /** The loop asked for what it delivered and at most one more, the one that failed. */
  ghost predicate Asked(todo: seq<nat>, requested: seq<nat>, n: nat) {
    && n <= |todo| && |requested| <= |todo|
    && n <= |requested| <= n + 1
    && forall j :: 0 <= j < |requested| ==> requested[j] == todo[j]
  }

  /** A loop that has delivered the first `n` files. */
  ghost predicate LoopState(files: seq<FileEntry>, place: FileEntry -> Path, digest: Bytes -> string,
                            how: Transport, todo: seq<nat>, before: Downloads, after: Downloads,
                            contents: seq<Bytes>, requested: seq<nat>, n: nat)
  {
    PulledContents(files, place, digest, how, todo, before, after, contents, n) && Asked(todo, requested, n)
  }

  /** What the direct source answers: nothing usable (or no temporary file can be made), or a body in
      chunks, complete unless reading, writing or renaming failed on the way. */
  datatype Response = Refused | Body(chunks: seq<Bytes>, complete: bool)

  function Joined(chunks: seq<Bytes>): Bytes {
    if chunks == [] then [] else Joined(chunks[..|chunks| - 1]) + chunks[|chunks| - 1]
  }

  function Content(r: Response): Option<Bytes> {
    if r.Body? && r.complete then Some(Joined(r.chunks)) else None
  }

  /** The body, if it passes the entry's checks. */
  function Received(e: FileEntry, r: Response, digest: Bytes -> string): Option<Bytes> {
    if Content(r).Some? && Verified(e, Content(r).value, digest, Direct) then Content(r) else None
  }

  /** The bodies a direct source delivers, in the order asked, up to the first that fails. */
  function Arriving(files: seq<FileEntry>, todo: seq<nat>, pull: nat -> Response, digest: Bytes -> string): seq<Bytes>
    decreases |todo|
  {
    if todo == [] || todo[0] >= |files| then []
    else
      var body := Received(files[todo[0]], pull(todo[0]), digest);
      if body.None? then [] else [body.value] + Arriving(files, todo[1..], pull, digest)
  }

  /** The chunks one after the other. */
  lemma {:induction false} JoinedOfPair(a: seq<Bytes>, b: seq<Bytes>)
    ensures Joined(a + b) == Joined(a) + Joined(b)
    ensures forall chunk: Bytes :: Joined([chunk]) == chunk
    decreases |b|
  {
    forall chunk: Bytes ensures Joined([chunk]) == chunk {
      assert [chunk][..0] == [];
    }
    if b == [] {
      assert a + b == a;
    } else {
      assert (a + b)[..|a + b| - 1] == a + b[..|b| - 1];
      JoinedOfPair(a, b[..|b| - 1]);
    }
  }

  /** Exactly which files arrive: with all before it, file k does if and only if its body is complete, has
      the announced size and, when one is announced, the announced hash. */
  lemma {:induction false} ArrivingExactly(files: seq<FileEntry>, todo: seq<nat>, pull: nat -> Response,
                                           digest: Bytes -> string, k: nat)
    requires k < |todo| && forall j :: 0 <= j < |todo| ==> todo[j] < |files|
    ensures var contents, e, r := Arriving(files, todo, pull, digest), files[todo[k]], pull(todo[k]);
            && |contents| <= |todo|
            && (k < |contents| <==>
                  && (k == 0 || k - 1 < |contents|)
                  && r.Body? && r.complete && |Joined(r.chunks)| == e.size
                  && (e.sha256.Some? ==> EqualIgnoringAsciiCase(e.sha256.value, digest(Joined(r.chunks)))))
            && (k < |contents| ==> contents[k] == Joined(r.chunks))
    decreases k
  {
    var rest := todo[1..];
    assert forall j :: 0 <= j < |rest| ==> rest[j] == todo[j + 1];
    assert todo[0] < |files|;
    ArrivingIsShort(files, todo, pull, digest);
    if k > 0 {
      assert rest[k - 1] == todo[k];
      ArrivingExactly(files, rest, pull, digest, k - 1);
    }
  }

  lemma {:induction false} ArrivingIsShort(files: seq<FileEntry>, todo: seq<nat>, pull: nat -> Response,
                                           digest: Bytes -> string)
    ensures |Arriving(files, todo, pull, digest)| <= |todo|
    decreases |todo|
  {
    if todo != [] {
      ArrivingIsShort(files, todo[1..], pull, digest);
    }
  }

  /** One direct download on disk: chunk by chunk into the temporary file, which is renamed when the
      whole body passes and removed when anything fails. */
  method DownloadPeerFileToCache(before: Disk, e: FileEntry, digest: Bytes -> string, destination: Path,
                                 response: Response)
    returns (content: Option<Bytes>, disk: Disk)
    ensures content == Received(e, response, digest)
    ensures disk == match response
              case Refused => before
              case Body(_, _) =>
                After(before, if content.Some? then Renamed(destination, content.value) else Broken(destination))
  {
    if response.Refused? {
      return None, before;
    }
    var chunks := response.chunks;
    var temporary := Temporary(destination);
    disk := before[temporary := []];
    for k := 0 to |chunks|
      invariant disk == before[temporary := Joined(chunks[..k])]
    {
      assert chunks[..k + 1][..k] == chunks[..k];
      disk := disk[temporary := disk[temporary] + chunks[k]];
    }
    assert chunks[..|chunks|] == chunks;
    var body := disk[temporary];
    disk := disk - {temporary};
    assert disk == before - {temporary};
    if !response.complete || !Verified(e, body, digest, Direct) {
      return None, disk;
    }
    return Some(body), disk[destination := body];
  }

  /** With `k` files received, those still asked for deliver the rest of `contents`. */
  ghost predicate Coming(files: seq<FileEntry>, todo: seq<nat>, k: nat, contents: seq<Bytes>, pull: nat -> Response,
                         digest: Bytes -> string)
  {
    k <= |todo| && k <= |contents| && contents[k..] == Arriving(files, todo[k..], pull, digest)
  }

  lemma ComingStep(files: seq<FileEntry>, todo: seq<nat>, k: nat, contents: seq<Bytes>, pull: nat -> Response,
                   digest: Bytes -> string)
    requires Coming(files, todo, k, contents, pull, digest) && k < |todo| && todo[k] < |files|
    ensures var body := Received(files[todo[k]], pull(todo[k]), digest);
            if body.None? then |contents| == k
            else k < |contents| && contents[k] == body.value && Coming(files, todo, k + 1, contents, pull, digest)
  {
    assert todo[k..][0] == todo[k] && todo[k..][1..] == todo[k + 1..];
    if k < |contents| {
      assert contents[k..][0] == contents[k] && contents[k..][1..] == contents[k + 1..];
    }
  }

  function Places(files: seq<FileEntry>, place: FileEntry -> Path, todo: seq<nat>): (r: seq<Path>)
    requires forall i :: i in todo ==> i < |files|
    ensures |r| == |todo|
  {
    seq(|todo|, k requires 0 <= k < |todo| => (assert todo[k] in todo; place(files[todo[k]])))
  }

  /** The direct loop ended on a file whose temporary file had been made. */
  predicate BrokeOff(todo: seq<nat>, n: nat, pull: nat -> Response) {
    n < |todo| && pull(todo[n]).Body?
  }

  /** What the direct loop leaves on disk when it delivers `contents`. */
  function AfterDirect(before: Disk, paths: seq<Path>, contents: seq<Bytes>, broken: bool): Disk
    requires |contents| <= |paths| && (broken ==> |contents| < |paths|)
  {
    AfterAll(before, DirectWrites(paths[..|contents|], contents) + Attempt(paths, |contents|, broken))
  }

  lemma AfterDirectIs(before: Disk, paths: seq<Path>, contents: seq<Bytes>, broken: bool)
    requires |contents| <= |paths| && (broken ==> |contents| < |paths|)
    ensures var done := AfterAll(before, DirectWrites(paths[..|contents|], contents));
            AfterDirect(before, paths, contents, broken)
            == (if broken then After(done, Broken(paths[|contents|])) else done)
  {
    var ws := DirectWrites(paths[..|contents|], contents);
    if broken {
      AfterOneMore(before, ws, Broken(paths[|contents|]));
    } else {
      assert ws + [] == ws;
    }
  }

  /** The outcome of the direct loop; `reachable` is whether an address for the source was found and the
      clip's cache directory made. */
  ghost predicate Directly(files: seq<FileEntry>, place: FileEntry -> Path, digest: Bytes -> string, reachable: bool,
                           pull: nat -> Response, before: Downloads, cache: Disk,
                           ok: bool, d: Downloads, requested: seq<nat>, disk: Disk)
  {
    var todo := MissingFileIndexes(files, before.Keys);
    var contents := if reachable then Arriving(files, todo, pull, digest) else [];
    && LoopState(files, place, digest, Direct, todo, before, d, contents, requested, |contents|)
    && (ok <==> reachable && |contents| == |todo|)
    && (!reachable ==> requested == [])
    && (forall i :: i in todo ==> i < |files|)
    && disk == AfterDirect(cache, Places(files, place, todo), contents, reachable && BrokeOff(todo, |contents|, pull))
  }

  method DownloadRemoteFiles(files: seq<FileEntry>, place: FileEntry -> Path, digest: Bytes -> string, reachable: bool,
                             pull: nat -> Response, before: Downloads, cache: Disk)
    returns (ok: bool, downloaded: Downloads, requested: seq<nat>, disk: Disk)
    ensures Directly(files, place, digest, reachable, pull, before, cache, ok, downloaded, requested, disk)
  {
    var todo := MissingFileIndexes(files, before.Keys);
    MissingExact(files, before.Keys);
    if !reachable {
      AfterDirectIs(cache, Places(files, place, todo), [], false);
      return false, before, [], cache;
    }
    ok, downloaded, requested, disk := DirectLoop(files, place, digest, todo, pull, before, cache);
  }

  method DirectLoop(files: seq<FileEntry>, place: FileEntry -> Path, digest: Bytes -> string, todo: seq<nat>,
                    pull: nat -> Response, before: Downloads, cache: Disk)
    returns (ok: bool, downloaded: Downloads, requested: seq<nat>, disk: Disk)
    requires Increasing(todo) && forall i :: i in todo ==> i < |files|
    ensures var contents := Arriving(files, todo, pull, digest);
            && LoopState(files, place, digest, Direct, todo, before, downloaded, contents, requested, |contents|)
            && (ok <==> |contents| == |todo|)
            && disk == AfterDirect(cache, Places(files, place, todo), contents, BrokeOff(todo, |contents|, pull))
  {
    downloaded, requested, disk := before, [], cache;
    ghost var contents := Arriving(files, todo, pull, digest);
    ghost var paths := Places(files, place, todo);
    assert todo[0..] == todo && contents[0..] == contents;
    for k := 0 to |todo|
      invariant |requested| == k
                && LoopState(files, place, digest, Direct, todo, before, downloaded, contents, requested, k)
      invariant Coming(files, todo, k, contents, pull, digest)
      invariant disk == AfterAll(cache, DirectWrites(paths[..k], contents[..k]))
    {
      var index := todo[k];
      assert index in todo;
      ComingStep(files, todo, k, contents, pull, digest);
      AskNext(todo, requested, k);
      requested := requested + [index];
      var destination := place(files[index]);
      var body;
      body, disk := DownloadPeerFileToCache(disk, files[index], digest, destination, pull(index));
      if body.None? {
        DirectEnds(cache, paths, contents, k, pull(index).Body?);
        return false, downloaded, requested, disk;
      }
      NextContents(files, place, digest, Direct, todo, before, downloaded, contents, k, body.value);
      NextDirectWrite(cache, paths, contents, k);
      downloaded := downloaded[index := Saved(destination, body.value)];
    }
    assert todo[|todo|..] == [];
    DirectEnds(cache, paths, contents, |todo|, false);
    return true, downloaded, requested, disk;
  }

  lemma AskNext(todo: seq<nat>, requested: seq<nat>, k: nat)
    requires Asked(todo, requested, k) && |requested| == k < |todo|
    ensures Asked(todo, requested + [todo[k]], k) && Asked(todo, requested + [todo[k]], k + 1)
  {
  }

  lemma DirectEnds(cache: Disk, paths: seq<Path>, contents: seq<Bytes>, k: nat, broken: bool)
    requires |contents| == k <= |paths| && (broken ==> k < |paths|)
    ensures var done := AfterAll(cache, DirectWrites(paths[..k], contents[..k]));
            AfterDirect(cache, paths, contents, broken) == if broken then After(done, Broken(paths[k])) else done
  {
    assert contents[..k] == contents;
    AfterDirectIs(cache, paths, contents, broken);
  }

  lemma NextPulled(files: seq<FileEntry>, place: FileEntry -> Path, digest: Bytes -> string, how: Transport,
                   todo: seq<nat>, before: Downloads, after: Downloads, n: nat, content: Bytes)
    requires Pulled(files, place, digest, how, todo, before, after, n)
    requires n < |todo| && Increasing(todo) && todo[n] < |files| && Verified(files[todo[n]], content, digest, how)
    ensures Pulled(files, place, digest, how, todo, before,
                   after[todo[n] := Saved(place(files[todo[n]]), content)], n + 1)
  {
    assert todo[..n + 1] == todo[..n] + [todo[n]];
    assert todo[n] in todo;
    assert Good(files[todo[n]], Saved(place(files[todo[n]]), content), place, digest, how);
  }

  lemma NextContents(files: seq<FileEntry>, place: FileEntry -> Path, digest: Bytes -> string, how: Transport,
                     todo: seq<nat>, before: Downloads, after: Downloads, contents: seq<Bytes>, n: nat, content: Bytes)
    requires PulledContents(files, place, digest, how, todo, before, after, contents, n)
    requires n < |todo| && Increasing(todo) && todo[n] < |files| && Verified(files[todo[n]], content, digest, how)
    requires n < |contents| && contents[n] == content
    ensures PulledContents(files, place, digest, how, todo, before,
                           after[todo[n] := Saved(place(files[todo[n]]), content)], contents, n + 1)
  {
    NextPulled(files, place, digest, how, todo, before, after, n, content);
  }

  /** What one request over the relay yields: the decrypted file and the messages not yet read. */
  function Reply(ms: seq<Message>, index: nat, open: (Head, Bytes) -> Option<Bytes>): Option<(Bytes, seq<Message>)> {
    var header := RecvHeader(ms, index);
    if header.Err? then None
    else
      var body := RecvBody(header.value.1, []);
      if body.Err? then None
      else
        var plaintext := open(header.value.0, body.value.0);
        if plaintext.None? then None else Some((plaintext.value, body.value.1))
  }

  /** The relayed connection as the recipient sees it: whether the session could be created and joined and
      the cache directory made, everything the source sends over it, decryption with this device's key,
      and for every index whether its request goes out and its file can be written. */
  datatype Connection = Connection(session: bool, incoming: seq<Message>, open: (Head, Bytes) -> Option<Bytes>,
                                   sends: nat -> bool, stores: nat -> bool)

  /** One file over the relay: requested, received, decrypted, checked and stored. */
  function Fetched(e: FileEntry, index: nat, ms: seq<Message>, digest: Bytes -> string, c: Connection):
    Option<(Bytes, seq<Message>)>
  {
    if !c.sends(index) then None
    else
      var r := Reply(ms, index, c.open);
      if r.Some? && Verified(e, r.value.0, digest, Relay) && c.stores(index) then r else None
  }

  /** The files a stream of messages delivers, in the order asked, up to the first that fails. */
  function Delivered(files: seq<FileEntry>, todo: seq<nat>, ms: seq<Message>, digest: Bytes -> string,
                     c: Connection): seq<Bytes>
    decreases |todo|
  {
    if todo == [] || todo[0] >= |files| then []
    else
      var r := Fetched(files[todo[0]], todo[0], ms, digest, c);
      if r.None? then [] else [r.value.0] + Delivered(files, todo[1..], r.value.1, digest, c)
  }

  /** The messages not yet read after the replies to the first `k` requests. */
  function Unread(todo: seq<nat>, ms: seq<Message>, open: (Head, Bytes) -> Option<Bytes>, k: nat): Option<seq<Message>>
    requires k <= |todo|
    decreases |todo|
  {
    if k == 0 then Some(ms)
    else
      var r := Reply(ms, todo[0], open);
      if r.None? then None else Unread(todo[1..], r.value.1, open, k - 1)
  }

  /** Exactly which files are delivered: with all before it, file k is if and only if its request goes out,
      a file for it is received and decrypted, it has the announced size and, when one is announced, the
      announced hash, and it can be written. */
  lemma {:induction false} DeliveredExactly(files: seq<FileEntry>, todo: seq<nat>, ms: seq<Message>,
                                            digest: Bytes -> string, c: Connection, k: nat)
    requires k < |todo| && forall j :: 0 <= j < |todo| ==> todo[j] < |files|
    ensures var contents, e, i := Delivered(files, todo, ms, digest, c), files[todo[k]], todo[k];
            var unread := Unread(todo, ms, c.open, k);
            && |contents| <= |todo|
            && (k < |contents| <==>
                  && (k == 0 || k - 1 < |contents|)
                  && c.sends(i) && c.stores(i)
                  && unread.Some? && Reply(unread.value, i, c.open).Some?
                  && |Reply(unread.value, i, c.open).value.0| == e.size
                  && (e.sha256.Some? ==> digest(Reply(unread.value, i, c.open).value.0) == e.sha256.value))
            && (k < |contents| ==> contents[k] == Reply(unread.value, i, c.open).value.0)
    decreases k
  {
    var rest := todo[1..];
    assert forall j :: 0 <= j < |rest| ==> rest[j] == todo[j + 1];
    assert todo[0] < |files|;
    DeliveredIsShort(files, todo, ms, digest, c);
    if k > 0 {
      assert rest[k - 1] == todo[k];
      var r := Fetched(files[todo[0]], todo[0], ms, digest, c);
      if r.Some? {
        DeliveredExactly(files, rest, r.value.1, digest, c, k - 1);
      }
    }
  }

  lemma {:induction false} DeliveredIsShort(files: seq<FileEntry>, todo: seq<nat>, ms: seq<Message>,
                                            digest: Bytes -> string, c: Connection)
    ensures |Delivered(files, todo, ms, digest, c)| <= |todo|
    decreases |todo|
  {
    if todo != [] && todo[0] < |files| {
      var r := Fetched(files[todo[0]], todo[0], ms, digest, c);
      if r.Some? {
        DeliveredIsShort(files, todo[1..], r.value.1, digest, c);
      }
    }
  }

  /** Whatever a relayed download delivers was requested and written. */
  lemma {:induction false} DeliveredWasStored(files: seq<FileEntry>, todo: seq<nat>, ms: seq<Message>,
                                              digest: Bytes -> string, c: Connection)
    ensures var n := |Delivered(files, todo, ms, digest, c)|;
            n <= |todo| && forall k :: 0 <= k < n ==> c.sends(todo[k]) && c.stores(todo[k])
    decreases |todo|
  {
    if todo != [] && todo[0] < |files| {
      var r := Fetched(files[todo[0]], todo[0], ms, digest, c);
      if r.Some? {
        DeliveredWasStored(files, todo[1..], r.value.1, digest, c);
        forall k | 1 <= k < |Delivered(files, todo, ms, digest, c)| ensures c.sends(todo[k]) && c.stores(todo[k]) {
          assert todo[1..][k - 1] == todo[k];
        }
      }
    }
  }

  /** With `k` files received, the messages still unread deliver the rest of `contents`. */
  ghost predicate Remaining(files: seq<FileEntry>, todo: seq<nat>, k: nat, ms: seq<Message>, contents: seq<Bytes>,
                            digest: Bytes -> string, c: Connection)
  {
    k <= |todo| && k <= |contents| && contents[k..] == Delivered(files, todo[k..], ms, digest, c)
  }

  lemma RemainingStep(files: seq<FileEntry>, todo: seq<nat>, k: nat, ms: seq<Message>, contents: seq<Bytes>,
                      digest: Bytes -> string, c: Connection)
    requires Remaining(files, todo, k, ms, contents, digest, c)
    requires k < |todo| && todo[k] < |files|
    ensures var r := Fetched(files[todo[k]], todo[k], ms, digest, c);
            if r.None? then |contents| == k
            else && k < |contents| && contents[k] == r.value.0
                 && Remaining(files, todo, k + 1, r.value.1, contents, digest, c)
  {
    assert todo[k..][0] == todo[k] && todo[k..][1..] == todo[k + 1..];
    if k < |contents| {
      assert contents[k..][0] == contents[k] && contents[k..][1..] == contents[k + 1..];
    }
  }

  method FetchOne(e: FileEntry, index: nat, ms: seq<Message>, digest: Bytes -> string, c: Connection)
    returns (r: Option<(Bytes, seq<Message>)>)
    ensures r == Fetched(e, index, ms, digest, c)
  {
    if !c.sends(index) {
      return None;
    }
    var header := RecvFileHeader(ms, index);
    if header.Err? {
      return None;
    }
    var body := RecvFileBody(header.value.1);
    if body.Err? {
      return None;
    }
    var plaintext := c.open(header.value.0, body.value.0);
    if plaintext.None? || !Verified(e, plaintext.value, digest, Relay) || !c.stores(index) {
      return None;
    }
    return Some((plaintext.value, body.value.1));
  }

  /** The outcome of the relay loop. */
  ghost predicate ViaRelay(files: seq<FileEntry>, place: FileEntry -> Path, digest: Bytes -> string, c: Connection,
                           before: Downloads, cache: Disk, ok: bool, d: Downloads, requested: seq<nat>, disk: Disk)
  {
    var todo := MissingFileIndexes(files, before.Keys);
    var contents := if c.session then Delivered(files, todo, c.incoming, digest, c) else [];
    && LoopState(files, place, digest, Relay, todo, before, d, contents, requested, |contents|)
    && (ok <==> |contents| == |todo|)
    && (!c.session ==> requested == [])
    && (forall i :: i in todo ==> i < |files|)
    && (ok ==> disk == AfterAll(cache, RelayWrites(Places(files, place, todo), contents)))
    && (ok ==> forall i :: i in todo ==> c.session && c.sends(i) && c.stores(i))
  }

  method DownloadViaRelay(files: seq<FileEntry>, place: FileEntry -> Path, digest: Bytes -> string, c: Connection,
                          before: Downloads, cache: Disk)
    returns (ok: bool, downloaded: Downloads, requested: seq<nat>, disk: Disk)
    ensures ViaRelay(files, place, digest, c, before, cache, ok, downloaded, requested, disk)
  {
    var todo := MissingFileIndexes(files, before.Keys);
    MissingExact(files, before.Keys);
    if todo == [] {
      return true, before, [], cache;
    }
    if !c.session {
      return false, before, [], cache;
    }
    ok, downloaded, requested, disk := RelayLoop(files, place, digest, todo, c, before, cache);
    DeliveredWasStored(files, todo, c.incoming, digest, c);
  }

  method RelayLoop(files: seq<FileEntry>, place: FileEntry -> Path, digest: Bytes -> string, todo: seq<nat>,
                   c: Connection, before: Downloads, cache: Disk)
    returns (ok: bool, downloaded: Downloads, requested: seq<nat>, disk: Disk)
    requires Increasing(todo) && forall i :: i in todo ==> i < |files|
    ensures var contents := Delivered(files, todo, c.incoming, digest, c);
            && LoopState(files, place, digest, Relay, todo, before, downloaded, contents, requested, |contents|)
            && (ok <==> |contents| == |todo|)
            && (ok ==> disk == AfterAll(cache, RelayWrites(Places(files, place, todo), contents)))
  {
    downloaded, requested, disk := before, [], cache;
    var messages := c.incoming;
    ghost var contents := Delivered(files, todo, c.incoming, digest, c);
    ghost var paths := Places(files, place, todo);
    assert todo[0..] == todo && contents[0..] == contents;
    for k := 0 to |todo|
      invariant |requested| == k
                && LoopState(files, place, digest, Relay, todo, before, downloaded, contents, requested, k)
      invariant Remaining(files, todo, k, messages, contents, digest, c)
      invariant disk == AfterAll(cache, RelayWrites(paths[..k], contents[..k]))
    {
      var index := todo[k];
      assert index in todo;
      RemainingStep(files, todo, k, messages, contents, digest, c);
      AskNext(todo, requested, k);
      requested := requested + if c.sends(index) then [index] else [];
      var r := FetchOne(files[index], index, messages, digest, c);
      if r.None? {
        return false, downloaded, requested, disk;
      }
      messages := r.value.1;
      var destination := place(files[index]);
      NextContents(files, place, digest, Relay, todo, before, downloaded, contents, k, r.value.0);
      NextRelayWrite(cache, paths, contents, k);
      disk := disk[destination := r.value.0];
      downloaded := downloaded[index := Saved(destination, r.value.0)];
    }
    RemainingEnds(files, todo, messages, contents, digest, c);
    AllTaken(paths, contents);
    return true, downloaded, requested, disk;
  }

  lemma RemainingEnds(files: seq<FileEntry>, todo: seq<nat>, ms: seq<Message>, contents: seq<Bytes>,
                      digest: Bytes -> string, c: Connection)
    requires Remaining(files, todo, |todo|, ms, contents, digest, c)
    ensures |contents| == |todo|
  {
    assert todo[|todo|..] == [];
  }

  lemma AllTaken(paths: seq<Path>, contents: seq<Bytes>)
    requires |paths| == |contents|
    ensures paths[..|paths|] == paths && contents[..|paths|] == contents
  {
  }

  /** What an honest source sends in answer to the requests, one sealed file after the other. */
  function ServedStream(todo: seq<nat>, sizes: seq<nat>, sealed: seq<Sealed>): seq<Message>
    requires |todo| == |sizes| == |sealed|
  {
    if todo == [] then []
    else FileMessages(todo[0], sizes[0], sealed[0]) + ServedStream(todo[1..], sizes[1..], sealed[1..])
  }

  /** Against a source that answers every request with a file that opens and passes its entry's
      checks, the loop obtains exactly those files, and finishes. */
  lemma {:induction false} HonestSourceDeliversAll(
    files: seq<FileEntry>, todo: seq<nat>, sizes: seq<nat>, sealed: seq<Sealed>, contents: seq<Bytes>,
    digest: Bytes -> string, c: Connection)
    requires |todo| == |sizes| == |sealed| == |contents|
    requires forall k :: 0 <= k < |todo| ==>
               && todo[k] < |files| && c.open(sealed[k].head, sealed[k].ciphertext) == Some(contents[k])
               && c.sends(todo[k]) && c.stores(todo[k])
               && Verified(files[todo[k]], contents[k], digest, Relay)
    ensures Delivered(files, todo, ServedStream(todo, sizes, sealed), digest, c) == contents
  {
    if todo != [] {
      var rest := ServedStream(todo[1..], sizes[1..], sealed[1..]);
      ReceiveUndoesSend([], todo[0], sizes[0], sealed[0], rest);
      var ms := ServedStream(todo, sizes, sealed);
      assert [] + FileMessages(todo[0], sizes[0], sealed[0]) + rest == ms;
      assert Reply(ms, todo[0], c.open) == Some((contents[0], rest));
      HonestSourceDeliversAll(files, todo[1..], sizes[1..], sealed[1..], contents[1..], digest, c);
    }
  }

  // ---------- applying a clip ----------

  function PathsInOrder(d: Downloads, limit: nat): seq<Path> {
    if limit == 0 then []
    else PathsInOrder(d, limit - 1) + if limit - 1 in d then [d[limit - 1].path] else []
  }

  datatype Applied = Applied(paths: seq<Path>) | Invalid(problem: ClipProblem) | TransferFailed | NothingToDownload

  ghost predicate DeliveredAsAnnounced(files: seq<FileEntry>, place: FileEntry -> Path, digest: Bytes -> string,
                                       d: Downloads)
  {
    forall i :: i in d ==>
      && i in Regular(files)
      && (Good(files[i], d[i], place, digest, Direct) || Good(files[i], d[i], place, digest, Relay))
  }

  /** What the direct loop delivers when it is tried at all. */
  function DirectContents(files: seq<FileEntry>, tried: bool, pull: nat -> Response,
                          digest: Bytes -> string): seq<Bytes> {
    if tried then Arriving(files, MissingFileIndexes(files, {}), pull, digest) else []
  }

  function FirstIndexes(files: seq<FileEntry>, n: nat): set<nat>
    requires n <= |MissingFileIndexes(files, {})|
  {
    set i | i in MissingFileIndexes(files, {})[..n]
  }

  ghost predicate HoldsAll(d: Downloads, indexes: seq<nat>, contents: seq<Bytes>) {
    && |contents| <= |indexes|
    && forall k :: 0 <= k < |contents| ==> indexes[k] in d && d[indexes[k]].content == contents[k]
  }

  function Contents(d: Downloads, todo: seq<nat>): (r: seq<Bytes>)
    requires forall i :: i in todo ==> i in d
    ensures |r| == |todo|
  {
    seq(|todo|, k requires 0 <= k < |todo| => (assert todo[k] in todo; d[todo[k]].content))
  }

  /** All regular files are held, the first `n` fetched directly, and the disk is as their writes leave it. */
  ghost predicate OnDisk(files: seq<FileEntry>, place: FileEntry -> Path, d: Downloads, cache: Disk, disk: Disk,
                         n: nat, broken: bool)
  {
    var todo := MissingFileIndexes(files, {});
    && (forall i :: i in todo ==> i < |files| && i in d)
    && n <= |todo| && (broken ==> n < |todo|)
    && disk == AfterAll(cache, Writes(Places(files, place, todo), Contents(d, todo), n, broken))
  }

  /** The outcome of a transfer that takes direct downloads when `tried`: it succeeds exactly when the
      direct loop delivered everything or the relay what was left, asks the relay only for that, and on
      success the cache is as the writes of both leave it. */
  ghost predicate Transferred(files: seq<FileEntry>, place: FileEntry -> Path, digest: Bytes -> string, tried: bool,
                              pull: nat -> Response, c: Connection, cache: Disk, ok: bool, d: Downloads,
                              asked: seq<nat>, askedRelay: seq<nat>, disk: Disk)
  {
    var todo := MissingFileIndexes(files, {});
    var first := DirectContents(files, tried, pull, digest);
    && DeliveredAsAnnounced(files, place, digest, d)
    && HoldsAll(d, todo, first) && Asked(todo, asked, |first|)
    && (ok ==> d.Keys == Regular(files)
               && OnDisk(files, place, d, cache, disk, |first|, tried && BrokeOff(todo, |first|, pull)))
    && if tried && |first| == |todo| then ok && askedRelay == []
       else
         var left := todo[|first|..];
         var second := if c.session then Delivered(files, left, c.incoming, digest, c) else [];
         && (ok <==> |second| == |left|)
         && (ok ==> forall i :: i in left ==> c.session && c.sends(i) && c.stores(i))
         && Asked(left, askedRelay, |second|) && HoldsAll(d, left, second)
  }

  method FetchFiles(files: seq<FileEntry>, preferRelay: bool, place: FileEntry -> Path, digest: Bytes -> string,
                       reachable: bool, pull: nat -> Response, c: Connection, cache: Disk)
    returns (ok: bool, downloaded: Downloads, asked: seq<nat>, askedRelay: seq<nat>, disk: Disk)
    ensures Transferred(files, place, digest, !preferRelay && reachable, pull, c, cache, ok, downloaded, asked,
                        askedRelay, disk)
    ensures preferRelay ==> asked == []
  {
    var none: Downloads := map[];
    assert none.Keys == {};
    ok, downloaded, asked, askedRelay, disk := false, none, [], [], cache;
    if preferRelay {
      NothingPulled(files, place, digest, pull, cache);
    } else {
      ok, downloaded, asked, disk := DownloadRemoteFiles(files, place, digest, reachable, pull, none, cache);
    }
    FirstLoop(files, place, digest, !preferRelay && reachable, pull, cache, ok, downloaded, asked, disk);
    if !ok {
      ghost var direct, cached := downloaded, disk;
      ok, downloaded, askedRelay, disk := DownloadViaRelay(files, place, digest, c, downloaded, disk);
      SecondLoop(files, place, digest, !preferRelay && reachable, pull, c, cache, direct, asked, cached,
                 ok, downloaded, askedRelay, disk);
    } else {
      DirectIsEnough(files, place, digest, pull, c, cache, downloaded, asked, disk);
    }
  }

  /** Whatever mix of transports delivers the files: on success exactly the manifest's regular files were
      saved, each checked against its own entry, and listed in index order. */
  method ApplyFileClip(clip: FileClip, policy: Policy, now: nat, preferRelay: bool, place: FileEntry -> Path,
                       digest: Bytes -> string, reachable: bool, pull: nat -> Response, c: Connection, cache: Disk)
    returns (r: Applied, downloaded: Downloads, asked: seq<nat>, askedRelay: seq<nat>, disk: Disk)
    ensures ValidateFileClip(clip, policy, now).Err? <==> r.Invalid?
    ensures DeliveredAsAnnounced(clip.files, place, digest, downloaded)
    ensures r.Applied? ==>
              && downloaded.Keys == Regular(clip.files) != {}
              && r.paths == PathsInOrder(downloaded, |clip.files|)
    ensures r.NothingToDownload? ==> Regular(clip.files) == {}
    ensures r.Invalid? ==> downloaded == map[] && asked == [] && askedRelay == [] && disk == cache
    ensures !r.Invalid? ==>
              && Transferred(clip.files, place, digest, !preferRelay && reachable, pull, c, cache, !r.TransferFailed?,
                             downloaded, asked, askedRelay, disk)
              && (preferRelay ==> asked == [])
  {
    var valid := ValidateFileClip(clip, policy, now);
    if valid.Err? {
      return Invalid(valid.error), map[], [], [], cache;
    }
    var ok;
    ok, downloaded, asked, askedRelay, disk :=
      FetchFiles(clip.files, preferRelay, place, digest, reachable, pull, c, cache);
    if !ok {
      return TransferFailed, downloaded, asked, askedRelay, disk;
    }
    var paths := PathsInOrder(downloaded, |clip.files|);
    PathsNonEmpty(downloaded, |clip.files|);
    if paths == [] {
      return NothingToDownload, downloaded, asked, askedRelay, disk;
    }
    return Applied(paths), downloaded, asked, askedRelay, disk;
  }

  /** The direct loop from an empty start: what it holds, and that with everything delivered the cache is
      as direct writes alone leave it. */
  ghost predicate FirstDone(files: seq<FileEntry>, place: FileEntry -> Path, digest: Bytes -> string, tried: bool,
                            pull: nat -> Response, cache: Disk, ok: bool, d: Downloads, asked: seq<nat>, disk: Disk)
  {
    var todo := MissingFileIndexes(files, {});
    var first := DirectContents(files, tried, pull, digest);
    && DeliveredAsAnnounced(files, place, digest, d)
    && HoldsAll(d, todo, first) && Asked(todo, asked, |first|)
    && d.Keys == FirstIndexes(files, |first|)
    && (ok <==> tried && |first| == |todo|)
    && (|first| == |todo| ==> d.Keys == Regular(files))
    && (forall i :: i in todo ==> i < |files|)
    && disk == AfterDirect(cache, Places(files, place, todo), first, tried && BrokeOff(todo, |first|, pull))
  }

  lemma FirstLoop(files: seq<FileEntry>, place: FileEntry -> Path, digest: Bytes -> string, tried: bool,
                  pull: nat -> Response, cache: Disk, ok: bool, d: Downloads, asked: seq<nat>, disk: Disk)
    requires Directly(files, place, digest, tried, pull, map[], cache, ok, d, asked, disk)
    ensures FirstDone(files, place, digest, tried, pull, cache, ok, d, asked, disk)
  {
    var none: Downloads := map[];
    assert none.Keys == {};
    PulledFromNothing(files, place, digest, d, |DirectContents(files, tried, pull, digest)|);
  }

  /** With everything delivered directly, the transfer is done. */
  lemma DirectIsEnough(files: seq<FileEntry>, place: FileEntry -> Path, digest: Bytes -> string, pull: nat -> Response,
                       c: Connection, cache: Disk, d: Downloads, asked: seq<nat>, disk: Disk)
    requires FirstDone(files, place, digest, true, pull, cache, true, d, asked, disk)
    ensures Transferred(files, place, digest, true, pull, c, cache, true, d, asked, [], disk)
  {
    var todo := MissingFileIndexes(files, {});
    var first := DirectContents(files, true, pull, digest);
    MissingExact(files, {});
    RelayUnused(files, place, todo, disk);
    assert HoldsAll(d, todo[|first|..], []);
    assert first + [] == first;
    BothLoopsOnDisk(files, place, d, cache, disk, first, [], false);
  }

  /** The relay loop after the direct one. */
  lemma SecondLoop(files: seq<FileEntry>, place: FileEntry -> Path, digest: Bytes -> string, tried: bool,
                   pull: nat -> Response, c: Connection, cache: Disk, direct: Downloads, asked: seq<nat>, cached: Disk,
                   ok: bool, d: Downloads, askedRelay: seq<nat>, disk: Disk)
    requires FirstDone(files, place, digest, tried, pull, cache, false, direct, asked, cached)
    requires ViaRelay(files, place, digest, c, direct, cached, ok, d, askedRelay, disk)
    ensures Transferred(files, place, digest, tried, pull, c, cache, ok, d, asked, askedRelay, disk)
  {
    var todo := MissingFileIndexes(files, {});
    var first := DirectContents(files, tried, pull, digest);
    var left := todo[|first|..];
    LeftIsRest(files, |first|);
    var second := if c.session then Delivered(files, left, c.incoming, digest, c) else [];
    PulledAfter(files, place, digest, direct, d, |second|);
    if ok {
      MissingExact(files, {});
      BothLoopsOnDisk(files, place, d, cache, disk, first, second, tried && BrokeOff(todo, |first|, pull));
    }
  }

  lemma {:induction false} IncreasingUnique(a: seq<nat>, b: seq<nat>)
    requires Increasing(a) && Increasing(b) && forall i :: i in a <==> i in b
    ensures a == b
  {
    assert (a != [] ==> a[0] in b) && (b != [] ==> b[0] in a);
    if a != [] {
      assert a[0] == b[0];
      forall i ensures i in a[1..] <==> i in b[1..] {
        assert i in a[1..] <==> i in a && i != a[0];
        assert i in b[1..] <==> i in b && i != b[0];
      }
      IncreasingUnique(a[1..], b[1..]);
    }
  }

  /** After the first `n` files, those still missing are the rest, in order. */
  lemma LeftIsRest(files: seq<FileEntry>, n: nat)
    requires n <= |MissingFileIndexes(files, {})|
    ensures MissingFileIndexes(files, FirstIndexes(files, n)) == MissingFileIndexes(files, {})[n..]
  {
    var todo := MissingFileIndexes(files, {});
    MissingExact(files, {});
    MissingExact(files, FirstIndexes(files, n));
    forall i ensures i in todo[n..] <==> i in todo && i !in todo[..n] {
      assert todo == todo[..n] + todo[n..];
    }
    IncreasingUnique(MissingFileIndexes(files, FirstIndexes(files, n)), todo[n..]);
  }

  lemma RelayUnused(files: seq<FileEntry>, place: FileEntry -> Path, todo: seq<nat>, disk: Disk)
    requires forall i :: i in todo ==> i < |files|
    ensures Places(files, place, todo[|todo|..]) == []
    ensures disk == AfterAll(disk, RelayWrites([], []))
  {
  }

  lemma SplitContents(d: Downloads, todo: seq<nat>, first: seq<Bytes>, second: seq<Bytes>)
    requires forall i :: i in todo ==> i in d
    requires |first| + |second| == |todo| && HoldsAll(d, todo, first) && HoldsAll(d, todo[|first|..], second)
    ensures Contents(d, todo)[..|first|] == first && Contents(d, todo)[|first|..] == second
  {
    assert forall k :: 0 <= k < |second| ==> todo[|first|..][k] == todo[|first| + k];
  }

  lemma SplitPlaces(files: seq<FileEntry>, place: FileEntry -> Path, todo: seq<nat>, n: nat)
    requires n <= |todo| && forall i :: i in todo ==> i < |files|
    ensures forall i :: i in todo[n..] ==> i < |files|
    ensures Places(files, place, todo[n..]) == Places(files, place, todo)[n..]
  {
    assert forall i :: i in todo[n..] ==> i in todo;
  }

  /** The writes of the two loops, one after the other. */
  lemma BothLoopsOnDisk(files: seq<FileEntry>, place: FileEntry -> Path, d: Downloads, cache: Disk, disk: Disk,
                        first: seq<Bytes>, second: seq<Bytes>, broken: bool)
    requires var todo := MissingFileIndexes(files, {});
             && (forall i :: i in todo ==> i < |files| && i in d)
             && |first| + |second| == |todo| && (broken ==> |first| < |todo|)
             && HoldsAll(d, todo, first) && HoldsAll(d, todo[|first|..], second)
             && disk == AfterAll(AfterDirect(cache, Places(files, place, todo), first, broken),
                                 RelayWrites(Places(files, place, todo[|first|..]), second))
    ensures OnDisk(files, place, d, cache, disk, |first|, broken)
  {
    var todo := MissingFileIndexes(files, {});
    var paths, contents, n := Places(files, place, todo), Contents(d, todo), |first|;
    SplitContents(d, todo, first, second);
    SplitPlaces(files, place, todo, n);
    AfterAllOfPair(cache, DirectWrites(paths[..n], first) + Attempt(paths, n, broken), RelayWrites(paths[n..], second));
  }

  /** Exactly when every file of an applied clip is on disk, at its place and with its content: files of
      one place agree, and no direct download takes a file's place for its temporary file unless a file
      is placed there again after it. */
  lemma AppliedFilesAreOnDiskExactly(files: seq<FileEntry>, place: FileEntry -> Path, digest: Bytes -> string,
                                     d: Downloads, cache: Disk, disk: Disk, n: nat, broken: bool)
    requires OnDisk(files, place, d, cache, disk, n, broken)
    requires d.Keys == Regular(files) && DeliveredAsAnnounced(files, place, digest, d)
    ensures var todo := MissingFileIndexes(files, {});
            (forall i :: i in d ==> CacheDisk.Holds(disk, d[i].path, d[i].content)) <==>
              KeptApart(Places(files, place, todo), Contents(d, todo), n, broken)
  {
    var todo := MissingFileIndexes(files, {});
    MissingExact(files, {});
    var paths, contents := Places(files, place, todo), Contents(d, todo);
    AllOnDiskExactly(cache, paths, contents, n, broken);
    forall k | 0 <= k < |todo|
      ensures todo[k] in d && paths[k] == d[todo[k]].path && contents[k] == d[todo[k]].content
    {
      assert todo[k] in todo;
    }
    if AllOnDisk(disk, paths, contents) {
      forall i | i in d ensures CacheDisk.Holds(disk, d[i].path, d[i].content) {
        assert i in todo;
        var k :| 0 <= k < |todo| && todo[k] == i;
      }
    }
    if forall i :: i in d ==> CacheDisk.Holds(disk, d[i].path, d[i].content) {
      forall k | 0 <= k < |todo| ensures CacheDisk.Holds(disk, paths[k], contents[k]) {
        assert todo[k] in d;
      }
    }
  }

  lemma NothingPulled(files: seq<FileEntry>, place: FileEntry -> Path, digest: Bytes -> string, pull: nat -> Response,
                      cache: Disk)
    ensures Directly(files, place, digest, false, pull, map[], cache, false, map[], [], cache)
  {
    var none: Downloads := map[];
    assert none.Keys == {};
    MissingExact(files, {});
    AfterDirectIs(cache, Places(files, place, MissingFileIndexes(files, {})), [], false);
  }

  lemma PulledFromNothing(files: seq<FileEntry>, place: FileEntry -> Path, digest: Bytes -> string, d: Downloads,
                          n: nat)
    requires Pulled(files, place, digest, Direct, MissingFileIndexes(files, {}), map[], d, n)
    ensures DeliveredAsAnnounced(files, place, digest, d)
    ensures n <= |MissingFileIndexes(files, {})| && d.Keys == FirstIndexes(files, n)
    ensures n == |MissingFileIndexes(files, {})| ==> d.Keys == Regular(files)
  {
    var todo := MissingFileIndexes(files, {});
    MissingExact(files, {});
    var none: Downloads := map[];
    assert none.Keys == {};
    forall i | i in d ensures i in Regular(files) && Good(files[i], d[i], place, digest, Direct) {
      var k :| 0 <= k < n && todo[k] == i;
      assert todo[k] in todo;
    }
    assert todo[..|todo|] == todo;
  }

  lemma PulledAfter(files: seq<FileEntry>, place: FileEntry -> Path, digest: Bytes -> string, before: Downloads,
                    d: Downloads, n: nat)
    requires DeliveredAsAnnounced(files, place, digest, before)
    requires Pulled(files, place, digest, Relay, MissingFileIndexes(files, before.Keys), before, d, n)
    ensures DeliveredAsAnnounced(files, place, digest, d)
    ensures forall i :: i in before ==> i in d && d[i] == before[i]
    ensures n == |MissingFileIndexes(files, before.Keys)| ==> d.Keys == Regular(files)
  {
    var todo := MissingFileIndexes(files, before.Keys);
    MissingExact(files, before.Keys);
    forall i | i in d
      ensures i in Regular(files)
      ensures Good(files[i], d[i], place, digest, Direct) || Good(files[i], d[i], place, digest, Relay)
    {
      if i in before {
        assert i !in todo;
      } else {
        var k :| 0 <= k < n && todo[k] == i;
        assert todo[k] in todo;
      }
    }
    assert todo[..|todo|] == todo;
  }

  /** `into_values` of an ordered map lists every entry once, by ascending index. */
  lemma {:induction false} PathsByIndex(d: Downloads, limit: nat, i: nat)
    requires i in d && i < limit
    ensures var before := |set j | j in d && j < i|;
            before < |PathsInOrder(d, limit)| && PathsInOrder(d, limit)[before] == d[i].path
    ensures |PathsInOrder(d, limit)| == |set j | j in d && j < limit|
  {
    PathsCount(d, limit);
    if i < limit - 1 {
      PathsByIndex(d, limit - 1, i);
    } else {
      PathsCount(d, limit - 1);
    }
  }

  lemma {:induction false} PathsCount(d: Downloads, limit: nat)
    ensures |PathsInOrder(d, limit)| == |set j | j in d && j < limit|
  {
    var here := set j | j in d && j < limit;
    if limit == 0 {
      assert here == {};
    } else {
      PathsCount(d, limit - 1);
      var below := set j | j in d && j < limit - 1;
      assert here == below + if limit - 1 in d then {limit - 1} else {};
    }
  }

  lemma PathsNonEmpty(d: Downloads, limit: nat)
    requires forall i :: i in d ==> i < limit
    ensures PathsInOrder(d, limit) == [] <==> d.Keys == {}
  {
    PathsCount(d, limit);
    assert d.Keys == set j | j in d && j < limit;
  }
}
