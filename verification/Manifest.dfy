/** File manifests: how the publisher builds one and the receiver judges it
    (publish_file_manifest and validate_file_clip in crates/airpaste-agent/src/lib.rs). */
module Manifest {
  import opened Wrappers
  import opened PeerRegistry

  const U64_MAX: nat := 0xffff_ffff_ffff_ffff
  /** The longest duration, 2^63 - 1 milliseconds, in seconds. */
  const MAX_DURATION_SECS: nat := 0x7fff_ffff_ffff_ffff / 1000

  datatype FileEntryKind = File | Directory | Symlink | MacAppBundle

  datatype FileEntry = FileEntry(
    relativePath: string, displayName: string, size: nat, sha256: Option<string>, kind: FileEntryKind)

  datatype FileClip = FileClip(files: seq<FileEntry>, totalSize: nat, token: Token, expiresAt: Option<nat>)

  datatype Policy = Policy(maxFileCount: nat, maxTotalBytes: nat, maxSingleBytes: nat, ttlSecs: nat)

  // ---------- the receiver's side ----------

  datatype ClipProblem = TooManyFiles | TotalTooLarge | FileTooLarge(index: nat) | TokenExpired

  function FirstOversized(files: seq<FileEntry>, limit: nat, at: nat): Option<nat>
    requires at <= |files|
    decreases |files| - at
  {
    if at == |files| then None
    else if files[at].kind.File? && files[at].size > limit then Some(at)
    else FirstOversized(files, limit, at + 1)
  }

  function ValidateFileClip(clip: FileClip, policy: Policy, now: nat): Result<(), ClipProblem> {
    if |clip.files| > policy.maxFileCount then Err(TooManyFiles)
    else if clip.totalSize > policy.maxTotalBytes then Err(TotalTooLarge)
    else match FirstOversized(clip.files, policy.maxSingleBytes, 0)
         case Some(k) => Err(FileTooLarge(k))
         case None => if clip.expiresAt.Some? && clip.expiresAt.value < now then Err(TokenExpired) else Ok(())
  }

  lemma {:induction false} FirstOversizedFinds(files: seq<FileEntry>, limit: nat, at: nat)
    requires at <= |files|
    ensures var r := FirstOversized(files, limit, at);
            match r
            case None => forall k :: at <= k < |files| && files[k].kind.File? ==> files[k].size <= limit
            case Some(k) => at <= k < |files| && files[k].kind.File? && files[k].size > limit
                            && forall m :: at <= m < k && files[m].kind.File? ==> files[m].size <= limit
    decreases |files| - at
  {
    if at < |files| {
      FirstOversizedFinds(files, limit, at + 1);
    }
  }

  // ---------- the publisher's side ----------

  /** A regular file selected for publishing: its path inside the clip and its path on disk. */
  datatype Selected = Selected(relativePath: string, source: Path)

  datatype PublishError = AboveFileCount | AboveSingleLimit(index: nat) | AboveTotalLimit(index: nat)
                        | HashFailed(index: nat) | LifetimeOutOfRange | KeysUnavailable | ServerRefused

  datatype Published = Nothing | Manifest(clip: FileClip, served: seq<Path>)

  function SaturatingAdd(a: nat, b: nat): nat {
    if a + b > U64_MAX then U64_MAX else a + b
  }

  /** Exact number of bytes of the first `n` selected files. */
  function SumSizes(selected: seq<Selected>, size: Path -> nat, n: nat): nat
    requires n <= |selected|
  {
    if n == 0 then 0 else SumSizes(selected, size, n - 1) + size(selected[n - 1].source)
  }

  function Cap(total: nat): nat {
    if total > U64_MAX then U64_MAX else total
  }

  function BaseName(relativePath: string, upTo: nat): string
    requires upTo <= |relativePath|
  {
    if upTo == 0 || relativePath[upTo - 1] == '/' then relativePath[upTo..] else BaseName(relativePath, upTo - 1)
  }

  function Entry(s: Selected, size: nat, sha256: string): FileEntry {
    var name := BaseName(s.relativePath, |s.relativePath|);
    FileEntry(s.relativePath, if name == "" then "unnamed" else name, size, Some(sha256), File)
  }

  lemma {:induction false} BaseNameIsLastPart(relativePath: string, upTo: nat)
    requires upTo <= |relativePath| && '/' !in relativePath[upTo..]
    ensures var name := BaseName(relativePath, upTo);
            && |name| <= |relativePath| && name == relativePath[|relativePath| - |name|..] && '/' !in name
            && (|name| == |relativePath| || relativePath[|relativePath| - |name| - 1] == '/')
  {
    if upTo > 0 && relativePath[upTo - 1] != '/' {
      assert relativePath[upTo - 1..] == [relativePath[upTo - 1]] + relativePath[upTo..];
      BaseNameIsLastPart(relativePath, upTo - 1);
    }
  }

  /** What is announced of a selected file: its path inside the clip, its size and hash, that it is a regular
      file, and the part of the path after the last slash, or "unnamed" when that is empty. */
  lemma EntryExactly(s: Selected, size: nat, sha256: string)
    ensures var e := Entry(s, size, sha256);
            && e.relativePath == s.relativePath && e.size == size && e.sha256 == Some(sha256) && e.kind.File?
            && '/' !in e.displayName && e.displayName != ""
            && var slash := |s.relativePath| - |e.displayName| - 1;
               || e.displayName == s.relativePath
               || (slash >= 0 && s.relativePath[slash] == '/' && s.relativePath[slash + 1..] == e.displayName)
               || (e.displayName == "unnamed"
                   && (s.relativePath == "" || s.relativePath[|s.relativePath| - 1] == '/'))
  {
    assert s.relativePath[|s.relativePath|..] == "";
    BaseNameIsLastPart(s.relativePath, |s.relativePath|);
  }

  function Sources(selected: seq<Selected>): (r: seq<Path>)
    ensures |r| == |selected| && forall k :: 0 <= k < |r| ==> r[k] == selected[k].source
  {
    seq(|selected|, k requires 0 <= k < |selected| => selected[k].source)
  }

  /** Entry k announces selected file k, with its size and hash. */
  ghost predicate Describes(files: seq<FileEntry>, selected: seq<Selected>, size: Path -> nat,
                            hash: Path -> Option<string>, n: nat)
    requires n <= |selected|
  {
    && |files| == n
    && forall k :: 0 <= k < n ==> EntryOf(files[k], selected[k], size, hash)
  }

  ghost predicate EntryOf(e: FileEntry, s: Selected, size: Path -> nat, hash: Path -> Option<string>) {
    hash(s.source).Some? && e == Entry(s, size(s.source), hash(s.source).value)
  }

  ghost predicate WithinLimits(selected: seq<Selected>, size: Path -> nat, policy: Policy, n: nat)
    requires n <= |selected|
  {
    && |selected| <= policy.maxFileCount
    && (forall k :: 0 <= k < n ==> size(selected[k].source) <= policy.maxSingleBytes)
    && (n > 0 ==> Cap(SumSizes(selected, size, n)) <= policy.maxTotalBytes)
  }

  /** What each refusal of a selection means. */
  ghost predicate Explains(e: PublishError, selected: seq<Selected>, size: Path -> nat, hash: Path -> Option<string>,
                           policy: Policy)
  {
    match e
    case AboveFileCount => |selected| > policy.maxFileCount
    case AboveSingleLimit(k) =>
      k < |selected| && size(selected[k].source) > policy.maxSingleBytes && WithinLimits(selected, size, policy, k)
    case AboveTotalLimit(k) =>
      && k < |selected| && WithinLimits(selected, size, policy, k)
      && Cap(SumSizes(selected, size, k + 1)) > policy.maxTotalBytes
    case HashFailed(k) =>
      k < |selected| && hash(selected[k].source).None? && WithinLimits(selected, size, policy, k + 1)
    case _ => false
  }

  lemma NextTotal(selected: seq<Selected>, size: Path -> nat, k: nat)
    requires k < |selected|
    ensures SaturatingAdd(Cap(SumSizes(selected, size, k)), size(selected[k].source))
            == Cap(SumSizes(selected, size, k + 1))
  {
  }

  lemma NextWithin(selected: seq<Selected>, size: Path -> nat, policy: Policy, k: nat)
    requires k < |selected| && WithinLimits(selected, size, policy, k)
    requires size(selected[k].source) <= policy.maxSingleBytes
    requires Cap(SumSizes(selected, size, k + 1)) <= policy.maxTotalBytes
    ensures WithinLimits(selected, size, policy, k + 1)
  {
  }

  lemma NextDescribed(files: seq<FileEntry>, selected: seq<Selected>, size: Path -> nat, hash: Path -> Option<string>,
                      k: nat, e: FileEntry)
    requires k < |selected| && Describes(files, selected, size, hash, k) && EntryOf(e, selected[k], size, hash)
    ensures Describes(files + [e], selected, size, hash, k + 1)
  {
  }

  /** The loop of publish_file_manifest over the selection; `size` and `hash` stand for the disk. */
  method BuildEntries(selected: seq<Selected>, size: Path -> nat, hash: Path -> Option<string>, policy: Policy)
    returns (problem: Option<PublishError>, files: seq<FileEntry>, served: seq<Path>, total: nat)
    requires selected != []
    ensures problem.None? ==>
              && WithinLimits(selected, size, policy, |selected|)
              && Describes(files, selected, size, hash, |selected|)
              && served == Sources(selected)
              && total == Cap(SumSizes(selected, size, |selected|))
    ensures problem.Some? ==> Explains(problem.value, selected, size, hash, policy)
  {
    files, served, total := [], [], 0;
    if |selected| > policy.maxFileCount {
      return Some(AboveFileCount), files, served, total;
    }
    for k := 0 to |selected|
      invariant WithinLimits(selected, size, policy, k)
      invariant Describes(files, selected, size, hash, k)
      invariant |served| == k && forall m :: 0 <= m < k ==> served[m] == selected[m].source
      invariant total == Cap(SumSizes(selected, size, k))
    {
      var s := selected[k];
      var bytes := size(s.source);
      if bytes > policy.maxSingleBytes {
        return Some(AboveSingleLimit(k)), files, served, total;
      }
      total := SaturatingAdd(total, bytes);
      NextTotal(selected, size, k);
      if total > policy.maxTotalBytes {
        return Some(AboveTotalLimit(k)), files, served, total;
      }
      NextWithin(selected, size, policy, k);
      var digest := hash(s.source);
      if digest.None? {
        return Some(HashFailed(k)), files, served, total;
      }
      NextDescribed(files, selected, size, hash, k, Entry(s, bytes, digest.value));
      files := files + [Entry(s, bytes, digest.value)];
      served := served + [s.source];
    }
    assert served == Sources(selected);
    return None, files, served, total;
  }

  /** The expiry fits the types for durations and times, whose latest time is `latest`. */
  predicate LifetimeFits(policy: Policy, now: nat, latest: nat) {
    policy.ttlSecs <= MAX_DURATION_SECS && now + policy.ttlSecs <= latest
  }

  /** Durations hold at most 2^63 - 1 milliseconds. */
  lemma LifetimeExactly(policy: Policy, now: nat, latest: nat)
    ensures LifetimeFits(policy, now, latest) <==>
            policy.ttlSecs * 1000 <= 9_223_372_036_854_775_807 && now + policy.ttlSecs <= latest
  {
  }

  /** `keys` stands for the trusted keys the server lists (None when the call fails) and `clipId`
      for its answer to the new clip. Nothing is granted unless a whole manifest was built and its
      expiry fits; the code panics on one that does not. */
  method PublishFileManifest(registry: PeerFileRegistry, deviceId: string, policy: Policy, selected: seq<Selected>,
                             size: Path -> nat, hash: Path -> Option<string>, keys: Option<map<string, string>>,
                             clipId: Option<string>, token: Token, now: nat, ttl: nat, latest: nat)
    returns (r: Result<Published, PublishError>)
    modifies registry
    ensures r == Ok(Nothing) <==> selected == []
    ensures r.Ok? && r.value.Manifest? ==>
              var clip := r.value.clip;
              && IsPublished(clip, selected, size, hash, policy, now) && LifetimeFits(policy, now, latest)
              && clip.token == token
              && r.value.served == Sources(selected)
              && keys.Some? && clipId.Some?
              && registry.entries == Cleanup(old(registry.entries), now)
                   [token := FreshGrant(clipId, deviceId, keys.value, Sources(selected), now + ttl)]
    ensures r.Err? ==> match r.error
              case LifetimeOutOfRange =>
                !LifetimeFits(policy, now, latest) && registry.entries == old(registry.entries)
              case KeysUnavailable => keys.None? && registry.entries == old(registry.entries)
              case ServerRefused =>
                && keys.Some? && clipId.None?
                && registry.entries == Cleanup(old(registry.entries), now)
                     [token := FreshGrant(None, deviceId, keys.value, Sources(selected), now + ttl)]
              case e => Explains(e, selected, size, hash, policy) && registry.entries == old(registry.entries)
  {
    if selected == [] {
      return Ok(Nothing);
    }
    var problem, files, served, total := BuildEntries(selected, size, hash, policy);
    if problem.Some? {
      return Err(problem.value);
    }
    if !LifetimeFits(policy, now, latest) {
      return Err(LifetimeOutOfRange);
    }
    if keys.None? {
      return Err(KeysUnavailable);
    }
    registry.Register(token, None, deviceId, keys.value, served, ttl, now, now);
    if clipId.None? {
      return Err(ServerRefused);
    }
    registry.BindClipId(token, clipId.value);
    return Ok(Manifest(FileClip(files, total, token, Some(now + policy.ttlSecs)), served));
  }

  /** What the publisher announces for a selection under a policy. */
  ghost predicate IsPublished(clip: FileClip, selected: seq<Selected>, size: Path -> nat, hash: Path -> Option<string>,
                              policy: Policy, now: nat)
  {
    && selected != []
    && WithinLimits(selected, size, policy, |selected|)
    && Describes(clip.files, selected, size, hash, |selected|)
    && clip.totalSize == Cap(SumSizes(selected, size, |selected|))
    && clip.expiresAt == Some(now + policy.ttlSecs)
  }

  // ---------- the two sides agree ----------

  /** Every manifest the publisher announces under a policy passes the receiver's validation under
      the same policy up to and including its expiry, and never after. */
  lemma PublishedIsAccepted(clip: FileClip, selected: seq<Selected>, size: Path -> nat,
                            hash: Path -> Option<string>, policy: Policy, now: nat, at: nat)
    requires IsPublished(clip, selected, size, hash, policy, now)
    ensures ValidateFileClip(clip, policy, at)
         == if at <= now + policy.ttlSecs then Ok(()) else Err(TokenExpired)
  {
    FirstOversizedFinds(clip.files, policy.maxSingleBytes, 0);
  }

  /** The announced total is the exact sum of the sizes whenever the configured limit is below the
      64-bit maximum; at that maximum it is exact precisely when the sum itself fits. */
  lemma TotalIsExact(clip: FileClip, selected: seq<Selected>, size: Path -> nat,
                     hash: Path -> Option<string>, policy: Policy, now: nat)
    requires IsPublished(clip, selected, size, hash, policy, now)
    ensures clip.totalSize == SumSizes(selected, size, |selected|)
       <==> SumSizes(selected, size, |selected|) <= U64_MAX
    ensures policy.maxTotalBytes < U64_MAX ==> clip.totalSize == SumSizes(selected, size, |selected|)
  {
  }

  /** A validated manifest bounds every regular file, whoever made it. */
  lemma ValidatedIsBounded(clip: FileClip, policy: Policy, now: nat)
    ensures ValidateFileClip(clip, policy, now) == Ok(()) <==>
            && |clip.files| <= policy.maxFileCount && clip.totalSize <= policy.maxTotalBytes
            && (forall k :: 0 <= k < |clip.files| && clip.files[k].kind.File? ==>
                  clip.files[k].size <= policy.maxSingleBytes)
            && (clip.expiresAt.Some? ==> now <= clip.expiresAt.value)
  {
    FirstOversizedFinds(clip.files, policy.maxSingleBytes, 0);
  }
}
