/** Whose bytes arrive: every job reads the path its claim returned, and that is the path the grant
    lists for the index. */
module TransferFiles {
  import opened Wrappers
  import opened PeerRegistry
  import opened RelayFrames
  import opened Manifest
  import opened Recipient
  import opened TransferSystem
  import opened TransferInvariant
  import opened TransferTheorems

  /** What a job has read is what the disk has, as far as the disk keeps still. */
  predicate JobReads(env: Env, j: Job) {
    var f := env.file(j.path);
    match j.work
    case Streaming(len, yielded) => !f.Absent? && (f.Fixed? ==> len == |f.content| && yielded <= f.content)
    case Relaying(content, _, _) => !f.Absent? && (f.Fixed? ==> content == f.content)
    case _ => true
  }

  predicate JobPath(granted: map<Token, seq<Path>>, j: Job) {
    j.token in granted && j.index < |granted[j.token]| && j.path == granted[j.token][j.index]
  }

  ghost predicate TablePaths(s: State) {
    forall t :: t in s.table ==> t in s.granted && s.table[t].paths == s.granted[t]
  }

  ghost predicate JobFiles(env: Env, granted: map<Token, seq<Path>>, jobs: map<nat, Job>) {
    forall k :: k in jobs ==> JobPath(granted, jobs[k]) && JobReads(env, jobs[k])
  }

  ghost predicate FilesOk(env: Env, s: State) {
    TablePaths(s) && JobFiles(env, s.granted, s.jobs)
  }

  lemma ClaimPaths(env: Env, s: State, token: Token, index: nat, request: Request, d: nat)
    requires TablePaths(s)
    ensures var (claim, n) := Claimed(env, s, token, index, request, d);
            && TablePaths(n)
            && (claim.Available? ==>
                  token in s.granted && index < |s.granted[token]| && claim.path == s.granted[token][index])
  {
  }

  lemma ClaimKeepsFiles(env: Env, s: State, e: Event)
    requires FilesOk(env, s) && Enabled(env, s, e) && (e.DirectClaim? || e.TakeRequest?)
    ensures FilesOk(env, Next(env, s, e))
  {
    if e.DirectClaim? {
      ClaimPaths(env, s, e.token, e.index, e.request, e.d);
    } else {
      var (token, index, request) := RequestOf(s.sessions[e.sid].link.toSource[0]).value;
      ClaimPaths(env, s, token, index, request, e.d);
    }
  }

  lemma WorkKeepsFiles(env: Env, s: State, e: Event)
    requires FilesOk(env, s) && Enabled(env, s, e) && (e.Direct? || e.Serve?)
    ensures FilesOk(env, Next(env, s, e))
  {
    var n := Next(env, s, e);
    var k := if e.Direct? then e.job else s.sessions[e.sid].link.source.job;
    assert JobPath(s.granted, s.jobs[k]) && JobReads(env, s.jobs[k]);
    if e.Direct? {
      DirectJobReads(env, s.jobs[k], e.directMove);
      DirectTablePaths(s, s.jobs[k], e.directMove);
    } else {
      ServeJobReads(env, s.jobs[k], e.serveMove);
    }
    assert n.jobs == s.jobs[k := n.jobs[k]];
  }

  lemma DirectJobReads(env: Env, j: Job, m: DirectMove)
    requires JobReads(env, j) && DirectEnabled(j, m) && DirectReads(env, j, m)
    ensures JobReads(env, DirectJob(j, m))
  {
  }

  lemma ServeJobReads(env: Env, j: Job, m: ServeMove)
    requires JobReads(env, j) && ServeEnabled(env, j, m) && ServeReads(env, j, m)
    ensures JobReads(env, ServeJob(env, j, m))
  {
  }

  lemma DirectTablePaths(s: State, j: Job, m: DirectMove)
    requires TablePaths(s) && DirectEnabled(j, m)
    ensures TablePaths(s.(table := DirectTable(s.table, j, m)))
  {
    if m.StreamGone? {
      SettleOne(s.table, j.token, j.index, if StreamSettlement(j) == [Commit] then Commit else Release);
    }
  }

  lemma StepKeepsFiles(env: Env, s: State, e: Event)
    requires FilesOk(env, s) && Enabled(env, s, e)
    ensures FilesOk(env, Next(env, s, e))
  {
    if e.DirectClaim? || e.TakeRequest? {
      ClaimKeepsFiles(env, s, e);
    } else if e.Direct? || e.Serve? {
      WorkKeepsFiles(env, s, e);
    }
  }

  lemma {:induction false} RunKeepsFiles(env: Env, s: State, es: seq<Event>)
    requires FilesOk(env, s) && Run(env, s, es).Some?
    ensures FilesOk(env, Run(env, s, es).value)
    decreases |es|
  {
    if es != [] {
      StepKeepsFiles(env, s, es[0]);
      RunKeepsFiles(env, Next(env, s, es[0]), es[1..]);
    }
  }

  lemma ReachableFiles(env: Env, s: State)
    requires Reachable(env, s)
    ensures FilesOk(env, s)
  {
    var es :| Run(env, START, es) == Some(s);
    RunKeepsFiles(env, START, es);
  }

  // ---------- main results ----------

  /** What is saved for an index is the file the grant lists there: if that file keeps still, byte for
      byte; and there is one. */
  lemma DeliveredIsTheFile(env: Env, s: State, sid: nat, i: nat)
    requires Reachable(env, s) && sid in s.sessions && i in s.sessions[sid].downloaded
    ensures var r := s.sessions[sid];
            && r.token in s.granted && i < |s.granted[r.token]|
            && var f := env.file(s.granted[r.token][i]);
            !f.Absent? && (f.Fixed? ==> r.downloaded[i].content == f.content)
  {
    ReachableFiles(env, s);
    DeliveredIsWhatWasEmitted(env, s, sid, i);
    var j := s.jobs[s.sessions[sid].downloaded[i].job];
    assert JobPath(s.granted, j) && JobReads(env, j);
    if j.work.Streaming? && env.file(j.path).Fixed? {
      assert j.work.yielded == env.file(j.path).content;
    }
  }

  /** From selection to cache: a session that finishes on a manifest published for a selection, against
      the grant registered with it, holds every selected file, and each one's own content. */
  lemma PublishedSelectionArrives(env: Env, s: State, sid: nat, clip: FileClip, selected: seq<Selected>,
                                  size: Path -> nat, hash: Path -> Option<string>, policy: Policy, now: nat)
    requires Reachable(env, s) && sid in s.sessions && s.sessions[sid].phase.Finished?
    requires IsPublished(clip, selected, size, hash, policy, now) && s.sessions[sid].files == clip.files
    requires s.sessions[sid].token in s.granted && s.granted[s.sessions[sid].token] == Sources(selected)
    ensures forall i: nat :: i in s.sessions[sid].downloaded <==> i < |selected|
    ensures forall i :: i in s.sessions[sid].downloaded && env.file(selected[i].source).Fixed? ==>
              s.sessions[sid].downloaded[i].content == env.file(selected[i].source).content
  {
    var r := s.sessions[sid];
    FinishedIsComplete(env, s, sid);
    forall i: nat ensures i in r.downloaded <==> i < |selected| {
      assert i in Regular(r.files) <==> i < |r.files| && r.files[i].kind.File?;
      assert i < |selected| ==> EntryOf(clip.files[i], selected[i], size, hash);
    }
    forall i | i in r.downloaded && env.file(selected[i].source).Fixed?
      ensures r.downloaded[i].content == env.file(selected[i].source).content
    {
      DeliveredIsTheFile(env, s, sid, i);
      assert Sources(selected)[i] == selected[i].source;
    }
  }

  /** The publisher sized and hashed `original` for every selected file. */
  ghost predicate SizedAndHashed(selected: seq<Selected>, size: Path -> nat, hash: Path -> Option<string>,
                                 original: Path -> Bytes, digest: Bytes -> string)
  {
    forall k :: 0 <= k < |selected| ==>
      && size(selected[k].source) == |original(selected[k].source)|
      && hash(selected[k].source) == Some(digest(original(selected[k].source)))
  }

  /** The recipient of a published manifest accepts for entry k, by either transport, exactly the content
      that was sized and hashed, provided digests are written in lower case and no other content at hand
      has the same one. */
  lemma PublishedAcceptsOriginal(clip: FileClip, selected: seq<Selected>, size: Path -> nat,
                                 hash: Path -> Option<string>, policy: Policy, now: nat, original: Path -> Bytes,
                                 digest: Bytes -> string, k: nat, content: Bytes, how: Transport)
    requires IsPublished(clip, selected, size, hash, policy, now)
    requires SizedAndHashed(selected, size, hash, original, digest)
    requires k < |selected| && k < |clip.files|
    requires LowerCase(digest(content)) && LowerCase(digest(original(selected[k].source)))
    requires digest(content) == digest(original(selected[k].source)) ==> content == original(selected[k].source)
    ensures Verified(clip.files[k], content, digest, how) <==> content == original(selected[k].source)
  {
    assert EntryOf(clip.files[k], selected[k], size, hash);
    VerifiedIsOriginal(clip.files[k], original(selected[k].source), content, digest);
  }

  /** A session that finishes on a published manifest holds, for every selected file, exactly the content
      that was sized and hashed at publication, even of files that changed since, and whoever sent it. */
  lemma PublishedContentArrives(env: Env, s: State, sid: nat, clip: FileClip, selected: seq<Selected>,
                                size: Path -> nat, hash: Path -> Option<string>, policy: Policy, now: nat,
                                original: Path -> Bytes)
    requires Reachable(env, s) && sid in s.sessions && s.sessions[sid].phase.Finished?
    requires IsPublished(clip, selected, size, hash, policy, now) && s.sessions[sid].files == clip.files
    requires SizedAndHashed(selected, size, hash, original, env.digest)
    requires forall content :: LowerCase(env.digest(content))
    requires forall i :: i in s.sessions[sid].downloaded && i < |selected| ==>
               var got := s.sessions[sid].downloaded[i].content;
               env.digest(got) == env.digest(original(selected[i].source)) ==> got == original(selected[i].source)
    ensures forall i: nat :: i in s.sessions[sid].downloaded <==> i < |selected|
    ensures forall i :: i in s.sessions[sid].downloaded ==>
              s.sessions[sid].downloaded[i].content == original(selected[i].source)
  {
    var r := s.sessions[sid];
    FinishedIsComplete(env, s, sid);
    forall i: nat ensures i in r.downloaded <==> i < |selected| {
      assert i in Regular(r.files) <==> i < |r.files| && r.files[i].kind.File?;
      assert i < |selected| ==> EntryOf(clip.files[i], selected[i], size, hash);
    }
    forall i | i in r.downloaded ensures r.downloaded[i].content == original(selected[i].source) {
      DeliveredIsWhatWasEmitted(env, s, sid, i);
      PublishedAcceptsOriginal(clip, selected, size, hash, policy, now, original, env.digest, i,
                               r.downloaded[i].content, r.downloaded[i].how);
    }
  }
}
