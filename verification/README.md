# AirPaste, modelled and proved in Dafny

AirPaste shares a clipboard between the devices of one owner: an agent on every device, and a server
that registers devices, stores encrypted clips and relays files when two devices cannot reach each other.
This project models the parts of both that keep state under concurrency, and proves what holds of every
run of them. `dafny verify dfyconfig.toml` checks everything.

**File transfer.** A publisher grants a token for a list of files; every index may be served once, but a
failed transfer may be retried. `PeerRegistry` is the source's grant table and the stream that settles a
reservation; `Manifest` is what the publisher announces and the receiver accepts; `PublishWalk` and
`CachePaths` are the way of a file from the publisher's directory tree to the receiver's cache;
`RelayFrames` is one file on the relayed connection; `Recipient` is the direct loop, the relay loop and
the fallback from one to the other, and `CacheDisk` what their writes leave on the receiver's disk.
`TransferSystem` puts source and recipients together as a step system in which handlers, streams, relay
tasks, recipients, expiry and cut connections interleave in any order; `TransferInvariant` and
`TransferTheorems` prove what all its runs keep, `TransferFiles` that what arrives is the file the grant
lists, `TransferGrants` how long a grant is there, `TransferSteps` what single steps do to the connection
and the grant, `TransferRetry` exactly when a failed transfer can be retried, `TransferProgress` exactly when a
transfer can be completed over the relay, and `SealedTransfer` that the encryption of `SealOpen` is what
the system assumes of it.

**Relay pipe.** `RelayPipe`, `RelayPipeInvariant` and `RelayPipeTheorems` are the server's rooms with two
bounded queues each, and the reading and writing tasks of every connection, which can be aborted at any
moment; `RelayPipeQueues` says when a queue takes frames and when sending fails; `RelayPipeLink` shows that it carries frames to a recipient as the connection of
`TransferSystem` does.

**Clipboard echo.** `ClipboardEcho` is the polling loop of any number of devices in system mode together
with the application of remote text.

**Server trust.** `TrustGraph` is the device and pairing tables and who may change them, `NonceCache` the
memory of used nonces, `RequestGate` the verification of signed requests.

**Codecs.** `SigningMessages`, `Base64Url`, `Luhn`, `SealOpen`, `Characters`.

Conventions. Clocks are integers; where the code reads the clock twice, so does the model. Ed25519
verification, SHA-256, timestamp parsing and the source's disk are functions passed as parameters, where a
file of that disk keeps still, changes or is missing; the receiver's disk is a map that the downloads
take and return. X25519, HKDF, XChaCha20-Poly1305 and standard base64 are abstract with their functional
laws (`SealOpen.Lawful`), which `SealOpen.LawsAreConsistent` shows to be satisfiable. Tokens, device ids
and queue numbers are fresh when made. A method that holds a lock is one atomic step. A send on a
websocket either hands the frame over or fails. A class method is proved against a function on the table
it changes, and the laws and runs are about those functions.

Where the code does less than its comments say or a reader would expect, the model follows the code:

- crates/airpaste-agent/src/peer.rs:35-41 promises that a failed transfer can be retried. A direct handler
  that returns between claim and stream (lines 361-369) never releases: `EarlyReturnHappens` is a run that
  ends so, and `EarlyReturnExample` a concrete one. `RetryableExactly` is the condition: with the grant
  alive, an index can be claimed again if and only if no job for it was committed, was abandoned so, holds
  it with everything emitted, or is a direct handler about to open a file that is missing or empty (the
  first returns early, the second counts as served at once).
- crates/airpaste-server/src/relay.rs:56 says a join is refused when the role is already connected. It is
  refused only then, namely when a connection of the role that has not left holds the end of the session's
  present room (`RefusedExactly`); but a connected role does not always refuse, because a leaving peer
  takes the room away from the other one (`LeavingFreesEveryRole`).
- crates/airpaste-agent/src/lib.rs:3029-3046 gives every file its place in the cache, but two selected
  files can share one (`SameNameOverwrites`), and a direct download's temporary file can be another file's
  place (`TemporaryNameIsLost`). `AppliedFilesAreOnDiskExactly` is the condition under which every file of
  an applied clip is on disk with its content.
- Echo suppression assumes that a remote text is tagged before the poll sees it; the poll reads the
  clipboard before it takes the tag's lock: `EchoExactly`, `EchoHappens`. And a tag that no poll has used
  stays, so that it can swallow a later copy of its text: `CopyCanBeSwallowed`, `PublishedExactly`.
- The nonce cache reads the time before it takes its lock, so calls can be processed out of order:
  `RefusedExactly` is exact for any order, `RefinesUnboundedLog` needs ordered times (`ReorderedCallForgets`
  shows why), and with calls out of order by at most some slack `NearlyRefinesLog` and `LetThroughApart`
  lose no more than that slack. A request whose timestamp is not before its first acceptance passes
  again one window later: `RepeatedAfterWindow`.
- Pairing codes can be used again until they expire: `CodeWorksUntilExpiry`.

## Model

| member | source | states |
|---|---|---|
| `PeerRegistry.PeerFileRegistry.Register` | crates/airpaste-agent/src/peer.rs:61-88 | expired grants go, the token gets a grant with nothing served and nothing in flight, all others stay |
| `PeerRegistry.PeerFileRegistry.BindClipId` | crates/airpaste-agent/src/peer.rs:90-100 | binds the clip of a live grant, and changes nothing else |
| `PeerRegistry.PeerFileRegistry.ClaimFile` | crates/airpaste-agent/src/peer.rs:132-196 | the answer and the whole new table, for every order of refusals and both clock readings |
| `PeerRegistry.PeerFileRegistry.CommitServed` | crates/airpaste-agent/src/peer.rs:201-208 | the index moves from in flight to served; a missing grant is left missing |
| `PeerRegistry.PeerFileRegistry.Release` | crates/airpaste-agent/src/peer.rs:212-218 | the index leaves in flight, served indexes stay served |
| `PeerRegistry.ClaimGranted` | crates/airpaste-agent/src/peer.rs:132-196 | a claim is granted if and only if the grant lives, the request is authorized and the index exists, unserved and not in flight; it reserves that index only |
| `PeerRegistry.ClaimLeavesGrants` | crates/airpaste-agent/src/peer.rs:132-222 | whatever a claim answers, exactly the grants that were not expired stay, less the claimed one if it expires between the two clock readings |
| `PeerRegistry.RefusedClaimExactly` | crates/airpaste-agent/src/peer.rs:132-196 | exactly when a claim is answered as already served, expired, unauthorized or not found |
| `PeerRegistry.RefusalIsTheFirst` | crates/airpaste-agent/src/peer.rs:147-186 | the reason given to an unauthorized request is the first check, in order, that it fails |
| `PeerRegistry.AuthorizationStable` | crates/airpaste-agent/src/peer.rs:147-184 | whether a request is authorized never depends on what was claimed, committed or released |
| `PeerRegistry.ServedIsFinal` | crates/airpaste-agent/src/peer.rs:187-218 | no sequence of calls by anyone makes a served index claimable again |
| `PeerRegistry.ReleaseUndoesClaim` | crates/airpaste-agent/src/peer.rs:210-218 | a release restores the table as if the claim had not been made |
| `PeerRegistry.GrantStream.SettleOnce` | crates/airpaste-agent/src/peer.rs:240-250 | settles at most once: a commit when nothing remains, else a release |
| `PeerRegistry.GrantStream.PollNext` | crates/airpaste-agent/src/peer.rs:259-271 | a chunk lowers what remains, the end settles, errors and pending polls do not |
| `PeerRegistry.GrantStream.Drop` | crates/airpaste-agent/src/peer.rs:274-278 | dropping the stream settles it if nothing else did |
| `PeerRegistry.StreamSettlesOnce` | crates/airpaste-agent/src/peer.rs:239-278 | for every sequence of chunks, errors and ends, exactly one commit or release by the time the stream is gone: a commit if and only if at least the announced length was yielded before it ended |
| `RelayFrames.ServeRequest` | crates/airpaste-agent/src/relay.rs:109-216 | one served request leaves the index committed only when every frame was sent, and otherwise the table as the cleanup alone would |
| `RelayFrames.SendFile` | crates/airpaste-agent/src/relay.rs:135-149 | header, chunks and end go out in order, as many as the connection takes |
| `RelayFrames.RecvFileHeader` | crates/airpaste-agent/src/relay.rs:361-381 | skips everything but the header of the wanted index, and fails on errors, closing and unparsable text |
| `RelayFrames.RecvFileBody` | crates/airpaste-agent/src/relay.rs:383-397 | concatenates the binary frames up to the end marker |
| `RelayFrames.RecvBodyExactly` | crates/airpaste-agent/src/relay.rs:383-397 | of the messages alone: a body is received if and only if an end marker comes before every unparsable text, error and close; it is the binary messages before it and leaves those after it; otherwise the first of these is the error, or the connection is lost |
| `RelayFrames.RecvHeaderExactly` | crates/airpaste-agent/src/relay.rs:361-381 | the same of a header of the wanted index |
| `RelayFrames.ReceivedEndsWithMarker` | crates/airpaste-agent/src/relay.rs:383-397 | every body received ends with a marker that nothing bad precedes |
| `RelayFrames.ReceiveUndoesSend` | crates/airpaste-agent/src/relay.rs:135-149 | for every file and index, after any foreign frames, what is received is exactly the sealed head and body, and nothing beyond the end marker is read |
| `RelayFrames.RecvBodyUndoesChunks` | crates/airpaste-agent/src/relay.rs:383-397 | concatenating the chunks of any body gives the body |
| `RelayFrames.ChunkSizes` | crates/airpaste-agent/src/relay.rs:139-141 | every chunk but the last is 256 KiB, none is larger or empty |
| `RelayFrames.CutFileIsNeverAccepted` | crates/airpaste-agent/src/relay.rs:361-397 | a file cut short anywhere is never taken for a complete one, whether nothing follows or a close, an error or an unparsable text does |
| `Recipient.MissingExact` | crates/airpaste-agent/src/lib.rs:2847-2857 | the missing indexes are exactly the regular files not held, each once, in order |
| `Recipient.DownloadRemoteFiles` | crates/airpaste-agent/src/lib.rs:2886-2937 | saves, in order, exactly the missing files that arrive and pass up to the first that does not, asks for those and at most one more, succeeds if and only if all do, and leaves the cache as their writes and the failing attempt do |
| `Recipient.DownloadPeerFileToCache` | crates/airpaste-agent/src/lib.rs:2964-3022 | the chunks go to the temporary file; a complete body that passes ends at the destination, and anything else only removes the temporary file |
| `Recipient.VerifiedIsOriginal` | crates/airpaste-agent/src/lib.rs:2997-3018 | an entry that announces the original's size and hash accepts exactly the original, on the direct path with the hash in any letter case and on the relay only as it is written |
| `Recipient.UnhashedIsSized` | crates/airpaste-agent/src/lib.rs:2997-3018 | an entry without a hash accepts whatever has its size |
| `Recipient.ArrivingExactly` | crates/airpaste-agent/src/lib.rs:2886-2937 | with all before it, a file arrives directly if and only if its body is complete and has the announced size and hash; it is then the chunks in order |
| `Recipient.DownloadViaRelay` | crates/airpaste-agent/src/relay.rs:244-359 | over one relayed connection saves exactly the files the incoming frames hold, in order, up to the first whose request does not go out, whose frames or checks fail or that cannot be written; asks for each once; success means that every request went out and every file was written |
| `Recipient.DeliveredExactly` | crates/airpaste-agent/src/relay.rs:290-356 | with all before it, a file is delivered over the relay if and only if its request goes out, a file for it is received and decrypted with the announced size and hash, and it can be written |
| `Recipient.HonestSourceDeliversAll` | crates/airpaste-agent/src/relay.rs:290-356 | against a source that answers with files that pass, all are delivered, byte for byte |
| `Recipient.ApplyFileClip` | crates/airpaste-agent/src/lib.rs:2700-2781 | direct, relay, or direct failing anywhere and then relay: fails if and only if the direct loop did not finish and the relay did not deliver what was left; on success the saved indexes are exactly the manifest's regular files, each passed its own checks, and the cache is as their writes leave it; the relay is asked only for what was not delivered directly |
| `Recipient.AppliedFilesAreOnDiskExactly` | crates/airpaste-agent/src/lib.rs:2700-2781 | after success every file is on disk at its place with its content if and only if files of one place have one content and no direct download, finished or broken off, takes a file's place for its temporary file unless a file is placed there again after it |
| `CacheDisk.AllIntactExactly` | crates/airpaste-agent/src/lib.rs:2964-3022 | for every sequence of writes, what was saved is there at the end if and only if later saves to its place agree and every loss to a temporary file is made good later |
| `CacheDisk.TemporaryNameIsLost` | crates/airpaste-agent/src/lib.rs:2973 | directly downloading `x.txt` after `x.airpaste-download` destroys the latter |
| `CacheDisk.StemExactly` | crates/airpaste-agent/src/lib.rs:2973 | what of a name the temporary name keeps: what is before the last dot, but all of a name without one or with only a leading one |
| `Recipient.PathsByIndex` | crates/airpaste-agent/src/lib.rs:2768 | the resulting paths are in index order, one per file |
| `Manifest.BuildEntries` | crates/airpaste-agent/src/lib.rs:1543-1597 | entry and served path i describe the same file i; the saturating total and the limits hold; every refusal has its reason |
| `Manifest.EntryExactly` | crates/airpaste-agent/src/lib.rs:1577-1596 | what is announced of a file: path, size, hash, kind, and the last part of the path as its name, or "unnamed" |
| `Manifest.PublishFileManifest` | crates/airpaste-agent/src/lib.rs:1526-1639 | nothing is granted unless a whole manifest was built and its expiry can be represented; the grant's paths are the manifest's files in order |
| `Manifest.PublishedIsAccepted` | crates/airpaste-agent/src/lib.rs:2783-2819 | a published manifest passes the receiver's validation under the same policy up to and including its expiry, and never after |
| `Manifest.TotalIsExact` | crates/airpaste-agent/src/lib.rs:1559-1578 | the announced total is the exact sum if and only if the sum fits 64 bits, so always when the limit is below that maximum |
| `Manifest.ValidatedIsBounded` | crates/airpaste-agent/src/lib.rs:2783-2819 | a manifest is accepted if and only if count, total, every regular file and expiry are within the policy |
| `CachePaths.SafeCachePath` | crates/airpaste-agent/src/lib.rs:3029-3046 | the cache directory followed by the usable components, or one fallback name |
| `CachePaths.SanitizedIsNormal` | crates/airpaste-agent/src/lib.rs:3051-3071 | a sanitized component is one ordinary name: not empty, no separator, not a dot or two |
| `CachePaths.SanitizedExactly` | crates/airpaste-agent/src/lib.rs:3051-3071 | what becomes of a component: every refused character an underscore, the others as they are, without the spaces and dots at its end |
| `CachePaths.SanitizedIgnoresMargins` | crates/airpaste-agent/src/lib.rs:3051-3055 | whitespace around a component does not matter |
| `CachePaths.IllegalExactly` | crates/airpaste-agent/src/lib.rs:3059-3062 | the refused characters, by code point |
| `CachePaths.FixedCharacterized` | crates/airpaste-agent/src/lib.rs:3051-3071 | exactly which names sanitizing leaves alone |
| `CachePaths.DestinationNeverEscapes` | crates/airpaste-agent/src/lib.rs:3029-3046 | for every manifest the destination lies strictly below the cache directory |
| `CachePaths.SplitUndoesJoin` | crates/airpaste-agent/src/lib.rs:3029-3046 | splitting at separators undoes joining ordinary names |
| `CachePaths.SplitExactly` | crates/airpaste-agent/src/lib.rs:3036 | paths are split at every separator of either kind, and nowhere else |
| `CachePaths.DestinationExactly` | crates/airpaste-agent/src/lib.rs:3034-3045 | the destination is made of the usable parts in order, or of the display name, or is a fixed name |
| `CachePaths.DestinationUndoesJoin` | crates/airpaste-agent/src/lib.rs:3029-3046 | a path joined from fixed names is recreated component by component |
| `CachePaths.RecreatedExactly` | crates/airpaste-agent/src/lib.rs:3029-3046 | a joined path is recreated component by component if and only if every name is fixed, whatever the names hold |
| `PublishWalk.WalkPublishDir` | crates/airpaste-agent/src/lib.rs:1500-1524 | appends exactly the files found below the directory, in order, or fails when something cannot be read |
| `PublishWalk.CollectPublishFiles` | crates/airpaste-agent/src/lib.rs:1480-1498 | the files of all inputs in input order |
| `PublishWalk.InputExactly` | crates/airpaste-agent/src/lib.rs:1480-1498 | what a selected path contributes: a regular file itself, a directory its walk, anything else nothing; and exactly when it fails |
| `PublishWalk.CollectedExactly` | crates/airpaste-agent/src/lib.rs:1480-1498 | a selection fails if and only if one input does, and has the files of all in order |
| `PublishWalk.BaseExactly` | crates/airpaste-agent/src/lib.rs:1483-1487 | the base name is the path's last name, or "item" |
| `PublishWalk.WalkIsExact` | crates/airpaste-agent/src/lib.rs:1500-1524 | every regular file of the tree is found exactly once and nothing else is |
| `PublishWalk.WalkFailsExactly` | crates/airpaste-agent/src/lib.rs:1500-1524 | the walk fails if and only if something in the tree, at any depth, cannot be read |
| `PublishWalk.WalkInOrder` | crates/airpaste-agent/src/lib.rs:1509-1510 | files are published in the order of their names, directory by directory |
| `PublishWalk.NameLessExactly` | crates/airpaste-agent/src/lib.rs:1509-1510 | names are ordered by the first character that differs, the shorter first |
| `PublishWalk.WalkIgnoresListingOrder` | crates/airpaste-agent/src/lib.rs:1505-1510 | the published order does not depend on how the system lists a directory |
| `PublishWalk.ReceivedWhereItWas` | crates/airpaste-agent/src/lib.rs:3029-3071 | walk, join and destination together recreate each file's components below the selection |
| `PublishWalk.KeepsItsPlaceExactly` | crates/airpaste-agent/src/lib.rs:1480-1597 | a selected file, announced as it is, is written below the cache directory under its own names if and only if sanitizing leaves every one of them alone |
| `PublishWalk.DestinationsDistinct` | crates/airpaste-agent/src/lib.rs:3029-3046 | distinct files of one input land at distinct destinations |
| `PublishWalk.OneInputStaysApart` | crates/airpaste-agent/src/lib.rs:2964-3046 | the files of one selected tree of fixed names, none with a temporary file's extension, never disturb each other on the receiver's disk |
| `PublishWalk.InputsCollideExactly` | crates/airpaste-agent/src/lib.rs:1480-1498 | files of two inputs collide if and only if base name and place below it agree |
| `PublishWalk.SameNameOverwrites` | crates/airpaste-agent/src/lib.rs:1480-1498 | two selected files of one name from different directories do collide |
| `TransferTheorems.StepKeepsInv` | crates/airpaste-agent/src/peer.rs:132-278 | every step of source and recipients keeps ownership, the recipients' progress and what is underway |
| `TransferTheorems.OneHolderPerIndex` | crates/airpaste-agent/src/peer.rs:132-278 | in every reachable state served and in-flight indexes are disjoint and exist, an in-flight index has exactly one unsettled holder, a served one exactly one job that consumed it |
| `TransferGrants.GrantStays` | crates/airpaste-agent/src/peer.rs:132-278 | from every reachable state, a grant stays with its paths, keys, source and expiry, and the clip bound last, while the clock is below its expiry, whatever is claimed, refused, settled or registered meanwhile |
| `TransferGrants.RegistrationLeavesGrants` | crates/airpaste-agent/src/peer.rs:61-88 | a registration leaves exactly the grants that are not expired, unchanged, and the new one with nothing served |
| `TransferGrants.GrantLivesItsTime` | crates/airpaste-agent/src/peer.rs:61-88 | a registered grant is there, as registered, until its lifetime has passed, and every claim after that is not found |
| `TransferTheorems.ClaimGrantedExactly` | crates/airpaste-agent/src/peer.rs:187-218 | in every reachable state an authorized in-time claim of an existing index is granted if and only if all earlier jobs for it were released |
| `TransferTheorems.CommittedAtMostOnceEver` | crates/airpaste-agent/src/peer.rs:198-208 | in every run each index of each token is committed at most once, late commits included |
| `TransferTheorems.NoClaimAfterCommit` | crates/airpaste-agent/src/peer.rs:187-208 | after a commit no claim of that index succeeds in any continuation |
| `TransferTheorems.EarlyReturnBlocksIndex` | crates/airpaste-agent/src/peer.rs:352-369 | a direct handler that fails between claim and stream blocks its index in every continuation |
| `TransferRetry.RetryableExactly` | crates/airpaste-agent/src/peer.rs:35-41 | in every reachable state with a live grant, an authorized claim of an existing index can still be granted without time passing if and only if no job for it was committed, was abandoned, holds it with everything emitted, or is about to open a missing or empty file |
| `TransferRetry.BlockedForGood` | crates/airpaste-agent/src/peer.rs:187-218 | an index that such a job blocks is never granted in any continuation, to any request, at any time |
| `TransferRetry.EarlyReturnHappens` | crates/airpaste-agent/src/peer.rs:352-369 | for every source, grant and authorized request there is a run of a registration, a claim and an early return after which the index cannot be claimed though the grant lives |
| `TransferRetry.EarlyReturnExample` | crates/airpaste-agent/src/peer.rs:352-369 | one such run with concrete values |
| `TransferTheorems.DeliveredIsServedOrAboutToBe` | crates/airpaste-agent/src/relay.rs:135-162 | an index in a recipient's map is served, or in flight with a holder that emitted everything and whose every next step keeps it held or commits it |
| `TransferTheorems.EmittedOnlyCommits` | crates/airpaste-agent/src/relay.rs:151-162 | a holder that has emitted everything can only stay or commit |
| `TransferTheorems.DeliveredAtMostOnce` | crates/airpaste-agent/src/peer.rs:198-208 | no two sessions ever both hold the same index of one token |
| `TransferTheorems.DeliveredIsWhatWasEmitted` | crates/airpaste-agent/src/relay.rs:316-344 | what is saved for an index is what the source emitted for that index, and it passed its own entry's checks; `TransferFiles.DeliveredIsTheFile` adds that this is the file |
| `TransferFiles.DeliveredIsTheFile` | crates/airpaste-agent/src/peer.rs:187-196 | what is saved for an index is the content of the file at the path the grant lists there, byte for byte if that file keeps still |
| `TransferFiles.PublishedSelectionArrives` | crates/airpaste-agent/src/lib.rs:1526-1639 | a session that finishes on a published manifest holds exactly the selected files, each with its own content |
| `TransferFiles.PublishedAcceptsOriginal` | crates/airpaste-agent/src/lib.rs:1577-1596 | the recipient of a published manifest accepts for an entry, by either transport, exactly the content that was sized and hashed |
| `TransferFiles.PublishedContentArrives` | crates/airpaste-agent/src/lib.rs:1526-1639 | a session that finishes on a published manifest holds exactly the content that was sized and hashed at publication, also of files that changed since |
| `TransferTheorems.FinishedIsComplete` | crates/airpaste-agent/src/lib.rs:2720-2768 | a session that finishes by whatever path holds exactly the manifest's regular files |
| `TransferTheorems.NeverAskedAgain` | crates/airpaste-agent/src/relay.rs:255-258 | once saved, an index is never requested again in any continuation |
| `TransferTheorems.OneRequestOutstanding` | crates/airpaste-agent/src/relay.rs:282-317 | on a relayed connection at most one request is outstanding, and every frame underway belongs to the awaited index |
| `TransferTheorems.SessionReadsAsReceiver` | crates/airpaste-agent/src/relay.rs:361-397 | a session of the step system reads every frame as the receiving loops do |
| `TransferSteps.RequestIsAnswered` | crates/airpaste-agent/src/relay.rs:109-133 | a request is taken off the connection; a refused one is answered with an error and starts nothing |
| `TransferSteps.TaskWorkExactly` | crates/airpaste-agent/src/relay.rs:126-149 | a file is prepared and its frames go out one by one, without touching the grant |
| `TransferSteps.TaskEndExactly` | crates/airpaste-agent/src/relay.rs:150-175 | a file that cannot be read or sent gives its reservation back, the first with an error as answer, the second ending the task; only after the last frame is the index consumed |
| `TransferSteps.DirectClaimIsAnswered` | crates/airpaste-agent/src/peer.rs:328-378 | a granted direct claim starts a job that its session reads from, a refused one starts nothing |
| `TransferSteps.DirectStepExactly` | crates/airpaste-agent/src/peer.rs:238-278 | a stream that is gone consumes its index if and only if it yielded at least the announced length, and gives it back otherwise |
| `TransferSteps.OutcomeIsFinal` | crates/airpaste-agent/src/lib.rs:2720-2781 | once finished or failed, a session never changes its outcome or what it holds |
| `TransferSteps.SessionStepExactly` | crates/airpaste-agent/src/lib.rs:2720-2766 | how sessions ask, give up, fall back and lose their connection |
| `TransferProgress.MissingFileCanBePulled` | crates/airpaste-agent/src/relay.rs:282-356 | from every reachable state a missing file whose claim is open and whose file can be read can be pulled through an intact relay; exactly what the source reads at the granted path is saved, and its index is then committed |
| `TransferProgress.AllMissingCanBePulled` | crates/airpaste-agent/src/relay.rs:255-359 | all missing files can be pulled one after the other |
| `TransferProgress.FallbackCanComplete` | crates/airpaste-agent/src/lib.rs:2736-2766 | a direct download that breaks off anywhere, even inside a file the source still holds for it, has a run over the relay that completes it without time passing and keeps what was saved, provided no job blocks a missing file |
| `TransferProgress.FallbackCompletesExactly` | crates/airpaste-agent/src/lib.rs:2736-2766 | with entitled requests and readable files, a session that has fallen back can finish if and only if no missing file is blocked |
| `TransferProgress.BlockedNeverArrives` | crates/airpaste-agent/src/lib.rs:2736-2766 | a blocked file never reaches a session that has fallen back, in any continuation |
| `TransferProgress.FreshGrantIsOpen` | crates/airpaste-agent/src/peer.rs:61-88 | right after registration every index can be claimed, by exactly the authorized requests |
| `SealedTransfer.PreparedFileOpens` | crates/airpaste-agent/src/relay.rs:218-237 | what the source seals for a relay recipient, that recipient opens to exactly the file |
| `RelayPipe.RelayHub.Join` | crates/airpaste-server/src/relay.rs:57-79 | makes the room on first use, hands out the role's receiving end once, and the other side's sending end |
| `RelayPipe.ReadAll` | crates/airpaste-server/src/relay.rs:112-139 | the reading loop accepts what the message-by-message account says, and counts its bytes |
| `RelayPipe.AcceptedExactly` | crates/airpaste-server/src/relay.rs:112-139 | accepted are, in order, exactly the data frames before the first close, error or frame beyond the budget |
| `RelayPipe.AcceptedFits` | crates/airpaste-server/src/relay.rs:131-134 | accepted bytes never exceed the budget |
| `RelayPipe.LenExactly` | crates/airpaste-server/src/relay.rs:115-122 | text and binary frames both count their bytes |
| `RelayPipeInvariant.StepKeepsInv` | crates/airpaste-server/src/relay.rs:90-168 | every step, aborts and room removals included, keeps queues, senders, receivers and rooms consistent |
| `RelayPipeTheorems.DeliveredInOrder` | crates/airpaste-server/src/relay.rs:110-152 | frames written to a socket are an in-order prefix of what one connection of the opposite role and same session accepted, whatever is aborted and when |
| `RelayPipeTheorems.DeliveredWithinBudget` | crates/airpaste-server/src/relay.rs:131-134 | a socket never gets more bytes than the sender's budget |
| `RelayPipeTheorems.QueuesStayBounded` | crates/airpaste-server/src/relay.rs:14-16 | no queue ever exceeds 64 frames |
| `RelayPipeQueues.OpenExactly` | crates/airpaste-server/src/relay.rs:57-152 | a queue is open exactly while its receiving end exists, with a live writing task or still in its room, and a closed one holds nothing |
| `RelayPipeQueues.SendingExactly` | crates/airpaste-server/src/relay.rs:135-138 | a frame is queued exactly while the receiving end exists and the queue has room, and sending fails exactly once it is gone |
| `RelayPipeTheorems.NothingLost` | crates/airpaste-server/src/relay.rs:110-152 | while neither task has ended, written, held and queued frames make up exactly what was accepted |
| `RelayPipeTheorems.DrainedIsComplete` | crates/airpaste-server/src/relay.rs:142-152 | a writer that ends on an empty queue has written everything ever queued, and its senders are gone |
| `RelayPipeTheorems.HandedOutOnce` | crates/airpaste-server/src/relay.rs:69-78 | in any run no receiving end is handed out twice and no queue is fed by two connections |
| `RelayPipeTheorems.RefusedExactly` | crates/airpaste-server/src/relay.rs:56-79 | a join is refused if and only if a connection of that session and role that has not left holds the end of the present room |
| `RelayPipeTheorems.LeavingFreesEveryRole` | crates/airpaste-server/src/relay.rs:81-83 | when one peer leaves, a newcomer gets the role of the other while that one goes on |
| `RelayPipeTheorems.RoleTwicePerSession` | crates/airpaste-server/src/relay.rs:81-83 | a run in which two source connections of one session are live |
| `RelayPipeLink.StepIsLaneMove` | crates/airpaste-server/src/relay.rs:90-168 | every step of the pipe, for any two connections it joins, appends a frame the sender's reader accepted, takes the oldest frame, cuts from the tail for good, or changes nothing between them |
| `RelayPipeLink.LinkFollowsLane` | crates/airpaste-server/src/relay.rs:90-168 | each of these moves is, for the frames underway to a recipient, the corresponding step of the connection in the transfer system: sending, reading and the server's cut |
| `ClipboardEcho.ClipboardWatcher.Poll` | crates/airpaste-agent/src/lib.rs:1329-1367 | an undisturbed iteration publishes exactly fresh, untagged text that is not skipped, and records it as seen |
| `ClipboardEcho.StepKeepsInv` | crates/airpaste-agent/src/lib.rs:1329-1367 | every step keeps that published copies stay in the last-seen text and remote text is seen, tagged or about to be |
| `ClipboardEcho.CopyPublishedOnce` | crates/airpaste-agent/src/lib.rs:1329-1367 | under any interleaving no local copy is published twice, and its clip has its text and device |
| `ClipboardEcho.NoEcho` | crates/airpaste-agent/src/lib.rs:1329-1367 | in every run without the race, for any number of devices, automatically published clips inject into local copies: remote text is never republished |
| `ClipboardEcho.AtMostOneClipPerCopy` | crates/airpaste-agent/src/lib.rs:1329-1367 | in such runs polling publishes at most as many clips as users made copies |
| `ClipboardEcho.EchoExactly` | crates/airpaste-agent/src/lib.rs:1329-1351 | a remote text that a poll read is republished if and only if another text was tagged last before the decision, or its own tag had not landed |
| `ClipboardEcho.EchoHappens` | crates/airpaste-agent/src/lib.rs:2313-2314 | a run in which one copy is published twice because a poll falls between write and tag |
| `ClipboardEcho.PublishedExactly` | crates/airpaste-agent/src/lib.rs:1340-1362 | a text that a poll has read is published if and only if it passes policy and server and no unused tag holds it |
| `ClipboardEcho.TagsSuppressOnce` | crates/airpaste-agent/src/lib.rs:1340-1347 | every tag suppresses at most one decision: ignored decisions inject into the tags set before them |
| `ClipboardEcho.CopyIsReadExactly` | crates/airpaste-agent/src/lib.rs:1335-1338 | a local copy is read exactly if it has text other than what the poll decided about last |
| `ClipboardEcho.CopyCanBeSwallowed` | crates/airpaste-agent/src/lib.rs:1340-1351 | a run in which a local copy is never published because a tag was left behind |
| `TrustGraph.Store.RegisterDevice` | crates/airpaste-server/src/store.rs:60-78 | the new record has the given name and keys and is trusted if and only if the registry was empty |
| `TrustGraph.Store.TrustDevice` | crates/airpaste-server/src/store.rs:80-87 | a known device becomes trusted, an unknown one is an error and changes nothing |
| `TrustGraph.Store.RenameDevice` | crates/airpaste-server/src/store.rs:89-96 | changes the name only |
| `TrustGraph.Store.TouchDevice` | crates/airpaste-server/src/store.rs:102-109 | changes the last-seen time only |
| `TrustGraph.Store.StartPairing` | crates/airpaste-server/src/store.rs:115-130 | the lifetime asked for, ten minutes when none is, held between one minute and one hour |
| `TrustGraph.Store.ConfirmPairing` | crates/airpaste-server/src/store.rs:132-142 | succeeds if and only if the code is known and not past its expiry and the device is registered, whether or not it was confirmed before |
| `TrustGraph.OpenRoutes` | crates/airpaste-server/src/routes.rs:606-608 | exactly registration and confirmation pass unsigned, whatever the ids in the paths |
| `TrustGraph.StepTrust` | crates/airpaste-server/src/store.rs:60-142 | no step takes trust away, and only the device a step is about can gain it |
| `TrustGraph.GainsTrustExactly` | crates/airpaste-server/src/routes.rs:103-183 | exactly which requests make a device trusted: the first registration, an approval by a device that may call, a confirmation of a working code |
| `TrustGraph.MintsExactly` | crates/airpaste-server/src/routes.rs:149-169 | exactly when a code is minted, and in whose name |
| `TrustGraph.StepChangesDevice` | crates/airpaste-server/src/routes.rs:125-147 | a device's name changes only by an admitted renaming, trimmed and of 1 to 64 characters, its last-seen time only by being seen, its keys never |
| `TrustGraph.KeysNeverChange` | crates/airpaste-server/src/store.rs:60-109 | in every run a device keeps the keys it registered with |
| `TrustGraph.RenameWorksExactly` | crates/airpaste-server/src/routes.rs:125-147 | an admitted renaming to a name that fits takes effect, any other has none |
| `TrustGraph.ConfirmIsRecorded` | crates/airpaste-server/src/store.rs:132-142 | a working code remembers the last device it was confirmed for, known or not; an expired one changes nothing |
| `TrustGraph.TrustForest` | crates/airpaste-server/src/store.rs:60-142 | in every reachable state the one grant without a sponsor is the first registered device's, every other trusted device has a sponsor trusted strictly earlier, and a non-empty registry has a trusted device |
| `TrustGraph.EveryTrustLeadsToRoot` | crates/airpaste-server/src/routes.rs:103-183 | from every trusted device sponsors lead, ever earlier, to the first registered device |
| `TrustGraph.TrustNeverShrinks` | crates/airpaste-server/src/store.rs:60-142 | a trusted device stays trusted in every run |
| `TrustGraph.CodeWorksUntilExpiry` | crates/airpaste-server/src/store.rs:132-142 | a code that is not minted anew works exactly until its expiry, for any number of devices |
| `TrustGraph.PairedWithinTheHour` | crates/airpaste-server/src/store.rs:115-142 | a code minted by a trusted device works for at least a minute and at most an hour |
| `TrustGraph.StaleWriteLosesTrust` | crates/airpaste-server/src/store.rs:102-109 | writing back a record read earlier loses trust if and only if it was gained in between |
| `NonceCache.NonceCache.Record` | crates/airpaste-server/src/state.rs:129-139 | the answer and the purged and extended table |
| `NonceCache.EntriesAreLive` | crates/airpaste-server/src/state.rs:129-139 | the table holds exactly the accepted calls no later call outlived |
| `NonceCache.RefusedExactly` | crates/airpaste-server/src/state.rs:129-139 | for any order of times, a call is refused if and only if an accepted call of its key was outlived by none since |
| `NonceCache.RefinesUnboundedLog` | crates/airpaste-server/src/state.rs:129-139 | for ordered times, a call is refused if and only if its key was accepted less than the lifetime ago, despite purging |
| `NonceCache.NearlyRefinesLog` | crates/airpaste-server/src/state.rs:129-139 | for times out of order by at most a slack, a refusal has its reason, and a key is not accepted again before the lifetime less the slack |
| `NonceCache.ReorderedCallForgets` | crates/airpaste-server/src/state.rs:130-132 | out of order a replay within the lifetime is accepted |
| `RequestGate.VerifySignedRequest` | crates/airpaste-server/src/routes.rs:610-646 | succeeds if and only if the request can be read, is genuine and its nonce is fresh; the error is that of the first check that fails; only a genuine request uses up its nonce |
| `RequestGate.PassesExactly` | crates/airpaste-server/src/routes.rs:610-716 | a request passes the checks if and only if its body has the signed hash, its device is registered, trusted and has a key, its timestamp is within five minutes on either side, and that key's signature of exactly its fields verifies; a refusal names the first that fails |
| `RequestGate.LetThroughWasSigned` | crates/airpaste-server/src/routes.rs:663-699 | everything let through, in any run, was signed by the key then registered for its trusted device, over its own fields and body hash |
| `RequestGate.HonestRequestPasses` | crates/airpaste-agent/src/client.rs:419-448 | what a trusted device signs is read back field by field and passes every check in time |
| `RequestGate.ReadRequest` | crates/airpaste-server/src/routes.rs:727-760 | a body that cannot be read, a missing algorithm, an unsupported one, then the first missing header are the errors, in that order; otherwise the fields are the trimmed header values |
| `RequestGate.LetThroughApart` | crates/airpaste-server/src/state.rs:129-139 | a nonce let through twice was let through at least a window apart, less what recordings can be out of order |
| `RequestGate.LetThroughAtMostOnce` | crates/airpaste-server/src/routes.rs:701-716 | a request whose timestamp precedes its first acceptance by more than the handling delay and what recordings can be out of order passes at most once in any run |
| `RequestGate.RepeatedAfterWindow` | crates/airpaste-server/src/routes.rs:701-716 | repeated one window later the same request passes if and only if its timestamp is not before its first acceptance |
| `RequestGate.SignedMessageFixesRequest` | crates/airpaste-server/src/routes.rs:663-699 | requests that pass with one signed message agree in device, path, timestamp, nonce, verb up to case and body hash |
| `RequestGate.BodyHashFixesDigest` | crates/airpaste-protocol/src/api.rs:16-18 | bodies have the same hash text if and only if their digests are equal |
| `SigningMessages.ParseUndoesRestMessage` | crates/airpaste-protocol/src/api.rs:20-37 | a message of newline-free fields can be parsed back |
| `SigningMessages.RestMessageUnambiguous` | crates/airpaste-protocol/src/api.rs:20-37 | equal messages if and only if equal fields, the verb up to ASCII case |
| `SigningMessages.NewlineMakesRestAmbiguous` | crates/airpaste-protocol/src/api.rs:20-37 | with newlines in fields different requests share a message |
| `SigningMessages.ParseUndoesPeerFileMessage` | crates/airpaste-agent/src/identity.rs:120-130 | a peer-file message of newline-free device ids and token and any clip id can be parsed back, the index from its decimal digits |
| `SigningMessages.PeerFileMessageUnambiguous` | crates/airpaste-agent/src/identity.rs:120-130 | equal peer-file messages if and only if equal ids, token and index, even where clip ids hold newlines |
| `SigningMessages.MessageKindsDisjoint` | crates/airpaste-agent/src/identity.rs:120-130 | no request message is a peer-file message |
| `SigningMessages.RestMessageText` | crates/airpaste-protocol/src/api.rs:20-37 | the text of a request message, line by line |
| `SigningMessages.PeerFileMessageText` | crates/airpaste-agent/src/identity.rs:120-130 | the text of a peer-file message, line by line |
| `Base64Url.Base64UrlNoPad` | crates/airpaste-protocol/src/api.rs:39-64 | the three-byte loop with its remainder computes the encoding |
| `Base64Url.EncodeMeans` | crates/airpaste-protocol/src/api.rs:39-64 | ceil(4n/3) symbols, all URL-safe, whose base-64 number is the bytes' base-256 number padded with zero bits |
| `Base64Url.EncodeIsOnly` | crates/airpaste-protocol/src/api.rs:39-64 | length, alphabet and number determine the output |
| `Base64Url.DecodeUndoesEncode` | crates/airpaste-protocol/src/api.rs:39-64 | for every byte string decoding undoes encoding |
| `Base64Url.EncodeInjective` | crates/airpaste-protocol/src/api.rs:39-64 | different bytes have different encodings |
| `Base64Url.KnownAnswers` | crates/airpaste-protocol/src/api.rs:39-64 | test vectors of section 10 of RFC 4648, and one of the URL-safe symbols |
| `Luhn.LuhnValid` | crates/airpaste-agent/src/lib.rs:1796-1811 | the reverse doubling loop decides the positional checksum of ISO/IEC 7812-1, Annex B |
| `Luhn.OneDigitFits` | crates/airpaste-agent/src/lib.rs:1796-1811 | at every position of every digit string exactly one digit makes it valid |
| `Luhn.WrongDigitNoticed` | crates/airpaste-agent/src/lib.rs:1796-1811 | changing one digit of a valid string makes it invalid, at any length |
| `Luhn.SwapNoticedExactly` | crates/airpaste-agent/src/lib.rs:1796-1811 | swapping two different neighbours of a valid string keeps it valid if and only if they are 0 and 9 |
| `Luhn.ShortNumbers` | crates/airpaste-agent/src/lib.rs:1796-1811 | the last digit counts as it is, the one before it doubled |
| `Luhn.ZeroInFront` | crates/airpaste-agent/src/lib.rs:1796-1811 | positions are counted from the right: a zero in front changes nothing |
| `Luhn.CreditCardDigitsMatch` | crates/airpaste-agent/src/lib.rs:1792-1794 | 13 to 19 digits that pass the check |
| `Luhn.ContainsCreditCardLikeNumber` | crates/airpaste-agent/src/lib.rs:1774-1790 | true if and only if some maximal run of digits, spaces and hyphens has 13 to 19 digits that pass the check |
| `SealOpen.WrapInfoBindsKeys` | crates/airpaste-crypto/src/lib.rs:229-243 | a wrapping key is derived from an input that determines both public keys: different pairs have different inputs |
| `SealOpen.SealBytes` | crates/airpaste-crypto/src/lib.rs:97-151 | the loop over recipients computes the sealed body, or the first failing recipient's error |
| `SealOpen.SealSucceedsExactly` | crates/airpaste-crypto/src/lib.rs:97-151 | sealing succeeds if and only if there are recipients, the body is not too long and every key decodes to 32 bytes; then one wrapped key per recipient, in order |
| `SealOpen.SealFailsExactly` | crates/airpaste-crypto/src/lib.rs:97-151 | why sealing fails: no recipients, a body that is too long, or the first listed key that is not base64 or not 32 bytes |
| `SealOpen.UnwrapUndoesWrap` | crates/airpaste-crypto/src/lib.rs:119-144 | the holder of the matching secret recovers the content key |
| `SealOpen.OpenUndoesSeal` | crates/airpaste-crypto/src/lib.rs:164-207 | every listed recipient whose secret matches its key opens to exactly the plaintext |
| `SealOpen.UnlistedHasNoKey` | crates/airpaste-crypto/src/lib.rs:171-174 | a device that is not listed gets the no-wrapped-key error, whatever its secret |
| `SealOpen.OpenExactly` | crates/airpaste-crypto/src/lib.rs:164-207 | why opening fails: no key for the device, what unwrapping its first key reports, a nonce of the wrong length, a body that does not decrypt |
| `SealOpen.UnwrapExactly` | crates/airpaste-crypto/src/lib.rs:176-207 | why unwrapping fails, in the order the fields are used |

## Left out

- HTTP, websockets, mDNS, the database engine, the file system, the system clipboard, hotkeys, paste simulation and the whole tray crate: effects outside the model; what they answer is a parameter or an event.
- Secrecy and unforgeability: only the functional laws of the cryptographic primitives are used.
- The other text filters, timeouts, reconnect backoff, toasts, transfer progress display and configuration: they keep no state that the protocols above depend on.
- The simple-device inbox and clip storage with its expiry: independent of the protocols above.
- "Served implies delivered": there is no acknowledgement from the recipient, so it is not true and not stated.
- "Every local copy is published": it is false (`ClipboardEcho.CopyCanBeSwallowed`); `ClipboardEcho.PublishedExactly` and `ClipboardEcho.CopyIsReadExactly` say which are.
- Switching between isolated and system mode while running, and restarting the clipboard loop: the echo model has system mode and one start.
- File clipboard echo: the file branch of the polling loop is not modelled beyond ending an iteration.
- Progress of the direct path, and termination under fairness: the existence of completing runs is proved for the relay, not that every run completes.
- Relay tasks that are dropped when the runtime shuts down while they hold a reservation.
- TrustGraph.Store.TouchDevice: reading and writing back are one step, although the code uses two transactions; `TrustGraph.StaleWriteLosesTrust` says what the difference can do.
- TrustGraph.Store.RegisterDevice: two first registrations that both see an empty registry would both be trusted; the emptiness test and the write are one step here.
- RelayPipe.ReadAll: the byte count is unbounded, where the code's 64-bit counter would wrap; it describes a peer queue that never refuses, the step system covers refusals.
- Luhn.LuhnValid: the sum is unbounded, where the code's 32-bit sum would overflow on strings of hundreds of millions of digits; callers pass at most 19.
- RequestGate.VerifySignedRequest: one clock stands for both the wall clock of the timestamp check and the monotonic clock of the nonce cache; undecodable keys and signatures count as signatures that do not verify.
- Manifest.PublishFileManifest: hashing and sizing read an unchanging disk; a file that changes between announcement and transfer is a changing file of the transfer system, whose content the receiver's checks judge. A lifetime that durations or times cannot represent makes the code panic; that is an error outcome here.
- Recipient.DownloadViaRelay: what a write that fails leaves at the destination; the transfer then fails as a whole, and the disk is described for successful ones.
- CacheDisk.AllIntactExactly: paths are compared as text, so file systems that fold case or normalise names can join places that differ here; removing a temporary file succeeds.
- RelayPipeLink.LinkFollowsLane: the requests to the source, of which at most one is underway, are not related to the pipe's other direction.
- PublishWalk.WalkPublishDir: names are Unicode strings compared by code point; names that are not valid Unicode are not modelled.
