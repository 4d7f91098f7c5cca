/** The file transfer as a step system: the source's registry with everything that holds a
    reservation in it, and any number of recipients pulling files directly, through the relay, or
    directly and then through the relay. Each event is one atomic step; any order of enabled events
    is a run (crates/airpaste-agent/src/peer.rs, relay.rs and lib.rs). */
module TransferSystem {
  import opened Wrappers
  import opened PeerRegistry
  import opened RelayFrames
  import opened Manifest
  import opened Recipient

  /** What the source's disk has at a path: a regular file that keeps its content throughout the run,
      no regular file throughout, or something that changes, of which any read may return anything. */
  datatype File = Fixed(content: Bytes) | Absent | Changing

  /** Signature verification, decryption with the recipient's key, SHA-256 as hex, the source's disk. */
  datatype Env = Env(
    verify: VerifyFn, open: (Head, Bytes) -> Option<Bytes>, digest: Bytes -> string, file: Path -> File)

  // ---------- what holds a reservation ----------

  /** What a granted claim is doing: a direct handler before its stream exists, its stream, a relay
      task reading and sealing, a relay task sending. */
  datatype Work =
    | DirectClaimed
    | Streaming(len: nat, yielded: Bytes)
    | RelayClaimed
    | Relaying(content: Bytes, sealed: Sealed, sent: nat)

  /** `Abandoned` is a direct handler that returned between claim and stream: it never settles. */
  datatype Fate = Holding | Abandoned | Committed | Released

  /** `path` is what the claim returned; `owner` is the recipient session the answer goes to, None when
      nobody listens any more. */
  datatype Job = Job(token: Token, index: nat, path: Path, owner: Option<nat>, work: Work, fate: Fate)

  function Frames(j: Job): seq<Message>
    requires j.work.Relaying?
  {
    FileMessages(j.index, |j.work.content|, j.work.sealed)
  }

  // ---------- recipients ----------

  datatype Phase =
    | DirectNext | DirectAsked(index: nat) | DirectReading(index: nat, job: nat, got: Bytes)
    | RelayNext | RelayHead(index: nat) | RelayBody(index: nat, head: Head, got: Bytes)
    | Finished | Failed

  datatype Source = Idle | Busy(job: nat) | Gone

  /** The relayed connection of one session: both directions, and the serving task. `received` and
      `answering` record, for the outstanding request, the frames read and the job serving it. */
  datatype Link = Link(
    toSource: seq<Message>, toRecipient: seq<Message>, cut: bool, source: Source,
    received: seq<Message>, answering: Option<nat>)

  datatype Delivery = Delivery(job: nat, content: Bytes, how: Transport)

  datatype Session = Session(
    token: Token, files: seq<FileEntry>, todo: seq<nat>, phase: Phase, downloaded: map<nat, Delivery>, link: Link)

  /** `granted` records the paths of every token ever issued. */
  datatype State = State(
    clock: nat, table: Table, granted: map<Token, seq<Path>>, jobs: map<nat, Job>, sessions: map<nat, Session>)

  const FRESH_LINK := Link([], [], false, Idle, [], None)

  const START := State(0, map[], map[], map[], map[])

  // ---------- events ----------

  /** What a direct job does: its handler returns early or opens the stream; the stream yields bytes,
      and ends or is dropped. */
  datatype DirectMove = HandlerFails | OpenStream(len: nat) | Yields(bytes: Bytes) | StreamGone

  /** What happens at the recipient's end of a session. `ServerCuts` drops the relayed connection:
      requests and frames still in it may be lost, frames from the tail. */
  datatype SessionMove =
    | AskDirect | ReadDirect(upTo: nat) | SaveDirect | GiveUpDirect
    | AskRelay(request: Request) | ReadRelay | FinishLoop | GiveUp
    | SourceLeaves | ServerCuts(keep: nat)

  /** What the serving task of a session does with the job it works on. */
  datatype ServeMove = Prepare(content: Bytes, sealed: Sealed) | PrepareFails | SendFrame | SendFails | CommitSent

  /** `d` is the time between the two clock readings of a claim or registration. */
  datatype Event =
    | Tick(d: nat)
    | Register(token: Token, clipId: Option<string>, sourceId: string, keys: map<string, string>, paths: seq<Path>,
               ttl: nat, d: nat)
    | Bind(token: Token, boundTo: string)
    | DirectClaim(job: nat, token: Token, index: nat, request: Request, d: nat, owner: Option<nat>)
    | Direct(job: nat, directMove: DirectMove)
    | StartSession(sid: nat, token: Token, files: seq<FileEntry>, preferRelay: bool)
    | AtSession(sid: nat, sessionMove: SessionMove)
    | TakeRequest(sid: nat, job: nat, d: nat)
    | Serve(sid: nat, serveMove: ServeMove)

  function RequestOf(m: Message): Option<(Token, nat, Request)> {
    if m.Text? && m.control.Some? && m.control.value.FileRequest?
    then Some((m.control.value.token, m.control.value.index, m.control.value.request)) else None
  }

  const REJECTED: Message := Text(Some(Error("rejected")))

  /** A send on the source's socket: it succeeds, but after a cut the frame goes nowhere. */
  function Push(l: Link, m: Message): Link {
    if l.cut then l else l.(toRecipient := l.toRecipient + [m])
  }

  predicate IsDirect(p: Phase) {
    p.DirectNext? || p.DirectAsked? || p.DirectReading?
  }

  predicate IsWaiting(p: Phase) {
    p.RelayHead? || p.RelayBody?
  }

  // ---------- the direct jobs ----------

  predicate DirectEnabled(j: Job, m: DirectMove) {
    && j.fate.Holding?
    && match m
       case HandlerFails => j.work.DirectClaimed?
       case OpenStream(_) => j.work.DirectClaimed?
       case Yields(_) => j.work.Streaming?
       case StreamGone => j.work.Streaming?
  }

  /** What reading the disk allows: the length announced is the file's, bytes are yielded in order. */
  predicate DirectReads(env: Env, j: Job, m: DirectMove)
    requires DirectEnabled(j, m)
  {
    var f := env.file(j.path);
    match m
    case OpenStream(len) => !f.Absent? && (f.Fixed? ==> len == |f.content|)
    case Yields(bytes) => !f.Absent? && (f.Fixed? ==> j.work.yielded + bytes <= f.content)
    case _ => true
  }

  /** The stream's own settling rule, applied to what it has yielded. */
  function StreamSettlement(j: Job): seq<Settlement>
    requires j.work.Streaming?
  {
    Settle(StreamState(SaturatingSub(j.work.len, |j.work.yielded|), false)).1
  }

  function DirectJob(j: Job, m: DirectMove): Job
    requires DirectEnabled(j, m)
  {
    match m
    case HandlerFails => j.(fate := Abandoned)
    case OpenStream(len) => j.(work := Streaming(len, []))
    case Yields(bytes) => j.(work := Streaming(j.work.len, j.work.yielded + bytes))
    case StreamGone => j.(fate := if StreamSettlement(j) == [Commit] then Committed else Released)
  }

  function DirectTable(t: Table, j: Job, m: DirectMove): Table
    requires DirectEnabled(j, m)
  {
    if m.StreamGone? then SettleTable(t, j.token, j.index, StreamSettlement(j)) else t
  }

  // ---------- the sessions ----------

  /** The recipient reads one frame: waiting for the header of its index, or gathering the body. */
  function ReadFrame(env: Env, r: Session, m: Message): Session {
    match r.phase
    case RelayHead(index) => (
      match m
      case Text(Some(FileHeader(i, _, head))) => if i == index then r.(phase := RelayBody(index, head, [])) else r
      case Text(None) => r.(phase := Failed)
      case Text(Some(Error(_))) => r.(phase := Failed)
      case Close => r.(phase := Failed)
      case _ => r)
    case RelayBody(index, head, got) => (
      match m
      case Binary(bytes) => r.(phase := RelayBody(index, head, got + bytes))
      case Text(Some(FileEnd(_))) => EndOfFile(env, r, index, env.open(head, got))
      case Text(None) => r.(phase := Failed)
      case Text(Some(Error(_))) => r.(phase := Failed)
      case Close => r.(phase := Failed)
      case _ => r)
    case _ => r
  }

  function EndOfFile(env: Env, r: Session, index: nat, content: Option<Bytes>): Session {
    if content.None? || index >= |r.files| || !Verified(r.files[index], content.value, env.digest, Transport.Relay)
       || r.link.answering.None?
    then r.(phase := Failed)
    else r.(downloaded := r.downloaded[index := Delivery(r.link.answering.value, content.value, Transport.Relay)],
            phase := RelayNext,
            link := r.link.(received := [], answering := None))
  }

  function AfterReading(r: Session): Session
    requires r.link.toRecipient != []
  {
    r.(link := r.link.(toRecipient := r.link.toRecipient[1..], received := r.link.received + [r.link.toRecipient[0]]))
  }

  predicate SessionEnabled(env: Env, r: Session, jobs: map<nat, Job>, m: SessionMove) {
    match m
    case AskDirect => r.phase.DirectNext? && r.todo != []
    case ReadDirect(upTo) =>
      && r.phase.DirectReading? && r.phase.job in jobs && jobs[r.phase.job].work.Streaming?
      && |r.phase.got| <= upTo <= jobs[r.phase.job].work.len && upTo <= |jobs[r.phase.job].work.yielded|
    case SaveDirect =>
      && r.phase.DirectReading? && r.phase.job in jobs && jobs[r.phase.job].work.Streaming?
      && r.phase.index < |r.files|
      && |r.phase.got| == jobs[r.phase.job].work.len
      && Verified(r.files[r.phase.index], r.phase.got, env.digest, Transport.Direct)
    case GiveUpDirect => IsDirect(r.phase)
    case AskRelay(_) => r.phase.RelayNext? && r.todo != []
    case ReadRelay => IsWaiting(r.phase) && r.link.toRecipient != []
    case FinishLoop => (r.phase.DirectNext? || r.phase.RelayNext?) && r.todo == []
    case GiveUp => !r.phase.Finished?
    case SourceLeaves => r.link.source.Idle? && !IsDirect(r.phase)
    case ServerCuts(keep) => keep <= |r.link.toRecipient| && !IsDirect(r.phase)
  }

  function SessionNext(env: Env, r: Session, jobs: map<nat, Job>, m: SessionMove): Session
    requires SessionEnabled(env, r, jobs, m)
  {
    match m
    case AskDirect => r.(phase := DirectAsked(r.todo[0]), todo := r.todo[1..])
    case ReadDirect(upTo) => r.(phase := DirectReading(r.phase.index, r.phase.job,
                                                       jobs[r.phase.job].work.yielded[..upTo]))
    case SaveDirect =>
      r.(downloaded := r.downloaded[r.phase.index := Delivery(r.phase.job, r.phase.got, Transport.Direct)],
         phase := DirectNext)
    case GiveUpDirect => r.(phase := RelayNext, todo := MissingFileIndexes(r.files, r.downloaded.Keys))
    case AskRelay(request) =>
      r.(todo := r.todo[1..], phase := RelayHead(r.todo[0]), link := AskLink(r.link, r.token, r.todo[0], request))
    case ReadRelay => ReadFrame(env, AfterReading(r), r.link.toRecipient[0])
    case FinishLoop => r.(phase := Finished)
    case GiveUp => r.(phase := Failed)
    case SourceLeaves => r.(link := r.link.(source := Gone))
    case ServerCuts(keep) => r.(link := r.link.(cut := true, toSource := [], toRecipient := r.link.toRecipient[..keep]))
  }

  function AskLink(l: Link, token: Token, index: nat, request: Request): Link {
    l.(toSource := if l.cut then l.toSource else l.toSource + [Text(Some(FileRequest(token, index, request)))],
       received := [], answering := None)
  }

  // ---------- the serving tasks ----------

  predicate MoreFrames(j: Job) {
    j.work.Relaying? && j.work.sent < |Frames(j)|
  }

  predicate ServeEnabled(env: Env, j: Job, m: ServeMove) {
    match m
    case Prepare(content, sealed) => j.work.RelayClaimed? && env.open(sealed.head, sealed.ciphertext) == Some(content)
    case PrepareFails => j.work.RelayClaimed?
    case SendFrame => MoreFrames(j)
    case SendFails => MoreFrames(j)
    case CommitSent => j.work.Relaying? && !MoreFrames(j)
  }

  /** Reading the whole file can give that content. */
  predicate CanRead(f: File, content: Bytes) {
    !f.Absent? && (f.Fixed? ==> content == f.content)
  }

  predicate ServeReads(env: Env, j: Job, m: ServeMove) {
    m.Prepare? ==> CanRead(env.file(j.path), m.content)
  }

  function ServeJob(env: Env, j: Job, m: ServeMove): Job
    requires ServeEnabled(env, j, m)
  {
    match m
    case Prepare(content, sealed) => j.(work := Relaying(content, sealed, 0))
    case PrepareFails => j.(fate := Released)
    case SendFrame => j.(work := Relaying(j.work.content, j.work.sealed, j.work.sent + 1))
    case SendFails => j.(fate := Released)
    case CommitSent => j.(fate := Committed)
  }

  function ServeTable(t: Table, j: Job, m: ServeMove): Table {
    match m
    case PrepareFails => ReleaseTable(t, j.token, j.index)
    case SendFails => ReleaseTable(t, j.token, j.index)
    case CommitSent => CommitTable(t, j.token, j.index)
    case _ => t
  }

  function ServeLink(env: Env, l: Link, j: Job, m: ServeMove): Link
    requires ServeEnabled(env, j, m)
  {
    match m
    case Prepare(_, _) => l
    case PrepareFails => Push(l.(source := Idle), REJECTED)
    case SendFrame => Push(l, Frames(j)[j.work.sent])
    case SendFails => l.(source := Gone)
    case CommitSent => l.(source := Idle)
  }

  // ---------- steps ----------

  predicate Enabled(env: Env, s: State, e: Event) {
    match e
    case Tick(_) => true
    case Register(token, _, _, _, _, _, _) => token !in s.granted
    case Bind(_, _) => true
    case DirectClaim(job, token, index, _, _, owner) =>
      && job !in s.jobs
      && (owner.Some? ==> && owner.value in s.sessions
                          && s.sessions[owner.value].phase == DirectAsked(index)
                          && s.sessions[owner.value].token == token)
    case Direct(job, m) => job in s.jobs && DirectEnabled(s.jobs[job], m) && DirectReads(env, s.jobs[job], m)
    case StartSession(sid, _, _, _) => sid !in s.sessions
    case AtSession(sid, m) => sid in s.sessions && SessionEnabled(env, s.sessions[sid], s.jobs, m)
    case TakeRequest(sid, job, _) =>
      && sid in s.sessions && job !in s.jobs
      && s.sessions[sid].link.source.Idle? && s.sessions[sid].link.toSource != []
      && RequestOf(s.sessions[sid].link.toSource[0]).Some?
    case Serve(sid, m) =>
      && sid in s.sessions && s.sessions[sid].link.source.Busy? && s.sessions[sid].link.source.job in s.jobs
      && ServeEnabled(env, s.jobs[s.sessions[sid].link.source.job], m)
      && ServeReads(env, s.jobs[s.sessions[sid].link.source.job], m)
  }

  function Claimed(env: Env, s: State, token: Token, index: nat, request: Request, d: nat): (Claim, State) {
    (ClaimResult(s.table, token, index, request, s.clock, s.clock + d, env.verify),
     s.(clock := s.clock + d,
        table := ClaimTable(s.table, token, index, request, s.clock, s.clock + d, env.verify)))
  }

  function DirectClaimNext(env: Env, s: State, job: nat, token: Token, index: nat, request: Request, d: nat,
                           owner: Option<nat>): State
    requires owner.Some? ==> owner.value in s.sessions
  {
    var (claim, s1) := Claimed(env, s, token, index, request, d);
    if !claim.Available? then s1
    else
      var s2 := s1.(jobs := s.jobs[job := Job(token, index, claim.path, owner, DirectClaimed, Holding)]);
      if owner.None? then s2
      else s2.(sessions := s.sessions[owner.value := s.sessions[owner.value].(phase := DirectReading(index, job, []))])
  }

  function TakeRequestNext(env: Env, s: State, sid: nat, job: nat, d: nat): State
    requires sid in s.sessions && s.sessions[sid].link.toSource != []
    requires RequestOf(s.sessions[sid].link.toSource[0]).Some?
  {
    var r := s.sessions[sid];
    var (token, index, request) := RequestOf(r.link.toSource[0]).value;
    var (claim, s1) := Claimed(env, s, token, index, request, d);
    var l := r.link.(toSource := r.link.toSource[1..]);
    if claim.Available?
    then s1.(jobs := s.jobs[job := Job(token, index, claim.path, Some(sid), RelayClaimed, Holding)],
             sessions := s.sessions[sid := r.(link := l.(source := Busy(job), answering := Some(job)))])
    else s1.(sessions := s.sessions[sid := r.(link := Push(l, REJECTED))])
  }

  function StartedSession(token: Token, files: seq<FileEntry>, preferRelay: bool): Session {
    Session(token, files, MissingFileIndexes(files, {}),
            if preferRelay then RelayNext else DirectNext, map[], FRESH_LINK)
  }

  function Next(env: Env, s: State, e: Event): State
    requires Enabled(env, s, e)
  {
    match e
    case Tick(d) => s.(clock := s.clock + d)
    case Register(token, clipId, sourceId, keys, paths, ttl, d) =>
      s.(clock := s.clock + d, granted := s.granted[token := paths],
         table := Cleanup(s.table, s.clock)[token := FreshGrant(clipId, sourceId, keys, paths, s.clock + d + ttl)])
    case Bind(token, clipId) => s.(table := BindTable(s.table, token, clipId))
    case DirectClaim(job, token, index, request, d, owner) =>
      DirectClaimNext(env, s, job, token, index, request, d, owner)
    case Direct(job, m) =>
      s.(table := DirectTable(s.table, s.jobs[job], m), jobs := s.jobs[job := DirectJob(s.jobs[job], m)])
    case StartSession(sid, token, files, preferRelay) =>
      s.(sessions := s.sessions[sid := StartedSession(token, files, preferRelay)])
    case AtSession(sid, m) =>
      s.(sessions := s.sessions[sid := SessionNext(env, s.sessions[sid], s.jobs, m)])
    case TakeRequest(sid, job, d) => TakeRequestNext(env, s, sid, job, d)
    case Serve(sid, m) =>
      var r := s.sessions[sid];
      var j := s.jobs[r.link.source.job];
      s.(table := ServeTable(s.table, j, m),
         jobs := s.jobs[r.link.source.job := ServeJob(env, j, m)],
         sessions := s.sessions[sid := r.(link := ServeLink(env, r.link, j, m))])
  }

  // ---------- runs ----------

  /** The state a sequence of events leads to; None once an event is not enabled. */
  function Run(env: Env, s: State, es: seq<Event>): Option<State>
    decreases |es|
  {
    if es == [] then Some(s)
    else if !Enabled(env, s, es[0]) then None
    else Run(env, Next(env, s, es[0]), es[1..])
  }

  ghost predicate Reachable(env: Env, s: State) {
    exists es :: Run(env, START, es) == Some(s)
  }
}
