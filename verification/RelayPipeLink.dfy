/** The relay pipe behaves as the transfer system's connection: one direction is a first-in first-out
    lane that, once cut, may lose what is underway from the tail and takes nothing more. */
module RelayPipeLink {
  import opened Wrappers
  import opened RelayPipe
  import opened RelayPipeInvariant
  import RelayFrames
  import TransferSystem

  /** Two connections that a queue joins, from the sender `s` to the receiver `r`. */
  ghost predicate Paired(p: Pipe, s: nat, r: nat) {
    && s in p.conns && r in p.conns
    && p.conns[s].ends.outbox == p.conns[r].ends.inbox
    && p.conns[r].ends.inbox in p.queues
  }

  /** What one direction consists of: the sender's reading task, the queue, the receiver's writing task. */
  datatype Way = Way(reader: Task, frames: seq<Frame>, writer: Task)

  function WayOf(p: Pipe, s: nat, r: nat): Way
    requires Paired(p, s, r)
  {
    Way(p.conns[s].reader, p.queues[p.conns[r].ends.inbox].frames, p.conns[r].writer)
  }

  /** `frames` can still arrive, oldest first; after a cut nothing is added. */
  datatype Lane = Lane(frames: seq<Frame>, cut: bool)

  function LaneOf(w: Way): Lane {
    Lane(if w.writer.Done? then [] else Held(w.writer) + w.frames + Held(w.reader), w.reader.Done? || w.writer.Done?)
  }

  datatype LaneMove = Stay | Send(frame: Frame) | Take(frame: Frame) | CutTo(keep: nat)

  predicate CanMove(l: Lane, m: LaneMove) {
    match m
    case Stay => true
    case Send(_) => !l.cut
    case Take(f) => l.frames != [] && l.frames[0] == f
    case CutTo(keep) => keep <= |l.frames|
  }

  function Moved(l: Lane, m: LaneMove): Lane
    requires CanMove(l, m)
  {
    match m
    case Stay => l
    case Send(f) => l.(frames := l.frames + [f])
    case Take(_) => l.(frames := l.frames[1..])
    case CutTo(keep) => Lane(l.frames[..keep], true)
  }

  // ---------- one direction's own steps ----------

  predicate IsMove(w: Way, w': Way, m: LaneMove) {
    CanMove(LaneOf(w), m) && LaneOf(w') == Moved(LaneOf(w), m)
  }

  /** The reader gets a message: it goes on with a frame, goes on without, or ends. */
  lemma ReaderGets(w: Way, reader: Task) returns (m: LaneMove)
    requires w.reader.Ready?
    ensures IsMove(w, w.(reader := reader), m)
    ensures m == if reader.Done? then CutTo(|LaneOf(w).frames|)
                 else if reader.Holding? && !w.writer.Done? then Send(reader.frame) else Stay
  {
    var l := LaneOf(w);
    m := if reader.Done? then CutTo(|l.frames|)
         else if reader.Holding? && !w.writer.Done? then Send(reader.frame) else Stay;
    assert l.frames[..|l.frames|] == l.frames;
    if !w.writer.Done? {
      assert Held(w.writer) + w.frames + [] == Held(w.writer) + w.frames;
    }
  }

  lemma ReaderQueues(w: Way)
    requires w.reader.Holding?
    ensures IsMove(w, w.(reader := Ready, frames := w.frames + [w.reader.frame]), Stay)
  {
    assert Held(w.writer) + (w.frames + [w.reader.frame]) + [] == Held(w.writer) + w.frames + [w.reader.frame];
  }

  lemma ReaderEnds(w: Way) returns (m: LaneMove)
    ensures m.CutTo? && IsMove(w, w.(reader := Done), m)
  {
    if w.writer.Done? {
      m := CutTo(0);
    } else {
      var kept := Held(w.writer) + w.frames;
      m := CutTo(|kept|);
      assert kept + [] == kept && (kept + Held(w.reader))[..|kept|] == kept;
    }
  }

  lemma WriterPops(w: Way)
    requires w.writer.Ready? && w.frames != []
    ensures IsMove(w, w.(frames := w.frames[1..], writer := Holding(w.frames[0])), Stay)
  {
    assert [w.frames[0]] + w.frames[1..] + Held(w.reader) == [] + w.frames + Held(w.reader);
  }

  lemma WriterDelivers(w: Way)
    requires w.writer.Holding?
    ensures IsMove(w, w.(writer := Ready), Take(w.writer.frame))
  {
    assert ([w.writer.frame] + w.frames + Held(w.reader))[1..] == [] + w.frames + Held(w.reader);
  }

  lemma WriterEnds(w: Way)
    ensures IsMove(w, w.(frames := [], writer := Done), CutTo(0))
  {
  }

  // ---------- steps of the pipe ----------

  lemma WayAfter(p: Pipe, conn: nat, c: Conn, queue: nat, q: Queue, s: nat, r: nat)
    requires Paired(p, s, r) && conn in p.conns && SameEnds(c, p.conns[conn]) && queue in p.queues
    ensures Paired(With(p, conn, c, queue, q), s, r)
    ensures var w := WayOf(p, s, r);
            WayOf(With(p, conn, c, queue, q), s, r)
            == Way(if conn == s then c.reader else w.reader,
                   if queue == p.conns[r].ends.inbox then q.frames else w.frames,
                   if conn == r then c.writer else w.writer)
  {
  }

  lemma ConnAfter(p: Pipe, conn: nat, c: Conn, s: nat, r: nat)
    requires Paired(p, s, r) && conn in p.conns && SameEnds(c, p.conns[conn])
    ensures Paired(WithConn(p, conn, c), s, r)
    ensures var w := WayOf(p, s, r);
            WayOf(WithConn(p, conn, c), s, r)
            == Way(if conn == s then c.reader else w.reader, w.frames, if conn == r then c.writer else w.writer)
  {
  }

  /** A sender and a receiver of one queue are two connections, and no third has an end of it. */
  ghost predicate Alone(p: Pipe, s: nat, r: nat) {
    && Paired(p, s, r) && s != r
    && (forall c :: c in p.conns && c != r ==> p.conns[c].ends.inbox != p.conns[r].ends.inbox)
    && (forall c :: c in p.conns && c != s ==> p.conns[c].ends.outbox != p.conns[s].ends.outbox)
    && (forall c :: c in p.conns ==> p.conns[c].ends.inbox != p.conns[c].ends.outbox)
  }

  lemma PairedAlone(p: Pipe, s: nat, r: nat)
    requires Inv(p) && Paired(p, s, r)
    ensures Alone(p, s, r)
  {
    forall c | c in p.conns ensures p.conns[c].ends.inbox != p.conns[c].ends.outbox {
      assert SenderOk(p.conns[c], p.queues) && ReceiverOk(p.conns[c], p.queues);
    }
  }

  /** The step leaves the direction alone, or is one of its moves. */
  ghost predicate MovesLane(p: Pipe, n: Pipe, s: nat, r: nat, m: LaneMove) {
    Paired(p, s, r) && Paired(n, s, r) && IsMove(WayOf(p, s, r), WayOf(n, s, r), m)
  }

  lemma ReaderStepMoves(p: Pipe, e: Event, s: nat, r: nat) returns (m: LaneMove)
    requires Alone(p, s, r) && Enabled(p, e) && (e.Receive? || e.Enqueue? || e.EnqueueFails? || e.StopReader?)
    ensures MovesLane(p, Next(p, e), s, r, m) && !m.Take?
    ensures m.Send? ==> e.Receive? && e.conn == s && e.message == Data(m.frame)
  {
    var c, w := p.conns[e.conn], WayOf(p, s, r);
    m := Stay;
    if e.Receive? {
      var c' := ReceiveConn(c, e.message);
      ConnAfter(p, e.conn, c', s, r);
      if e.conn == s {
        m := ReaderGets(w, c'.reader);
      }
    } else if e.Enqueue? {
      WayAfter(p, e.conn, c.(reader := Ready), c.ends.outbox, Pushed(p.queues[c.ends.outbox], c.reader.frame), s, r);
      if e.conn == s {
        ReaderQueues(w);
      }
    } else {
      ConnAfter(p, e.conn, c.(reader := Done), s, r);
      if e.conn == s {
        m := ReaderEnds(w);
      }
    }
  }

  lemma WriterStepMoves(p: Pipe, e: Event, s: nat, r: nat) returns (m: LaneMove)
    requires Alone(p, s, r) && Enabled(p, e) && (e.Dequeue? || e.Deliver? || e.DrainEnds? || e.StopWriter?)
    ensures MovesLane(p, Next(p, e), s, r, m) && !m.Send?
    ensures m.Take? <==> e.Deliver? && e.conn == r
  {
    var c, w := p.conns[e.conn], WayOf(p, s, r);
    m := Stay;
    if e.Dequeue? {
      var q := p.queues[c.ends.inbox];
      WayAfter(p, e.conn, c.(writer := Holding(q.frames[0])), c.ends.inbox, Popped(q), s, r);
      if e.conn == r {
        WriterPops(w);
      }
    } else if e.Deliver? {
      ConnAfter(p, e.conn, c.(delivered := c.delivered + [c.writer.frame], writer := Ready), s, r);
      if e.conn == r {
        WriterDelivers(w);
        m := Take(c.writer.frame);
      }
    } else {
      WayAfter(p, e.conn, c.(writer := Done), c.ends.inbox, Closed(p.queues[c.ends.inbox]), s, r);
      if e.conn == r {
        WriterEnds(w);
        m := CutTo(0);
      }
    }
  }

  lemma JoinStays(p: Pipe, conn: nat, session: string, role: Role, maxBytes: nat, s: nat, r: nat)
    requires p.conns.Keys !! {conn} && Paired(p, s, r) && p.conns[r].ends.inbox < p.hub.nextQueue
    ensures MovesLane(p, JoinPipe(p, conn, session, role, maxBytes), s, r, Stay)
  {
    var n := JoinPipe(p, conn, session, role, maxBytes);
    assert n.conns[s] == p.conns[s] && n.conns[r] == p.conns[r];
    assert n.queues[p.conns[r].ends.inbox] == p.queues[p.conns[r].ends.inbox];
  }

  /** Joining and leaving do not touch a direction that both sides have joined. */
  lemma RoomStepStays(p: Pipe, e: Event, s: nat, r: nat)
    requires QueuesOk(p) && RoomsOk(p) && Alone(p, s, r) && Enabled(p, e) && (e.Join? || e.Leave?)
    ensures MovesLane(p, Next(p, e), s, r, Stay)
  {
    if e.Leave? {
      LeaveStays(p, e.conn, s, r);
    } else {
      JoinStays(p, e.conn, e.session, e.role, e.maxBytes, s, r);
    }
  }

  lemma LeaveStays(p: Pipe, conn: nat, s: nat, r: nat)
    requires RoomsOk(p) && Alone(p, s, r) && conn in p.conns
    ensures MovesLane(p, LeavePipe(p, conn), s, r, Stay)
  {
    var session := p.conns[conn].session;
    if session in p.hub.rooms {
      assert RoomOk(session, p.hub.rooms[session], p);
    }
  }

  /** Every step of the pipe is a move of the lane between any two connections it joins: a frame the
      reader accepts is sent, a frame written to the socket is taken, and an end cuts. */
  lemma StepIsLaneMove(p: Pipe, e: Event, s: nat, r: nat) returns (m: LaneMove)
    requires Reachable(p) && Enabled(p, e) && Paired(p, s, r)
    ensures MovesLane(p, Next(p, e), s, r, m)
    ensures m.Send? ==> e.Receive? && e.conn == s && e.message == Data(m.frame)
    ensures m.Take? <==> e.Deliver? && e.conn == r
  {
    ReachableInv(p);
    PairedAlone(p, s, r);
    if e.Join? || e.Leave? {
      RoomStepStays(p, e, s, r);
      m := Stay;
    } else if e.Receive? || e.Enqueue? || e.EnqueueFails? || e.StopReader? {
      m := ReaderStepMoves(p, e, s, r);
    } else {
      m := WriterStepMoves(p, e, s, r);
    }
  }

  // ---------- the transfer system's connection is such a lane ----------

  function Messages(frames: seq<Frame>, parse: Frame -> RelayFrames.Message): seq<RelayFrames.Message> {
    seq(|frames|, k requires 0 <= k < |frames| => parse(frames[k]))
  }

  predicate Shows(l: TransferSystem.Link, lane: Lane, parse: Frame -> RelayFrames.Message) {
    l.toRecipient == Messages(lane.frames, parse) && l.cut == lane.cut
  }

  /** A connection that shows a lane shows it after every move: sending is a push, taking is what the
      recipient's reading takes off, and cutting is the server's cut. */
  lemma LinkFollowsLane(l: TransferSystem.Link, lane: Lane, m: LaneMove, parse: Frame -> RelayFrames.Message,
                        env: TransferSystem.Env, r: TransferSystem.Session)
    requires Shows(l, lane, parse) && CanMove(lane, m) && r.link == l && !TransferSystem.IsDirect(r.phase)
    ensures m.Send? ==> Shows(TransferSystem.Push(l, parse(m.frame)), Moved(lane, m), parse)
    ensures m.Take? ==>
              && l.toRecipient != [] && l.toRecipient[0] == parse(m.frame)
              && Shows(TransferSystem.AfterReading(r).link, Moved(lane, m), parse)
    ensures m.CutTo? ==>
              && TransferSystem.SessionEnabled(env, r, map[], TransferSystem.ServerCuts(m.keep))
              && Shows(TransferSystem.SessionNext(env, r, map[], TransferSystem.ServerCuts(m.keep)).link,
                       Moved(lane, m), parse)
  {
  }
}
