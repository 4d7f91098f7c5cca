/** The server's in-memory relay pipe (crates/airpaste-server/src/relay.rs): rooms with one bounded
    queue per direction, and for every connection a reading and a writing task that may be stopped
    at any moment. */
module RelayPipe {
  import opened Wrappers

  const RELAY_QUEUE_CAPACITY: nat := 64

  datatype Role = Source | Recipient

  datatype Frame = TextFrame(utf8: Bytes) | BinaryFrame(bytes: Bytes)

  function Len(f: Frame): nat {
    match f
    case TextFrame(utf8) => |utf8|
    case BinaryFrame(bytes) => |bytes|
  }

  /** Both kinds of frame count their bytes against the budget. */
  lemma LenExactly(bytes: Bytes)
    ensures Len(TextFrame(bytes)) == Len(BinaryFrame(bytes)) == |bytes|
  {
  }

  // ---------- the hub ----------

  /** A room names its two queues; a queue's receiving end is handed out once. */
  datatype Room = Room(toSource: nat, toRecipient: nat, sourceTaken: bool, recipientTaken: bool)

  datatype Ends = Ends(inbox: nat, outbox: nat)

  datatype Hub = Hub(rooms: map<string, Room>, nextQueue: nat)

  function Opened(h: Hub, session: string): Hub {
    if session in h.rooms then h
    else Hub(h.rooms[session := Room(h.nextQueue, h.nextQueue + 1, false, false)], h.nextQueue + 2)
  }

  function JoinEnds(h: Hub, session: string, role: Role): Option<Ends>
    requires session in h.rooms
  {
    var room := h.rooms[session];
    match role
    case Source => if room.sourceTaken then None else Some(Ends(room.toSource, room.toRecipient))
    case Recipient => if room.recipientTaken then None else Some(Ends(room.toRecipient, room.toSource))
  }

  function JoinHub(h: Hub, session: string, role: Role): Hub {
    var o := Opened(h, session);
    var room := o.rooms[session];
    o.(rooms := o.rooms[session := match role case Source => room.(sourceTaken := true)
                                              case Recipient => room.(recipientTaken := true)])
  }

  class RelayHub {
    var rooms: map<string, Room>
    var nextQueue: nat

    constructor ()
      ensures State() == Hub(map[], 0)
    {
      rooms := map[];
      nextQueue := 0;
    }

    function State(): Hub
      reads this
    {
      Hub(rooms, nextQueue)
    }

    method Join(session: string, role: Role) returns (ends: Option<Ends>)
      modifies this
      ensures ends == JoinEnds(Opened(old(State()), session), session, role)
      ensures State() == JoinHub(old(State()), session, role)
    {
      if session !in rooms {
        rooms := rooms[session := Room(nextQueue, nextQueue + 1, false, false)];
        nextQueue := nextQueue + 2;
      }
      var room := rooms[session];
      match role {
        case Source =>
          ends := if room.sourceTaken then None else Some(Ends(room.toSource, room.toRecipient));
          rooms := rooms[session := room.(sourceTaken := true)];
        case Recipient =>
          ends := if room.recipientTaken then None else Some(Ends(room.toRecipient, room.toSource));
          rooms := rooms[session := room.(recipientTaken := true)];
      }
    }

    method Leave(session: string)
      modifies this
      ensures State() == old(State()).(rooms := old(rooms) - {session})
    {
      rooms := rooms - {session};
    }
  }

  // ---------- what a reader accepts ----------

  /** A websocket message as the reader sees it. */
  datatype Inbound = Data(frame: Frame) | CloseMessage | ReadError | Ignored

  datatype Scanned = Scanned(accepted: seq<Frame>, forwarded: nat, running: bool)

  function ScanOne(s: Scanned, m: Inbound, maxBytes: nat): Scanned {
    if !s.running then s
    else match m
      case Data(f) =>
        if s.forwarded + Len(f) > maxBytes then Scanned(s.accepted, s.forwarded + Len(f), false)
        else Scanned(s.accepted + [f], s.forwarded + Len(f), true)
      case CloseMessage => s.(running := false)
      case ReadError => s.(running := false)
      case Ignored => s
  }

  function Scan(ms: seq<Inbound>, maxBytes: nat): Scanned {
    if ms == [] then Scanned([], 0, true) else ScanOne(Scan(ms[..|ms| - 1], maxBytes), ms[|ms| - 1], maxBytes)
  }

  function DataFrames(ms: seq<Inbound>): seq<Frame> {
    if ms == [] then []
    else DataFrames(ms[..|ms| - 1]) + (if ms[|ms| - 1].Data? then [ms[|ms| - 1].frame] else [])
  }

  function TotalLen(fs: seq<Frame>): nat {
    if fs == [] then 0 else TotalLen(fs[..|fs| - 1]) + Len(fs[|fs| - 1])
  }

  /** The reading loop against a peer whose queue never refuses. */
  method ReadAll(messages: seq<Inbound>, maxBytes: nat) returns (accepted: seq<Frame>, forwarded: nat)
    ensures accepted == Scan(messages, maxBytes).accepted && forwarded == Scan(messages, maxBytes).forwarded
  {
    accepted, forwarded := [], 0;
    for k := 0 to |messages|
      invariant Scan(messages[..k], maxBytes) == Scanned(accepted, forwarded, true)
    {
      assert messages[..k + 1][..k] == messages[..k];
      match messages[k] {
        case Data(frame) =>
          forwarded := forwarded + Len(frame);
          if forwarded > maxBytes {
            StoppedStays(messages, k + 1, maxBytes);
            return;
          }
          accepted := accepted + [frame];
        case Ignored =>
        case _ =>
          StoppedStays(messages, k + 1, maxBytes);
          return;
      }
    }
    assert messages[..|messages|] == messages;
  }

  lemma {:induction false} StoppedStays(ms: seq<Inbound>, n: nat, maxBytes: nat)
    requires n <= |ms| && !Scan(ms[..n], maxBytes).running
    ensures Scan(ms, maxBytes) == Scan(ms[..n], maxBytes)
    decreases |ms| - n
  {
    if n == |ms| {
      assert ms[..n] == ms;
    } else {
      assert ms[..n + 1][..n] == ms[..n];
      StoppedStays(ms, n + 1, maxBytes);
    }
  }

  /** The message at `n` stops a reader that got that far. */
  predicate Stops(ms: seq<Inbound>, n: nat, maxBytes: nat)
    requires n < |ms|
  {
    || ms[n].CloseMessage?
    || ms[n].ReadError?
    || (ms[n].Data? && TotalLen(DataFrames(ms[..n])) + Len(ms[n].frame) > maxBytes)
  }

  lemma {:induction false} UnstoppedScan(ms: seq<Inbound>, maxBytes: nat)
    requires forall k :: 0 <= k < |ms| ==> !Stops(ms, k, maxBytes)
    ensures Scan(ms, maxBytes) == Scanned(DataFrames(ms), TotalLen(DataFrames(ms)), true)
  {
    if ms != [] {
      var last := |ms| - 1;
      forall k | 0 <= k < last ensures !Stops(ms[..last], k, maxBytes) {
        assert !Stops(ms, k, maxBytes);
        assert ms[..last][..k] == ms[..k];
      }
      UnstoppedScan(ms[..last], maxBytes);
      assert !Stops(ms, last, maxBytes);
      if ms[last].Data? {
        TotalLenAppends(DataFrames(ms[..last]), ms[last].frame);
      }
    }
  }

  /** What a reader accepts, said of the messages alone: in order, every data frame before the first
      message that stops it - a close, an error, or the frame that would exceed the budget. */
  lemma AcceptedExactly(ms: seq<Inbound>, n: nat, maxBytes: nat)
    requires n <= |ms|
    requires forall k :: 0 <= k < n ==> !Stops(ms, k, maxBytes)
    requires n < |ms| ==> Stops(ms, n, maxBytes)
    ensures Scan(ms, maxBytes).accepted == DataFrames(ms[..n])
    ensures Scan(ms, maxBytes).running <==> n == |ms|
  {
    forall k | 0 <= k < n ensures !Stops(ms[..n], k, maxBytes) {
      assert !Stops(ms, k, maxBytes);
      assert ms[..n][..k] == ms[..k];
    }
    UnstoppedScan(ms[..n], maxBytes);
    if n == |ms| {
      assert ms[..n] == ms;
    } else {
      assert ms[..n + 1][..n] == ms[..n];
      StoppedStays(ms, n + 1, maxBytes);
    }
  }

  lemma {:induction false} AcceptedFits(ms: seq<Inbound>, maxBytes: nat)
    ensures TotalLen(Scan(ms, maxBytes).accepted) <= maxBytes
    ensures Scan(ms, maxBytes).running ==> Scan(ms, maxBytes).forwarded == TotalLen(Scan(ms, maxBytes).accepted)
  {
    if ms != [] {
      var before, last := ms[..|ms| - 1], ms[|ms| - 1];
      AcceptedFits(before, maxBytes);
      if last.Data? {
        TotalLenAppends(Scan(before, maxBytes).accepted, last.frame);
      }
    }
  }

  lemma TotalLenAppends(fs: seq<Frame>, f: Frame)
    ensures TotalLen(fs + [f]) == TotalLen(fs) + Len(f)
  {
    assert (fs + [f])[..|fs|] == fs;
  }

  lemma {:induction false} ScanStepExtends(ms: seq<Inbound>, m: Inbound, maxBytes: nat)
    ensures Scan(ms + [m], maxBytes) == ScanOne(Scan(ms, maxBytes), m, maxBytes)
    ensures Scan(ms, maxBytes).accepted <= Scan(ms + [m], maxBytes).accepted
  {
    assert (ms + [m])[..|ms|] == ms;
  }

  // ---------- the pipe as a step system ----------

  /** `pushed` and `popped` record everything that ever entered and left the queue; `session` and
      `receiver` say for whom the room made it. */
  datatype Queue = Queue(
    session: string, receiver: Role, frames: seq<Frame>, open: bool, pushed: seq<Frame>, popped: seq<Frame>)

  /** `read` records the messages the reader got, `scan` is what it made of them, `delivered` what the
      writer put on the socket. A task is between messages, holds one frame (waiting for room in
      the queue, or for the socket to take it), or has ended. */
  datatype Task = Ready | Holding(frame: Frame) | Done

  datatype Conn = Conn(
    session: string, role: Role, ends: Ends, maxBytes: nat,
    read: seq<Inbound>, scan: Scanned, reader: Task, delivered: seq<Frame>, writer: Task, left: bool)

  datatype Pipe = Pipe(hub: Hub, queues: map<nat, Queue>, conns: map<nat, Conn>)

  const START := Pipe(Hub(map[], 0), map[], map[])

  /** A task may be aborted at any moment, and so may the handler reach its end: a task returned, or
      the session's time was up. An aborted task can still finish the step it is in, so the handler
      leaving does not say that its tasks are done. */
  datatype Event =
    | Join(conn: nat, session: string, role: Role, maxBytes: nat)
    | Receive(conn: nat, message: Inbound)
    | Enqueue(conn: nat)
    | EnqueueFails(conn: nat)
    | StopReader(conn: nat)
    | Dequeue(conn: nat)
    | Deliver(conn: nat)
    | DrainEnds(conn: nat)
    | StopWriter(conn: nat)
    | Leave(conn: nat)

  /** Some sender of the queue is alive: its room keeps one, and its sending connection's reader has one. */
  ghost predicate HasSender(p: Pipe, queue: nat) {
    || (exists s :: s in p.hub.rooms && (p.hub.rooms[s].toSource == queue || p.hub.rooms[s].toRecipient == queue))
    || (exists c :: c in p.conns && p.conns[c].ends.outbox == queue && !p.conns[c].reader.Done?)
  }

  ghost predicate Enabled(p: Pipe, e: Event) {
    if e.Join? then e.conn !in p.conns
    else
      && e.conn in p.conns
      && var c := p.conns[e.conn];
      && c.ends.inbox in p.queues && c.ends.outbox in p.queues
      && var inq, outq := p.queues[c.ends.inbox], p.queues[c.ends.outbox];
      && (e.Receive? ==> c.reader.Ready?)
      && (e.Enqueue? ==> c.reader.Holding? && outq.open && |outq.frames| < RELAY_QUEUE_CAPACITY)
      && (e.EnqueueFails? ==> c.reader.Holding? && !outq.open)
      && (e.Dequeue? ==> c.writer.Ready? && inq.frames != [])
      && (e.Deliver? ==> c.writer.Holding?)
      && (e.DrainEnds? ==> c.writer.Ready? && inq.frames == [] && !HasSender(p, c.ends.inbox))
      && (e.Leave? ==> !c.left)
  }

  /** A dropped receiver discards what was queued. */
  function Closed(q: Queue): Queue {
    q.(frames := [], open := false)
  }

  function Pushed(q: Queue, f: Frame): Queue {
    q.(frames := q.frames + [f], pushed := q.pushed + [f])
  }

  /** The queue after its first frame was taken. */
  function Popped(q: Queue): Queue
    requires q.frames != []
  {
    q.(frames := q.frames[1..], popped := q.popped + [q.frames[0]])
  }

  function OpenedQueues(p: Pipe, session: string): map<nat, Queue> {
    if session in p.hub.rooms then p.queues
    else p.queues[p.hub.nextQueue := Queue(session, Source, [], true, [], [])]
                 [p.hub.nextQueue + 1 := Queue(session, Recipient, [], true, [], [])]
  }

  function JoinPipe(p: Pipe, conn: nat, session: string, role: Role, maxBytes: nat): Pipe {
    var ends := JoinEnds(Opened(p.hub, session), session, role);
    var p1 := p.(hub := JoinHub(p.hub, session, role), queues := OpenedQueues(p, session));
    if ends.None? then p1
    else p1.(conns := p.conns[conn := Conn(session, role, ends.value, maxBytes, [], Scanned([], 0, true), Ready, [],
                                           Ready, false)])
  }

  /** Receiving ends that nobody took are dropped with their room. */
  function LeaveQueues(p: Pipe, session: string): map<nat, Queue> {
    if session !in p.hub.rooms then p.queues
    else
      var room := p.hub.rooms[session];
      var q1 := if room.sourceTaken || room.toSource !in p.queues then p.queues
                else p.queues[room.toSource := Closed(p.queues[room.toSource])];
      if room.recipientTaken || room.toRecipient !in q1 then q1
      else q1[room.toRecipient := Closed(q1[room.toRecipient])]
  }

  function LeavePipe(p: Pipe, conn: nat): Pipe
    requires conn in p.conns
  {
    var c := p.conns[conn];
    Pipe(p.hub.(rooms := p.hub.rooms - {c.session}), LeaveQueues(p, c.session), p.conns[conn := c.(left := true)])
  }

  function ReceiveConn(c: Conn, m: Inbound): Conn {
    var scanned := ScanOne(c.scan, m, c.maxBytes);
    c.(read := c.read + [m], scan := scanned,
       reader := if !scanned.running then Done else if m.Data? then Holding(m.frame) else Ready)
  }

  function With(p: Pipe, conn: nat, c: Conn, queue: nat, q: Queue): Pipe {
    p.(conns := p.conns[conn := c], queues := p.queues[queue := q])
  }

  function WithConn(p: Pipe, conn: nat, c: Conn): Pipe {
    p.(conns := p.conns[conn := c])
  }

  ghost function Next(p: Pipe, e: Event): Pipe
    requires Enabled(p, e)
  {
    if e.Join? then JoinPipe(p, e.conn, e.session, e.role, e.maxBytes)
    else
      var c := p.conns[e.conn];
      var inq, outq := p.queues[c.ends.inbox], p.queues[c.ends.outbox];
      match e
      case Receive(_, m) => WithConn(p, e.conn, ReceiveConn(c, m))
      case Enqueue(_) =>
        With(p, e.conn, c.(reader := Ready), c.ends.outbox,
             Pushed(outq, c.reader.frame))
      case EnqueueFails(_) => WithConn(p, e.conn, c.(reader := Done))
      case StopReader(_) => WithConn(p, e.conn, c.(reader := Done))
      case Dequeue(_) =>
        With(p, e.conn, c.(writer := Holding(inq.frames[0])), c.ends.inbox,
             Popped(inq))
      case Deliver(_) => WithConn(p, e.conn, c.(delivered := c.delivered + [c.writer.frame], writer := Ready))
      case DrainEnds(_) => With(p, e.conn, c.(writer := Done), c.ends.inbox, Closed(inq))
      case StopWriter(_) => With(p, e.conn, c.(writer := Done), c.ends.inbox, Closed(inq))
      case Leave(_) => LeavePipe(p, e.conn)
      case Join(_, _, _, _) => p
  }

  ghost function Run(p: Pipe, es: seq<Event>): Option<Pipe>
    decreases |es|
  {
    if es == [] then Some(p)
    else if !Enabled(p, es[0]) then None
    else Run(Next(p, es[0]), es[1..])
  }

  ghost predicate Reachable(p: Pipe) {
    exists es :: Run(START, es) == Some(p)
  }
}
