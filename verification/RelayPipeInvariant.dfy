/** What every step of the relay pipe keeps. */
module RelayPipeInvariant {
  import opened Wrappers
  import opened RelayPipe

  function Other(role: Role): Role {
    match role
    case Source => Recipient
    case Recipient => Source
  }

  function Held(t: Task): seq<Frame> {
    if t.Holding? then [t.frame] else []
  }

  predicate QueueOk(q: Queue) {
    && |q.frames| <= RELAY_QUEUE_CAPACITY
    && (if q.open then q.popped + q.frames == q.pushed else q.popped <= q.pushed)
  }

  /** The sender of a queue has pushed what its reader accepted, but for a frame still in hand; a
      task that ended may have taken such a frame with it. */
  ghost predicate SenderOk(c: Conn, queues: map<nat, Queue>) {
    && c.ends.outbox in queues
    && var q := queues[c.ends.outbox];
    && q.session == c.session && q.receiver == Other(c.role)
    && q.pushed + Held(c.reader) <= c.scan.accepted
    && (!c.reader.Done? ==> c.scan.running && q.pushed + Held(c.reader) == c.scan.accepted)
  }

  ghost predicate ReceiverOk(c: Conn, queues: map<nat, Queue>) {
    && c.ends.inbox in queues
    && var q := queues[c.ends.inbox];
    && q.session == c.session && q.receiver == c.role
    && c.delivered + Held(c.writer) <= q.popped
    && (!c.writer.Done? ==> q.open && c.delivered + Held(c.writer) == q.popped)
  }

  /** Every receiving end, and every sending end, is in at most one connection. */
  ghost predicate EndsUnique(conns: map<nat, Conn>) {
    forall a, b :: a in conns && b in conns && a != b ==>
      conns[a].ends.inbox != conns[b].ends.inbox && conns[a].ends.outbox != conns[b].ends.outbox
  }

  ghost predicate Untouched(inbox: nat, outbox: nat, p: Pipe)
    requires inbox in p.queues && outbox in p.queues
  {
    && p.queues[inbox].popped == [] && p.queues[outbox].pushed == []
    && p.queues[inbox].open
    && forall c :: c in p.conns ==> p.conns[c].ends.inbox != inbox && p.conns[c].ends.outbox != outbox
  }

  ghost predicate RoomOk(session: string, room: Room, p: Pipe) {
    && room.toSource in p.queues && room.toRecipient in p.queues
    && p.queues[room.toSource].session == session && p.queues[room.toSource].receiver == Source
    && p.queues[room.toRecipient].session == session && p.queues[room.toRecipient].receiver == Recipient
    && (!room.sourceTaken ==> Untouched(room.toSource, room.toRecipient, p))
    && (!room.recipientTaken ==> Untouched(room.toRecipient, room.toSource, p))
  }

  ghost predicate SentBySomeone(queue: nat, conns: map<nat, Conn>) {
    exists c :: c in conns && conns[c].ends.outbox == queue
  }

  ghost predicate QueuesOk(p: Pipe) {
    forall q :: q in p.queues ==>
      q < p.hub.nextQueue && QueueOk(p.queues[q]) && (p.queues[q].pushed != [] ==> SentBySomeone(q, p.conns))
  }

  ghost predicate ConnsOk(p: Pipe) {
    forall c :: c in p.conns ==> SenderOk(p.conns[c], p.queues) && ReceiverOk(p.conns[c], p.queues)
  }

  ghost predicate RoomsOk(p: Pipe) {
    forall s :: s in p.hub.rooms ==> RoomOk(s, p.hub.rooms[s], p)
  }

  ghost predicate ScansOk(conns: map<nat, Conn>) {
    forall c :: c in conns ==> conns[c].scan == Scan(conns[c].read, conns[c].maxBytes)
  }

  ghost predicate Inv(p: Pipe) {
    ScansOk(p.conns) && QueuesOk(p) && ConnsOk(p) && EndsUnique(p.conns) && RoomsOk(p)
  }

  // ---------- every step keeps the invariant ----------

  predicate SameEnds(a: Conn, b: Conn) {
    a.ends == b.ends && a.session == b.session && a.role == b.role
  }

  lemma EndsStay(conns: map<nat, Conn>, conn: nat, c: Conn)
    requires EndsUnique(conns) && conn in conns && SameEnds(c, conns[conn])
    ensures EndsUnique(conns[conn := c])
  {
  }

  lemma ScansStay(conns: map<nat, Conn>, conn: nat, c: Conn)
    requires ScansOk(conns) && c.scan == Scan(c.read, c.maxBytes)
    ensures ScansOk(conns[conn := c])
  {
  }

  /** Senders and receivers of the other connections do not notice a change of a queue's receiving side. */
  lemma InboxConns(p: Pipe, conn: nat, c: Conn, q: Queue)
    requires ConnsOk(p) && EndsUnique(p.conns) && conn in p.conns && SameEnds(c, p.conns[conn])
    requires c.ends.inbox in p.queues
    requires q.session == p.queues[c.ends.inbox].session && q.receiver == p.queues[c.ends.inbox].receiver
    requires q.pushed == p.queues[c.ends.inbox].pushed
    requires SenderOk(c, p.queues) && ReceiverOk(c, p.queues[c.ends.inbox := q])
    ensures ConnsOk(With(p, conn, c, c.ends.inbox, q))
  {
    var n := With(p, conn, c, c.ends.inbox, q);
    forall d | d in n.conns ensures SenderOk(n.conns[d], n.queues) && ReceiverOk(n.conns[d], n.queues) {
      assert SenderOk(p.conns[d], p.queues) && ReceiverOk(p.conns[d], p.queues);
      if d != conn {
        assert p.conns[d].ends.inbox != c.ends.inbox;
      }
    }
  }

  lemma OutboxConns(p: Pipe, conn: nat, c: Conn, q: Queue)
    requires ConnsOk(p) && EndsUnique(p.conns) && conn in p.conns && SameEnds(c, p.conns[conn])
    requires c.ends.outbox in p.queues
    requires q.session == p.queues[c.ends.outbox].session && q.receiver == p.queues[c.ends.outbox].receiver
    requires q.popped == p.queues[c.ends.outbox].popped && q.open == p.queues[c.ends.outbox].open
    requires SenderOk(c, p.queues[c.ends.outbox := q]) && ReceiverOk(c, p.queues)
    ensures ConnsOk(With(p, conn, c, c.ends.outbox, q))
  {
    var n := With(p, conn, c, c.ends.outbox, q);
    forall d | d in n.conns ensures SenderOk(n.conns[d], n.queues) && ReceiverOk(n.conns[d], n.queues) {
      assert SenderOk(p.conns[d], p.queues) && ReceiverOk(p.conns[d], p.queues);
      if d != conn {
        assert p.conns[d].ends.outbox != c.ends.outbox;
      }
    }
  }

  lemma SentStays(queue: nat, conns: map<nat, Conn>, conn: nat, c: Conn)
    requires SentBySomeone(queue, conns)
    requires conn in conns ==> SameEnds(c, conns[conn])
    ensures SentBySomeone(queue, conns[conn := c])
  {
    var d :| d in conns && conns[d].ends.outbox == queue;
    assert conns[conn := c][d].ends.outbox == queue;
  }

  lemma QueuesStay(p: Pipe, conn: nat, c: Conn, queue: nat, q: Queue)
    requires QueuesOk(p) && conn in p.conns && SameEnds(c, p.conns[conn]) && queue in p.queues
    requires QueueOk(q) && (q.pushed == p.queues[queue].pushed || queue == c.ends.outbox)
    ensures QueuesOk(With(p, conn, c, queue, q))
  {
    var n := With(p, conn, c, queue, q);
    forall k | k in n.queues && n.queues[k].pushed != [] ensures SentBySomeone(k, n.conns) {
      if k == queue == c.ends.outbox {
        assert n.conns[conn].ends.outbox == k;
      } else {
        SentStays(k, p.conns, conn, c);
      }
    }
  }

  /** A room nobody has joined on one side is untouched by steps on other queues' ends. */
  lemma InboxRooms(p: Pipe, conn: nat, c: Conn, q: Queue)
    requires RoomsOk(p) && conn in p.conns && SameEnds(c, p.conns[conn])
    requires c.ends.inbox in p.queues
    requires q.session == p.queues[c.ends.inbox].session && q.receiver == p.queues[c.ends.inbox].receiver
    requires q.pushed == p.queues[c.ends.inbox].pushed
    ensures RoomsOk(With(p, conn, c, c.ends.inbox, q))
  {
    var n := With(p, conn, c, c.ends.inbox, q);
    forall s | s in n.hub.rooms ensures RoomOk(s, n.hub.rooms[s], n) {
      assert RoomOk(s, p.hub.rooms[s], p);
    }
  }

  lemma OutboxRooms(p: Pipe, conn: nat, c: Conn, q: Queue)
    requires RoomsOk(p) && conn in p.conns && SameEnds(c, p.conns[conn])
    requires c.ends.outbox in p.queues
    requires q.session == p.queues[c.ends.outbox].session && q.receiver == p.queues[c.ends.outbox].receiver
    requires q.popped == p.queues[c.ends.outbox].popped && q.open == p.queues[c.ends.outbox].open
    ensures RoomsOk(With(p, conn, c, c.ends.outbox, q))
  {
    var n := With(p, conn, c, c.ends.outbox, q);
    forall s | s in n.hub.rooms ensures RoomOk(s, n.hub.rooms[s], n) {
      assert RoomOk(s, p.hub.rooms[s], p);
    }
  }

  /** A step on a connection and the queue it reads from. */
  lemma InboxStep(p: Pipe, conn: nat, c: Conn, q: Queue)
    requires Inv(p) && conn in p.conns && SameEnds(c, p.conns[conn]) && c.scan == Scan(c.read, c.maxBytes)
    requires c.ends.inbox in p.queues
    requires q.session == p.queues[c.ends.inbox].session && q.receiver == p.queues[c.ends.inbox].receiver
    requires q.pushed == p.queues[c.ends.inbox].pushed && QueueOk(q)
    requires SenderOk(c, p.queues) && ReceiverOk(c, p.queues[c.ends.inbox := q])
    ensures Inv(With(p, conn, c, c.ends.inbox, q))
  {
    ScansStay(p.conns, conn, c);
    EndsStay(p.conns, conn, c);
    InboxConns(p, conn, c, q);
    QueuesStay(p, conn, c, c.ends.inbox, q);
    InboxRooms(p, conn, c, q);
  }

  /** A step on a connection and the queue it feeds. */
  lemma OutboxStep(p: Pipe, conn: nat, c: Conn, q: Queue)
    requires Inv(p) && conn in p.conns && SameEnds(c, p.conns[conn]) && c.scan == Scan(c.read, c.maxBytes)
    requires c.ends.outbox in p.queues
    requires q.session == p.queues[c.ends.outbox].session && q.receiver == p.queues[c.ends.outbox].receiver
    requires q.popped == p.queues[c.ends.outbox].popped && q.open == p.queues[c.ends.outbox].open && QueueOk(q)
    requires SenderOk(c, p.queues[c.ends.outbox := q]) && ReceiverOk(c, p.queues)
    ensures Inv(With(p, conn, c, c.ends.outbox, q))
  {
    ScansStay(p.conns, conn, c);
    EndsStay(p.conns, conn, c);
    OutboxConns(p, conn, c, q);
    QueuesStay(p, conn, c, c.ends.outbox, q);
    OutboxRooms(p, conn, c, q);
  }

  lemma ConnStep(p: Pipe, conn: nat, c: Conn)
    requires Inv(p) && conn in p.conns && SameEnds(c, p.conns[conn]) && c.scan == Scan(c.read, c.maxBytes)
    requires SenderOk(c, p.queues) && ReceiverOk(c, p.queues)
    ensures Inv(WithConn(p, conn, c))
  {
    assert p.queues[c.ends.inbox := p.queues[c.ends.inbox]] == p.queues;
    InboxStep(p, conn, c, p.queues[c.ends.inbox]);
  }

  lemma ReceivedOk(c: Conn, m: Inbound, queues: map<nat, Queue>)
    requires SenderOk(c, queues) && c.reader.Ready?
    ensures SenderOk(ReceiveConn(c, m), queues)
  {
    var pushed := queues[c.ends.outbox].pushed;
    assert pushed + [] == pushed;
    if m.Data? {
      assert pushed <= pushed + [m.frame];
    }
  }

  lemma ReceiveKeeps(p: Pipe, e: Event)
    requires Inv(p) && Enabled(p, e) && e.Receive?
    ensures Inv(Next(p, e))
  {
    var c := p.conns[e.conn];
    assert SenderOk(c, p.queues) && ReceiverOk(c, p.queues);
    var c' := ReceiveConn(c, e.message);
    ReceivedOk(c, e.message, p.queues);
    ScanStepExtends(c.read, e.message, c.maxBytes);
    ConnStep(p, e.conn, c');
    assert Next(p, e) == WithConn(p, e.conn, c');
  }

  lemma PushedOk(q: Queue, f: Frame)
    requires QueueOk(q) && q.open && |q.frames| < RELAY_QUEUE_CAPACITY
    ensures QueueOk(Pushed(q, f))
  {
    assert q.popped + (q.frames + [f]) == (q.popped + q.frames) + [f];
  }

  lemma SentOk(c: Conn, queues: map<nat, Queue>)
    requires SenderOk(c, queues) && c.reader.Holding?
    ensures SenderOk(c.(reader := Ready), queues[c.ends.outbox := Pushed(queues[c.ends.outbox], c.reader.frame)])
  {
    var q := Pushed(queues[c.ends.outbox], c.reader.frame);
    assert q.pushed + [] == q.pushed;
  }

  lemma EnqueueKeeps(p: Pipe, e: Event)
    requires Inv(p) && Enabled(p, e) && e.Enqueue?
    ensures Inv(Next(p, e))
  {
    var c := p.conns[e.conn];
    assert SenderOk(c, p.queues) && ReceiverOk(c, p.queues);
    var q := Pushed(p.queues[c.ends.outbox], c.reader.frame);
    PushedOk(p.queues[c.ends.outbox], c.reader.frame);
    SentOk(c, p.queues);
    OutboxStep(p, e.conn, c.(reader := Ready), q);
    assert Next(p, e) == With(p, e.conn, c.(reader := Ready), c.ends.outbox, q);
  }

  lemma ReaderEndKeeps(p: Pipe, e: Event)
    requires Inv(p) && Enabled(p, e) && (e.EnqueueFails? || e.StopReader?)
    ensures Inv(Next(p, e))
  {
    var c := p.conns[e.conn];
    assert SenderOk(c, p.queues) && ReceiverOk(c, p.queues);
    assert p.queues[c.ends.outbox].pushed + [] == p.queues[c.ends.outbox].pushed;
    ConnStep(p, e.conn, c.(reader := Done));
    assert Next(p, e) == WithConn(p, e.conn, c.(reader := Done));
  }

  lemma HeadMoves(popped: seq<Frame>, frames: seq<Frame>)
    requires frames != []
    ensures (popped + [frames[0]]) + frames[1..] == popped + frames
  {
  }

  lemma PoppedOk(q: Queue)
    requires QueueOk(q) && q.open && q.frames != []
    ensures QueueOk(Popped(q))
  {
    HeadMoves(q.popped, q.frames);
  }

  lemma DequeuedOk(c: Conn, queues: map<nat, Queue>)
    requires ReceiverOk(c, queues) && c.writer.Ready? && queues[c.ends.inbox].frames != []
    ensures var q := queues[c.ends.inbox];
            ReceiverOk(c.(writer := Holding(q.frames[0])), queues[c.ends.inbox := Popped(q)])
  {
    assert c.delivered + [] == c.delivered;
  }

  lemma DequeueKeeps(p: Pipe, e: Event)
    requires Inv(p) && Enabled(p, e) && e.Dequeue?
    ensures Inv(Next(p, e))
  {
    var c := p.conns[e.conn];
    assert SenderOk(c, p.queues) && ReceiverOk(c, p.queues);
    var q := p.queues[c.ends.inbox];
    assert QueueOk(q);
    PoppedOk(q);
    DequeuedOk(c, p.queues);
    var c' := c.(writer := Holding(q.frames[0]));
    InboxStep(p, e.conn, c', Popped(q));
    assert Next(p, e) == With(p, e.conn, c', c.ends.inbox, Popped(q));
  }

  lemma DeliveredOk(c: Conn, queues: map<nat, Queue>)
    requires ReceiverOk(c, queues) && c.writer.Holding?
    ensures ReceiverOk(c.(delivered := c.delivered + [c.writer.frame], writer := Ready), queues)
  {
    assert c.delivered + [c.writer.frame] + [] == c.delivered + [c.writer.frame];
  }

  lemma EndedOk(c: Conn, queues: map<nat, Queue>)
    requires ReceiverOk(c, queues)
    ensures ReceiverOk(c.(writer := Done), queues[c.ends.inbox := Closed(queues[c.ends.inbox])])
  {
    assert c.delivered + [] == c.delivered;
    assert c.delivered <= c.delivered + Held(c.writer);
  }

  lemma DeliverKeeps(p: Pipe, e: Event)
    requires Inv(p) && Enabled(p, e) && e.Deliver?
    ensures Inv(Next(p, e))
  {
    var c := p.conns[e.conn];
    DeliveredOk(c, p.queues);
    ConnStep(p, e.conn, c.(delivered := c.delivered + [c.writer.frame], writer := Ready));
  }

  lemma WriterEndKeeps(p: Pipe, e: Event)
    requires Inv(p) && Enabled(p, e) && (e.DrainEnds? || e.StopWriter?)
    ensures Inv(Next(p, e))
  {
    var c := p.conns[e.conn];
    assert SenderOk(c, p.queues) && ReceiverOk(c, p.queues);
    ClosedOk(p.queues[c.ends.inbox]);
    EndedOk(c, p.queues);
    InboxStep(p, e.conn, c.(writer := Done), Closed(p.queues[c.ends.inbox]));
  }

  lemma ClosedOk(q: Queue)
    requires QueueOk(q)
    ensures QueueOk(Closed(q))
  {
  }

  lemma LeaveKeeps(p: Pipe, conn: nat)
    requires Inv(p) && conn in p.conns
    ensures Inv(LeavePipe(p, conn))
  {
    var session, left := p.conns[conn].session, p.conns[conn].(left := true);
    ScansStay(p.conns, conn, left);
    EndsStay(p.conns, conn, left);
    assert session in p.hub.rooms ==> RoomOk(session, p.hub.rooms[session], p);
    LeaveQueuesKept(p, conn);
    LeaveConnsKept(p, conn);
    LeaveRoomsKept(p, conn);
  }

  lemma LeaveRoomsKept(p: Pipe, conn: nat)
    requires RoomsOk(p) && conn in p.conns
    ensures RoomsOk(LeavePipe(p, conn))
  {
    var n := LeavePipe(p, conn);
    var session := p.conns[conn].session;
    assert session in p.hub.rooms ==> RoomOk(session, p.hub.rooms[session], p);
    forall s | s in n.hub.rooms ensures RoomOk(s, n.hub.rooms[s], n) {
      assert RoomOk(s, p.hub.rooms[s], p);
    }
  }

  lemma LeaveQueuesKept(p: Pipe, conn: nat)
    requires QueuesOk(p) && conn in p.conns
    ensures QueuesOk(LeavePipe(p, conn))
  {
    var n := LeavePipe(p, conn);
    forall k | k in n.queues && n.queues[k].pushed != [] ensures SentBySomeone(k, n.conns) {
      SentStays(k, p.conns, conn, n.conns[conn]);
    }
    forall k | k in n.queues ensures QueueOk(n.queues[k]) {
      assert QueueOk(p.queues[k]);
      assert n.queues[k] == p.queues[k] || n.queues[k] == Closed(p.queues[k]);
      ClosedOk(p.queues[k]);
    }
  }

  /** Leaving closes at most receiving ends that no connection has. */
  lemma LeftQueue(p: Pipe, session: string, queue: nat)
    requires queue in p.queues && (session in p.hub.rooms ==> RoomOk(session, p.hub.rooms[session], p))
    ensures queue in LeaveQueues(p, session)
    ensures LeaveQueues(p, session)[queue] == p.queues[queue]
            || (LeaveQueues(p, session)[queue] == Closed(p.queues[queue])
                && forall c :: c in p.conns ==> p.conns[c].ends.inbox != queue)
  {
  }

  lemma LeftConnKept(p: Pipe, session: string, c: Conn)
    requires session in p.hub.rooms ==> RoomOk(session, p.hub.rooms[session], p)
    requires SenderOk(c, p.queues) && ReceiverOk(c, p.queues)
    requires exists d :: d in p.conns && p.conns[d].ends == c.ends
    ensures SenderOk(c, LeaveQueues(p, session)) && ReceiverOk(c, LeaveQueues(p, session))
  {
    LeftQueue(p, session, c.ends.inbox);
    LeftQueue(p, session, c.ends.outbox);
  }

  lemma LeaveConnsKept(p: Pipe, conn: nat)
    requires ConnsOk(p) && conn in p.conns
    requires p.conns[conn].session in p.hub.rooms ==>
             RoomOk(p.conns[conn].session, p.hub.rooms[p.conns[conn].session], p)
    ensures ConnsOk(LeavePipe(p, conn))
  {
    var n := LeavePipe(p, conn);
    forall d | d in n.conns ensures SenderOk(n.conns[d], n.queues) && ReceiverOk(n.conns[d], n.queues) {
      LeftConnKept(p, p.conns[conn].session, p.conns[d]);
    }
  }

  /** Opening a room, when the session has none, before the connection takes its ends. */
  function OpenPipe(p: Pipe, session: string): Pipe {
    Pipe(Opened(p.hub, session), OpenedQueues(p, session), p.conns)
  }

  lemma OpenKeeps(p: Pipe, session: string)
    requires Inv(p)
    ensures Inv(OpenPipe(p, session))
  {
    var n := OpenPipe(p, session);
    if session !in p.hub.rooms {
      assert forall q :: q in p.queues ==> n.queues[q] == p.queues[q];
      assert ConnsOk(n) by {
        forall d | d in n.conns ensures SenderOk(n.conns[d], n.queues) && ReceiverOk(n.conns[d], n.queues) {
          assert SenderOk(p.conns[d], p.queues) && ReceiverOk(p.conns[d], p.queues);
        }
      }
      assert QueuesOk(n);
      OpenRoomsKept(p, session);
    } else {
      assert n == p;
    }
  }

  lemma OpenRoomsKept(p: Pipe, session: string)
    requires RoomsOk(p) && ConnsOk(p) && session !in p.hub.rooms
    requires forall q :: q in p.queues ==> q < p.hub.nextQueue
    ensures RoomsOk(OpenPipe(p, session))
  {
    var n := OpenPipe(p, session);
    forall d | d in p.conns ensures p.conns[d].ends.inbox in p.queues && p.conns[d].ends.outbox in p.queues {
      assert SenderOk(p.conns[d], p.queues) && ReceiverOk(p.conns[d], p.queues);
    }
    forall s | s in n.hub.rooms ensures RoomOk(s, n.hub.rooms[s], n) {
      if s in p.hub.rooms {
        assert RoomOk(s, p.hub.rooms[s], p);
      }
    }
  }

  lemma JoinKeeps(p: Pipe, conn: nat, session: string, role: Role, maxBytes: nat)
    requires Inv(p) && conn !in p.conns
    ensures Inv(JoinPipe(p, conn, session, role, maxBytes))
  {
    OpenKeeps(p, session);
    var o := OpenPipe(p, session);
    TakeKeeps(o, conn, session, role, maxBytes);
    assert JoinPipe(p, conn, session, role, maxBytes) == JoinPipe(o, conn, session, role, maxBytes);
  }

  lemma TakeKeeps(p: Pipe, conn: nat, session: string, role: Role, maxBytes: nat)
    requires Inv(p) && conn !in p.conns && session in p.hub.rooms
    ensures Inv(JoinPipe(p, conn, session, role, maxBytes))
  {
    if JoinEnds(p.hub, session, role).Some? {
      TakeConnsKept(p, conn, session, role, maxBytes);
      TakeQueuesKept(p, conn, session, role, maxBytes);
      TakeRoomsKept(p, conn, session, role, maxBytes);
    } else {
      assert JoinHub(p.hub, session, role) == p.hub by {
        assert p.hub.rooms[session := p.hub.rooms[session]] == p.hub.rooms;
      }
    }
  }

  /** A connection gets ends that nobody had and that nothing went through. */
  lemma TakeConnsKept(p: Pipe, conn: nat, session: string, role: Role, maxBytes: nat)
    requires RoomsOk(p) && ScansOk(p.conns) && ConnsOk(p) && EndsUnique(p.conns)
    requires conn !in p.conns && session in p.hub.rooms && JoinEnds(p.hub, session, role).Some?
    ensures var n := JoinPipe(p, conn, session, role, maxBytes); ScansOk(n.conns) && ConnsOk(n) && EndsUnique(n.conns)
  {
    var n := JoinPipe(p, conn, session, role, maxBytes);
    var c := n.conns[conn];
    assert RoomOk(session, p.hub.rooms[session], p);
    assert SenderOk(c, p.queues) && ReceiverOk(c, p.queues);
    forall d | d in n.conns ensures SenderOk(n.conns[d], n.queues) && ReceiverOk(n.conns[d], n.queues) {
    }
  }

  lemma TakeQueuesKept(p: Pipe, conn: nat, session: string, role: Role, maxBytes: nat)
    requires QueuesOk(p) && conn !in p.conns && session in p.hub.rooms && JoinEnds(p.hub, session, role).Some?
    ensures QueuesOk(JoinPipe(p, conn, session, role, maxBytes))
  {
    var n := JoinPipe(p, conn, session, role, maxBytes);
    forall k | k in n.queues && n.queues[k].pushed != [] ensures SentBySomeone(k, n.conns) {
      SentStays(k, p.conns, conn, n.conns[conn]);
    }
  }

  lemma TakeRoomsKept(p: Pipe, conn: nat, session: string, role: Role, maxBytes: nat)
    requires RoomsOk(p) && conn !in p.conns && session in p.hub.rooms && JoinEnds(p.hub, session, role).Some?
    ensures RoomsOk(JoinPipe(p, conn, session, role, maxBytes))
  {
    var n := JoinPipe(p, conn, session, role, maxBytes);
    assert RoomOk(session, p.hub.rooms[session], p);
    forall s | s in n.hub.rooms ensures RoomOk(s, n.hub.rooms[s], n) {
      assert RoomOk(s, p.hub.rooms[s], p);
    }
  }

  lemma RoomStepKeeps(p: Pipe, e: Event)
    requires Inv(p) && Enabled(p, e) && (e.Join? || e.Leave?)
    ensures Inv(Next(p, e))
  {
    if e.Join? {
      JoinKeeps(p, e.conn, e.session, e.role, e.maxBytes);
    } else {
      LeaveKeeps(p, e.conn);
    }
  }

  lemma ReaderStepKeeps(p: Pipe, e: Event)
    requires Inv(p) && Enabled(p, e) && (e.Receive? || e.Enqueue? || e.EnqueueFails? || e.StopReader?)
    ensures Inv(Next(p, e))
  {
    if e.Receive? {
      ReceiveKeeps(p, e);
    } else if e.Enqueue? {
      EnqueueKeeps(p, e);
    } else {
      ReaderEndKeeps(p, e);
    }
  }

  lemma WriterStepKeeps(p: Pipe, e: Event)
    requires Inv(p) && Enabled(p, e) && (e.Dequeue? || e.Deliver? || e.DrainEnds? || e.StopWriter?)
    ensures Inv(Next(p, e))
  {
    if e.Dequeue? {
      DequeueKeeps(p, e);
    } else if e.Deliver? {
      DeliverKeeps(p, e);
    } else {
      WriterEndKeeps(p, e);
    }
  }

  lemma StepKeepsInv(p: Pipe, e: Event)
    requires Inv(p) && Enabled(p, e)
    ensures Inv(Next(p, e))
  {
    if e.Join? || e.Leave? {
      RoomStepKeeps(p, e);
    } else if e.Receive? || e.Enqueue? || e.EnqueueFails? || e.StopReader? {
      ReaderStepKeeps(p, e);
    } else {
      WriterStepKeeps(p, e);
    }
  }

  lemma {:induction false} RunKeepsInv(p: Pipe, es: seq<Event>)
    requires Inv(p)
    ensures Run(p, es).Some? ==> Inv(Run(p, es).value)
    decreases |es|
  {
    if es != [] && Enabled(p, es[0]) {
      StepKeepsInv(p, es[0]);
      RunKeepsInv(Next(p, es[0]), es[1..]);
    }
  }

  lemma ReachableInv(p: Pipe)
    requires Reachable(p)
    ensures Inv(p)
  {
    var es :| Run(START, es) == Some(p);
    RunKeepsInv(START, es);
  }
}
