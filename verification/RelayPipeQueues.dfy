/** When a queue of the relay pipe takes frames and when sending to it fails. */
module RelayPipeQueues {
  import opened Wrappers
  import opened RelayPipe
  import opened RelayPipeInvariant

  ghost predicate ReadByConn(queue: nat, conns: map<nat, Conn>) {
    exists c :: c in conns && conns[c].ends.inbox == queue && !conns[c].writer.Done?
  }

  predicate Waits(room: Room, queue: nat) {
    (room.toSource == queue && !room.sourceTaken) || (room.toRecipient == queue && !room.recipientTaken)
  }

  /** Nobody has taken the receiving end out of its room yet. */
  ghost predicate WaitsInRoom(queue: nat, rooms: map<string, Room>) {
    exists s :: s in rooms && Waits(rooms[s], queue)
  }

  /** The receiving end still exists: with a connection whose writing task has not ended, or in a room. */
  ghost predicate Awaited(p: Pipe, queue: nat) {
    ReadByConn(queue, p.conns) || WaitsInRoom(queue, p.hub.rooms)
  }

  ghost predicate Lives(p: Pipe) {
    forall q :: q in p.queues ==>
      && (p.queues[q].open <==> Awaited(p, q))
      && (!p.queues[q].open ==> p.queues[q].frames == [])
  }

  // ---------- every step keeps this ----------

  lemma ReadStays(queue: nat, conns: map<nat, Conn>, conn: nat, c: Conn)
    requires conn in conns && c.ends == conns[conn].ends && c.writer.Done? == conns[conn].writer.Done?
    ensures ReadByConn(queue, conns[conn := c]) <==> ReadByConn(queue, conns)
  {
    var n := conns[conn := c];
    if ReadByConn(queue, conns) {
      var k :| k in conns && conns[k].ends.inbox == queue && !conns[k].writer.Done?;
      assert k in n && n[k].ends.inbox == queue && !n[k].writer.Done?;
    }
    if ReadByConn(queue, n) {
      var k :| k in n && n[k].ends.inbox == queue && !n[k].writer.Done?;
      assert k in conns && conns[k].ends.inbox == queue && !conns[k].writer.Done?;
    }
  }

  /** A task's step that ends no writing task. */
  lemma TaskStepKeeps(p: Pipe, n: Pipe, conn: nat)
    requires Lives(p) && conn in p.conns && conn in n.conns
    requires n.conns == p.conns[conn := n.conns[conn]]
    requires n.conns[conn].ends == p.conns[conn].ends && n.conns[conn].writer.Done? == p.conns[conn].writer.Done?
    requires n.hub == p.hub && n.queues.Keys == p.queues.Keys
    requires forall q :: q in p.queues ==>
               n.queues[q].open == p.queues[q].open && (!p.queues[q].open ==> n.queues[q].frames == [])
    ensures Lives(n)
  {
    forall q | q in n.queues
      ensures n.queues[q].open <==> Awaited(n, q)
      ensures !n.queues[q].open ==> n.queues[q].frames == []
    {
      ReadStays(q, p.conns, conn, n.conns[conn]);
    }
  }

  lemma EndedReadsNothing(queue: nat, conns: map<nat, Conn>, conn: nat, c: Conn)
    requires EndsUnique(conns) && conn in conns && c.ends == conns[conn].ends && c.writer.Done?
    ensures ReadByConn(queue, conns[conn := c]) <==> ReadByConn(queue, conns) && queue != c.ends.inbox
  {
    var n := conns[conn := c];
    if ReadByConn(queue, conns) && queue != c.ends.inbox {
      var k :| k in conns && conns[k].ends.inbox == queue && !conns[k].writer.Done?;
      assert k in n && n[k].ends.inbox == queue && !n[k].writer.Done?;
    }
    if ReadByConn(queue, n) {
      var k :| k in n && n[k].ends.inbox == queue && !n[k].writer.Done?;
      assert k in conns && conns[k].ends.inbox == queue && !conns[k].writer.Done?;
    }
  }

  /** What a connection has was taken out of its room. */
  lemma TakenWaitsNowhere(p: Pipe, conn: nat)
    requires RoomsOk(p) && conn in p.conns
    ensures !WaitsInRoom(p.conns[conn].ends.inbox, p.hub.rooms)
  {
    forall s | s in p.hub.rooms ensures !Waits(p.hub.rooms[s], p.conns[conn].ends.inbox) {
      assert RoomOk(s, p.hub.rooms[s], p);
    }
  }

  /** A writing task that ends takes the receiving end with it. */
  lemma WriterEndKeepsLives(p: Pipe, conn: nat)
    requires EndsUnique(p.conns) && RoomsOk(p) && Lives(p) && conn in p.conns && p.conns[conn].ends.inbox in p.queues
    ensures var c := p.conns[conn];
            Lives(With(p, conn, c.(writer := Done), c.ends.inbox, Closed(p.queues[c.ends.inbox])))
  {
    var c := p.conns[conn].(writer := Done);
    TakenWaitsNowhere(p, conn);
    forall q ensures ReadByConn(q, p.conns[conn := c]) <==> ReadByConn(q, p.conns) && q != c.ends.inbox {
      EndedReadsNothing(q, p.conns, conn, c);
    }
  }

  lemma OpenedRooms(p: Pipe, session: string, q: nat)
    requires session !in p.hub.rooms
    ensures WaitsInRoom(q, Opened(p.hub, session).rooms) <==>
            WaitsInRoom(q, p.hub.rooms) || q == p.hub.nextQueue || q == p.hub.nextQueue + 1
  {
    var rooms := Opened(p.hub, session).rooms;
    if WaitsInRoom(q, p.hub.rooms) {
      var s :| s in p.hub.rooms && Waits(p.hub.rooms[s], q);
      assert s in rooms && Waits(rooms[s], q);
    }
    if q == p.hub.nextQueue || q == p.hub.nextQueue + 1 {
      assert session in rooms && Waits(rooms[session], q);
    }
    if WaitsInRoom(q, rooms) {
      var s :| s in rooms && Waits(rooms[s], q);
      if s != session {
        assert s in p.hub.rooms && Waits(p.hub.rooms[s], q);
      }
    }
  }

  lemma OpenKeepsLives(p: Pipe, session: string)
    requires Lives(p) && forall q :: q in p.queues ==> q < p.hub.nextQueue
    ensures Lives(p.(hub := Opened(p.hub, session), queues := OpenedQueues(p, session)))
  {
    if session !in p.hub.rooms {
      forall q ensures WaitsInRoom(q, Opened(p.hub, session).rooms) <==>
                       WaitsInRoom(q, p.hub.rooms) || q == p.hub.nextQueue || q == p.hub.nextQueue + 1
      {
        OpenedRooms(p, session, q);
      }
    }
  }

  /** The receiving end goes from the room to a connection that has just begun. */
  lemma TakeKeepsLives(p: Pipe, n: Pipe, conn: nat, c: Conn, session: string, role: Role)
    requires Lives(p) && session in p.hub.rooms && conn !in p.conns
    requires RoomsOk(p) && JoinEnds(p.hub, session, role).Some?
    requires n.queues == p.queues && n.hub == JoinHub(p.hub, session, role)
    requires n.conns == p.conns[conn := c] && c.writer.Ready?
    requires c.ends == JoinEnds(p.hub, session, role).value
    ensures Lives(n)
  {
    forall q | q in n.queues ensures Awaited(n, q) <==> Awaited(p, q) {
      assert RoomOk(session, p.hub.rooms[session], p);
      if q == c.ends.inbox {
        assert Waits(p.hub.rooms[session], q);
        assert conn in n.conns && n.conns[conn].ends.inbox == q && !n.conns[conn].writer.Done?;
      } else {
        TakeElsewhere(p, n, conn, c, session, role, q);
      }
    }
  }

  lemma TakeElsewhere(p: Pipe, n: Pipe, conn: nat, c: Conn, session: string, role: Role, q: nat)
    requires session in p.hub.rooms && conn !in p.conns && JoinEnds(p.hub, session, role).Some?
    requires n.hub == JoinHub(p.hub, session, role)
    requires n.conns == p.conns[conn := c]
    requires c.ends == JoinEnds(p.hub, session, role).value && c.ends.inbox != q
    ensures Awaited(n, q) <==> Awaited(p, q)
  {
    if ReadByConn(q, p.conns) {
      var k :| k in p.conns && p.conns[k].ends.inbox == q && !p.conns[k].writer.Done?;
      assert k in n.conns && n.conns[k].ends.inbox == q && !n.conns[k].writer.Done?;
    }
    if ReadByConn(q, n.conns) {
      var k :| k in n.conns && n.conns[k].ends.inbox == q && !n.conns[k].writer.Done?;
      assert k in p.conns && p.conns[k].ends.inbox == q && !p.conns[k].writer.Done?;
    }
    if WaitsInRoom(q, p.hub.rooms) {
      var s :| s in p.hub.rooms && Waits(p.hub.rooms[s], q);
      assert s in n.hub.rooms && Waits(n.hub.rooms[s], q);
    }
    if WaitsInRoom(q, n.hub.rooms) {
      var s :| s in n.hub.rooms && Waits(n.hub.rooms[s], q);
      assert s in p.hub.rooms && Waits(p.hub.rooms[s], q);
    }
  }

  lemma JoinKeepsLives(p: Pipe, conn: nat, session: string, role: Role, maxBytes: nat)
    requires Inv(p) && Lives(p) && conn !in p.conns
    ensures Lives(JoinPipe(p, conn, session, role, maxBytes))
  {
    var o := OpenPipe(p, session);
    OpenKeepsLives(p, session);
    OpenKeeps(p, session);
    assert RoomsOk(o);
    JoinOpened(p, o, conn, session, role, maxBytes);
  }

  lemma JoinOpened(p: Pipe, o: Pipe, conn: nat, session: string, role: Role, maxBytes: nat)
    requires o == OpenPipe(p, session) && RoomsOk(o) && Lives(o) && conn !in p.conns
    ensures Lives(JoinPipe(p, conn, session, role, maxBytes))
  {
    if JoinEnds(o.hub, session, role).Some? {
      var n := JoinPipe(p, conn, session, role, maxBytes);
      TakeKeepsLives(o, n, conn, n.conns[conn], session, role);
    } else {
      RefusedJoinOpens(p, conn, session, role, maxBytes);
    }
  }

  /** A refused connection leaves everything as opening the room did. */
  lemma RefusedJoinOpens(p: Pipe, conn: nat, session: string, role: Role, maxBytes: nat)
    requires JoinEnds(OpenPipe(p, session).hub, session, role).None?
    ensures JoinPipe(p, conn, session, role, maxBytes) == OpenPipe(p, session)
  {
    var o, n := OpenPipe(p, session), JoinPipe(p, conn, session, role, maxBytes);
    assert n.hub.rooms[session] == o.hub.rooms[session];
    assert n.hub.rooms == o.hub.rooms;
  }

  /** A receiving end left in a room goes with it. */
  lemma LeaveKeepsLives(p: Pipe, conn: nat)
    requires RoomsOk(p) && Lives(p) && conn in p.conns
    ensures Lives(LeavePipe(p, conn))
  {
    var n := LeavePipe(p, conn);
    var session := p.conns[conn].session;
    forall q ensures ReadByConn(q, n.conns) <==> ReadByConn(q, p.conns) {
      ReadStays(q, p.conns, conn, n.conns[conn]);
    }
    if session in p.hub.rooms {
      LeaveRoomKeepsLives(p, n, session);
    } else {
      assert n.hub.rooms == p.hub.rooms;
    }
  }

  lemma LeaveRoomKeepsLives(p: Pipe, n: Pipe, session: string)
    requires RoomsOk(p) && Lives(p) && session in p.hub.rooms
    requires n.hub.rooms == p.hub.rooms - {session} && n.queues == LeaveQueues(p, session)
    requires forall q :: ReadByConn(q, n.conns) <==> ReadByConn(q, p.conns)
    ensures Lives(n)
  {
    var room := p.hub.rooms[session];
    assert RoomOk(session, room, p);
    forall q | q in n.queues
      ensures n.queues[q].open <==> Awaited(n, q)
      ensures !n.queues[q].open ==> n.queues[q].frames == []
    {
      LeftRooms(p, session, q);
      if Waits(room, q) {
        assert !ReadByConn(q, p.conns);
        assert n.queues[q] == Closed(p.queues[q]);
      } else {
        assert n.queues[q] == p.queues[q];
      }
    }
  }

  lemma LeftRooms(p: Pipe, session: string, q: nat)
    requires RoomsOk(p) && session in p.hub.rooms && q in p.queues
    ensures WaitsInRoom(q, p.hub.rooms - {session}) <==>
            WaitsInRoom(q, p.hub.rooms) && !Waits(p.hub.rooms[session], q)
  {
    var left := p.hub.rooms - {session};
    assert RoomOk(session, p.hub.rooms[session], p);
    if WaitsInRoom(q, left) {
      var s :| s in left && Waits(left[s], q);
      assert RoomOk(s, p.hub.rooms[s], p);
      assert s in p.hub.rooms && Waits(p.hub.rooms[s], q);
    }
    if WaitsInRoom(q, p.hub.rooms) && !Waits(p.hub.rooms[session], q) {
      var s :| s in p.hub.rooms && Waits(p.hub.rooms[s], q);
      assert s in left && Waits(left[s], q);
    }
  }

  lemma StepKeepsLives(p: Pipe, e: Event)
    requires Inv(p) && Lives(p) && Enabled(p, e)
    ensures Lives(Next(p, e))
  {
    if e.Join? {
      JoinStepKeepsLives(p, e);
    } else if e.Leave? {
      LeaveStepKeepsLives(p, e);
    } else if e.DrainEnds? || e.StopWriter? {
      WriterStepKeepsLives(p, e);
    } else {
      OtherStepKeepsLives(p, e);
    }
  }

  lemma JoinStepKeepsLives(p: Pipe, e: Event)
    requires Inv(p) && Lives(p) && e.Join? && Enabled(p, e)
    ensures Lives(Next(p, e))
  {
    JoinKeepsLives(p, e.conn, e.session, e.role, e.maxBytes);
    assert Next(p, e) == JoinPipe(p, e.conn, e.session, e.role, e.maxBytes);
  }

  lemma LeaveStepKeepsLives(p: Pipe, e: Event)
    requires RoomsOk(p) && Lives(p) && e.Leave? && Enabled(p, e)
    ensures Lives(Next(p, e))
  {
    LeaveKeepsLives(p, e.conn);
    assert Next(p, e) == LeavePipe(p, e.conn);
  }

  lemma WriterStepKeepsLives(p: Pipe, e: Event)
    requires EndsUnique(p.conns) && RoomsOk(p) && Lives(p) && Enabled(p, e) && (e.DrainEnds? || e.StopWriter?)
    ensures Lives(Next(p, e))
  {
    WriterEndKeepsLives(p, e.conn);
  }

  /** The other steps of a task end no writing task and open or close no queue. */
  lemma OtherStepKeepsLives(p: Pipe, e: Event)
    requires Lives(p) && Enabled(p, e) && !e.Join? && !e.Leave? && !e.DrainEnds? && !e.StopWriter?
    ensures Lives(Next(p, e))
  {
    TaskStepKeeps(p, Next(p, e), e.conn);
  }

  lemma {:induction false} RunKeepsLives(p: Pipe, es: seq<Event>)
    requires Inv(p) && Lives(p) && Run(p, es).Some?
    ensures Lives(Run(p, es).value)
    decreases |es|
  {
    if es != [] {
      StepKeepsLives(p, es[0]);
      StepKeepsInv(p, es[0]);
      RunKeepsLives(Next(p, es[0]), es[1..]);
    }
  }

  // ---------- main results ----------

  /** A queue is open exactly while its receiving end exists, and a closed one holds nothing: what was queued
      for a connection is discarded when its writing task ends, and for a peer that never came when the room
      goes. */
  lemma OpenExactly(p: Pipe, queue: nat)
    requires Reachable(p) && queue in p.queues
    ensures p.queues[queue].open <==> Awaited(p, queue)
    ensures !p.queues[queue].open ==> p.queues[queue].frames == []
  {
    var es :| Run(START, es) == Some(p);
    ReachableInv(START) by {
      assert Run(START, []) == Some(START);
    }
    RunKeepsLives(START, es);
  }

  lemma HeldFrameMoves(p: Pipe, conn: nat)
    requires conn in p.conns && p.conns[conn].reader.Holding?
    requires p.conns[conn].ends.inbox in p.queues && p.conns[conn].ends.outbox in p.queues
    ensures var q := p.queues[p.conns[conn].ends.outbox];
            && (Enabled(p, Enqueue(conn)) <==> q.open && |q.frames| < 64)
            && (Enabled(p, EnqueueFails(conn)) <==> !q.open)
  {
  }

  lemma EndsHaveQueues(p: Pipe, conn: nat)
    requires ConnsOk(p) && conn in p.conns
    ensures p.conns[conn].ends.inbox in p.queues && p.conns[conn].ends.outbox in p.queues
  {
    assert SenderOk(p.conns[conn], p.queues) && ReceiverOk(p.conns[conn], p.queues);
  }

  /** What can happen to a frame a reading task holds: it is queued exactly while the receiving end exists and
      the queue has room, and sending it fails exactly once the receiving end is gone. */
  lemma SendingExactly(p: Pipe, conn: nat)
    requires Reachable(p) && conn in p.conns && p.conns[conn].reader.Holding?
    ensures var queue := p.conns[conn].ends.outbox;
            && queue in p.queues
            && (Enabled(p, Enqueue(conn)) <==> Awaited(p, queue) && |p.queues[queue].frames| < 64)
            && (Enabled(p, EnqueueFails(conn)) <==> !Awaited(p, queue))
  {
    ReachableInv(p);
    EndsHaveQueues(p, conn);
    HeldFrameMoves(p, conn);
    OpenExactly(p, p.conns[conn].ends.outbox);
  }
}
