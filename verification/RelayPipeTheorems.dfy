/** What holds of every run of the relay pipe. */
module RelayPipeTheorems {
  import opened Wrappers
  import opened RelayPipe
  import opened RelayPipeInvariant

  lemma DeliveredWasPushed(c: Conn, queues: map<nat, Queue>)
    requires ReceiverOk(c, queues) && QueueOk(queues[c.ends.inbox])
    ensures c.delivered <= queues[c.ends.inbox].pushed
  {
    var q := queues[c.ends.inbox];
    assert c.delivered <= c.delivered + Held(c.writer) <= q.popped;
    assert q.popped <= q.popped + q.frames;
  }

  lemma PushedWasAccepted(c: Conn, queues: map<nat, Queue>)
    requires SenderOk(c, queues)
    ensures queues[c.ends.outbox].pushed <= c.scan.accepted
  {
    var pushed := queues[c.ends.outbox].pushed;
    assert pushed <= pushed + Held(c.reader);
  }

  /** What is written to a connection's socket is an in-order prefix of what the reader of one other
      connection, the opposite role of the same session, accepted - whatever was aborted and when. */
  lemma DeliveredInOrder(p: Pipe, r: nat) returns (s: nat)
    requires Reachable(p) && r in p.conns && p.conns[r].delivered != []
    ensures s in p.conns && p.conns[s].session == p.conns[r].session && p.conns[s].role == Other(p.conns[r].role)
    ensures p.conns[r].delivered <= Scan(p.conns[s].read, p.conns[s].maxBytes).accepted
    ensures p.conns[s].ends.outbox == p.conns[r].ends.inbox
  {
    ReachableInv(p);
    var c := p.conns[r];
    assert ReceiverOk(c, p.queues) && QueueOk(p.queues[c.ends.inbox]);
    DeliveredWasPushed(c, p.queues);
    assert SentBySomeone(c.ends.inbox, p.conns);
    s :| s in p.conns && p.conns[s].ends.outbox == c.ends.inbox;
    assert SenderOk(p.conns[s], p.queues);
    PushedWasAccepted(p.conns[s], p.queues);
  }

  lemma {:induction false} PrefixFits(fs: seq<Frame>, all: seq<Frame>)
    requires fs <= all
    ensures TotalLen(fs) <= TotalLen(all)
    decreases |all|
  {
    if fs == all {
    } else {
      PrefixFits(fs, all[..|all| - 1]);
    }
  }

  /** The socket never gets more bytes than the sending connection's budget. */
  lemma DeliveredWithinBudget(p: Pipe, r: nat) returns (s: nat)
    requires Reachable(p) && r in p.conns && p.conns[r].delivered != []
    ensures s in p.conns && p.conns[s].ends.outbox == p.conns[r].ends.inbox
    ensures TotalLen(p.conns[r].delivered) <= p.conns[s].maxBytes
  {
    s := DeliveredInOrder(p, r);
    var sender := p.conns[s];
    PrefixFits(p.conns[r].delivered, Scan(sender.read, sender.maxBytes).accepted);
    AcceptedFits(sender.read, sender.maxBytes);
  }

  lemma QueuesStayBounded(p: Pipe, queue: nat)
    requires Reachable(p) && queue in p.queues
    ensures |p.queues[queue].frames| <= RELAY_QUEUE_CAPACITY
  {
    ReachableInv(p);
  }

  /** While neither task has ended no frame is lost, doubled or out of place: what was written, what the
      writer holds, what is queued and what the reader holds make up what the reader accepted. */
  lemma NothingLost(p: Pipe, s: nat, r: nat)
    requires Reachable(p) && s in p.conns && r in p.conns && p.conns[s].ends.outbox == p.conns[r].ends.inbox
    requires !p.conns[s].reader.Done? && !p.conns[r].writer.Done?
    ensures var queue := p.conns[r].ends.inbox;
            && queue in p.queues
            && p.conns[r].delivered + Held(p.conns[r].writer) + p.queues[queue].frames + Held(p.conns[s].reader)
               == Scan(p.conns[s].read, p.conns[s].maxBytes).accepted
  {
    ReachableInv(p);
    assert SenderOk(p.conns[s], p.queues) && ReceiverOk(p.conns[r], p.queues);
    assert QueueOk(p.queues[p.conns[r].ends.inbox]);
  }

  /** A writer that ends because its queue ran dry has written everything that was ever queued for it. */
  lemma DrainedIsComplete(p: Pipe, conn: nat)
    requires Reachable(p) && Enabled(p, DrainEnds(conn))
    ensures p.conns[conn].delivered == p.queues[p.conns[conn].ends.inbox].pushed
    ensures forall s :: s in p.conns && p.conns[s].ends.outbox == p.conns[conn].ends.inbox ==> p.conns[s].reader.Done?
  {
    ReachableInv(p);
    var c := p.conns[conn];
    assert ReceiverOk(c, p.queues);
    assert QueueOk(p.queues[c.ends.inbox]);
    assert c.delivered + [] == c.delivered && p.queues[c.ends.inbox].popped + [] == p.queues[c.ends.inbox].popped;
  }

  /** In any run no receiving end is handed out twice, and none is fed by two connections. */
  lemma HandedOutOnce(p: Pipe, a: nat, b: nat)
    requires Reachable(p) && a in p.conns && b in p.conns
    requires p.conns[a].ends.inbox == p.conns[b].ends.inbox || p.conns[a].ends.outbox == p.conns[b].ends.outbox
    ensures a == b
  {
    ReachableInv(p);
  }

  // ---------- who is refused ----------

  function EndOf(room: Room, role: Role): nat {
    match role
    case Source => room.toSource
    case Recipient => room.toRecipient
  }

  predicate IsTaken(room: Room, role: Role) {
    match role
    case Source => room.sourceTaken
    case Recipient => room.recipientTaken
  }

  /** A connection of that session and role, whose handler has not left, has the receiving end. */
  predicate Has(c: Conn, session: string, role: Role, inbox: nat) {
    c.session == session && c.role == role && !c.left && c.ends.inbox == inbox
  }

  ghost predicate Connected(session: string, role: Role, inbox: nat, conns: map<nat, Conn>) {
    exists c :: c in conns && Has(conns[c], session, role, inbox)
  }

  ghost predicate TakenOk(p: Pipe) {
    forall s, role :: s in p.hub.rooms && IsTaken(p.hub.rooms[s], role) ==>
      Connected(s, role, EndOf(p.hub.rooms[s], role), p.conns)
  }

  /** Whoever leaves takes the room along, so the connections of a room that stays have not left. */
  lemma ConnectedStays(session: string, role: Role, inbox: nat, p: Pipe, e: Event)
    requires Connected(session, role, inbox, p.conns) && Enabled(p, e)
    requires session in Next(p, e).hub.rooms
    ensures Connected(session, role, inbox, Next(p, e).conns)
  {
    var c :| c in p.conns && Has(p.conns[c], session, role, inbox);
    assert c in Next(p, e).conns && Has(Next(p, e).conns[c], session, role, inbox);
  }

  lemma StepKeepsTaken(p: Pipe, e: Event)
    requires TakenOk(p) && Enabled(p, e)
    ensures TakenOk(Next(p, e))
  {
    var n := Next(p, e);
    forall s, role | s in n.hub.rooms && IsTaken(n.hub.rooms[s], role)
      ensures Connected(s, role, EndOf(n.hub.rooms[s], role), n.conns)
    {
      if s in p.hub.rooms && IsTaken(p.hub.rooms[s], role) {
        ConnectedStays(s, role, EndOf(p.hub.rooms[s], role), p, e);
      } else {
        assert e.Join? && e.session == s && e.role == role;
        assert Has(n.conns[e.conn], s, role, EndOf(n.hub.rooms[s], role));
      }
    }
  }

  lemma {:induction false} RunKeepsTaken(p: Pipe, es: seq<Event>)
    requires TakenOk(p)
    ensures Run(p, es).Some? ==> TakenOk(Run(p, es).value)
    decreases |es|
  {
    if es != [] && Enabled(p, es[0]) {
      StepKeepsTaken(p, es[0]);
      RunKeepsTaken(Next(p, es[0]), es[1..]);
    }
  }

  /** A connection is refused exactly when one of its role and session, that has not left, has the end
      of the session's present room. */
  lemma RefusedExactly(p: Pipe, session: string, role: Role)
    requires Reachable(p) && session in p.hub.rooms
    ensures JoinEnds(p.hub, session, role).None?
            <==> Connected(session, role, EndOf(p.hub.rooms[session], role), p.conns)
  {
    var es :| Run(START, es) == Some(p);
    RunKeepsInv(START, es);
    RunKeepsTaken(START, es);
    assert RoomOk(session, p.hub.rooms[session], p);
  }

  lemma {:induction false} RunAppends(p: Pipe, es: seq<Event>, e: Event)
    requires Run(p, es).Some? && Enabled(Run(p, es).value, e)
    ensures Run(p, es + [e]) == Some(Next(Run(p, es).value, e))
    decreases |es|
  {
    if es == [] {
      assert Run(p, [e]) == Run(Next(p, e), []) by {
        assert [e][1..] == [];
      }
      assert es + [e] == [e];
    } else {
      assert (es + [e])[1..] == es[1..] + [e];
      RunAppends(Next(p, es[0]), es[1..], e);
    }
  }

  lemma ReachableStep(p: Pipe, e: Event)
    requires Reachable(p) && Enabled(p, e)
    ensures Reachable(Next(p, e))
  {
    var es :| Run(START, es) == Some(p);
    RunAppends(START, es, e);
  }

  /** One connection per role holds for a room, not for a session: when the connection `x` leaves, its
      session's room goes, and a newcomer gets the role of `a` while `a` goes on. */
  lemma LeavingFreesEveryRole(p: Pipe, a: nat, x: nat, newcomer: nat, maxBytes: nat) returns (n: Pipe)
    requires Reachable(p) && a in p.conns && x in p.conns && a != x && newcomer !in p.conns
    requires p.conns[a].session == p.conns[x].session && !p.conns[x].left
    ensures Reachable(n) && newcomer in n.conns && a in n.conns && n.conns[a] == p.conns[a]
    ensures n.conns[newcomer].session == p.conns[a].session && n.conns[newcomer].role == p.conns[a].role
    ensures n.conns[newcomer].reader.Ready? && n.conns[newcomer].writer.Ready? && !n.conns[newcomer].left
  {
    var p1 := LeaveNext(p, x);
    assert p.conns[a].session !in p1.hub.rooms;
    n := JoinNext(p1, newcomer, p.conns[a].session, p.conns[a].role, maxBytes);
  }

  lemma RoleTwicePerSession(session: string, maxBytes: nat) returns (p: Pipe, a: nat, b: nat)
    ensures Reachable(p) && a in p.conns && b in p.conns && a != b
    ensures forall c :: c in {a, b} ==>
              && p.conns[c].session == session && p.conns[c].role == Source && !p.conns[c].left
              && p.conns[c].reader.Ready? && p.conns[c].writer.Ready?
  {
    assert Run(START, []) == Some(START);
    var p1 := JoinNext(START, 0, session, Source, maxBytes);
    var p2 := JoinNext(p1, 1, session, Recipient, maxBytes);
    p := LeavingFreesEveryRole(p2, 0, 1, 2, maxBytes);
    a, b := 0, 2;
  }

  lemma JoinNext(p: Pipe, conn: nat, session: string, role: Role, maxBytes: nat) returns (n: Pipe)
    requires Reachable(p) && conn !in p.conns
    requires JoinEnds(Opened(p.hub, session), session, role).Some?
    ensures Reachable(n)
    ensures n.hub == JoinHub(p.hub, session, role)
    ensures conn in n.conns && n.conns == p.conns[conn := n.conns[conn]]
    ensures var c := n.conns[conn];
            c.session == session && c.role == role && !c.left && c.reader.Ready? && c.writer.Ready?
  {
    n := Next(p, Join(conn, session, role, maxBytes));
    ReachableStep(p, Join(conn, session, role, maxBytes));
  }

  lemma AbortNext(p: Pipe, e: Event)
    requires Reachable(p) && e.conn in p.conns
             && (e.StopReader? || e.StopWriter? || (e.Leave? && !p.conns[e.conn].left))
    ensures Enabled(p, e) && Reachable(Next(p, e))
  {
    ReachableInv(p);
    assert SenderOk(p.conns[e.conn], p.queues) && ReceiverOk(p.conns[e.conn], p.queues);
    ReachableStep(p, e);
  }

  /** Both tasks are aborted, then the handler leaves. */
  lemma LeaveNext(p: Pipe, conn: nat) returns (n: Pipe)
    requires Reachable(p) && conn in p.conns && !p.conns[conn].left
    ensures Reachable(n)
    ensures n.hub == p.hub.(rooms := p.hub.rooms - {p.conns[conn].session})
    ensures n.conns.Keys == p.conns.Keys && forall c :: c in p.conns && c != conn ==> n.conns[c] == p.conns[c]
  {
    AbortNext(p, StopReader(conn));
    var p1 := Next(p, StopReader(conn));
    AbortNext(p1, StopWriter(conn));
    var p2 := Next(p1, StopWriter(conn));
    AbortNext(p2, Leave(conn));
    n := Next(p2, Leave(conn));
  }
}
