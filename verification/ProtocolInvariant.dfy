/** Every step of the system keeps the invariant of `Protocol`. */
module ProtocolInvariant {
  import opened Options
  import opened Clocks
  import opened Crdt
  import opened Convergence
  import opened Replicas
  import opened Messages
  import opened Sessions
  import opened Hubs
  import opened Protocol

  // ----- What a step keeps when it only adds

  /** Owners keep their connections, clients keep their rooms and lose nothing they know. */
  ghost predicate Keeps(s: System, t: System) {
    && s.clients.Keys == t.clients.Keys
    && (forall conn | conn in s.owner :: conn in t.owner && t.owner[conn] == s.owner[conn])
    && (forall r | r in s.clients :: t.clients[r].room == s.clients[r].room && s.clients[r].known <= t.clients[r].known)
    && s.issued <= t.issued
  }

  lemma GoingUpKept(s: System, t: System)
    requires Keeps(s, t)
    requires forall p | p in s.up && p.msg.Ops? :: p in t.up
    ensures forall r, op :: GoingUp(s, r, op) ==> GoingUp(t, r, op)
  {
    forall r, op | GoingUp(s, r, op)
      ensures GoingUp(t, r, op)
    {
      var p :| p in s.up && p.conn in s.owner && s.owner[p.conn] == r && p.msg.Ops? && op in p.msg.ops;
      assert p in t.up;
    }
  }

  /** A client whose document is not touched stays good. */
  lemma ClientKept(s: System, t: System, r: ReplicaId)
    requires Keeps(s, t) && r in s.clients && ClientOk(s, r) && Accounted(s, r)
    requires var c, d := s.clients[r], t.clients[r];
             d == c.(conn := d.conn) && (d.conn.Some? ==> d.conn.value in t.owner && t.owner[d.conn.value] == r)
    requires AdmittedTo(s, s.clients[r].room) <= AdmittedTo(t, s.clients[r].room)
    requires forall op :: GoingUp(s, r, op) ==> GoingUp(t, r, op)
    ensures ClientOk(t, r) && Accounted(t, r)
  {
  }

  lemma UpKept(s: System, t: System)
    requires UpsOk(s) && Keeps(s, t)
    ensures forall p | p in s.up :: UpOk(t, p)
  {
    forall p | p in s.up
      ensures UpOk(t, p)
    {
      assert UpOk(s, p);
    }
  }

  lemma DownKept(s: System, t: System)
    requires DownsOk(s) && Keeps(s, t)
    requires forall name :: AdmittedTo(s, name) <= AdmittedTo(t, name)
    ensures forall d | d in s.down :: DownOk(t, d)
  {
    forall d | d in s.down
      ensures DownOk(t, d)
    {
      assert DownOk(s, d);
    }
  }

  lemma StampsKept(s: System, t: System)
    requires StampsOk(s) && Keeps(s, t)
    requires forall r | r in s.clients ::
               s.clients[r].session.replica.clock.lamport <= t.clients[r].session.replica.clock.lamport
    ensures forall op | op in s.issued :: StampOk(t, op)
  {
    forall op | op in s.issued
      ensures StampOk(t, op)
    {
      assert StampOk(s, op);
    }
  }

  /** What was on its way to a client's current socket has arrived, is still coming, or the socket was given up. */
  ghost predicate StillServed(s: System, t: System, r: ReplicaId)
    requires r in s.clients && r in t.clients
  {
    t.clients[r].conn.Some? && t.clients[r].conn.value in s.owner ==>
      && t.clients[r].conn == s.clients[r].conn
      && forall op | GoingDown(s, s.clients[r].conn.value, op) ::
           op in t.clients[r].known || GoingDown(t, s.clients[r].conn.value, op)
  }

  /** Steps that leave the hub alone keep its part of the invariant. */
  lemma SameHub(s: System, t: System)
    requires RoutesOk(s) && RoomsOk(s) && Keeps(s, t)
    requires t.hub == s.hub && t.admitted == s.admitted
    requires forall r | r in s.clients :: StillServed(s, t, r)
    ensures RoutesOk(t) && RoomsOk(t)
  {
    forall conn | conn in t.hub.connRoom
      ensures RouteOk(t, conn)
    {
      assert RouteOk(s, conn);
    }
    forall name
      ensures RoomOk(t, name)
    {
      assert RoomOk(s, name);
      forall m | m in RoomOf(t.hub, name).members
        ensures MemberOk(t, name, m) && Served(t, name, m)
      {
        MemberKept(s, t, name, m);
      }
    }
  }

  lemma MemberKept(s: System, t: System, name: string, m: Member)
    requires Keeps(s, t) && AdmittedTo(t, name) == AdmittedTo(s, name)
    requires MemberOk(s, name, m) && Served(s, name, m) && StillServed(s, t, m.replica)
    ensures MemberOk(t, name, m) && Served(t, name, m)
  {
  }

  /** A step of one client: the hub is untouched, messages already sent stay, at most one good one is added. */
  ghost predicate ClientStep(s: System, t: System, extra: multiset<UpPacket>) {
    && Keeps(s, t) && t.hub == s.hub && t.admitted == s.admitted
    && t.up == s.up + extra && (forall p | p in extra :: UpOk(t, p))
    && t.down <= s.down
    && forall r | r in s.clients :: StillServed(s, t, r)
  }

  lemma ClientStepKeeps(s: System, t: System, extra: multiset<UpPacket>)
    requires UpsOk(s) && DownsOk(s) && RoutesOk(s) && RoomsOk(s) && ClientStep(s, t, extra)
    ensures UpsOk(t) && DownsOk(t) && RoutesOk(t) && RoomsOk(t)
  {
    SameHub(s, t);
    UpKept(s, t);
    DownKept(s, t);
  }

  // ----- Client steps

  lemma EditKeepsInv(auth: Authenticator, s: System, r: ReplicaId, op: Op)
    requires Inv(s) && Enabled(s, Edit(r, op))
    ensures Inv(Step(auth, s, Edit(r, op)))
  {
    EditClients(auth, s, r, op);
    EditStamps(auth, s, r, op);
    EditIsClientStep(auth, s, r, op);
    ClientStepKeeps(s, Step(auth, s, Edit(r, op)), multiset{});
  }

  lemma EditIsClientStep(auth: Authenticator, s: System, r: ReplicaId, op: Op)
    requires ClientsOk(s) && Enabled(s, Edit(r, op))
    ensures ClientStep(s, Step(auth, s, Edit(r, op)), multiset{})
  {
  }

  lemma EditStamps(auth: Authenticator, s: System, r: ReplicaId, op: Op)
    requires ClientsOk(s) && StampsOk(s) && Enabled(s, Edit(r, op))
    ensures StampsOk(Step(auth, s, Edit(r, op)))
  {
    assert ClientOk(s, r);
    StampsKept(s, Step(auth, s, Edit(r, op)));
    FreshStamp(s, r, op);
  }

  lemma EditClients(auth: Authenticator, s: System, r: ReplicaId, op: Op)
    requires ClientsOk(s) && Enabled(s, Edit(r, op))
    ensures ClientsOk(Step(auth, s, Edit(r, op)))
  {
    var t := Step(auth, s, Edit(r, op));
    GoingUpKept(s, t);
    forall q | q in t.clients
      ensures ClientOk(t, q) && Accounted(t, q)
    {
      assert ClientOk(s, q) && Accounted(s, q);
      if q == r {
        EditedClient(auth, s, r, op);
      } else {
        ClientKept(s, t, q);
      }
    }
  }

  lemma EditedClient(auth: Authenticator, s: System, r: ReplicaId, op: Op)
    requires ClientsOk(s) && Enabled(s, Edit(r, op))
    ensures var t := Step(auth, s, Edit(r, op)); ClientOk(t, r) && Accounted(t, r)
  {
    var t := Step(auth, s, Edit(r, op));
    var c := s.clients[r];
    assert ClientOk(s, r) && Accounted(s, r);
    ApplyDenotes(c.session.replica.doc, c.known, op);
    assert SetOf(c.session.pending + [op]) == SetOf(c.session.pending) + {op};
    GoingUpKept(s, t);
  }

  /** A local edit ticks the clock, so its stamp was never issued before. */
  lemma FreshStamp(s: System, r: ReplicaId, op: Op)
    requires ClientsOk(s) && StampsOk(s) && Enabled(s, Edit(r, op))
    ensures UniqueStamps(s.issued + {op})
  {
    assert ClientOk(s, r);
    forall o | o in s.issued && o.StampOf().Some?
      ensures o.StampOf() != op.StampOf()
    {
      assert StampOk(s, o);
    }
  }

  lemma FlushClients(auth: Authenticator, s: System, r: ReplicaId)
    requires ClientsOk(s) && Enabled(s, Flush(r))
    ensures ClientsOk(Step(auth, s, Flush(r)))
  {
    var t := Step(auth, s, Flush(r));
    var packet := Up(s.clients[r].conn.value, Ops(s.clients[r].session.pending));
    assert ClientOk(s, r);
    GoingUpKept(s, t);
    forall q | q in t.clients
      ensures ClientOk(t, q) && Accounted(t, q)
    {
      assert ClientOk(s, q) && Accounted(s, q);
      if q == r {
        assert packet in t.up;
        assert forall op | op in s.clients[r].session.pending :: GoingUp(t, r, op);
      } else {
        ClientKept(s, t, q);
      }
    }
  }

  lemma FlushKeepsInv(auth: Authenticator, s: System, r: ReplicaId)
    requires Inv(s) && Enabled(s, Flush(r))
    ensures Inv(Step(auth, s, Flush(r)))
  {
    hide ClientStep, GoingUp, GoingDown;
    var t := Step(auth, s, Flush(r));
    var packet := Up(s.clients[r].conn.value, Ops(s.clients[r].session.pending));
    FlushClients(auth, s, r);
    FlushIsClientStep(auth, s, r);
    StampsKept(s, t);
    ClientStepKeeps(s, t, multiset{packet});
  }

  lemma FlushIsClientStep(auth: Authenticator, s: System, r: ReplicaId)
    requires ClientsOk(s) && Enabled(s, Flush(r))
    ensures ClientStep(s, Step(auth, s, Flush(r)),
                       multiset{Up(s.clients[r].conn.value, Ops(s.clients[r].session.pending))})
  {
    assert ClientOk(s, r);
  }

  /** The message a connecting, asking or disconnecting client sends. */
  function SocketMessage(s: System, a: Action): UpPacket
    requires (a.Connect? || a.Ask? || a.Disconnect?) && a.r in s.clients && (!a.Connect? ==> s.clients[a.r].conn.Some?)
  {
    match a
    case Connect(r, conn, token, name) => Up(conn, Join(s.clients[r].room, token, r, name))
    case Ask(r, msg) => Up(s.clients[r].conn.value, msg)
    case _ => Up(s.clients[a.r].conn.value, Leave)
  }

  lemma SocketClients(auth: Authenticator, s: System, a: Action)
    requires ClientsOk(s) && Enabled(s, a) && (a.Connect? || a.Ask? || a.Disconnect?)
    ensures ClientsOk(Step(auth, s, a))
  {
    hide Denotes, Session.AfterMessage;
    var t := Step(auth, s, a);
    GoingUpKept(s, t);
    forall q | q in t.clients
      ensures ClientOk(t, q) && Accounted(t, q)
    {
      assert ClientOk(s, q) && Accounted(s, q);
      ClientKept(s, t, q);
    }
  }

  lemma SocketIsClientStep(auth: Authenticator, s: System, a: Action)
    requires ClientsOk(s) && Enabled(s, a) && (a.Connect? || a.Ask? || a.Disconnect?)
    ensures ClientStep(s, Step(auth, s, a), multiset{SocketMessage(s, a)})
  {
    var t := Step(auth, s, a);
    assert ClientOk(s, a.r);
    assert UpOk(t, SocketMessage(s, a));
    forall q | q in s.clients
      ensures StillServed(s, t, q)
    {
      assert ClientOk(s, q);
    }
  }

  lemma SocketStamps(auth: Authenticator, s: System, a: Action)
    requires StampsOk(s) && Enabled(s, a) && (a.Connect? || a.Ask? || a.Disconnect?)
    ensures StampsOk(Step(auth, s, a))
  {
    StampsKept(s, Step(auth, s, a));
  }

  /** Connecting, asking and disconnecting only add one message without operations and switch the socket. */
  lemma SocketKeepsInv(auth: Authenticator, s: System, a: Action)
    requires Inv(s) && Enabled(s, a) && (a.Connect? || a.Ask? || a.Disconnect?)
    ensures Inv(Step(auth, s, a))
  {
    SocketClients(auth, s, a);
    SocketIsClientStep(auth, s, a);
    SocketStamps(auth, s, a);
    ClientStepKeeps(s, Step(auth, s, a), multiset{SocketMessage(s, a)});
  }

  // ----- Delivery to a client

  lemma SessionGains(session: Session, known: set<Op>, d: DownPacket)
    requires Denotes(session.replica.doc, known)
    requires match d.out.message
             case OpsFrom(_, ops) => d.carries == SetOf(ops)
             case Welcome(_, snapshot, _) => Denotes(snapshot, d.carries)
             case Snapshot(snapshot) => Denotes(snapshot, d.carries)
             case _ => d.carries == {}
    ensures var after := session.AfterMessage(d.out.message);
            && Denotes(after.replica.doc, known + d.carries)
            && after.replica.Id() == session.replica.Id()
            && session.replica.clock.lamport <= after.replica.clock.lamport
            && after.pending == session.pending
  {
    match d.out.message {
      case OpsFrom(_, ops) =>
        ReceivedAllDoc(session.replica, ops);
        ReplayDenotes(session.replica.doc, known, ops);
      case Welcome(_, snapshot, _) =>
        JoinDenotes(session.replica.doc, snapshot, known, d.carries);
      case Snapshot(snapshot) =>
        JoinDenotes(session.replica.doc, snapshot, known, d.carries);
      case _ =>
        assert known + d.carries == known;
    }
  }

  /** A delivery touches the receiving client only, if its socket is still the current one. */
  lemma DeliveryTouches(auth: Authenticator, s: System, d: DownPacket)
    requires Enabled(s, Deliver(d))
    ensures var t, r := Step(auth, s, Deliver(d)), s.owner[d.out.to];
            && Keeps(s, t) && t.up == s.up && t.owner == s.owner && t.admitted == s.admitted
            && forall q | q in s.clients && !(q == r && s.clients[r].conn == Some(d.out.to)) :: t.clients[q] == s.clients[q]
  {
    hide Session.AfterMessage;
  }

  lemma DeliverClients(auth: Authenticator, s: System, d: DownPacket)
    requires Inv(s) && Enabled(s, Deliver(d))
    ensures ClientsOk(Step(auth, s, Deliver(d)))
  {
    DeliveryTouches(auth, s, d);
    hide Step, Denotes, GoingDown;
    var t := Step(auth, s, Deliver(d));
    var r := s.owner[d.out.to];
    GoingUpKept(s, t);
    forall q | q in t.clients
      ensures ClientOk(t, q) && Accounted(t, q)
    {
      assert ClientOk(s, q) && Accounted(s, q);
      if q == r && s.clients[r].conn == Some(d.out.to) {
        ReceivingClient(auth, s, d);
      } else {
        ClientKept(s, t, q);
      }
    }
  }

  /** A delivery moves no clock back and forgets nothing. */
  lemma DeliveryAdvances(auth: Authenticator, s: System, d: DownPacket)
    requires ClientsOk(s) && DownsOk(s) && Enabled(s, Deliver(d))
    ensures var t := Step(auth, s, Deliver(d));
            && Keeps(s, t)
            && forall r | r in s.clients ::
                 s.clients[r].session.replica.clock.lamport <= t.clients[r].session.replica.clock.lamport
  {
    hide Denotes, Accounted, GoingUp, Session.AfterMessage;
    var r := s.owner[d.out.to];
    assert DownOk(s, d) && ClientOk(s, r);
    SessionGains(s.clients[r].session, s.clients[r].known, d);
  }

  lemma DeliverStamps(auth: Authenticator, s: System, d: DownPacket)
    requires ClientsOk(s) && DownsOk(s) && StampsOk(s) && Enabled(s, Deliver(d))
    ensures StampsOk(Step(auth, s, Deliver(d)))
  {
    DeliveryAdvances(auth, s, d);
    hide StampOk, ClientsOk, DownsOk, Denotes, Session.AfterMessage;
    StampsKept(s, Step(auth, s, Deliver(d)));
  }

  lemma DeliverIsClientStep(auth: Authenticator, s: System, d: DownPacket)
    requires ClientsOk(s) && Enabled(s, Deliver(d))
    ensures ClientStep(s, Step(auth, s, Deliver(d)), multiset{})
  {
    var t := Step(auth, s, Deliver(d));
    forall q | q in s.clients
      ensures StillServed(s, t, q)
    {
      DeliverStillServed(auth, s, d, q);
    }
  }

  lemma DeliverKeepsInv(auth: Authenticator, s: System, d: DownPacket)
    requires Inv(s) && Enabled(s, Deliver(d))
    ensures Inv(Step(auth, s, Deliver(d)))
  {
    DeliverClients(auth, s, d);
    DeliverStamps(auth, s, d);
    DeliverIsClientStep(auth, s, d);
    ClientStepKeeps(s, Step(auth, s, Deliver(d)), multiset{});
  }

  lemma DeliverStillServed(auth: Authenticator, s: System, d: DownPacket, q: ReplicaId)
    requires ClientsOk(s) && Enabled(s, Deliver(d)) && q in s.clients
    ensures StillServed(s, Step(auth, s, Deliver(d)), q)
  {
    var t := Step(auth, s, Deliver(d));
    assert ClientOk(s, q);
    if s.clients[q].conn.Some? {
      var conn := s.clients[q].conn.value;
      forall op | GoingDown(s, conn, op)
        ensures op in t.clients[q].known || GoingDown(t, conn, op)
      {
        var e :| e in s.down && e.out.to == conn && op in e.carries;
        assert e != d ==> e in t.down;
      }
    }
  }

  lemma ReceivingClient(auth: Authenticator, s: System, d: DownPacket)
    requires Inv(s) && Enabled(s, Deliver(d)) && s.clients[s.owner[d.out.to]].conn == Some(d.out.to)
    ensures var t, r := Step(auth, s, Deliver(d)), s.owner[d.out.to]; ClientOk(t, r) && Accounted(t, r)
  {
    var t := Step(auth, s, Deliver(d));
    var r := s.owner[d.out.to];
    assert DownOk(s, d) && ClientOk(s, r) && Accounted(s, r) && RoomOk(s, s.clients[r].room);
    SessionGains(s.clients[r].session, s.clients[r].known, d);
    GoingUpKept(s, t);
  }

  // ----- The hub takes a message

  lemma RecordedClients(s: System, p: UpPacket)
    requires ClientsOk(s) && UpsOk(s) && RoutesOk(s) && p in s.up && Routed(s.hub)
    ensures ClientsOk(Recorded(s, p))
  {
    var t := Recorded(s, p);
    assert UpOk(s, p);
    forall r | r in t.clients
      ensures ClientOk(t, r) && Accounted(t, r)
    {
      assert ClientOk(s, r) && Accounted(s, r);
      RecordedAccounted(s, p, r);
    }
  }

  /** The operations the hub takes move from "going up" to admitted or to refused. */
  lemma RecordedAccounted(s: System, p: UpPacket, r: ReplicaId)
    requires RoutesOk(s) && p in s.up && Routed(s.hub) && UpOk(s, p)
    requires r in s.clients && Accounted(s, r)
    ensures Accounted(Recorded(s, p), r)
  {
    var t := Recorded(s, p);
    var room := s.clients[r].room;
    assert p.conn in s.hub.connRoom ==> RouteOk(s, p.conn);
    forall op | op in s.clients[r].known && GoingUp(s, r, op)
      ensures op in AdmittedTo(t, room) || GoingUp(t, r, op) || op in t.clients[r].refused
    {
      var q :| q in s.up && q.conn in s.owner && s.owner[q.conn] == r && q.msg.Ops? && op in q.msg.ops;
      if q == p {
        assert op in SetOf(p.msg.ops);
      } else {
        assert q in t.up;
      }
    }
  }

  lemma RecordedStamps(s: System, p: UpPacket)
    requires StampsOk(s) && Routed(s.hub)
    ensures StampsOk(Recorded(s, p))
  {
    StampsKept(s, Recorded(s, p));
  }

  /** The client-side parts of the invariant do not look at the hub or at messages on their way down. */
  lemma HubSideIrrelevant(s: System, t: System)
    requires ClientsOk(s) && StampsOk(s)
    requires t == s.(hub := t.hub, down := t.down)
    ensures ClientsOk(t) && StampsOk(t)
  {
    StampsKept(s, t);
    GoingUpKept(s, t);
    forall r | r in t.clients
      ensures ClientOk(t, r) && Accounted(t, r)
    {
      assert ClientOk(s, r) && Accounted(s, r);
      ClientKept(s, t, r);
    }
  }

  lemma HubClients(auth: Authenticator, s: System, p: UpPacket)
    requires ClientsOk(s) && UpsOk(s) && RoutesOk(s) && StampsOk(s) && Enabled(s, HubTakes(p))
    ensures ClientsOk(AfterHub(auth, s, p)) && StampsOk(AfterHub(auth, s, p))
  {
    RecordedClients(s, p);
    RecordedStamps(s, p);
    HubSideIrrelevant(Recorded(s, p), AfterHub(auth, s, p));
  }

  lemma RecordedKeeps(s: System, p: UpPacket)
    requires Routed(s.hub)
    ensures Keeps(s, Recorded(s, p)) && Recorded(s, p).up == s.up - multiset{p} && Recorded(s, p).owner == s.owner
  {
  }

  lemma HubKeeps(auth: Authenticator, s: System, p: UpPacket)
    requires Enabled(s, HubTakes(p))
    ensures Keeps(s, AfterHub(auth, s, p)) && AfterHub(auth, s, p).up <= s.up && AfterHub(auth, s, p).owner == s.owner
    ensures AfterHub(auth, s, p).hub == Handle(auth, s.hub, p.conn, p.msg).hub
  {
    RecordedKeeps(s, p);
    hide Recorded, Handle, Packets;
  }

  lemma HubUps(auth: Authenticator, s: System, p: UpPacket)
    requires UpsOk(s) && Enabled(s, HubTakes(p))
    ensures UpsOk(AfterHub(auth, s, p))
  {
    HubKeeps(auth, s, p);
    hide AfterHub, UpOk;
    UpKept(s, AfterHub(auth, s, p));
  }

  /** The messages the hub sends go to the asking connection or to members of its room. */
  lemma RecipientInTarget(auth: Authenticator, h: Hub, conn: ConnId, msg: ClientMessage, o: Outbound)
    requires Routed(h) && o in Handle(auth, h, conn, msg).out
    ensures o.to == conn || (conn in h.connRoom && !msg.Join?
                             && exists m :: m in h.rooms[h.connRoom[conn]].members && m.conn == o.to)
  {
    match msg {
      case Leave =>
        if conn in h.connRoom {
          var ms := h.rooms[h.connRoom[conn]].members;
          assert forall m | m in WithoutConn(ms, conn) :: m in ms;
        }
      case _ =>
    }
  }

  lemma RepliesCarry(auth: Authenticator, h: Hub, conn: ConnId, msg: ClientMessage, o: Outbound)
    requires Routed(h) && o in Handle(auth, h, conn, msg).out
    ensures match o.message
            case OpsFrom(_, ops) => msg == Ops(ops) && MayEdit(h, conn)
            case Welcome(_, snapshot, _) => msg.Join? && o.to == conn && snapshot == RoomOf(h, msg.room).doc
            case Snapshot(snapshot) => conn in h.connRoom && o.to == conn && !msg.Join? && snapshot == h.rooms[h.connRoom[conn]].doc
            case _ => true
  {
  }

  lemma HubDown(auth: Authenticator, s: System, p: UpPacket, o: Outbound)
    requires UpsOk(s) && RoutesOk(s) && RoomsOk(s) && Enabled(s, HubTakes(p))
    requires o in Handle(auth, s.hub, p.conn, p.msg).out
    ensures DownOk(AfterHub(auth, s, p), Down(o, Carried(o, AdmittedTo(s, Target(s.hub, p.conn, p.msg)))))
  {
    var t := AfterHub(auth, s, p);
    var name := Target(s.hub, p.conn, p.msg);
    assert UpOk(s, p) && RoomOk(s, name);
    RecipientInTarget(auth, s.hub, p.conn, p.msg, o);
    RepliesCarry(auth, s.hub, p.conn, p.msg, o);
    if p.conn in s.hub.connRoom {
      assert RouteOk(s, p.conn);
      if o.to != p.conn {
        var m :| m in s.hub.rooms[name].members && m.conn == o.to;
        assert MemberOk(s, name, m);
      }
    }
  }

  /** What was on its way down before the message was handled is still fine. */
  lemma RecordedDowns(s: System, p: UpPacket)
    requires DownsOk(s) && Routed(s.hub)
    ensures forall d | d in s.down :: DownOk(Recorded(s, p), d)
  {
    RecordedKeeps(s, p);
    hide DownOk, Keeps;
    DownKept(s, Recorded(s, p));
  }

  lemma HubDowns(auth: Authenticator, s: System, p: UpPacket)
    requires UpsOk(s) && DownsOk(s) && RoutesOk(s) && RoomsOk(s) && Enabled(s, HubTakes(p))
    ensures DownsOk(AfterHub(auth, s, p))
  {
    var t := AfterHub(auth, s, p);
    var roomOps := AdmittedTo(s, Target(s.hub, p.conn, p.msg));
    RecordedDowns(s, p);
    forall d | d in t.down
      ensures DownOk(t, d)
    {
      if d in s.down {
        assert DownOk(Recorded(s, p), d);
      } else {
        assert d in Packets(Handle(auth, s.hub, p.conn, p.msg).out, roomOps);
        HubDown(auth, s, p, d.out);
      }
    }
  }

  lemma HubRoutes(auth: Authenticator, s: System, p: UpPacket)
    requires UpsOk(s) && RoutesOk(s) && Enabled(s, HubTakes(p))
    ensures RoutesOk(AfterHub(auth, s, p))
  {
    var t := AfterHub(auth, s, p);
    HubKeeps(auth, s, p);
    assert UpOk(s, p);
    hide AfterHub, Handle, SetOf;
    forall conn | conn in t.hub.connRoom
      ensures RouteOk(t, conn)
    {
      RoutesAfter(auth, s.hub, p.conn, p.msg, conn);
      assert conn in s.hub.connRoom ==> RouteOk(s, conn);
    }
  }

  lemma RoutesAfter(auth: Authenticator, h: Hub, conn: ConnId, msg: ClientMessage, other: ConnId)
    requires Routed(h) && other in Handle(auth, h, conn, msg).hub.connRoom
    ensures var after := Handle(auth, h, conn, msg).hub;
            if msg.Join? && other == conn && auth(msg.room, msg.token).Some? then after.connRoom[other] == msg.room
            else other in h.connRoom && after.connRoom[other] == h.connRoom[other]
  {
  }

  lemma HubDocs(auth: Authenticator, s: System, p: UpPacket, name: string)
    requires ClientsOk(s) && UpsOk(s) && RoomOk(s, name) && Enabled(s, HubTakes(p))
    ensures var t := AfterHub(auth, s, p);
            Denotes(RoomOf(t.hub, name).doc, AdmittedTo(t, name)) && AdmittedTo(t, name) <= t.issued
  {
    var t := AfterHub(auth, s, p);
    DocStep(auth, s.hub, p.conn, p.msg, name);
    assert UpOk(s, p) && ClientOk(s, s.owner[p.conn]);
    if p.msg.Ops? && MayEdit(s.hub, p.conn) && s.hub.connRoom[p.conn] == name {
      ReplayDenotes(RoomOf(s.hub, name).doc, AdmittedTo(s, name), p.msg.ops);
    }
  }

  /** Who is listed after a message: members of before, possibly with another level, and whoever just joined. */
  lemma MembersAfter(auth: Authenticator, h: Hub, conn: ConnId, msg: ClientMessage, name: string, m: Member)
    requires Routed(h) && m in RoomOf(Handle(auth, h, conn, msg).hub, name).members
    ensures (exists o :: o in RoomOf(h, name).members && o.conn == m.conn && o.replica == m.replica)
            || (msg.Join? && auth(msg.room, msg.token).Some? && name == msg.room && m.conn == conn && m.replica == msg.replica)
  {
    if name != Target(h, conn, msg) {
      OnlyTargetChanges(auth, h, conn, msg, name);
    } else if msg.SetAccess? && conn in h.connRoom {
      var ms := h.rooms[name].members;
      if m !in ms {
        var r := WithLevel(ms, msg.subject, msg.level);
        var i :| 0 <= i < |r| && r[i] == m;
        assert ms[i] in ms;
      }
    }
  }

  /** Admitted operations are sent to every other member; a join is answered with the room's document. */
  lemma EverybodyIsTold(auth: Authenticator, h: Hub, conn: ConnId, msg: ClientMessage, m: Member)
    requires Routed(h)
    ensures msg.Ops? && MayEdit(h, conn) && m in h.rooms[h.connRoom[conn]].members && m.conn != conn ==>
              exists o :: o in Handle(auth, h, conn, msg).out && o.to == m.conn && o.message.OpsFrom? && o.message.ops == msg.ops
    ensures msg.Join? && auth(msg.room, msg.token).Some? ==>
              exists o :: o in Handle(auth, h, conn, msg).out && o.to == conn && o.message.Welcome?
  {
    if msg.Ops? && MayEdit(h, conn) {
      var ms := h.rooms[h.connRoom[conn]].members;
      var from := FindMember(ms, conn).value.replica;
      if m in ms && m.conn != conn {
        assert m.conn in OtherConns(ms, conn);
        assert Outbound(m.conn, OpsFrom(from, msg.ops)) in Handle(auth, h, conn, msg).out;
      }
    }
    if msg.Join? && auth(msg.room, msg.token).Some? {
      assert Handle(auth, h, conn, msg).out[0] in Handle(auth, h, conn, msg).out;
    }
  }

  lemma HubMember(auth: Authenticator, s: System, p: UpPacket, name: string, m: Member)
    requires UpsOk(s) && RoomOk(s, name) && Enabled(s, HubTakes(p))
    requires m in RoomOf(AfterHub(auth, s, p).hub, name).members
    ensures MemberOk(AfterHub(auth, s, p), name, m) && Served(AfterHub(auth, s, p), name, m)
  {
    var t := AfterHub(auth, s, p);
    assert UpOk(s, p);
    MembersAfter(auth, s.hub, p.conn, p.msg, name, m);
    if o :| o in RoomOf(s.hub, name).members && o.conn == m.conn && o.replica == m.replica {
      assert MemberOk(s, name, o) && Served(s, name, o);
      HubServesOldMember(auth, s, p, name, o);
    } else {
      HubServesNewMember(auth, s, p, name, m);
    }
  }

  lemma HubServesOldMember(auth: Authenticator, s: System, p: UpPacket, name: string, m: Member)
    requires UpOk(s, p) && Enabled(s, HubTakes(p))
    requires m in RoomOf(s.hub, name).members && MemberOk(s, name, m) && Served(s, name, m)
    ensures Served(AfterHub(auth, s, p), name, m)
  {
    var t := AfterHub(auth, s, p);
    forall op | op in AdmittedTo(t, name) && s.clients[m.replica].conn == Some(m.conn)
      ensures op in t.clients[m.replica].known || GoingDown(t, m.conn, op)
    {
      if op in AdmittedTo(s, name) {
        if op !in s.clients[m.replica].known {
          var d :| d in s.down && d.out.to == m.conn && op in d.carries;
          assert d in t.down;
        }
      } else {
        HubServesNewOp(auth, s, p, name, m, op);
      }
    }
  }

  lemma ReplyGoesDown(auth: Authenticator, s: System, p: UpPacket, o: Outbound)
    requires Routed(s.hub) && o in Handle(auth, s.hub, p.conn, p.msg).out
    ensures Down(o, Carried(o, AdmittedTo(s, Target(s.hub, p.conn, p.msg)))) in AfterHub(auth, s, p).down
  {
    hide Handle, Recorded;
  }

  lemma NewlyAdmitted(s: System, p: UpPacket, name: string, op: Op)
    requires Routed(s.hub) && op in AdmittedTo(Recorded(s, p), name) && op !in AdmittedTo(s, name)
    ensures p.msg.Ops? && MayEdit(s.hub, p.conn) && s.hub.connRoom[p.conn] == name && op in SetOf(p.msg.ops)
  {
  }

  lemma HubServesNewOp(auth: Authenticator, s: System, p: UpPacket, name: string, m: Member, op: Op)
    requires UpOk(s, p) && Enabled(s, HubTakes(p))
    requires m in RoomOf(s.hub, name).members && MemberOk(s, name, m)
    requires op in AdmittedTo(Recorded(s, p), name) && op !in AdmittedTo(s, name)
    ensures op in s.clients[m.replica].known || GoingDown(AfterHub(auth, s, p), m.conn, op)
  {
    NewlyAdmitted(s, p, name, op);
    hide Handle, AfterHub, Recorded, MayEdit;
    if m.conn != p.conn {
      EverybodyIsTold(auth, s.hub, p.conn, p.msg, m);
      var o :| o in Handle(auth, s.hub, p.conn, p.msg).out && o.to == m.conn && o.message.OpsFrom? && o.message.ops == p.msg.ops;
      ReplyGoesDown(auth, s, p, o);
    }
  }

  lemma HubServesNewMember(auth: Authenticator, s: System, p: UpPacket, name: string, m: Member)
    requires UpOk(s, p) && Enabled(s, HubTakes(p))
    requires p.msg.Join? && auth(p.msg.room, p.msg.token).Some? && name == p.msg.room
    requires m.conn == p.conn && m.replica == p.msg.replica
    ensures MemberOk(AfterHub(auth, s, p), name, m) && Served(AfterHub(auth, s, p), name, m)
  {
    var t := AfterHub(auth, s, p);
    EverybodyIsTold(auth, s.hub, p.conn, p.msg, m);
    var o :| o in Handle(auth, s.hub, p.conn, p.msg).out && o.to == p.conn && o.message.Welcome?;
    ReplyGoesDown(auth, s, p, o);
  }

  lemma HubRooms(auth: Authenticator, s: System, p: UpPacket)
    requires ClientsOk(s) && UpsOk(s) && RoomsOk(s) && Enabled(s, HubTakes(p))
    ensures RoomsOk(AfterHub(auth, s, p))
  {
    var t := AfterHub(auth, s, p);
    forall name
      ensures RoomOk(t, name)
    {
      assert RoomOk(s, name);
      HubDocs(auth, s, p, name);
      forall m | m in RoomOf(t.hub, name).members
        ensures MemberOk(t, name, m) && Served(t, name, m)
      {
        HubMember(auth, s, p, name, m);
      }
    }
  }

  lemma HubKeepsInv(auth: Authenticator, s: System, p: UpPacket)
    requires Inv(s) && Enabled(s, HubTakes(p))
    ensures Inv(AfterHub(auth, s, p))
  {
    HandleConsistent(auth, s.hub, p.conn, p.msg);
    HubClients(auth, s, p);
    HubUps(auth, s, p);
    HubDowns(auth, s, p);
    HubRoutes(auth, s, p);
    HubRooms(auth, s, p);
  }

  // ----- Every step, every run

  lemma StepKeepsInv(auth: Authenticator, s: System, a: Action)
    requires Inv(s) && Enabled(s, a)
    ensures Inv(Step(auth, s, a))
  {
    match a {
      case Edit(r, op) => EditKeepsInv(auth, s, r, op);
      case Flush(r) => FlushKeepsInv(auth, s, r);
      case Connect(_, _, _, _) => SocketKeepsInv(auth, s, a);
      case Ask(_, _) => SocketKeepsInv(auth, s, a);
      case Disconnect(_) => SocketKeepsInv(auth, s, a);
      case HubTakes(p) => HubKeepsInv(auth, s, p);
      case Deliver(d) => DeliverKeepsInv(auth, s, d);
    }
  }
}
