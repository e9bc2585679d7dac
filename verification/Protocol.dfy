/** The whole collaboration system: any number of sessions, the hub and the
  messages in flight between them, stepped in any interleaving.

  Messages in flight are bags, so nothing is assumed about delivery order. The
  state carries four history variables that no step reads to decide anything:
  the operations each client has folded into its document (`known`), those of
  its operations the hub turned away (`refused`), those each room let in
  (`admitted`), and the content of each message on its way down (`carries`).
*/
module Protocol {
  import opened Options
  import opened Clocks
  import opened Crdt
  import opened Convergence
  import opened Replicas
  import opened Messages
  import opened Sessions
  import opened Hubs

  datatype UpPacket = Up(conn: ConnId, msg: ClientMessage)

  datatype DownPacket = Down(out: Outbound, carries: set<Op>)

  /** A browser session bound to one room, with its current socket. */
  datatype Client = Client(session: Session, room: string, conn: Option<ConnId>, known: set<Op>, refused: set<Op>)

  datatype System = System(
    hub: Hub,
    clients: map<ReplicaId, Client>,
    owner: map<ConnId, ReplicaId>,
    up: multiset<UpPacket>,
    down: multiset<DownPacket>,
    admitted: map<string, set<Op>>,
    issued: set<Op>
  )

  datatype Action =
    | Edit(r: ReplicaId, op: Op)
    | Flush(r: ReplicaId)
    | Connect(r: ReplicaId, conn: ConnId, token: string, displayName: string)
    | Ask(r: ReplicaId, msg: ClientMessage)
    | Disconnect(r: ReplicaId)
    | HubTakes(p: UpPacket)
    | Deliver(d: DownPacket)

  /** The operation is what an edit method of the replica would issue now. */
  predicate Issues(replica: Replica, op: Op) {
    match op
    case AddFeature(_, kind, _, position) => op == replica.AddOp(kind, position)
    case SetParam(key, name, value, _) => op == replica.SetOp(key, name, value)
    case RemoveFeature(_, _) => replica.IsRemoveOp(op)
    case SetPosition(_, _, _) => false
  }

  /** Each connection sends one Join, so a socket that connects is a new one. */
  ghost predicate Enabled(s: System, a: Action) {
    match a
    case Edit(r, op) => r in s.clients && Issues(s.clients[r].session.replica, op)
    case Flush(r) => r in s.clients && s.clients[r].conn.Some? && s.clients[r].session.pending != []
    case Connect(r, conn, _, _) => r in s.clients && conn !in s.owner
    case Ask(r, msg) => r in s.clients && s.clients[r].conn.Some? && !msg.Join? && !msg.Ops?
    case Disconnect(r) => r in s.clients && s.clients[r].conn.Some?
    case HubTakes(p) => p in s.up && Routed(s.hub)
    case Deliver(d) => d in s.down && d.out.to in s.owner && s.owner[d.out.to] in s.clients
  }

  function AdmittedTo(s: System, name: string): set<Op> {
    if name in s.admitted then s.admitted[name] else {}
  }

  function Carried(o: Outbound, roomOps: set<Op>): set<Op> {
    match o.message
    case OpsFrom(_, ops) => SetOf(ops)
    case Welcome(_, _, _) => roomOps
    case Snapshot(_) => roomOps
    case _ => {}
  }

  function Packets(out: seq<Outbound>, roomOps: set<Op>): (bag: multiset<DownPacket>)
    ensures forall d :: d in bag <==> d.out in out && d.carries == Carried(d.out, roomOps)
  {
    if out == [] then multiset{}
    else multiset{Down(out[0], Carried(out[0], roomOps))} + Packets(out[1..], roomOps)
  }

  ghost function Step(auth: Authenticator, s: System, a: Action): System
    requires Enabled(s, a)
  {
    match a
    case Edit(r, op) =>
      var c := s.clients[r];
      s.(clients := s.clients[r := c.(session := c.session.AfterLocal(op), known := c.known + {op})],
         issued := s.issued + {op})
    case Flush(r) =>
      var c := s.clients[r];
      s.(clients := s.clients[r := c.(session := c.session.AfterFlush())],
         up := s.up + multiset{Up(c.conn.value, Ops(c.session.pending))})
    case Connect(r, conn, token, displayName) =>
      var c := s.clients[r];
      s.(clients := s.clients[r := c.(conn := Some(conn))], owner := s.owner[conn := r],
         up := s.up + multiset{Up(conn, Join(c.room, token, r, displayName))})
    case Ask(r, msg) => s.(up := s.up + multiset{Up(s.clients[r].conn.value, msg)})
    case Disconnect(r) =>
      var c := s.clients[r];
      s.(clients := s.clients[r := c.(conn := None)], up := s.up + multiset{Up(c.conn.value, Leave)})
    case HubTakes(p) => AfterHub(auth, s, p)
    case Deliver(d) =>
      var r := s.owner[d.out.to];
      var c := s.clients[r];
      var rest := s.(down := s.down - multiset{d});
      if c.conn == Some(d.out.to)
      then rest.(clients := s.clients[r := c.(session := c.session.AfterMessage(d.out.message), known := c.known + d.carries)])
      else rest
  }

  /** The hub handles one message. */
  ghost function AfterHub(auth: Authenticator, s: System, p: UpPacket): System
    requires Routed(s.hub)
  {
    var reply := Handle(auth, s.hub, p.conn, p.msg);
    Recorded(s, p).(hub := reply.hub,
                    down := s.down + Packets(reply.out, AdmittedTo(s, Target(s.hub, p.conn, p.msg))))
  }

  /** The message leaves the bag, and its operations are recorded as admitted or refused. */
  ghost function Recorded(s: System, p: UpPacket): System
    requires Routed(s.hub)
  {
    var next := s.(up := s.up - multiset{p});
    if !p.msg.Ops? then next
    else if MayEdit(s.hub, p.conn) then
      var name := s.hub.connRoom[p.conn];
      next.(admitted := s.admitted[name := AdmittedTo(s, name) + SetOf(p.msg.ops)])
    else if p.conn in s.owner && s.owner[p.conn] in s.clients then
      var r := s.owner[p.conn];
      next.(clients := s.clients[r := s.clients[r].(refused := s.clients[r].refused + SetOf(p.msg.ops))])
    else next
  }

  ghost predicate Initial(s: System) {
    && s.hub == EMPTY_HUB && s.owner == map[] && s.up == multiset{} && s.down == multiset{}
    && s.admitted == map[] && s.issued == {}
    && forall r | r in s.clients ::
         s.clients[r] == Client(Session(START(r), [], map[]), s.clients[r].room, None, {}, {})
  }

  // ----- The invariant

  /** An operation of client `r` is on its way up. */
  ghost predicate GoingUp(s: System, r: ReplicaId, op: Op) {
    exists p :: p in s.up && p.conn in s.owner && s.owner[p.conn] == r && p.msg.Ops? && op in p.msg.ops
  }

  /** An operation is on its way down on a connection. */
  ghost predicate GoingDown(s: System, conn: ConnId, op: Op) {
    exists d :: d in s.down && d.out.to == conn && op in d.carries
  }

  ghost predicate ClientOk(s: System, r: ReplicaId)
    requires r in s.clients
  {
    var c := s.clients[r];
    && c.session.replica.Id() == r
    && Denotes(c.session.replica.doc, c.known)
    && c.known <= s.issued && c.refused <= c.known && SetOf(c.session.pending) <= c.known
    && (c.conn.Some? ==> c.conn.value in s.owner && s.owner[c.conn.value] == r)
  }

  /** Nothing a client knows is from nowhere. */
  ghost predicate Accounted(s: System, r: ReplicaId)
    requires r in s.clients
  {
    var c := s.clients[r];
    forall op | op in c.known ::
      op in AdmittedTo(s, c.room) || op in c.session.pending || GoingUp(s, r, op) || op in c.refused
  }

  /** Stamps come from the clock of the replica they name. */
  ghost predicate StampOk(s: System, op: Op) {
    op.StampOf().Some? ==>
      var c := op.StampOf().value;
      c.replica in s.clients && c.lamport <= s.clients[c.replica].session.replica.clock.lamport
  }

  ghost predicate UpOk(s: System, p: UpPacket) {
    && p.conn in s.owner && s.owner[p.conn] in s.clients
    && var r := s.owner[p.conn];
       && (p.msg.Join? ==> p.msg.room == s.clients[r].room && p.msg.replica == r)
       && (p.msg.Ops? ==> SetOf(p.msg.ops) <= s.clients[r].known)
  }

  ghost predicate DownOk(s: System, d: DownPacket) {
    && d.out.to in s.owner && s.owner[d.out.to] in s.clients
    && d.carries <= AdmittedTo(s, s.clients[s.owner[d.out.to]].room)
    && match d.out.message
       case OpsFrom(_, ops) => d.carries == SetOf(ops)
       case Welcome(_, snapshot, _) => Denotes(snapshot, d.carries)
       case Snapshot(snapshot) => Denotes(snapshot, d.carries)
       case _ => d.carries == {}
  }

  ghost predicate RouteOk(s: System, conn: ConnId) {
    conn in s.hub.connRoom ==>
      && conn in s.owner && s.owner[conn] in s.clients
      && s.hub.connRoom[conn] == s.clients[s.owner[conn]].room
  }

  ghost predicate MemberOk(s: System, name: string, m: Member) {
    && m.conn in s.owner && s.owner[m.conn] == m.replica
    && m.replica in s.clients && s.clients[m.replica].room == name
  }

  /** A listed member whose socket is the current one has, or is being sent, everything its room let in. */
  ghost predicate Served(s: System, name: string, m: Member) {
    m.replica in s.clients && s.clients[m.replica].conn == Some(m.conn) ==>
      forall op | op in AdmittedTo(s, name) :: op in s.clients[m.replica].known || GoingDown(s, m.conn, op)
  }

  ghost predicate RoomOk(s: System, name: string) {
    && Denotes(RoomOf(s.hub, name).doc, AdmittedTo(s, name))
    && AdmittedTo(s, name) <= s.issued
    && forall m | m in RoomOf(s.hub, name).members :: MemberOk(s, name, m) && Served(s, name, m)
  }

  ghost predicate ClientsOk(s: System) {
    forall r | r in s.clients :: ClientOk(s, r) && Accounted(s, r)
  }

  ghost predicate StampsOk(s: System) {
    (forall op | op in s.issued :: StampOk(s, op)) && UniqueStamps(s.issued)
  }

  ghost predicate UpsOk(s: System) {
    forall p | p in s.up :: UpOk(s, p)
  }

  ghost predicate DownsOk(s: System) {
    forall d | d in s.down :: DownOk(s, d)
  }

  ghost predicate RoutesOk(s: System) {
    forall conn | conn in s.hub.connRoom :: RouteOk(s, conn)
  }

  ghost predicate RoomsOk(s: System) {
    forall name :: RoomOk(s, name)
  }

  ghost predicate Inv(s: System) {
    Consistent(s.hub) && ClientsOk(s) && StampsOk(s) && UpsOk(s) && DownsOk(s) && RoutesOk(s) && RoomsOk(s)
  }

  lemma InitialInv(s: System)
    requires Initial(s)
    ensures Inv(s)
  {
  }
}
