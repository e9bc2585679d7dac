/** The sync hub (collab/src/server.rs): rooms with an authoritative document,
  members with access levels, and presence. The functions give each handler's
  reply and next state; the class `SyncHub` in SyncHubs.dfy does it in place. */
module Hubs {
  import opened Options
  import opened Clocks
  import opened Crdt
  import opened Growth
  import opened Presences
  import opened Messages

  /** Resolves a join token to a subject and its level in the room. */
  type Authenticator = (string, string) -> Option<(string, AccessLevel)>

  datatype Member = Member(conn: ConnId, replica: ReplicaId, subject: string, level: AccessLevel)

  datatype Room = Room(doc: Doc, presence: Users, members: seq<Member>)

  const EMPTY_ROOM := Room(map[], map[], [])

  datatype Hub = Hub(rooms: map<string, Room>, connRoom: map<ConnId, string>)

  const EMPTY_HUB := Hub(map[], map[])

  datatype Reply = Reply(hub: Hub, out: seq<Outbound>)

  // ----- Member lists

  function WithoutReplica(ms: seq<Member>, replica: ReplicaId): (r: seq<Member>)
    ensures forall m :: m in r <==> m in ms && m.replica != replica
  {
    if ms == [] then []
    else (if ms[0].replica == replica then [] else [ms[0]]) + WithoutReplica(ms[1..], replica)
  }

  function WithoutConn(ms: seq<Member>, conn: ConnId): (r: seq<Member>)
    ensures forall m :: m in r <==> m in ms && m.conn != conn
  {
    if ms == [] then []
    else (if ms[0].conn == conn then [] else [ms[0]]) + WithoutConn(ms[1..], conn)
  }

  function OtherConns(ms: seq<Member>, except: ConnId): (r: seq<ConnId>)
    ensures forall c :: c in r <==> c != except && exists m :: m in ms && m.conn == c
  {
    if ms == [] then []
    else (if ms[0].conn == except then [] else [ms[0].conn]) + OtherConns(ms[1..], except)
  }

  /** The first member with the connection. */
  function FindMember(ms: seq<Member>, conn: ConnId): (r: Option<Member>)
    ensures r.Some? ==> r.value in ms && r.value.conn == conn
    ensures r.None? ==> forall m | m in ms :: m.conn != conn
  {
    if ms == [] then None
    else if ms[0].conn == conn then Some(ms[0])
    else FindMember(ms[1..], conn)
  }

  function WithLevel(ms: seq<Member>, subject: string, level: AccessLevel): (r: seq<Member>)
    ensures |r| == |ms|
    ensures forall i | 0 <= i < |ms| :: r[i] == if ms[i].subject == subject then ms[i].(level := level) else ms[i]
  {
    seq(|ms|, i requires 0 <= i < |ms| => if ms[i].subject == subject then ms[i].(level := level) else ms[i])
  }

  function Broadcast(to: seq<ConnId>, msg: ServerMessage): (r: seq<Outbound>)
    ensures forall o: Outbound :: o in r <==> o.message == msg && o.to in to
  {
    var r := seq(|to|, i requires 0 <= i < |to| => Outbound(to[i], msg));
    assert forall i | 0 <= i < |to| :: r[i].to == to[i];
    r
  }

  function Reject(conn: ConnId, reason: Refusal): seq<Outbound> {
    [Outbound(conn, Rejected(reason))]
  }

  // ----- Handlers

  /** Every routed connection leads to an existing room: what the source's `unwrap`s rely on. */
  ghost predicate Routed(h: Hub) {
    forall conn | conn in h.connRoom :: h.connRoom[conn] in h.rooms
  }

  function RoomOf(h: Hub, name: string): Room {
    if name in h.rooms then h.rooms[name] else EMPTY_ROOM
  }

  function OnJoin(auth: Authenticator, h: Hub, conn: ConnId, name: string, token: string, replica: ReplicaId): Reply {
    match auth(name, token)
    case None => Reply(h, Reject(conn, AuthenticationFailed))
    case Some((subject, level)) =>
      var room := RoomOf(h, name);
      var members := WithoutReplica(room.members, replica) + [Member(conn, replica, subject, level)];
      Reply(Hub(h.rooms[name := room.(members := members)], h.connRoom[conn := name]),
            [Outbound(conn, Welcome(level, room.doc, room.presence))])
  }

  /** Whether operations from the connection are let in. */
  predicate MayEdit(h: Hub, conn: ConnId)
    requires Routed(h)
  {
    && conn in h.connRoom
    && var m := FindMember(h.rooms[h.connRoom[conn]].members, conn);
       m.Some? && m.value.level.CanEdit()
  }

  function OnOps(h: Hub, conn: ConnId, ops: seq<Op>): Reply
    requires Routed(h)
  {
    if conn !in h.connRoom then Reply(h, Reject(conn, NotInARoom))
    else
      var name := h.connRoom[conn];
      var room := h.rooms[name];
      match FindMember(room.members, conn)
      case None => Reply(h, Reject(conn, UnknownMember))
      case Some(member) =>
        if !member.level.CanEdit() then Reply(h, Reject(conn, MayNotEdit))
        else Reply(h.(rooms := h.rooms[name := room.(doc := Replayed(room.doc, ops))]),
                   Broadcast(OtherConns(room.members, conn), OpsFrom(member.replica, ops)))
  }

  function OnPresence(h: Hub, conn: ConnId, p: Presence): Reply
    requires Routed(h)
  {
    if conn !in h.connRoom then Reply(h, Reject(conn, NotInARoom))
    else
      var name := h.connRoom[conn];
      var room := h.rooms[name];
      if FindMember(room.members, conn).None? then Reply(h, Reject(conn, UnknownMember))
      else if Stale(room.presence, p) then Reply(h, [])
      else Reply(h.(rooms := h.rooms[name := room.(presence := Updated(room.presence, p))]),
                 Broadcast(OtherConns(room.members, conn), PresenceOf(p)))
  }

  function OnSetAccess(h: Hub, conn: ConnId, subject: string, level: AccessLevel): Reply
    requires Routed(h)
  {
    if conn !in h.connRoom then Reply(h, Reject(conn, NotInARoom))
    else
      var name := h.connRoom[conn];
      var room := h.rooms[name];
      match FindMember(room.members, conn)
      case None => Reply(h, Reject(conn, UnknownMember))
      case Some(caller) =>
        if !caller.level.CanAdmin() then Reply(h, Reject(conn, MayNotAdminister))
        else Reply(h.(rooms := h.rooms[name := room.(members := WithLevel(room.members, subject, level))]), [])
  }

  function OnResync(h: Hub, conn: ConnId): Reply
    requires Routed(h)
  {
    if conn !in h.connRoom then Reply(h, Reject(conn, NotInARoom))
    else Reply(h, [Outbound(conn, Snapshot(h.rooms[h.connRoom[conn]].doc))])
  }

  function OnLeave(h: Hub, conn: ConnId): Reply
    requires Routed(h)
  {
    if conn !in h.connRoom then Reply(h, [])
    else
      var name := h.connRoom[conn];
      var room := h.rooms[name];
      var rest := room.(members := WithoutConn(room.members, conn));
      var routes := h.connRoom - {conn};
      match FindMember(room.members, conn)
      case None => Reply(Hub(h.rooms[name := rest], routes), [])
      case Some(member) =>
        Reply(Hub(h.rooms[name := rest.(presence := Without(room.presence, member.replica))], routes),
              Broadcast(OtherConns(rest.members, conn), Left(member.replica)))
  }

  function Handle(auth: Authenticator, h: Hub, conn: ConnId, msg: ClientMessage): (r: Reply)
    requires Routed(h)
    ensures Routed(r.hub)
  {
    match msg
    case Join(room, token, replica, _) => OnJoin(auth, h, conn, room, token, replica)
    case Ops(ops) => OnOps(h, conn, ops)
    case ShowPresence(presence) => OnPresence(h, conn, presence)
    case SetAccess(subject, level) => OnSetAccess(h, conn, subject, level)
    case Resync => OnResync(h, conn)
    case Leave => OnLeave(h, conn)
  }

  // ----- What every run keeps

  ghost predicate DistinctReplicas(ms: seq<Member>) {
    forall i, j | 0 <= i < j < |ms| :: ms[i].replica != ms[j].replica
  }

  lemma {:induction false} WithoutReplicaDistinct(ms: seq<Member>, replica: ReplicaId)
    requires DistinctReplicas(ms)
    ensures DistinctReplicas(WithoutReplica(ms, replica))
  {
    if ms != [] {
      WithoutReplicaDistinct(ms[1..], replica);
      forall m | m in WithoutReplica(ms[1..], replica)
        ensures m.replica != ms[0].replica
      {
        assert m in ms[1..];
      }
    }
  }

  lemma {:induction false} WithoutConnDistinct(ms: seq<Member>, conn: ConnId)
    requires DistinctReplicas(ms)
    ensures DistinctReplicas(WithoutConn(ms, conn))
  {
    if ms != [] {
      WithoutConnDistinct(ms[1..], conn);
      forall m | m in WithoutConn(ms[1..], conn)
        ensures m.replica != ms[0].replica
      {
        assert m in ms[1..];
      }
    }
  }

  /** No replica appears twice in a room, and presence records stay under their own replica. */
  ghost predicate Consistent(h: Hub) {
    && Routed(h)
    && forall name | name in h.rooms :: GoodRoom(h.rooms[name])
  }

  ghost predicate GoodRoom(room: Room) {
    DistinctReplicas(room.members) && WellKeyed(room.presence)
  }

  /** A handler rewrites at most one room, the one it is addressed to. */
  function Target(h: Hub, conn: ConnId, msg: ClientMessage): string {
    if msg.Join? then msg.room else if conn in h.connRoom then h.connRoom[conn] else ""
  }

  lemma OnlyTargetChanges(auth: Authenticator, h: Hub, conn: ConnId, msg: ClientMessage, name: string)
    requires Routed(h) && name != Target(h, conn, msg)
    ensures var after := Handle(auth, h, conn, msg).hub;
            (name in after.rooms <==> name in h.rooms) && RoomOf(after, name) == RoomOf(h, name)
  {
  }

  lemma HandleConsistent(auth: Authenticator, h: Hub, conn: ConnId, msg: ClientMessage)
    requires Consistent(h)
    ensures Consistent(Handle(auth, h, conn, msg).hub)
  {
    var after := Handle(auth, h, conn, msg).hub;
    forall name | name in after.rooms
      ensures GoodRoom(after.rooms[name])
    {
      if name == Target(h, conn, msg) {
        TargetStaysGood(auth, h, conn, msg, name);
      } else {
        OnlyTargetChanges(auth, h, conn, msg, name);
        assert GoodRoom(h.rooms[name]);
      }
    }
  }

  lemma TargetStaysGood(auth: Authenticator, h: Hub, conn: ConnId, msg: ClientMessage, name: string)
    requires Consistent(h) && name == Target(h, conn, msg)
    ensures GoodRoom(RoomOf(Handle(auth, h, conn, msg).hub, name))
  {
    var room, next := RoomOf(h, name), RoomOf(Handle(auth, h, conn, msg).hub, name);
    assert GoodRoom(room);
    match msg {
      case Join(_, _, replica, _) =>
        WithoutReplicaDistinct(room.members, replica);
      case Ops(_) =>
      case ShowPresence(_) =>
      case SetAccess(_, _) =>
      case Resync =>
      case Leave =>
        WithoutConnDistinct(room.members, conn);
    }
  }

  /** Each member is routed to the room that lists it, and is listed once. */
  ghost predicate Orderly(h: Hub) {
    forall name | name in h.rooms :: OrderlyRoom(h.rooms[name].members, name, h.connRoom)
  }

  ghost predicate OrderlyRoom(ms: seq<Member>, name: string, routes: map<ConnId, string>) {
    && (forall m | m in ms :: m.conn in routes && routes[m.conn] == name)
    && DistinctConns(ms)
  }

  ghost predicate DistinctConns(ms: seq<Member>) {
    forall i, j | 0 <= i < j < |ms| :: ms[i].conn != ms[j].conn
  }

  lemma {:induction false} WithoutReplicaDistinctConns(ms: seq<Member>, replica: ReplicaId)
    requires DistinctConns(ms)
    ensures DistinctConns(WithoutReplica(ms, replica))
  {
    if ms != [] {
      WithoutReplicaDistinctConns(ms[1..], replica);
      forall m | m in WithoutReplica(ms[1..], replica)
        ensures m.conn != ms[0].conn
      {
        assert m in ms[1..];
      }
    }
  }

  lemma {:induction false} WithoutConnDistinctConns(ms: seq<Member>, conn: ConnId)
    requires DistinctConns(ms)
    ensures DistinctConns(WithoutConn(ms, conn))
  {
    if ms != [] {
      WithoutConnDistinctConns(ms[1..], conn);
      forall m | m in WithoutConn(ms[1..], conn)
        ensures m.conn != ms[0].conn
      {
        assert m in ms[1..];
      }
    }
  }

  /** The connection is already a member somewhere, other than as the very session that is joining again. */
  ghost predicate MemberElsewhere(h: Hub, conn: ConnId, name: string, replica: ReplicaId) {
    exists n, m :: n in h.rooms && m in h.rooms[n].members && m.conn == conn && !(n == name && m.replica == replica)
  }

  /** A join keeps the hub orderly iff the token is refused or the connection is not a member elsewhere. */
  lemma JoinOrderlyIff(auth: Authenticator, h: Hub, conn: ConnId, name: string, token: string, replica: ReplicaId)
    requires Routed(h) && Orderly(h)
    ensures Orderly(OnJoin(auth, h, conn, name, token, replica).hub)
            <==> auth(name, token).None? || !MemberElsewhere(h, conn, name, replica)
  {
    if auth(name, token).Some? {
      if MemberElsewhere(h, conn, name, replica) {
        JoinElsewhereIsDisorderly(auth, h, conn, name, token, replica);
      } else {
        FreshJoinOrderly(auth, h, conn, name, token, replica);
      }
    }
  }

  lemma JoinElsewhereIsDisorderly(auth: Authenticator, h: Hub, conn: ConnId, name: string, token: string, replica: ReplicaId)
    requires Routed(h) && auth(name, token).Some? && MemberElsewhere(h, conn, name, replica)
    ensures !Orderly(OnJoin(auth, h, conn, name, token, replica).hub)
  {
    var after := OnJoin(auth, h, conn, name, token, replica).hub;
    var kept := WithoutReplica(RoomOf(h, name).members, replica);
    var ms := after.rooms[name].members;
    var n, m :| n in h.rooms && m in h.rooms[n].members && m.conn == conn && !(n == name && m.replica == replica);
    if n == name {
      var i :| 0 <= i < |kept| && kept[i] == m;
      assert ms[i].conn == ms[|kept|].conn == conn;
      assert !DistinctConns(ms);
    } else {
      assert m in after.rooms[n].members && after.connRoom[conn] != n;
    }
    assert exists r :: r in after.rooms && !OrderlyRoom(after.rooms[r].members, r, after.connRoom);
  }

  /** The failing case: connection 1 joins room "a" and then room "b". Room "a" still lists it, also after it has left. */
  lemma SecondRoomKeepsGhost()
    ensures var auth: Authenticator := (_, _) => Some(("ann", Editor));
            var h := OnJoin(auth, EMPTY_HUB, 1, "a", "", 7).hub;
            var both := OnJoin(auth, h, 1, "b", "", 7).hub;
            Orderly(h) && !Orderly(both) && RoomOf(OnLeave(both, 1).hub, "a").members == [Member(1, 7, "ann", Editor)]
  {
    var auth: Authenticator := (_, _) => Some(("ann", Editor));
    var h := OnJoin(auth, EMPTY_HUB, 1, "a", "", 7).hub;
    var both := OnJoin(auth, h, 1, "b", "", 7).hub;
    assert WithoutReplica([], 7) == [];
    var m := Member(1, 7, "ann", Editor);
    assert "a" in h.rooms && h.rooms["a"].members == [m] && "b" !in h.rooms;
    assert m in both.rooms["a"].members && both.connRoom[1] == "b";
    assert !OrderlyRoom(both.rooms["a"].members, "a", both.connRoom);
  }

  lemma FreshJoinOrderly(auth: Authenticator, h: Hub, conn: ConnId, name: string, token: string, replica: ReplicaId)
    requires Routed(h) && Orderly(h) && auth(name, token).Some? && !MemberElsewhere(h, conn, name, replica)
    ensures Orderly(OnJoin(auth, h, conn, name, token, replica).hub)
  {
    var after := OnJoin(auth, h, conn, name, token, replica).hub;
    var before := RoomOf(h, name).members;
    forall n | n in after.rooms && n != name
      ensures OrderlyRoom(after.rooms[n].members, n, after.connRoom)
    {
      assert OrderlyRoom(h.rooms[n].members, n, h.connRoom);
      assert forall m | m in h.rooms[n].members :: m.conn != conn;
    }
    assert OrderlyRoom(before, name, h.connRoom);
    forall m | m in WithoutReplica(before, replica)
      ensures m.conn != conn
    {
      assert name in h.rooms && m in h.rooms[name].members;
    }
    WithoutReplicaDistinctConns(before, replica);
    assert OrderlyRoom(after.rooms[name].members, name, after.connRoom);
  }

  /** Every other message keeps the hub orderly. */
  lemma HandleOrderly(auth: Authenticator, h: Hub, conn: ConnId, msg: ClientMessage)
    requires Routed(h) && Orderly(h) && !msg.Join?
    ensures Orderly(Handle(auth, h, conn, msg).hub)
  {
    var after := Handle(auth, h, conn, msg).hub;
    forall n | n in after.rooms
      ensures OrderlyRoom(after.rooms[n].members, n, after.connRoom)
    {
      if n == Target(h, conn, msg) {
        TargetStaysOrderly(auth, h, conn, msg, n);
      } else {
        OnlyTargetChanges(auth, h, conn, msg, n);
        assert OrderlyRoom(h.rooms[n].members, n, h.connRoom);
      }
    }
  }

  lemma TargetStaysOrderly(auth: Authenticator, h: Hub, conn: ConnId, msg: ClientMessage, n: string)
    requires Routed(h) && Orderly(h) && !msg.Join? && n == Target(h, conn, msg) && n in h.rooms
    ensures var after := Handle(auth, h, conn, msg).hub;
            OrderlyRoom(RoomOf(after, n).members, n, after.connRoom)
  {
    var ms := h.rooms[n].members;
    assert OrderlyRoom(ms, n, h.connRoom);
    match msg {
      case Ops(_) =>
      case ShowPresence(_) =>
      case SetAccess(subject, level) =>
        WithLevelOrderly(ms, subject, level, n, h.connRoom);
      case Resync =>
      case Leave =>
        WithoutConnDistinctConns(ms, conn);
    }
  }

  lemma WithLevelOrderly(ms: seq<Member>, subject: string, level: AccessLevel, name: string, routes: map<ConnId, string>)
    requires OrderlyRoom(ms, name, routes)
    ensures OrderlyRoom(WithLevel(ms, subject, level), name, routes)
  {
    var r := WithLevel(ms, subject, level);
    forall m | m in r
      ensures m.conn in routes && routes[m.conn] == name
    {
      var i :| 0 <= i < |r| && r[i] == m;
      assert ms[i] in ms && ms[i].conn == m.conn;
    }
  }

  lemma {:induction false} NobodyLeaves(ms: seq<Member>, conn: ConnId)
    requires forall m | m in ms :: m.conn != conn
    ensures WithoutConn(ms, conn) == ms && FindMember(ms, conn) == None
  {
    if ms != [] {
      NobodyLeaves(ms[1..], conn);
    }
  }

  // ----- The authoritative document

  type Trace = seq<(ConnId, ClientMessage)>

  function Run(auth: Authenticator, h: Hub, trace: Trace): (r: Hub)
    requires Routed(h)
    ensures Routed(r)
    decreases |trace|
  {
    if trace == [] then h else Run(auth, Handle(auth, h, trace[0].0, trace[0].1).hub, trace[1..])
  }

  /** The operations of a trace that were let into a room, in order of arrival. */
  function Admitted(auth: Authenticator, h: Hub, trace: Trace, name: string): seq<Op>
    requires Routed(h)
    decreases |trace|
  {
    if trace == [] then []
    else
      var (conn, msg) := trace[0];
      (if msg.Ops? && MayEdit(h, conn) && h.connRoom[conn] == name then msg.ops else [])
      + Admitted(auth, Handle(auth, h, conn, msg).hub, trace[1..], name)
  }

  lemma DocStep(auth: Authenticator, h: Hub, conn: ConnId, msg: ClientMessage, name: string)
    requires Routed(h)
    ensures RoomOf(Handle(auth, h, conn, msg).hub, name).doc ==
            Replayed(RoomOf(h, name).doc, if msg.Ops? && MayEdit(h, conn) && h.connRoom[conn] == name then msg.ops else [])
    ensures name in h.rooms ==> name in Handle(auth, h, conn, msg).hub.rooms
  {
    if name != Target(h, conn, msg) {
      OnlyTargetChanges(auth, h, conn, msg, name);
    }
  }

  /** Whatever the clients send, a room's document is the replay of exactly the admitted operations, and replicas stay distinct. */
  lemma {:induction false} RoomIsReplayOfAdmitted(auth: Authenticator, h: Hub, trace: Trace, name: string)
    requires Consistent(h)
    ensures Consistent(Run(auth, h, trace))
    ensures RoomOf(Run(auth, h, trace), name).doc == Replayed(RoomOf(h, name).doc, Admitted(auth, h, trace, name))
    ensures name in h.rooms ==> name in Run(auth, h, trace).rooms
    decreases |trace|
  {
    if trace != [] {
      var (conn, msg) := trace[0];
      var next := Handle(auth, h, conn, msg).hub;
      HandleConsistent(auth, h, conn, msg);
      RoomIsReplayOfAdmitted(auth, next, trace[1..], name);
      var now := if msg.Ops? && MayEdit(h, conn) && h.connRoom[conn] == name then msg.ops else [];
      DocStep(auth, h, conn, msg, name);
      ReplayedAppend(RoomOf(h, name).doc, now, Admitted(auth, next, trace[1..], name));
    }
  }

  /** Whatever the clients send, with whatever stamps, room documents only grow: merging any earlier version into a later
    one changes nothing. */
  lemma RoomOnlyGrows(auth: Authenticator, h: Hub, more: Trace, name: string)
    requires Consistent(h)
    ensures var now, later := RoomOf(h, name).doc, RoomOf(Run(auth, h, more), name).doc;
            Below(now, later) && Joined(later, now) == later == Joined(now, later)
  {
    RoomIsReplayOfAdmitted(auth, h, more, name);
    ReplayedGoesUp(RoomOf(h, name).doc, Admitted(auth, h, more, name));
    LargerAbsorbs(RoomOf(h, name).doc, RoomOf(Run(auth, h, more), name).doc);
  }

  // ----- One Join per connection

  /** No room lists the connection. */
  ghost predicate Unlisted(h: Hub, conn: ConnId) {
    forall name | name in h.rooms :: forall m | m in h.rooms[name].members :: m.conn != conn
  }

  lemma HandleUnlisted(auth: Authenticator, h: Hub, conn: ConnId, msg: ClientMessage, other: ConnId)
    requires Routed(h) && Unlisted(h, other) && (msg.Join? ==> conn != other)
    ensures Unlisted(Handle(auth, h, conn, msg).hub, other)
  {
    var after := Handle(auth, h, conn, msg).hub;
    forall name, m | name in after.rooms && m in after.rooms[name].members
      ensures m.conn != other
    {
      if msg.SetAccess? && m !in RoomOf(h, name).members {
        var ms := h.rooms[name].members;
        var i :| 0 <= i < |ms| && WithLevel(ms, msg.subject, msg.level)[i] == m;
        assert ms[i] in ms && ms[i].conn == m.conn;
      }
    }
  }

  ghost predicate NeverJoins(trace: Trace, conn: ConnId) {
    forall i | 0 <= i < |trace| && trace[i].1.Join? :: trace[i].0 != conn
  }

  lemma {:induction false} RunUnlisted(auth: Authenticator, h: Hub, trace: Trace, conn: ConnId)
    requires Routed(h) && Unlisted(h, conn) && NeverJoins(trace, conn)
    ensures Unlisted(Run(auth, h, trace), conn)
    decreases |trace|
  {
    if trace != [] {
      HandleUnlisted(auth, h, trace[0].0, trace[0].1, conn);
      RunUnlisted(auth, Handle(auth, h, trace[0].0, trace[0].1).hub, trace[1..], conn);
    }
  }

  /** No connection sends two Joins. */
  ghost predicate OneJoinEach(trace: Trace) {
    forall i, j | 0 <= i < j < |trace| && trace[i].1.Join? && trace[j].1.Join? :: trace[i].0 != trace[j].0
  }

  /** The connections that join later are listed nowhere yet. */
  ghost predicate JoinersUnlisted(h: Hub, trace: Trace) {
    forall i | 0 <= i < |trace| && trace[i].1.Join? :: Unlisted(h, trace[i].0)
  }

  /** While no connection sends two Joins, every member is routed to the one room that lists it. */
  lemma {:induction false} RunOrderly(auth: Authenticator, h: Hub, trace: Trace)
    requires Routed(h) && Orderly(h) && OneJoinEach(trace) && JoinersUnlisted(h, trace)
    ensures Orderly(Run(auth, h, trace))
    decreases |trace|
  {
    if trace != [] {
      var (conn, msg) := trace[0];
      var next := Handle(auth, h, conn, msg).hub;
      match msg {
        case Join(name, token, replica, _) =>
          assert !MemberElsewhere(h, conn, name, replica);
          JoinOrderlyIff(auth, h, conn, name, token, replica);
        case _ => HandleOrderly(auth, h, conn, msg);
      }
      forall i | 0 <= i < |trace[1..]| && trace[1..][i].1.Join?
        ensures Unlisted(next, trace[1..][i].0)
      {
        assert trace[i + 1] == trace[1..][i];
        HandleUnlisted(auth, h, conn, msg, trace[i + 1].0);
      }
      RunOrderly(auth, next, trace[1..]);
    }
  }

  /** A session's member is routed here under its replica. */
  ghost predicate Serves(h: Hub, conn: ConnId, name: string, replica: ReplicaId) {
    exists m :: m in RoomOf(h, name).members && m.conn == conn && m.replica == replica
  }

  lemma SupersededIsUnlisted(auth: Authenticator, h: Hub, old_: ConnId, conn: ConnId, name: string, token: string, replica: ReplicaId)
    requires Routed(h) && Orderly(h) && conn != old_ && auth(name, token).Some? && Serves(h, old_, name, replica)
    ensures Unlisted(OnJoin(auth, h, conn, name, token, replica).hub, old_)
  {
    var after := OnJoin(auth, h, conn, name, token, replica).hub;
    var ms := RoomOf(h, name).members;
    assert OrderlyRoom(ms, name, h.connRoom);
    var m :| m in ms && m.conn == old_ && m.replica == replica;
    assert forall o | o in ms && o.conn == old_ :: o == m;
    forall n, o | n in after.rooms && o in after.rooms[n].members
      ensures o.conn != old_
    {
      if n != name {
        assert OrderlyRoom(h.rooms[n].members, n, h.connRoom);
      }
    }
  }

  /** A late Leave from a superseded connection changes nothing in any room and tells nobody, however much the hub handled
    since: the new session and its presence stay. */
  lemma LateLeaveIsHarmless(auth: Authenticator, h: Hub, old_: ConnId, conn: ConnId, name: string, token: string,
                            replica: ReplicaId, between: Trace)
    requires Routed(h) && Orderly(h) && conn != old_ && auth(name, token).Some? && Serves(h, old_, name, replica)
    requires NeverJoins(between, old_)
    ensures var late := Run(auth, OnJoin(auth, h, conn, name, token, replica).hub, between);
            OnLeave(late, old_).hub.rooms == late.rooms && OnLeave(late, old_).out == []
  {
    var joined := OnJoin(auth, h, conn, name, token, replica).hub;
    var late := Run(auth, joined, between);
    SupersededIsUnlisted(auth, h, old_, conn, name, token, replica);
    RunUnlisted(auth, joined, between, old_);
    if old_ in late.connRoom {
      NobodyLeaves(late.rooms[late.connRoom[old_]].members, old_);
    }
  }

  /** The same over whole runs from the empty hub: with one Join per connection, the Leave of any connection whose session
    has been taken over by a later Join is harmless. */
  lemma LateLeaveOverRuns(auth: Authenticator, before: Trace, old_: ConnId, conn: ConnId, name: string, token: string,
                          replica: ReplicaId, displayName: string, between: Trace)
    requires OneJoinEach(before + [(conn, Join(name, token, replica, displayName))] + between)
    requires auth(name, token).Some? && Serves(Run(auth, EMPTY_HUB, before), old_, name, replica)
    ensures var late := Run(auth, EMPTY_HUB, before + [(conn, Join(name, token, replica, displayName))] + between);
            OnLeave(late, old_).hub.rooms == late.rooms && OnLeave(late, old_).out == []
  {
    var h, join := Run(auth, EMPTY_HUB, before), (conn, Join(name, token, replica, displayName));
    var all := before + [join] + between;
    assert forall i | 0 <= i < |before| :: all[i] == before[i];
    assert all[|before|] == join;
    assert forall i | 0 <= i < |between| :: all[|before| + 1 + i] == between[i];
    RunOrderly(auth, EMPTY_HUB, before);
    if forall i | 0 <= i < |before| && before[i].1.Join? :: before[i].0 != old_ {
      RunUnlisted(auth, EMPTY_HUB, before, old_);
    }
    RunConcat(auth, EMPTY_HUB, before + [join], between);
    RunConcat(auth, EMPTY_HUB, before, [join]);
    LateLeaveIsHarmless(auth, h, old_, conn, name, token, replica, between);
  }

  lemma {:induction false} RunConcat(auth: Authenticator, h: Hub, first: Trace, second: Trace)
    requires Routed(h)
    ensures Run(auth, h, first + second) == Run(auth, Run(auth, h, first), second)
    decreases |first|
  {
    hide Handle;
    if first == [] {
      assert first + second == second;
    } else {
      RunConcat(auth, Handle(auth, h, first[0].0, first[0].1).hub, first[1..], second);
      assert (first + second)[1..] == first[1..] + second;
    }
  }
}
