/** The hub's in-place handlers, proved against the functions of `Hubs` (collab/src/server.rs). */
module SyncHubs {
  import opened Clocks
  import opened Crdt
  import opened Presences
  import opened Messages
  import opened Hubs

  class SyncHub {
    const auth: Authenticator
    var rooms: map<string, Room>
    var connRoom: map<ConnId, string>

    function State(): Hub
      reads this
    {
      Hub(rooms, connRoom)
    }

    ghost predicate Valid()
      reads this
    {
      Consistent(State())
    }

    constructor (auth: Authenticator)
      ensures Valid() && State() == EMPTY_HUB && this.auth == auth
    {
      this.auth := auth;
      rooms, connRoom := map[], map[];
    }

    method HandleMessage(conn: ConnId, msg: ClientMessage) returns (out: seq<Outbound>)
      requires Valid()
      modifies this
      ensures Valid()
      ensures Reply(State(), out) == Handle(auth, old(State()), conn, msg)
    {
      HandleConsistent(auth, State(), conn, msg);
      match msg {
        case Join(room, token, replica, _) => out := DoJoin(conn, room, token, replica);
        case Ops(ops) => out := DoOps(conn, ops);
        case ShowPresence(presence) => out := DoPresence(conn, presence);
        case SetAccess(subject, level) => out := DoSetAccess(conn, subject, level);
        case Resync => out := DoResync(conn);
        case Leave => out := DoLeave(conn);
      }
    }

    method DoJoin(conn: ConnId, name: string, token: string, replica: ReplicaId) returns (out: seq<Outbound>)
      modifies this
      ensures Reply(State(), out) == OnJoin(auth, old(State()), conn, name, token, replica)
    {
      var granted := auth(name, token);
      if granted.None? {
        return Reject(conn, AuthenticationFailed);
      }
      var (subject, level) := granted.value;
      var room := if name in rooms then rooms[name] else EMPTY_ROOM;
      room := room.(members := WithoutReplica(room.members, replica));
      room := room.(members := room.members + [Member(conn, replica, subject, level)]);
      rooms := rooms[name := room];
      connRoom := connRoom[conn := name];
      out := [Outbound(conn, Welcome(level, room.doc, room.presence))];
    }

    method DoOps(conn: ConnId, ops: seq<Op>) returns (out: seq<Outbound>)
      requires Routed(State())
      modifies `rooms
      ensures Reply(State(), out) == OnOps(old(State()), conn, ops)
    {
      if conn !in connRoom {
        return Reject(conn, NotInARoom);
      }
      var name := connRoom[conn];
      var room := rooms[name];
      var member := FindMember(room.members, conn);
      if member.None? {
        return Reject(conn, UnknownMember);
      }
      if !member.value.level.CanEdit() {
        return Reject(conn, MayNotEdit);
      }
      var doc := room.doc;
      var i := 0;
      while i < |ops|
        invariant 0 <= i <= |ops|
        invariant Replayed(doc, ops[i..]) == Replayed(room.doc, ops)
      {
        assert ops[i..][1..] == ops[i + 1..];
        doc := Applied(doc, ops[i]);
        i := i + 1;
      }
      assert ops[i..] == [];
      rooms := rooms[name := room.(doc := doc)];
      out := Broadcast(OtherConns(room.members, conn), OpsFrom(member.value.replica, ops));
    }

    method DoPresence(conn: ConnId, p: Presence) returns (out: seq<Outbound>)
      requires Routed(State())
      modifies `rooms
      ensures Reply(State(), out) == OnPresence(old(State()), conn, p)
    {
      if conn !in connRoom {
        return Reject(conn, NotInARoom);
      }
      var name := connRoom[conn];
      var room := rooms[name];
      if FindMember(room.members, conn).None? {
        return Reject(conn, UnknownMember);
      }
      if Stale(room.presence, p) {
        return [];
      }
      rooms := rooms[name := room.(presence := room.presence[p.replica := p])];
      out := Broadcast(OtherConns(room.members, conn), PresenceOf(p));
    }

    method DoSetAccess(conn: ConnId, subject: string, level: AccessLevel) returns (out: seq<Outbound>)
      requires Routed(State())
      modifies `rooms
      ensures Reply(State(), out) == OnSetAccess(old(State()), conn, subject, level)
    {
      if conn !in connRoom {
        return Reject(conn, NotInARoom);
      }
      var name := connRoom[conn];
      var room := rooms[name];
      var caller := FindMember(room.members, conn);
      if caller.None? {
        return Reject(conn, UnknownMember);
      }
      if !caller.value.level.CanAdmin() {
        return Reject(conn, MayNotAdminister);
      }
      var members := Relevel(room.members, subject, level);
      rooms := rooms[name := room.(members := members)];
      out := [];
    }

    static method Relevel(ms: seq<Member>, subject: string, level: AccessLevel) returns (members: seq<Member>)
      ensures members == WithLevel(ms, subject, level)
    {
      members := ms;
      var i := 0;
      while i < |members|
        invariant 0 <= i <= |members| == |ms|
        invariant forall j | 0 <= j < |ms| ::
          members[j] == if j < i && ms[j].subject == subject then ms[j].(level := level) else ms[j]
      {
        if members[i].subject == subject {
          members := members[i := members[i].(level := level)];
        }
        i := i + 1;
      }
    }

    method DoResync(conn: ConnId) returns (out: seq<Outbound>)
      requires Routed(State())
      ensures Reply(State(), out) == OnResync(State(), conn)
    {
      if conn !in connRoom {
        return Reject(conn, NotInARoom);
      }
      out := [Outbound(conn, Snapshot(rooms[connRoom[conn]].doc))];
    }

    method DoLeave(conn: ConnId) returns (out: seq<Outbound>)
      requires Routed(State())
      modifies this
      ensures Reply(State(), out) == OnLeave(old(State()), conn)
    {
      if conn !in connRoom {
        return [];
      }
      var name := connRoom[conn];
      connRoom := connRoom - {conn};
      var room := rooms[name];
      var member := FindMember(room.members, conn);
      room := room.(members := WithoutConn(room.members, conn));
      if member.Some? {
        room := room.(presence := room.presence - {member.value.replica});
        out := Broadcast(OtherConns(room.members, conn), Left(member.value.replica));
      } else {
        out := [];
      }
      rooms := rooms[name := room];
    }
  }
}
