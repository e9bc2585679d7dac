/** What the hub answers to each kind of message, and how a member comes by its access level, without reference to the
  handlers' own tests (collab/src/server.rs:146-328). */
module HubLaws {
  import opened Options
  import opened Clocks
  import opened Crdt
  import opened Presences
  import opened Messages
  import opened Hubs

  // ----- Who speaks

  /** The first member of the list with this connection. */
  ghost predicate FirstWith(ms: seq<Member>, conn: ConnId, i: nat) {
    i < |ms| && ms[i].conn == conn && forall j | 0 <= j < i :: ms[j].conn != conn
  }

  /** The connection is routed to the room and speaks there as this member. */
  ghost predicate Speaks(h: Hub, conn: ConnId, name: string, m: Member) {
    && conn in h.connRoom && h.connRoom[conn] == name && name in h.rooms
    && exists i: nat :: FirstWith(h.rooms[name].members, conn, i) && h.rooms[name].members[i] == m
  }

  ghost predicate Silent(h: Hub, conn: ConnId) {
    forall name, m :: !Speaks(h, conn, name, m)
  }

  lemma {:induction false} FoundIsFirst(ms: seq<Member>, conn: ConnId) returns (i: nat)
    requires exists m :: m in ms && m.conn == conn
    ensures FirstWith(ms, conn, i) && FindMember(ms, conn) == Some(ms[i])
  {
    if ms[0].conn == conn {
      i := 0;
    } else {
      var m :| m in ms && m.conn == conn;
      assert m in ms[1..];
      var j := FoundIsFirst(ms[1..], conn);
      i := j + 1;
    }
  }

  lemma FirstIsUnique(ms: seq<Member>, conn: ConnId, i: nat, j: nat)
    requires FirstWith(ms, conn, i) && FirstWith(ms, conn, j)
    ensures i == j
  {
  }

  lemma SpeaksIffFound(h: Hub, conn: ConnId, m: Member)
    requires Routed(h) && conn in h.connRoom
    ensures Speaks(h, conn, h.connRoom[conn], m) <==> FindMember(h.rooms[h.connRoom[conn]].members, conn) == Some(m)
  {
    var ms := h.rooms[h.connRoom[conn]].members;
    if FindMember(ms, conn).Some? {
      var i := FoundIsFirst(ms, conn);
      forall j: nat | FirstWith(ms, conn, j)
        ensures i == j
      {
        FirstIsUnique(ms, conn, i, j);
      }
    } else {
      assert forall i | 0 <= i < |ms| :: ms[i] in ms;
    }
  }

  // ----- Who is told

  /** Every other member of the list is told, once for each time it is listed, and nobody else. */
  ghost predicate OthersAreTold(out: seq<Outbound>, ms: seq<Member>, except: ConnId, message: ServerMessage) {
    && (forall o | o in out :: o.message == message && o.to != except)
    && (forall c | c != except :: multiset(out)[Outbound(c, message)] == |ListedAt(ms, c)|)
  }

  function ListedAt(ms: seq<Member>, c: ConnId): set<nat> {
    set i: nat | i < |ms| && ms[i].conn == c
  }

  lemma ListedAtMore(ms: seq<Member>, c: ConnId)
    requires ms != []
    ensures |ListedAt(ms, c)| == |ListedAt(ms[..|ms| - 1], c)| + if ms[|ms| - 1].conn == c then 1 else 0
  {
    var n := |ms| - 1;
    assert ListedAt(ms, c) == ListedAt(ms[..n], c) + if ms[n].conn == c then {n} else {};
  }

  lemma {:induction false} OtherConnsAppended(ms: seq<Member>, last: Member, except: ConnId)
    ensures last.conn == except ==> OtherConns(ms + [last], except) == OtherConns(ms, except)
    ensures last.conn != except ==> OtherConns(ms + [last], except) == OtherConns(ms, except) + [last.conn]
  {
    if ms == [] {
      assert (ms + [last])[1..] == [];
    } else {
      assert (ms + [last])[1..] == ms[1..] + [last];
      OtherConnsAppended(ms[1..], last, except);
    }
  }

  lemma BroadcastMore(ms: seq<Member>, except: ConnId, message: ServerMessage)
    requires ms != []
    ensures var n := |ms| - 1;
            var rest := Broadcast(OtherConns(ms[..n], except), message);
            Broadcast(OtherConns(ms, except), message)
            == if ms[n].conn == except then rest else rest + [Outbound(ms[n].conn, message)]
  {
    var n := |ms| - 1;
    assert ms == ms[..n] + [ms[n]];
    OtherConnsAppended(ms[..n], ms[n], except);
    hide OtherConns, Broadcast;
    if ms[n].conn != except {
      BroadcastAppended(OtherConns(ms[..n], except), ms[n].conn, message);
    }
  }

  lemma BroadcastAppended(to: seq<ConnId>, c: ConnId, message: ServerMessage)
    ensures Broadcast(to + [c], message) == Broadcast(to, message) + [Outbound(c, message)]
  {
  }

  lemma {:induction false} BroadcastTells(ms: seq<Member>, except: ConnId, message: ServerMessage)
    ensures OthersAreTold(Broadcast(OtherConns(ms, except), message), ms, except, message)
  {
    var to := OtherConns(ms, except);
    if ms == [] {
      assert Broadcast(to, message) == [];
      assert forall c :: ListedAt(ms, c) == {};
    } else {
      var n := |ms| - 1;
      BroadcastTells(ms[..n], except, message);
      BroadcastMore(ms, except, message);
      hide Broadcast, OtherConns, ListedAt;
      forall c | c != except
        ensures multiset(Broadcast(to, message))[Outbound(c, message)] == |ListedAt(ms, c)|
      {
        ListedAtMore(ms, c);
      }
    }
  }

  // ----- The answer to each message

  /** The room's entry is replaced and nothing else. */
  ghost predicate OnlyRoom(h: Hub, after: Hub, name: string, room: Room) {
    after.rooms == h.rooms[name := room] && after.connRoom == h.connRoom
  }

  /** Nothing happens but one refusal to the sender. */
  ghost predicate Refused(h: Hub, conn: ConnId, r: Reply) {
    r.hub == h && exists reason :: r.out == [Outbound(conn, Rejected(reason))]
  }

  /** Operations are applied and passed on to the others exactly when the sender's member is an editor or an owner. */
  lemma OpsLaw(auth: Authenticator, h: Hub, conn: ConnId, ops: seq<Op>)
    requires Routed(h)
    ensures Silent(h, conn) ==> Refused(h, conn, Handle(auth, h, conn, Ops(ops)))
    ensures forall name, m | Speaks(h, conn, name, m) ::
              var r, room := Handle(auth, h, conn, Ops(ops)), h.rooms[name];
              if m.level == Viewer then Refused(h, conn, r)
              else OnlyRoom(h, r.hub, name, room.(doc := Replayed(room.doc, ops)))
                   && OthersAreTold(r.out, room.members, conn, OpsFrom(m.replica, ops))
  {
    var r := Handle(auth, h, conn, Ops(ops));
    RefusedWithoutMember(h, conn);
    forall name, m | Speaks(h, conn, name, m)
      ensures if m.level == Viewer then Refused(h, conn, r)
              else OnlyRoom(h, r.hub, name, h.rooms[name].(doc := Replayed(h.rooms[name].doc, ops)))
                   && OthersAreTold(r.out, h.rooms[name].members, conn, OpsFrom(m.replica, ops))
    {
      SpeaksIffFound(h, conn, m);
      BroadcastTells(h.rooms[name].members, conn, OpsFrom(m.replica, ops));
    }
  }

  /** A connection without a member is not routed, or its room does not list it. */
  lemma RefusedWithoutMember(h: Hub, conn: ConnId)
    requires Routed(h)
    ensures Silent(h, conn) <==> conn !in h.connRoom || FindMember(h.rooms[h.connRoom[conn]].members, conn).None?
  {
    if conn in h.connRoom {
      var found := FindMember(h.rooms[h.connRoom[conn]].members, conn);
      if found.Some? {
        SpeaksIffFound(h, conn, found.value);
      } else {
        forall m
          ensures !Speaks(h, conn, h.connRoom[conn], m)
        {
          SpeaksIffFound(h, conn, m);
        }
      }
    }
  }

  /** A newer presence record replaces the user's older one and is passed on to the others; an older one is dropped. */
  lemma PresenceLaw(auth: Authenticator, h: Hub, conn: ConnId, p: Presence)
    requires Routed(h)
    ensures Silent(h, conn) ==> Refused(h, conn, Handle(auth, h, conn, ShowPresence(p)))
    ensures forall name, m | Speaks(h, conn, name, m) ::
              var r, room := Handle(auth, h, conn, ShowPresence(p)), h.rooms[name];
              if p.replica in room.presence && p.epoch <= room.presence[p.replica].epoch then r == Reply(h, [])
              else OnlyRoom(h, r.hub, name, room.(presence := room.presence[p.replica := p]))
                   && OthersAreTold(r.out, room.members, conn, PresenceOf(p))
  {
    var r := Handle(auth, h, conn, ShowPresence(p));
    RefusedWithoutMember(h, conn);
    forall name, m | Speaks(h, conn, name, m)
      ensures var room := h.rooms[name];
              if p.replica in room.presence && p.epoch <= room.presence[p.replica].epoch then r == Reply(h, [])
              else OnlyRoom(h, r.hub, name, room.(presence := room.presence[p.replica := p]))
                   && OthersAreTold(r.out, room.members, conn, PresenceOf(p))
    {
      SpeaksIffFound(h, conn, m);
      BroadcastTells(h.rooms[name].members, conn, PresenceOf(p));
    }
  }

  /** The members after an access change: those with the subject have the new level, and nothing else has changed. */
  ghost predicate Relevelled(ms: seq<Member>, after: seq<Member>, subject: string, level: AccessLevel) {
    |after| == |ms| && forall i | 0 <= i < |ms| ::
      after[i] == Member(ms[i].conn, ms[i].replica, ms[i].subject, if ms[i].subject == subject then level else ms[i].level)
  }

  /** Access changes by exactly the owners of the room, for exactly the members with the subject; anybody else is refused. */
  lemma SetAccessLaw(auth: Authenticator, h: Hub, conn: ConnId, subject: string, level: AccessLevel)
    requires Routed(h)
    ensures Silent(h, conn) ==> Refused(h, conn, Handle(auth, h, conn, SetAccess(subject, level)))
    ensures forall name, m | Speaks(h, conn, name, m) ::
              var r, room := Handle(auth, h, conn, SetAccess(subject, level)), h.rooms[name];
              if m.level != Owner then Refused(h, conn, r)
              else r.out == [] && exists after ::
                     Relevelled(room.members, after, subject, level) && OnlyRoom(h, r.hub, name, room.(members := after))
  {
    var r := Handle(auth, h, conn, SetAccess(subject, level));
    RefusedWithoutMember(h, conn);
    forall name, m | Speaks(h, conn, name, m)
      ensures var room := h.rooms[name];
              if m.level != Owner then Refused(h, conn, r)
              else r.out == [] && exists after ::
                     Relevelled(room.members, after, subject, level) && OnlyRoom(h, r.hub, name, room.(members := after))
    {
      SpeaksIffFound(h, conn, m);
      if m.level == Owner {
        var after := WithLevel(h.rooms[name].members, subject, level);
        assert Relevelled(h.rooms[name].members, after, subject, level);
        assert OnlyRoom(h, r.hub, name, h.rooms[name].(members := after));
      }
    }
  }

  /** A resync is answered with the room's document, to the asker only. */
  lemma ResyncLaw(auth: Authenticator, h: Hub, conn: ConnId)
    requires Routed(h)
    ensures conn !in h.connRoom ==> Refused(h, conn, Handle(auth, h, conn, Resync))
    ensures conn in h.connRoom ==>
              Handle(auth, h, conn, Resync) == Reply(h, [Outbound(conn, Snapshot(h.rooms[h.connRoom[conn]].doc))])
  {
  }

  /** The list without some members: each of the others is kept as often as before. */
  ghost predicate Keeps(ms: seq<Member>, kept: seq<Member>, dropped: set<Member>) {
    forall m :: multiset(kept)[m] == if m in dropped then 0 else multiset(ms)[m]
  }

  lemma {:induction false} WithoutConnKeeps(ms: seq<Member>, conn: ConnId)
    ensures Keeps(ms, WithoutConn(ms, conn), set m | m in ms && m.conn == conn)
  {
    if ms != [] {
      WithoutConnKeeps(ms[1..], conn);
      assert ms == [ms[0]] + ms[1..];
    }
  }

  lemma {:induction false} WithoutReplicaKeeps(ms: seq<Member>, replica: ReplicaId)
    ensures Keeps(ms, WithoutReplica(ms, replica), set m | m in ms && m.replica == replica)
  {
    if ms != [] {
      WithoutReplicaKeeps(ms[1..], replica);
      assert ms == [ms[0]] + ms[1..];
    }
  }

  /** A leaver's route and members go; if it had spoken as a member, that member's presence record goes too and the
    remaining members are told. */
  lemma LeaveLaw(auth: Authenticator, h: Hub, conn: ConnId)
    requires Routed(h)
    ensures conn !in h.connRoom ==> Handle(auth, h, conn, Leave) == Reply(h, [])
    ensures conn in h.connRoom ==>
              var r, name := Handle(auth, h, conn, Leave), h.connRoom[conn];
              var room, after := h.rooms[name], r.hub.rooms[name];
              && r.hub.connRoom == h.connRoom - {conn} && r.hub.rooms == h.rooms[name := after] && after.doc == room.doc
              && Keeps(room.members, after.members, set m | m in room.members && m.conn == conn)
              && (Silent(h, conn) ==> after.presence == room.presence && r.out == [])
              && forall m | Speaks(h, conn, name, m) ::
                   && after.presence == room.presence - {m.replica}
                   && OthersAreTold(r.out, after.members, conn, Left(m.replica))
  {
    if conn in h.connRoom {
      var name := h.connRoom[conn];
      var ms := h.rooms[name].members;
      RefusedWithoutMember(h, conn);
      WithoutConnKeeps(ms, conn);
      forall m | Speaks(h, conn, name, m)
        ensures FindMember(ms, conn) == Some(m)
        ensures OthersAreTold(Broadcast(OtherConns(WithoutConn(ms, conn), conn), Left(m.replica)), WithoutConn(ms, conn), conn,
                              Left(m.replica))
      {
        SpeaksIffFound(h, conn, m);
        BroadcastTells(WithoutConn(ms, conn), conn, Left(m.replica));
      }
    }
  }

  /** A join with an accepted token replaces the replica's member by one with the granted subject and level, which the
    answer carries along with the document and the presence records. */
  lemma JoinLaw(auth: Authenticator, h: Hub, conn: ConnId, name: string, token: string, replica: ReplicaId, displayName: string)
    requires Routed(h)
    ensures var r, room := Handle(auth, h, conn, Join(name, token, replica, displayName)), RoomOf(h, name);
            match auth(name, token)
            case None => Refused(h, conn, r)
            case Some((subject, level)) =>
              && r.out == [Outbound(conn, Welcome(level, room.doc, room.presence))]
              && r.hub.connRoom == h.connRoom[conn := name]
              && exists kept :: Keeps(room.members, kept, set m | m in room.members && m.replica == replica)
                   && r.hub.rooms == h.rooms[name := Room(room.doc, room.presence, kept + [Member(conn, replica, subject, level)])]
  {
    var room := RoomOf(h, name);
    WithoutReplicaKeeps(room.members, replica);
    if auth(name, token).Some? {
      var kept := WithoutReplica(room.members, replica);
      var (subject, level) := auth(name, token).value;
      assert Handle(auth, h, conn, Join(name, token, replica, displayName)).hub.rooms
        == h.rooms[name := Room(room.doc, room.presence, kept + [Member(conn, replica, subject, level)])];
    }
  }

  // ----- How a member comes by its level

  /** The hub after the first `j` messages of a trace. */
  function HubAt(auth: Authenticator, trace: Trace, j: nat): (h: Hub)
    requires j <= |trace|
    ensures Routed(h)
  {
    Run(auth, EMPTY_HUB, trace[..j])
  }

  lemma HubAtNext(auth: Authenticator, trace: Trace, j: nat)
    requires j < |trace|
    ensures HubAt(auth, trace, j + 1) == Handle(auth, HubAt(auth, trace, j), trace[j].0, trace[j].1).hub
  {
    var h := HubAt(auth, trace, j);
    RunConcat(auth, EMPTY_HUB, trace[..j], [trace[j]]);
    assert trace[..j + 1] == trace[..j] + [trace[j]];
    assert Run(auth, h, [trace[j]]) == Handle(auth, h, trace[j].0, trace[j].1).hub by {
      var one: Trace := [trace[j]];
      assert one[1..] == [];
    }
  }

  /** Message `i` is the join that made this member, and the authenticator granted this level. */
  ghost predicate JoinedAt(auth: Authenticator, trace: Trace, name: string, m: Member, i: nat, granted: AccessLevel) {
    && i < |trace| && trace[i].0 == m.conn && trace[i].1.Join? && trace[i].1.room == name && trace[i].1.replica == m.replica
    && auth(name, trace[i].1.token) == Some((m.subject, granted))
  }

  /** Message `j` changes the access of the subject, and its sender spoke as an owner in the room at that moment. */
  ghost predicate SetAt(auth: Authenticator, trace: Trace, name: string, subject: string, j: nat) {
    && j < |trace| && trace[j].1.SetAccess? && trace[j].1.subject == subject
    && exists o :: Speaks(HubAt(auth, trace, j), trace[j].0, name, o) && o.level == Owner
  }

  ghost predicate Unchanged(auth: Authenticator, trace: Trace, name: string, subject: string, i: nat, end: nat) {
    forall j | i < j < end :: !SetAt(auth, trace, name, subject, j)
  }

  /** The level was granted at the member's join and not changed since, or it is what the latest owner's change since then
    says. */
  ghost predicate Explained(auth: Authenticator, trace: Trace, name: string, m: Member, end: nat) {
    exists i: nat, granted :: i < end && JoinedAt(auth, trace, name, m, i, granted)
      && ((m.level == granted && Unchanged(auth, trace, name, m.subject, i, end))
          || exists j: nat :: i < j < end && SetAt(auth, trace, name, m.subject, j) && trace[j].1.level == m.level
               && Unchanged(auth, trace, name, m.subject, j, end))
  }

  /** An owner of the room changes the access of the subject. */
  ghost predicate OwnerSets(h: Hub, conn: ConnId, msg: ClientMessage, name: string, subject: string) {
    msg.SetAccess? && msg.subject == subject && exists o :: Speaks(h, conn, name, o) && o.level == Owner
  }

  /** Where a listed member comes from: its own join, or the member it was before, whose level only an owner changes. */
  lemma MemberComesFrom(auth: Authenticator, h: Hub, conn: ConnId, msg: ClientMessage, name: string, m: Member)
    requires Routed(h) && m in RoomOf(Handle(auth, h, conn, msg).hub, name).members
    ensures || (msg.Join? && msg.room == name && auth(name, msg.token) == Some((m.subject, m.level))
                && m.conn == conn && m.replica == msg.replica)
            || exists o :: o in RoomOf(h, name).members && o.conn == m.conn && o.replica == m.replica && o.subject == m.subject
                 && m.level == if OwnerSets(h, conn, msg, name, m.subject) then msg.level else o.level
  {
    if name != Target(h, conn, msg) {
      OnlyTargetChanges(auth, h, conn, msg, name);
    } else {
      match msg {
        case SetAccess(subject, level) =>
          if conn in h.connRoom {
            RelevelledFrom(auth, h, conn, subject, level, name, m);
          } else {
            assert m in RoomOf(h, name).members;
          }
        case Join(_, _, replica, _) => assert m in RoomOf(h, name).members || m.conn == conn;
        case Leave => assert m in RoomOf(h, name).members;
        case _ => assert m in RoomOf(h, name).members;
      }
    }
  }

  lemma RelevelledFrom(auth: Authenticator, h: Hub, conn: ConnId, subject: string, level: AccessLevel, name: string, m: Member)
    requires Routed(h) && conn in h.connRoom && name == h.connRoom[conn]
    requires m in RoomOf(Handle(auth, h, conn, SetAccess(subject, level)).hub, name).members
    ensures exists o :: o in RoomOf(h, name).members && o.conn == m.conn && o.replica == m.replica && o.subject == m.subject
              && m.level == if OwnerSets(h, conn, SetAccess(subject, level), name, m.subject) then level else o.level
  {
    var ms, r := h.rooms[name].members, Handle(auth, h, conn, SetAccess(subject, level));
    SetAccessLaw(auth, h, conn, subject, level);
    if Silent(h, conn) {
      assert r.hub == h && m in ms;
    } else {
      var n, s :| Speaks(h, conn, n, s);
      forall s' | Speaks(h, conn, name, s')
        ensures s' == s
      {
        SpeaksIffFound(h, conn, s');
        SpeaksIffFound(h, conn, s);
      }
      if s.level == Owner {
        var after :| Relevelled(ms, after, subject, level) && OnlyRoom(h, r.hub, name, h.rooms[name].(members := after));
        var i :| 0 <= i < |after| && after[i] == m;
        assert ms[i] in ms;
      } else {
        assert r.hub == h && m in ms;
      }
    }
  }

  /** Over every trace from the empty hub, every member's level is the one the authenticator granted at its join, or was set
    by the latest later change for its subject that an owner of the room sent. */
  lemma {:induction false} EveryLevelIsExplained(auth: Authenticator, trace: Trace, name: string, m: Member, end: nat)
    requires end <= |trace| && m in RoomOf(HubAt(auth, trace, end), name).members
    ensures Explained(auth, trace, name, m, end)
    decreases end
  {
    if end > 0 {
      var j := end - 1;
      var h, conn, msg := HubAt(auth, trace, j), trace[j].0, trace[j].1;
      HubAtNext(auth, trace, j);
      hide HubAt, Handle, Run;
      MemberComesFrom(auth, h, conn, msg, name, m);
      if msg.Join? && msg.room == name && auth(name, msg.token) == Some((m.subject, m.level))
         && m.conn == conn && m.replica == msg.replica {
        assert JoinedAt(auth, trace, name, m, j, m.level) && Unchanged(auth, trace, name, m.subject, j, end);
      } else {
        var o :| o in RoomOf(h, name).members && o.conn == m.conn && o.replica == m.replica && o.subject == m.subject
          && m.level == if OwnerSets(h, conn, msg, name, m.subject) then msg.level else o.level;
        EveryLevelIsExplained(auth, trace, name, o, j);
        ExplainedOneMore(auth, trace, name, o, m, j);
      }
    }
  }

  lemma ExplainedOneMore(auth: Authenticator, trace: Trace, name: string, o: Member, m: Member, j: nat)
    requires j < |trace| && Explained(auth, trace, name, o, j)
    requires o.conn == m.conn && o.replica == m.replica && o.subject == m.subject
    requires m.level == if OwnerSets(HubAt(auth, trace, j), trace[j].0, trace[j].1, name, m.subject) then trace[j].1.level else o.level
    ensures Explained(auth, trace, name, m, j + 1)
  {
    hide HubAt, Speaks;
    var i: nat, granted :| i < j && JoinedAt(auth, trace, name, o, i, granted)
      && ((o.level == granted && Unchanged(auth, trace, name, o.subject, i, j))
          || exists k: nat :: i < k < j && SetAt(auth, trace, name, o.subject, k) && trace[k].1.level == o.level
               && Unchanged(auth, trace, name, o.subject, k, j));
    assert JoinedAt(auth, trace, name, m, i, granted);
    if OwnerSets(HubAt(auth, trace, j), trace[j].0, trace[j].1, name, m.subject) {
      assert SetAt(auth, trace, name, m.subject, j) && Unchanged(auth, trace, name, m.subject, j, j + 1);
    } else {
      assert !SetAt(auth, trace, name, m.subject, j);
      if o.level == granted && Unchanged(auth, trace, name, o.subject, i, j) {
        assert Unchanged(auth, trace, name, m.subject, i, j + 1);
      } else {
        var k: nat :| i < k < j && SetAt(auth, trace, name, o.subject, k) && trace[k].1.level == o.level
          && Unchanged(auth, trace, name, o.subject, k, j);
        assert Unchanged(auth, trace, name, m.subject, k, j + 1);
      }
    }
  }

  // ----- Whose operations are let in

  /** Message `i` brings the operation from a connection that spoke in the room as an editor or an owner. */
  ghost predicate LetIn(auth: Authenticator, trace: Trace, name: string, op: Op, i: nat) {
    && i < |trace| && trace[i].1.Ops? && op in trace[i].1.ops
    && exists m :: Speaks(HubAt(auth, trace, i), trace[i].0, name, m) && (m.level == Editor || m.level == Owner)
  }

  lemma MayEditIff(h: Hub, conn: ConnId, name: string)
    requires Routed(h)
    ensures MayEdit(h, conn) && h.connRoom[conn] == name
            <==> exists m :: Speaks(h, conn, name, m) && (m.level == Editor || m.level == Owner)
  {
    if MayEdit(h, conn) && h.connRoom[conn] == name {
      var m := FindMember(h.rooms[name].members, conn).value;
      SpeaksIffFound(h, conn, m);
      assert Speaks(h, conn, name, m) && (m.level == Editor || m.level == Owner);
    }
    forall m | Speaks(h, conn, name, m)
      ensures FindMember(h.rooms[name].members, conn) == Some(m)
    {
      SpeaksIffFound(h, conn, m);
    }
  }

  lemma LetInIff(auth: Authenticator, trace: Trace, name: string, op: Op, j: nat)
    requires j < |trace|
    ensures LetIn(auth, trace, name, op, j)
            <==> trace[j].1.Ops? && op in trace[j].1.ops && MayEdit(HubAt(auth, trace, j), trace[j].0)
                 && HubAt(auth, trace, j).connRoom[trace[j].0] == name
  {
    MayEditIff(HubAt(auth, trace, j), trace[j].0, name);
    hide HubAt, Speaks, MayEdit;
  }

  lemma {:induction false} AdmittedConcat(auth: Authenticator, h: Hub, first: Trace, second: Trace, name: string)
    requires Routed(h)
    ensures Admitted(auth, h, first + second, name)
            == Admitted(auth, h, first, name) + Admitted(auth, Run(auth, h, first), second, name)
    decreases |first|
  {
    hide Handle, MayEdit;
    if first == [] {
      assert first + second == second;
    } else {
      AdmittedConcat(auth, Handle(auth, h, first[0].0, first[0].1).hub, first[1..], second, name);
      assert (first + second)[1..] == first[1..] + second;
    }
  }

  lemma AdmittedNext(auth: Authenticator, trace: Trace, j: nat, name: string)
    requires j < |trace|
    ensures var h, now := HubAt(auth, trace, j), trace[j];
            Admitted(auth, EMPTY_HUB, trace[..j + 1], name)
            == Admitted(auth, EMPTY_HUB, trace[..j], name)
               + if now.1.Ops? && MayEdit(h, now.0) && h.connRoom[now.0] == name then now.1.ops else []
  {
    hide Handle, MayEdit;
    AdmittedConcat(auth, EMPTY_HUB, trace[..j], [trace[j]], name);
    assert trace[..j + 1] == trace[..j] + [trace[j]];
    var one: Trace := [trace[j]];
    assert one[1..] == [];
  }

  /** Over every trace from the empty hub, the operations let into a room are exactly those that came from connections
    speaking there as editors or owners at that moment. */
  lemma {:induction false} AdmittedIff(auth: Authenticator, trace: Trace, name: string, op: Op, end: nat)
    requires end <= |trace|
    ensures op in Admitted(auth, EMPTY_HUB, trace[..end], name) <==> exists i: nat :: i < end && LetIn(auth, trace, name, op, i)
    decreases end
  {
    if end > 0 {
      var j := end - 1;
      AdmittedIff(auth, trace, name, op, j);
      AdmittedNext(auth, trace, j, name);
      LetInIff(auth, trace, name, op, j);
      hide HubAt, Admitted, LetIn, MayEdit;
      assert op in Admitted(auth, EMPTY_HUB, trace[..end], name)
        <==> op in Admitted(auth, EMPTY_HUB, trace[..j], name) || LetIn(auth, trace, name, op, j);
    }
  }
}
