/** The guarantees of the collaboration system over every run. */
module Collaboration {
  import opened Clocks
  import opened Crdt
  import opened Convergence
  import opened Snapshots
  import opened Replicas
  import opened Messages
  import opened Sessions
  import opened Hubs
  import opened Protocol
  import opened ProtocolInvariant

  ghost predicate IsRun(auth: Authenticator, s: System, actions: seq<Action>)
    decreases |actions|
  {
    actions != [] ==> Enabled(s, actions[0]) && IsRun(auth, Step(auth, s, actions[0]), actions[1..])
  }

  ghost function Final(auth: Authenticator, s: System, actions: seq<Action>): System
    requires IsRun(auth, s, actions)
    decreases |actions|
  {
    if actions == [] then s else Final(auth, Step(auth, s, actions[0]), actions[1..])
  }

  lemma {:induction false} RunKeepsInv(auth: Authenticator, s: System, actions: seq<Action>)
    requires Inv(s) && IsRun(auth, s, actions)
    ensures Inv(Final(auth, s, actions))
    decreases |actions|
  {
    if actions != [] {
      StepKeepsInv(auth, s, actions[0]);
      RunKeepsInv(auth, Step(auth, s, actions[0]), actions[1..]);
    }
  }

  /** The client's socket is the one its room lists. */
  ghost predicate Current(s: System, r: ReplicaId) {
    && r in s.clients && s.clients[r].conn.Some?
    && exists m :: m in RoomOf(s.hub, s.clients[r].room).members && m.conn == s.clients[r].conn.value
  }

  /** Operations of the client the hub has not let in: queued, on their way up, or refused. */
  ghost predicate NotAdmitted(s: System, r: ReplicaId, op: Op)
    requires r in s.clients
  {
    op in s.clients[r].session.pending || GoingUp(s, r, op) || op in s.clients[r].refused
  }

  lemma Balance(s: System, r: ReplicaId)
    requires Inv(s) && Current(s, r)
    ensures forall op ::
              op in s.clients[r].known || GoingDown(s, s.clients[r].conn.value, op)
              <==> op in AdmittedTo(s, s.clients[r].room) || NotAdmitted(s, r, op)
  {
    var c := s.clients[r];
    assert ClientOk(s, r) && Accounted(s, r) && RoomOk(s, c.room);
    var m :| m in RoomOf(s.hub, c.room).members && m.conn == c.conn.value;
    assert MemberOk(s, c.room, m) && Served(s, c.room, m);
    forall op | GoingDown(s, c.conn.value, op)
      ensures op in AdmittedTo(s, c.room)
    {
      var d :| d in s.down && d.out.to == c.conn.value && op in d.carries;
      assert DownOk(s, d);
    }
    forall op | GoingUp(s, r, op)
      ensures op in c.known
    {
      var p :| p in s.up && p.conn in s.owner && s.owner[p.conn] == r && p.msg.Ops? && op in p.msg.ops;
      assert UpOk(s, p) && op in SetOf(p.msg.ops);
    }
    assert forall op | op in c.session.pending :: op in SetOf(c.session.pending);
  }

  function MessagesOf(ds: seq<DownPacket>): (msgs: seq<ServerMessage>)
    ensures |msgs| == |ds|
  {
    seq(|ds|, i requires 0 <= i < |ds| => ds[i].out.message)
  }

  /** All messages on their way down to a connection, in any order and possibly repeated. */
  ghost predicate InFlight(s: System, conn: ConnId, ds: seq<DownPacket>) {
    forall d :: d in ds <==> d in s.down && d.out.to == conn
  }

  /** The operations a batch of messages carries. */
  ghost function CarriedBy(ds: seq<DownPacket>): set<Op> {
    set d, op | d in ds && op in d.carries :: op
  }

  /** What a session does with the messages folds in exactly the operations they carry. */
  lemma {:induction false} FoldGains(s: System, session: Session, known: set<Op>, ds: seq<DownPacket>)
    requires Denotes(session.replica.doc, known) && forall d | d in ds :: DownOk(s, d)
    ensures Denotes(AfterMessages(session, MessagesOf(ds)).replica.doc, known + CarriedBy(ds))
    decreases |ds|
  {
    hide Denotes, Session.AfterMessage;
    if ds == [] {
      assert known + CarriedBy(ds) == known;
    } else {
      assert DownOk(s, ds[0]);
      SessionGains(session, known, ds[0]);
      FoldGains(s, session.AfterMessage(ds[0].out.message), known + ds[0].carries, ds[1..]);
      assert MessagesOf(ds)[1..] == MessagesOf(ds[1..]);
      CarriedByMore(ds);
      assert known + ds[0].carries + CarriedBy(ds[1..]) == known + CarriedBy(ds);
    }
  }

  lemma CarriedByMore(ds: seq<DownPacket>)
    requires ds != []
    ensures CarriedBy(ds) == ds[0].carries + CarriedBy(ds[1..])
  {
    forall op
      ensures op in CarriedBy(ds) <==> op in ds[0].carries || op in CarriedBy(ds[1..])
    {
      if op in CarriedBy(ds) {
        var d :| d in ds && op in d.carries;
        assert d == ds[0] || d in ds[1..];
      }
    }
  }

  /** Main invariant, on documents: in every reachable state, the document a current member's session ends up with after
    all messages on their way down equals the room's document after everything of that member the hub has not let in, in
    whatever order either side handles them. */
  lemma EveryStateBalances(auth: Authenticator, start: System, actions: seq<Action>, r: ReplicaId,
                           ds: seq<DownPacket>, ys: seq<Op>)
    requires Initial(start) && IsRun(auth, start, actions)
    requires var s := Final(auth, start, actions);
             && Current(s, r) && InFlight(s, s.clients[r].conn.value, ds)
             && forall op :: op in ys <==> NotAdmitted(s, r, op)
    ensures var s := Final(auth, start, actions);
            AfterMessages(s.clients[r].session, MessagesOf(ds)).replica.doc
            == Replayed(RoomOf(s.hub, s.clients[r].room).doc, ys)
  {
    var s := Final(auth, start, actions);
    InitialInv(start);
    RunKeepsInv(auth, start, actions);
    BalancedDocuments(s, r, ds, ys);
  }

  lemma SidesBalance(s: System, r: ReplicaId, ds: seq<DownPacket>, ys: seq<Op>)
    requires Inv(s) && Current(s, r) && InFlight(s, s.clients[r].conn.value, ds)
    requires forall op :: op in ys <==> NotAdmitted(s, r, op)
    ensures s.clients[r].known + CarriedBy(ds) == AdmittedTo(s, s.clients[r].room) + SetOf(ys)
    ensures s.clients[r].known + CarriedBy(ds) <= s.issued
  {
    var c := s.clients[r];
    Balance(s, r);
    assert ClientOk(s, r) && RoomOk(s, c.room);
    forall op
      ensures op in CarriedBy(ds) <==> GoingDown(s, c.conn.value, op)
    {
    }
    assert forall op :: op in SetOf(ys) <==> NotAdmitted(s, r, op);
    forall op | op in CarriedBy(ds)
      ensures op in s.issued
    {
      var d :| d in ds && op in d.carries;
      assert DownOk(s, d) && RoomOk(s, s.clients[s.owner[d.out.to]].room);
    }
  }

  lemma BalancedDocuments(s: System, r: ReplicaId, ds: seq<DownPacket>, ys: seq<Op>)
    requires Inv(s) && Current(s, r) && InFlight(s, s.clients[r].conn.value, ds)
    requires forall op :: op in ys <==> NotAdmitted(s, r, op)
    ensures AfterMessages(s.clients[r].session, MessagesOf(ds)).replica.doc
            == Replayed(RoomOf(s.hub, s.clients[r].room).doc, ys)
  {
    var c := s.clients[r];
    SidesBalance(s, r, ds, ys);
    assert ClientOk(s, r) && RoomOk(s, c.room);
    assert forall d | d in ds :: DownOk(s, d);
    var all := c.known + CarriedBy(ds);
    FoldGains(s, c.session, c.known, ds);
    ReplayDenotes(RoomOf(s.hub, c.room).doc, AdmittedTo(s, c.room), ys);
    UniqueStampsDecide(s.issued);
    NoTiesIff(s.issued);
    DenotationUnique(AfterMessages(c.session, MessagesOf(ds)).replica.doc, Replayed(RoomOf(s.hub, c.room).doc, ys), all);
  }

  /** No message is in flight and nothing is queued. */
  ghost predicate Quiet(s: System) {
    s.up == multiset{} && s.down == multiset{} && forall r | r in s.clients :: s.clients[r].session.pending == []
  }

  /** Convergence: once the queues have drained, a current member holds the room's document plus whatever the hub refused
    of its own operations. So it agrees with the room exactly when the refused operations change nothing there. */
  lemma QuietMembersAgree(auth: Authenticator, start: System, actions: seq<Action>, r: ReplicaId, refused: seq<Op>)
    requires Initial(start) && IsRun(auth, start, actions)
    requires var s := Final(auth, start, actions);
             Quiet(s) && Current(s, r) && SetOf(refused) == s.clients[r].refused
    ensures var s := Final(auth, start, actions);
            var room := RoomOf(s.hub, s.clients[r].room).doc;
            && s.clients[r].session.replica.doc == Replayed(room, refused)
            && (s.clients[r].refused == {} ==> s.clients[r].session.replica.doc == room)
  {
    var s := Final(auth, start, actions);
    assert forall op :: op in refused <==> op in SetOf(refused);
    assert forall op :: NotAdmitted(s, r, op) <==> op in refused;
    EveryStateBalances(auth, start, actions, r, [], refused);
    assert forall i | 0 <= i < |refused| :: refused[i] in SetOf(refused);
  }

  /** Two current members of a room with nothing refused show the same history and hand over the same snapshot. */
  lemma QuietMembersShowTheSame(auth: Authenticator, start: System, actions: seq<Action>, q: ReplicaId, r: ReplicaId,
                                xs: seq<FeatureKey>, ys: seq<FeatureKey>)
    requires Initial(start) && IsRun(auth, start, actions)
    requires var s := Final(auth, start, actions);
             && Quiet(s) && Current(s, q) && Current(s, r) && s.clients[q].room == s.clients[r].room
             && s.clients[q].refused == {} && s.clients[r].refused == {}
             && IsHistory(s.clients[q].session.replica.doc, xs) && IsHistory(s.clients[r].session.replica.doc, ys)
    ensures var s := Final(auth, start, actions);
            && s.clients[q].session.replica.doc == s.clients[r].session.replica.doc
            && xs == ys
            && SnapshotOf(s.clients[q].session.replica.doc, xs) == SnapshotOf(s.clients[r].session.replica.doc, ys)
  {
    var s := Final(auth, start, actions);
    QuietMembersAgree(auth, start, actions, q, []);
    QuietMembersAgree(auth, start, actions, r, []);
    HistoryUnique(s.clients[q].session.replica.doc, xs, ys);
  }

  // ----- Stamps and keys are unique across the whole system

  /** Keys of issued adds lie between their replica's first key and its next one, and none is reused. */
  ghost predicate KeysOk(s: System) {
    && (forall op | op in s.issued && op.AddFeature? ::
          && op.tag.replica in s.clients
          && FirstKey(op.tag.replica) <= op.key < s.clients[op.tag.replica].session.replica.nextKey)
    && (forall r | r in s.clients :: FirstKey(r) <= s.clients[r].session.replica.nextKey)
    && (forall o, p | o in s.issued && p in s.issued && o.AddFeature? && p.AddFeature?
                      && o.tag.replica == p.tag.replica && o.key == p.key :: o == p)
  }

  lemma DeliveryKeepsNextKey(session: Session, msg: ServerMessage)
    ensures session.AfterMessage(msg).replica.nextKey == session.replica.nextKey
  {
    if msg.OpsFrom? {
      ReceivedAllDoc(session.replica, msg.ops);
    }
  }

  lemma KeysKept(s: System, t: System)
    requires KeysOk(s) && t.issued == s.issued && t.clients.Keys == s.clients.Keys
    requires forall r | r in s.clients :: t.clients[r].session.replica.nextKey == s.clients[r].session.replica.nextKey
    ensures KeysOk(t)
  {
  }

  lemma EditKeepsKeys(auth: Authenticator, s: System, r: ReplicaId, op: Op)
    requires ClientsOk(s) && KeysOk(s) && Enabled(s, Edit(r, op))
    ensures KeysOk(Step(auth, s, Edit(r, op)))
  {
    hide Applied, Entry, Denotes;
    assert ClientOk(s, r);
  }

  lemma DeliverKeepsKeys(auth: Authenticator, s: System, d: DownPacket)
    requires KeysOk(s) && Enabled(s, Deliver(d))
    ensures KeysOk(Step(auth, s, Deliver(d)))
  {
    DeliveryKeepsNextKey(s.clients[s.owner[d.out.to]].session, d.out.message);
    KeysKept(s, Step(auth, s, Deliver(d)));
  }

  lemma HubKeepsKeys(auth: Authenticator, s: System, p: UpPacket)
    requires KeysOk(s) && Routed(s.hub)
    ensures KeysOk(AfterHub(auth, s, p))
  {
    hide KeysOk, Handle, Packets, MayEdit, SetOf;
    KeysKept(s, Recorded(s, p));
    KeysKept(Recorded(s, p), AfterHub(auth, s, p));
  }

  lemma StepKeepsKeys(auth: Authenticator, s: System, a: Action)
    requires ClientsOk(s) && KeysOk(s) && Enabled(s, a)
    ensures KeysOk(Step(auth, s, a))
  {
    match a {
      case Edit(r, op) => EditKeepsKeys(auth, s, r, op);
      case Deliver(d) => DeliverKeepsKeys(auth, s, d);
      case HubTakes(p) => HubKeepsKeys(auth, s, p);
      case Flush(_) => KeysKept(s, Step(auth, s, a));
      case _ => KeysKept(s, Step(auth, s, a));
    }
  }

  lemma {:induction false} RunKeepsKeys(auth: Authenticator, s: System, actions: seq<Action>)
    requires Inv(s) && KeysOk(s) && IsRun(auth, s, actions)
    ensures Inv(Final(auth, s, actions)) && KeysOk(Final(auth, s, actions))
    decreases |actions|
  {
    if actions != [] {
      StepKeepsInv(auth, s, actions[0]);
      StepKeepsKeys(auth, s, actions[0]);
      RunKeepsKeys(auth, Step(auth, s, actions[0]), actions[1..]);
    }
  }

  /** Ids fit in 32 bits and no replica has used up its block of keys. */
  ghost predicate WithinBlocks(s: System) {
    forall r | r in s.clients :: r < TWO_32 && s.clients[r].session.replica.nextKey - FirstKey(r) < TWO_32 - 1
  }

  lemma KeysAreUnique(s: System, o: Op, p: Op)
    requires KeysOk(s) && WithinBlocks(s)
    requires o in s.issued && p in s.issued && o.AddFeature? && p.AddFeature? && o.key == p.key
    ensures o == p
  {
    var q, r := o.tag.replica, p.tag.replica;
    KeysCollideIff(q, o.key - FirstKey(q), r, p.key - FirstKey(r));
  }

  /** In every run no two operations carry the same stamp, and within the blocks no two adds name the same feature. */
  lemma StampsAndKeysAreUnique(auth: Authenticator, start: System, actions: seq<Action>)
    requires Initial(start) && IsRun(auth, start, actions)
    ensures var s := Final(auth, start, actions);
            && UniqueStamps(s.issued)
            && (WithinBlocks(s) ==>
                  forall o, p | o in s.issued && p in s.issued && o.AddFeature? && p.AddFeature? && o.key == p.key :: o == p)
  {
    var s := Final(auth, start, actions);
    InitialInv(start);
    RunKeepsKeys(auth, start, actions);
    if WithinBlocks(s) {
      forall o, p | o in s.issued && p in s.issued && o.AddFeature? && p.AddFeature? && o.key == p.key
        ensures o == p
      {
        KeysAreUnique(s, o, p);
      }
    }
  }
}
