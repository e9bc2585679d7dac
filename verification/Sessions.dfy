/** The client half of the protocol (`CollabSession` in collab/src/wasm.rs). */
module Sessions {
  import opened Options
  import opened Clocks
  import opened Crdt
  import opened Convergence
  import opened Growth
  import opened Replicas
  import opened Presences
  import opened Messages

  /** The part of a session that messages can change. */
  datatype Session = Session(replica: Replica, pending: seq<Op>, remote: Users)
  {
    function AfterLocal(op: Op): Session {
      this.(replica := replica.AfterLocal(op), pending := pending + [op])
    }

    function AfterFlush(): Session {
      this.(pending := [])
    }

    /** Fold one server message into the session. */
    function AfterMessage(msg: ServerMessage): Session {
      match msg
      case Welcome(_, snapshot, users) =>
        this.(replica := replica.AfterMerge(snapshot), remote := Greeted(remote, replica.Id(), users))
      case Snapshot(snapshot) => this.(replica := replica.AfterMerge(snapshot))
      case OpsFrom(_, ops) => this.(replica := ReceivedAll(replica, ops))
      case PresenceOf(p) => if p.replica == replica.Id() then this else this.(remote := Updated(remote, p))
      case Left(r) => this.(remote := Without(remote, r))
      case Rejected(_) => this
    }

    /** The redraw hint. */
    predicate Redraws(msg: ServerMessage) {
      match msg
      case Welcome(_, _, _) => true
      case Snapshot(_) => true
      case OpsFrom(_, ops) => SomeReported(replica.doc, ops)
      case PresenceOf(p) => p.replica != replica.Id() && !Stale(remote, p)
      case Left(r) => r in remote
      case Rejected(_) => false
    }
  }

  /** Some operation of the batch reports a change of the document it meets. */
  predicate SomeReported(doc: Doc, ops: seq<Op>)
    decreases |ops|
  {
    ops != [] && (ReportsChange(doc, ops[0]) || SomeReported(Applied(doc, ops[0]), ops[1..]))
  }

  /** A batch reports a change exactly when it changes the document. Removes that name no tag are left out, because of what
    `Convergence.ReportedChange` says. */
  lemma {:induction false} ReportedIffChanged(doc: Doc, known: set<Op>, ops: seq<Op>)
    requires Denotes(doc, known)
    requires forall op | op in ops && op.RemoveFeature? :: op.observedTags != []
    ensures SomeReported(doc, ops) <==> Replayed(doc, ops) != doc
    decreases |ops|
  {
    hide Applied, Denotes, ReportsChange;
    if ops != [] {
      var op := ops[0];
      ReportedChange(doc, known, op);
      if Applied(doc, op) == doc {
        ReportedIffChanged(doc, known, ops[1..]);
      } else {
        NeverBack(doc, op, ops[1..]);
      }
    }
  }

  /** A welcome and a snapshot are always redrawn. Any other message hints at a redraw exactly when it changes the document
    or what is known of the other users. */
  lemma HintIffChange(s: Session, known: set<Op>, msg: ServerMessage)
    requires Denotes(s.replica.doc, known)
    requires msg.OpsFrom? ==> forall op | op in msg.ops && op.RemoveFeature? :: op.observedTags != []
    ensures s.AfterMessage(msg).pending == s.pending
    ensures if msg.Welcome? || msg.Snapshot? then s.Redraws(msg)
            else s.Redraws(msg)
                 <==> s.AfterMessage(msg).replica.doc != s.replica.doc || s.AfterMessage(msg).remote != s.remote
  {
    if msg.OpsFrom? {
      ReportedIffChanged(s.replica.doc, known, msg.ops);
      ReceivedAllDoc(s.replica, msg.ops);
    }
  }

  /** Everybody else's records of a welcome, each kept unless a newer one is known. */
  function Greeted(remote: Users, me: ReplicaId, users: Users): Users {
    GreetedBy(remote, me, users, users.Keys)
  }

  /** The same, when only the records of `done` have been folded in. */
  function GreetedBy(remote: Users, me: ReplicaId, users: Users, done: set<ReplicaId>): Users
    requires done <= users.Keys
  {
    map r | r in remote.Keys + (done - {me}) ::
      if r in done && r != me && !(r in remote && remote[r].epoch >= users[r].epoch) then users[r] else remote[r]
  }

  lemma GreetStep(remote: Users, me: ReplicaId, users: Users, done: set<ReplicaId>, r: ReplicaId)
    requires WellKeyed(users) && done <= users.Keys && r in users && r !in done
    ensures var so := GreetedBy(remote, me, users, done);
            GreetedBy(remote, me, users, done + {r}) == if r == me then so else Updated(so, users[r])
  {
  }

  /** A session never shows its own cursor as a remote one, whatever messages arrive in whatever order. */
  lemma {:induction false} NeverRemoteToItself(s: Session, msgs: seq<ServerMessage>)
    requires s.replica.Id() !in s.remote
    ensures var after := AfterMessages(s, msgs); after.replica.Id() == s.replica.Id() && s.replica.Id() !in after.remote
    decreases |msgs|
  {
    if msgs != [] {
      if msgs[0].OpsFrom? {
        ReceivedAllDoc(s.replica, msgs[0].ops);
      }
      NeverRemoteToItself(s.AfterMessage(msgs[0]), msgs[1..]);
    }
  }

  function AfterMessages(s: Session, msgs: seq<ServerMessage>): Session
    decreases |msgs|
  {
    if msgs == [] then s else AfterMessages(s.AfterMessage(msgs[0]), msgs[1..])
  }

  class CollabSession {
    const replica: LocalReplica
    const displayName: string
    var pending: seq<Op>
    const remote: PresenceMap
    var selection: seq<FeatureKey>
    var epoch: nat

    ghost predicate Valid() {
      replica.Valid()
    }

    function State(): Session
      reads this, replica, replica.clock, replica.doc, remote
    {
      Session(replica.State(), pending, remote.users)
    }

    constructor (id: ReplicaId, displayName: string)
      ensures Valid() && fresh(replica) && fresh(replica.clock) && fresh(replica.doc) && fresh(remote)
      ensures State() == Session(START(id), [], map[]) && epoch == 0
    {
      replica := new LocalReplica(id);
      this.displayName := displayName;
      pending := [];
      remote := new PresenceMap();
      selection := [];
      epoch := 0;
    }

    method AddFeature(kind: string, position: string) returns (key: FeatureKey)
      requires Valid() && replica.clock.lamport < U64_MAX && replica.nextKey < U64_MAX
      modifies this, replica, replica.clock, replica.doc
      ensures key == old(replica.nextKey)
      ensures State() == old(State()).AfterLocal(old(replica.State()).AddOp(kind, position))
    {
      var op;
      key, op := replica.AddFeature(kind, position);
      pending := pending + [op];
    }

    /** Numeric and text parameters share this path. */
    method SetParam(key: FeatureKey, name: string, value: ParamValue)
      requires Valid() && replica.clock.lamport < U64_MAX
      modifies this, replica, replica.clock, replica.doc
      ensures State() == old(State()).AfterLocal(old(replica.State()).SetOp(key, name, value))
    {
      var op := replica.SetParam(key, name, value);
      pending := pending + [op];
    }

    method RemoveFeature(key: FeatureKey) returns (ghost op: Op)
      requires Valid()
      modifies this, replica, replica.doc
      ensures op.RemoveFeature? && op.key == key && old(replica.State()).IsRemoveOp(op)
      ensures State() == old(State()).AfterLocal(op)
    {
      var remove := replica.RemoveFeature(key);
      pending := pending + [remove];
      op := remove;
    }

    /** Drain the queued operations. */
    method TakePendingOps() returns (msg: Option<ClientMessage>)
      modifies `pending
      ensures State() == old(State()).AfterFlush()
      ensures msg == if old(pending) == [] then None else Some(Ops(old(pending)))
    {
      if pending == [] {
        return None;
      }
      msg := Some(Ops(pending));
      pending := [];
    }

    /** Each presence message has a larger epoch than the one before. */
    method PresenceMessage(cursor: (real, real, real)) returns (msg: ClientMessage)
      requires epoch < U64_MAX
      modifies `epoch
      ensures epoch == old(epoch) + 1
      ensures msg == ShowPresence(Presence(replica.id, displayName, Some(cursor), selection, epoch))
    {
      epoch := epoch + 1;
      msg := ShowPresence(Presence.Presence(replica.id, displayName, Some(cursor), selection, epoch));
    }

    /** Fold one inbound message into the session; `changed` is the redraw hint. */
    method ApplyServerMessage(msg: ServerMessage) returns (changed: bool)
      requires Valid()
      requires msg.Welcome? ==> WellKeyed(msg.users)
      modifies replica.clock, replica.doc, remote
      ensures State() == old(State()).AfterMessage(msg)
      ensures changed == old(State()).Redraws(msg)
    {
      match msg {
        case Welcome(_, snapshot, users) =>
          MergeSnapshot(snapshot);
          Greet(users);
          changed := true;
        case Snapshot(snapshot) =>
          MergeSnapshot(snapshot);
          changed := true;
        case OpsFrom(_, ops) =>
          changed := ReceiveAll(ops);
        case PresenceOf(p) =>
          changed := false;
          if p.replica != replica.id {
            changed := remote.Update(p);
          }
        case Left(r) =>
          changed := remote.Remove(r);
        case Rejected(_) =>
          changed := false;
      }
    }

    method MergeSnapshot(snapshot: Doc)
      modifies replica.doc
      ensures replica.doc.features == Joined(old(replica.doc.features), snapshot)
    {
      var doc := new CrdtDoc();
      doc.features := snapshot;
      replica.doc.Merge(doc);
    }

    method Greet(users: Users)
      requires WellKeyed(users)
      modifies remote
      ensures remote.users == Greeted(old(remote.users), replica.id, users)
    {
      ghost var before := remote.users;
      var todo := users.Keys;
      while todo != {}
        invariant todo <= users.Keys
        invariant remote.users == GreetedBy(before, replica.id, users, users.Keys - todo)
      {
        var r :| r in todo;
        GreetStep(before, replica.id, users, users.Keys - todo, r);
        if users[r].replica != replica.id {
          var _ := remote.Update(users[r]);
        }
        assert users.Keys - todo + {r} == users.Keys - (todo - {r});
        todo := todo - {r};
      }
      assert users.Keys - todo == users.Keys;
    }

    method ReceiveAll(ops: seq<Op>) returns (changed: bool)
      requires Valid()
      modifies replica.clock, replica.doc
      ensures replica.State() == ReceivedAll(old(replica.State()), ops)
      ensures changed == SomeReported(old(replica.doc.features), ops)
    {
      changed := false;
      var i := 0;
      while i < |ops|
        invariant 0 <= i <= |ops|
        invariant ReceivedAll(replica.State(), ops[i..]) == ReceivedAll(old(replica.State()), ops)
        invariant (changed || SomeReported(replica.doc.features, ops[i..])) == SomeReported(old(replica.doc.features), ops)
      {
        var c := replica.Receive(ops[i]);
        changed := changed || c;
        assert ops[i..][1..] == ops[i + 1..];
        i := i + 1;
      }
      assert ops[i..] == [];
    }
  }
}
