/** One user's replica: a clock, a document and a key counter (`LocalReplica` in collab/src/crdt.rs). */
module Replicas {
  import opened Options
  import opened Clocks
  import opened Crdt
  import opened Convergence

  const TWO_32: nat := 0x1_0000_0000
  const TWO_64: nat := 0x1_0000_0000_0000_0000

  /** The first key a replica hands out; the 64-bit shift drops the id's high half. */
  function FirstKey(id: ReplicaId): FeatureKey {
    id * TWO_32 % TWO_64 + 1
  }

  /** The value of a replica. */
  datatype Replica = Replica(clock: Stamp, doc: Doc, nextKey: FeatureKey)
  {
    function Id(): ReplicaId { clock.replica }

    /** The operations local edits issue. */
    function AddOp(kind: string, position: string): Op {
      AddFeature(nextKey, kind, Ticked(clock, 0), position)
    }

    function SetOp(key: FeatureKey, name: string, value: ParamValue): Op {
      SetParam(key, name, value, Ticked(clock, 0))
    }

    /** A remove names the add tags the replica has observed, in the order the hash set yields them. */
    predicate IsRemoveOp(op: Op) {
      op.RemoveFeature? && SetOf(op.observedTags) == Entry(doc, op.key).addTags
    }

    /** The replica after a local edit that issued `op`. */
    function AfterLocal(op: Op): Replica {
      var ticks := op.StampOf().Some?;
      Replica(if ticks then Ticked(clock, 0) else clock, Applied(doc, op), if op.AddFeature? then nextKey + 1 else nextKey)
    }

    /** The replica after a remote operation: its stamp is observed, if it has one. */
    function AfterReceive(op: Op): Replica {
      this.(clock := if op.StampOf().Some? then Observed(clock, op.StampOf().value) else clock, doc := Applied(doc, op))
    }

    /** A snapshot is merged without observing any of its stamps. */
    function AfterMerge(snapshot: Doc): Replica {
      this.(doc := Joined(doc, snapshot))
    }
  }

  const START: ReplicaId -> Replica := (id: ReplicaId) => Replica(Stamp(0, 0, id), map[], FirstKey(id))

  function ReceivedAll(r: Replica, ops: seq<Op>): Replica
    decreases |ops|
  {
    if ops == [] then r else ReceivedAll(r.AfterReceive(ops[0]), ops[1..])
  }

  lemma {:induction false} ReceivedAllDoc(r: Replica, ops: seq<Op>)
    ensures ReceivedAll(r, ops).doc == Replayed(r.doc, ops)
    ensures ReceivedAll(r, ops).nextKey == r.nextKey
    ensures ReceivedAll(r, ops).Id() == r.Id()
    ensures r.clock.lamport <= ReceivedAll(r, ops).clock.lamport
    decreases |ops|
  {
    if ops != [] {
      ReceivedAllDoc(r.AfterReceive(ops[0]), ops[1..]);
    }
  }

  // ----- Feature keys

  /** Within one 32-bit block each, two replicas share a key iff their ids agree in the low 32 bits and the counters agree. */
  lemma KeysCollideIff(id1: ReplicaId, n1: nat, id2: ReplicaId, n2: nat)
    requires n1 < TWO_32 - 1 && n2 < TWO_32 - 1
    ensures FirstKey(id1) + n1 == FirstKey(id2) + n2 <==> id1 % TWO_32 == id2 % TWO_32 && n1 == n2
  {
    ShiftKeepsLowHalf(id1);
    ShiftKeepsLowHalf(id2);
  }

  lemma ShiftKeepsLowHalf(id: ReplicaId)
    ensures FirstKey(id) == (id % TWO_32) * TWO_32 + 1
  {
    var q, low := id / TWO_32, id % TWO_32;
    assert id * TWO_32 == q * TWO_64 + low * TWO_32;
    assert 0 <= low * TWO_32 < TWO_64;
    assert (q * TWO_64 + low * TWO_32) % TWO_64 == low * TWO_32;
  }

  // ----- Reading one's own writes

  /** What the user reads back: the parameter of a live feature. */
  function ParamOf(doc: Doc, key: FeatureKey, name: string): Option<ParamValue> {
    if key in doc && doc[key].Exists() && name in doc[key].params then Some(doc[key].params[name].value) else None
  }

  /** The clock is above every register and every add tag of the document. (Removed tags need not be: a remove carries no
    stamp to observe, and may arrive before the add it names.) */
  ghost predicate Governs(r: Replica) {
    forall key | key in r.doc ::
      && (forall slot | RegisterAt(r.doc[key], slot).Some? :: Dominates(r.clock, RegisterAt(r.doc[key], slot).value.clock))
      && (forall tag | tag in r.doc[key].addTags :: Dominates(r.clock, tag))
  }

  /** A local write is read back iff the feature is live and the register it meets is older than the next stamp (or equal in value). */
  lemma ReadBackIff(r: Replica, key: FeatureKey, name: string, value: ParamValue)
    ensures var met := Param(Entry(r.doc, key), name);
            ParamOf(r.AfterLocal(r.SetOp(key, name, value)).doc, key, name) == Some(value)
            <==> Live(r.doc, key) && (met.None? || Less(met.value.clock, Ticked(r.clock, 0)) || met.value.value == value)
  {
    var after := r.AfterLocal(r.SetOp(key, name, value)).doc;
    assert after[key].addTags == Entry(r.doc, key).addTags && after[key].removedTags == Entry(r.doc, key).removedTags;
  }

  /** Two clock states related by ticking and observing. */
  predicate Advances(from: Stamp, to: Stamp) {
    from.wallMs <= to.wallMs && from.lamport <= to.lamport && from.replica == to.replica
  }

  lemma GovernsStep(r: Replica, clock: Stamp, op: Op)
    requires Governs(r) && Advances(r.clock, clock)
    requires op.StampOf().Some? ==> Dominates(clock, op.StampOf().value)
    ensures Governs(r.(clock := clock, doc := Applied(r.doc, op)))
  {
    var next := r.(clock := clock, doc := Applied(r.doc, op));
    forall key, slot | key in next.doc && RegisterAt(next.doc[key], slot).Some?
      ensures Dominates(clock, RegisterAt(next.doc[key], slot).value.clock)
    {
      var before := RegisterAt(Entry(r.doc, key), slot);
      assert RegisterAt(next.doc[key], slot) == before || (key == op.key && RegisterAt(next.doc[key], slot) == Write(op, slot));
    }
    forall key, tag | key in next.doc && tag in next.doc[key].addTags
      ensures Dominates(clock, tag)
    {
      assert tag in Entry(r.doc, key).addTags || op.StampOf() == Some(tag);
    }
  }

  /** The calls a user of `LocalReplica` can make. */
  datatype Call =
    | Add(kind: string, position: string)
    | Set(key: FeatureKey, name: string, value: ParamValue)
    | Remove(op: Op)
    | Receive(op: Op)

  predicate Allowed(r: Replica, call: Call) {
    call.Remove? ==> r.IsRemoveOp(call.op)
  }

  function After(r: Replica, call: Call): Replica {
    match call
    case Add(kind, position) => r.AfterLocal(r.AddOp(kind, position))
    case Set(key, name, value) => r.AfterLocal(r.SetOp(key, name, value))
    case Remove(op) => r.AfterLocal(op)
    case Receive(op) => r.AfterReceive(op)
  }

  predicate AllowedRun(r: Replica, calls: seq<Call>)
    decreases |calls|
  {
    calls != [] ==> Allowed(r, calls[0]) && AllowedRun(After(r, calls[0]), calls[1..])
  }

  function AfterRun(r: Replica, calls: seq<Call>): Replica
    decreases |calls|
  {
    if calls == [] then r else AfterRun(After(r, calls[0]), calls[1..])
  }

  lemma {:induction false} RunGoverns(r: Replica, calls: seq<Call>)
    requires Governs(r) && AllowedRun(r, calls)
    ensures Governs(AfterRun(r, calls))
    decreases |calls|
  {
    if calls != [] {
      var call := calls[0];
      var op := match call
        case Add(kind, position) => r.AddOp(kind, position)
        case Set(key, name, value) => r.SetOp(key, name, value)
        case Remove(op) => op
        case Receive(op) => op;
      GovernsStep(r, After(r, call).clock, op);
      RunGoverns(After(r, call), calls[1..]);
    }
  }

  function Adds(calls: seq<Call>): nat
    decreases |calls|
  {
    if calls == [] then 0 else (if calls[0].Add? then 1 else 0) + Adds(calls[1..])
  }

  /** On every run the next key counts the features added: only an add takes a key, and it takes the next one. */
  lemma {:induction false} KeysCountAdds(r: Replica, calls: seq<Call>)
    requires AllowedRun(r, calls)
    ensures AfterRun(r, calls).nextKey == r.nextKey + Adds(calls)
    decreases |calls|
  {
    if calls != [] {
      KeysCountAdds(After(r, calls[0]), calls[1..]);
    }
  }

  /** On every run of local calls alone, a parameter set on a live feature is read back at once. */
  lemma LocalRunsReadTheirWrites(id: ReplicaId, calls: seq<Call>, key: FeatureKey, name: string, value: ParamValue)
    requires AllowedRun(START(id), calls)
    ensures var r := AfterRun(START(id), calls);
            Live(r.doc, key) ==> ParamOf(r.AfterLocal(r.SetOp(key, name, value)).doc, key, name) == Some(value)
  {
    var r := AfterRun(START(id), calls);
    RunGoverns(START(id), calls);
    ReadBackIff(r, key, name, value);
    if key in r.doc {
      assert RegisterAt(r.doc[key], Parameter(name)) == Param(r.doc[key], name);
    }
  }

  /** A feature just added takes the next key, shows the kind and the position given, and is live unless its tag was removed
    before it was issued. */
  lemma LocalAddIsRead(r: Replica, kind: string, position: string)
    requires Governs(r)
    ensures var op, after := r.AddOp(kind, position), r.AfterLocal(r.AddOp(kind, position));
            && op.key == r.nextKey && after.nextKey == r.nextKey + 1 && op.key in after.doc
            && after.doc[op.key].kind == Some(Register(Text(kind), op.tag))
            && after.doc[op.key].position == Some(Register(Text(position), op.tag))
            && (Live(after.doc, op.key) <==> Live(r.doc, op.key) || op.tag !in Entry(r.doc, op.key).removedTags)
  {
    var op := r.AddOp(kind, position);
    var f, g := Entry(r.doc, op.key), r.AfterLocal(op).doc[op.key];
    if op.key in r.doc {
      assert RegisterAt(f, Kind) == f.kind && RegisterAt(f, Position) == f.position;
    }
    assert g.addTags - g.removedTags == (f.addTags - f.removedTags) + ({op.tag} - f.removedTags);
    assert op.tag !in f.removedTags ==> op.tag in {op.tag} - f.removedTags;
    assert (f.addTags - f.removedTags != {} || {op.tag} - f.removedTags != {}) <==> g.Exists() by {
      assert forall t :: t in g.addTags - g.removedTags <==> t in f.addTags - f.removedTags || t in {op.tag} - f.removedTags;
    }
  }

  /** After a snapshot the promise fails: a fresh replica that merges an edited document cannot overwrite it. */
  lemma SnapshotHidesLocalWrite()
    ensures var add := AddFeature(5, "Extrude", Stamp(0, 1, 2), "a");
            var set_ := SetParam(5, "height", Int(3), Stamp(0, 2, 2));
            var r := START(1).AfterMerge(Replayed(map[], [add, set_]));
            Live(r.doc, 5) && ParamOf(r.AfterLocal(r.SetOp(5, "height", Int(9))).doc, 5, "height") == Some(Int(3))
  {
    var add := AddFeature(5, "Extrude", Stamp(0, 1, 2), "a");
    var set_ := SetParam(5, "height", Int(3), Stamp(0, 2, 2));
    assert Replayed(map[], [add, set_]) == Applied(Applied(map[], add), set_) by {
      assert [add, set_][1..] == [set_];
      assert Replayed(Applied(map[], add), [set_]) == Applied(Applied(map[], add), set_);
    }
    var snapshot := Applied(Applied(map[], add), set_);
    var r := START(1).AfterMerge(snapshot);
    assert r.doc[5] == JoinFeature(DEFAULT_FEATURE, snapshot[5]);
    assert Stamp(0, 1, 2) in r.doc[5].addTags - r.doc[5].removedTags;
    assert r.doc[5].params["height"] == Register(Int(3), Stamp(0, 2, 2));
    assert Ticked(r.clock, 0) == Stamp(0, 1, 1);
  }

  class LocalReplica {
    const id: ReplicaId
    const clock: HybridClock
    const doc: CrdtDoc
    var nextKey: FeatureKey

    ghost predicate Valid()
    {
      clock.replica == id
    }

    function State(): Replica
      reads this, clock, doc
    {
      Replica(clock.State(), doc.features, nextKey)
    }

    constructor (id: ReplicaId)
      ensures Valid() && fresh(clock) && fresh(doc)
      ensures State() == START(id)
    {
      this.id := id;
      clock := new HybridClock(id);
      doc := new CrdtDoc();
      nextKey := (id * TWO_32) % TWO_64 + 1;
    }

    method Receive(op: Op) returns (changed: bool)
      requires Valid()
      modifies clock, doc
      ensures State() == old(State()).AfterReceive(op)
      ensures changed == ReportsChange(old(doc.features), op)
    {
      if op.StampOf().Some? {
        clock.Observe(op.StampOf().value);
      }
      changed := doc.Apply(op);
    }

    method AddFeature(kind: string, position: string) returns (key: FeatureKey, op: Op)
      requires Valid() && clock.lamport < U64_MAX && nextKey < U64_MAX
      modifies this, clock, doc
      ensures op == old(State()).AddOp(kind, position) && key == old(nextKey)
      ensures State() == old(State()).AfterLocal(op)
    {
      key := nextKey;
      nextKey := nextKey + 1;
      var tag := clock.Tick(0);
      op := Op.AddFeature(key, kind, tag, position);
      var _ := doc.Apply(op);
    }

    method SetParam(key: FeatureKey, name: string, value: ParamValue) returns (op: Op)
      requires Valid() && clock.lamport < U64_MAX
      modifies this, clock, doc
      ensures op == old(State()).SetOp(key, name, value)
      ensures State() == old(State()).AfterLocal(op)
    {
      var stamp := clock.Tick(0);
      op := Op.SetParam(key, name, value, stamp);
      var _ := doc.Apply(op);
    }

    method RemoveFeature(key: FeatureKey) returns (op: Op)
      requires Valid()
      modifies this, doc
      ensures op.RemoveFeature? && op.key == key && old(State()).IsRemoveOp(op)
      ensures State() == old(State()).AfterLocal(op)
    {
      var tags := ObservedTags(key);
      op := Op.RemoveFeature(key, tags);
      var _ := doc.Apply(op);
    }

    method ObservedTags(key: FeatureKey) returns (tags: seq<Stamp>)
      ensures SetOf(tags) == Entry(doc.features, key).addTags
    {
      tags := [];
      var todo := Entry(doc.features, key).addTags;
      while todo != {}
        invariant todo <= Entry(doc.features, key).addTags
        invariant SetOf(tags) == Entry(doc.features, key).addTags - todo
      {
        var tag :| tag in todo;
        assert SetOf(tags + [tag]) == SetOf(tags) + {tag};
        tags := tags + [tag];
        todo := todo - {tag};
      }
    }
  }
}
