/** What the history and the snapshot show, in terms of the operations delivered: features in the order of their newest
  position texts, each with its newest kind and parameter values (`ordered_keys` in collab/src/crdt.rs, `snapshot` in
  collab/src/lib.rs). */
module HistoryLaws {
  import opened Options
  import opened Clocks
  import opened Crdt
  import opened Convergence
  import opened Snapshots

  // ----- Text order

  /** Dictionary order: a proper prefix, or a smaller character at the first difference. */
  ghost predicate TextBefore(a: string, b: string) {
    exists k: nat :: FirstDifference(a, b, k)
  }

  ghost predicate FirstDifference(a: string, b: string, k: nat) {
    k <= |a| && k < |b| && a[..k] == b[..k] && (k == |a| || a[k] < b[k])
  }

  lemma {:induction false} CompareTextIff(a: string, b: string)
    ensures CompareText(a, b) == Before <==> TextBefore(a, b)
    decreases |a|
  {
    if a == [] || b == [] || a[0] != b[0] {
      if b != [] && (a == [] || a[0] < b[0]) {
        assert FirstDifference(a, b, 0);
      }
    } else {
      CompareTextIff(a[1..], b[1..]);
      if TextBefore(a[1..], b[1..]) {
        var k: nat :| FirstDifference(a[1..], b[1..], k);
        assert a[..k + 1] == [a[0]] + a[1..][..k] && b[..k + 1] == [b[0]] + b[1..][..k];
        assert FirstDifference(a, b, k + 1);
      }
      if TextBefore(a, b) {
        var k: nat :| FirstDifference(a, b, k);
        assert a[1..][..k - 1] == a[..k][1..] && b[1..][..k - 1] == b[..k][1..];
        assert FirstDifference(a[1..], b[1..], k - 1);
      }
    }
  }

  // ----- Newest writes

  predicate Places(op: Op, key: FeatureKey) {
    op.key == key && (op.AddFeature? || op.SetPosition?)
  }

  function PlacedWhen(op: Op): Stamp
    requires op.AddFeature? || op.SetPosition?
  {
    if op.AddFeature? then op.tag else op.clock
  }

  /** No add or move of the feature is newer than this one. */
  ghost predicate NewestPlace(op: Op, key: FeatureKey, ops: set<Op>) {
    op in ops && Places(op, key) && forall o | o in ops && Places(o, key) :: !Less(PlacedWhen(op), PlacedWhen(o))
  }

  predicate Sets(op: Op, key: FeatureKey, name: string) {
    op.SetParam? && op.key == key && op.name == name
  }

  /** No write to the parameter is newer than this one. */
  ghost predicate NewestSet(op: Op, key: FeatureKey, name: string, ops: set<Op>) {
    op in ops && Sets(op, key, name) && forall o | o in ops && Sets(o, key, name) :: !Less(op.clock, o.clock)
  }

  /** A live feature is placed by its newest position text. */
  lemma PlacedByNewest(doc: Doc, ops: set<Op>, key: FeatureKey) returns (op: Op)
    requires Denotes(doc, ops) && key in LiveKeys(doc)
    ensures NewestPlace(op, key, ops) && PositionText(doc[key]) == op.position
  {
    var f := doc[key];
    var tag :| tag in f.addTags;
    var add :| add in ops && Adds(add, key, tag);
    assert Writes(add, key, Position);
    assert SlotDenotes(RegisterAt(f, Position), key, Position, ops);
    op :| op in ops && Writes(op, key, Position) && Write(op, Position) == f.position;
    forall o | o in ops && Places(o, key)
      ensures !Less(PlacedWhen(op), PlacedWhen(o))
    {
      assert Writes(o, key, Position);
    }
  }

  /** Features are listed in the dictionary order of their newest position texts, and by key where these are equal. */
  lemma HistoryByPosition(doc: Doc, ops: set<Op>, keys: seq<FeatureKey>, i: nat, j: nat) returns (p: Op, q: Op)
    requires Denotes(doc, ops) && IsHistory(doc, keys) && i < j < |keys|
    ensures NewestPlace(p, keys[i], ops) && NewestPlace(q, keys[j], ops)
    ensures TextBefore(p.position, q.position) || (p.position == q.position && keys[i] < keys[j])
  {
    assert keys[i] in SetOf(keys) && keys[j] in SetOf(keys);
    p := PlacedByNewest(doc, ops, keys[i]);
    q := PlacedByNewest(doc, ops, keys[j]);
    assert Precedes(doc, keys[i], keys[j]);
    CompareTextIff(p.position, q.position);
    CompareTextIsTotalOrder(p.position, q.position, p.position);
  }

  lemma ParamIsNewest(doc: Doc, ops: set<Op>, key: FeatureKey, name: string)
    requires Denotes(doc, ops) && key in doc
    ensures name in doc[key].params <==> exists op :: op in ops && Sets(op, key, name)
    ensures name in doc[key].params ==> exists op :: NewestSet(op, key, name, ops) && op.value == doc[key].params[name].value
  {
    var f := doc[key];
    assert SlotDenotes(RegisterAt(f, Parameter(name)), key, Parameter(name), ops);
    assert forall op :: Writes(op, key, Parameter(name)) <==> Sets(op, key, name);
    if name in f.params {
      var op :| op in ops && Writes(op, key, Parameter(name)) && Write(op, Parameter(name)) == Some(f.params[name]);
      assert NewestSet(op, key, name, ops);
    }
  }

  /** Each entry of a snapshot is for one feature of the history, with the kind of its newest add and, for every parameter
    ever set, the value of its newest write. */
  lemma SnapshotShowsNewest(doc: Doc, ops: set<Op>, keys: seq<FeatureKey>, i: nat)
    requires Denotes(doc, ops) && IsHistory(doc, keys) && i < |keys|
    ensures var entries := SnapshotOf(doc, keys);
            && |entries| == |keys| && entries[i].key == keys[i] && CarriesLatestKind(entries[i], ops)
            && (forall name :: name in entries[i].params <==> exists op :: op in ops && Sets(op, keys[i], name))
            && (forall name | name in entries[i].params ::
                  exists op :: NewestSet(op, keys[i], name, ops) && op.value == entries[i].params[name])
  {
    assert keys[i] in SetOf(keys);
    KindIsLatest(doc, ops, keys[i]);
    forall name
      ensures name in doc[keys[i]].params <==> exists op :: op in ops && Sets(op, keys[i], name)
      ensures name in doc[keys[i]].params ==>
                exists op :: NewestSet(op, keys[i], name, ops) && op.value == doc[keys[i]].params[name].value
    {
      ParamIsNewest(doc, ops, keys[i], name);
    }
  }
}
