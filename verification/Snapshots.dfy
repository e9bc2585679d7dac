/** Reading a document: the ordered list of live features and the snapshot
  handed to version control (`ordered_keys` in collab/src/crdt.rs, `snapshot` in
  collab/src/lib.rs). */
module Snapshots {
  import opened Clocks
  import opened Crdt
  import opened Convergence

  /** Lexicographic comparison of position strings. */
  function CompareText(a: string, b: string): Ordering
    decreases |a|
  {
    if a == [] then (if b == [] then Same else Before)
    else if b == [] then After
    else if a[0] < b[0] then Before
    else if b[0] < a[0] then After
    else CompareText(a[1..], b[1..])
  }

  lemma {:induction false} CompareTextIsTotalOrder(a: string, b: string, c: string)
    ensures CompareText(a, b) == Same <==> a == b
    ensures CompareText(a, b) == Before <==> CompareText(b, a) == After
    ensures CompareText(a, b) == Before && CompareText(b, c) == Before ==> CompareText(a, c) == Before
    decreases |a|
  {
    if a != [] && b != [] {
      CompareTextIsTotalOrder(a[1..], b[1..], if c == [] then [] else c[1..]);
      assert a == [a[0]] + a[1..] && b == [b[0]] + b[1..];
    }
  }

  /** The sort key of a feature: the text of its position register, empty if there is none. */
  function PositionText(f: FeatureState): string {
    if f.position.Some? && f.position.value.value.Text? then f.position.value.value.s else ""
  }

  /** History order: position text first, feature key on equal positions. */
  predicate Precedes(doc: Doc, j: FeatureKey, k: FeatureKey)
    requires j in doc && k in doc
  {
    var c := CompareText(PositionText(doc[j]), PositionText(doc[k]));
    c == Before || (c == Same && j < k)
  }

  lemma PrecedesIsTotalOrder(doc: Doc, i: FeatureKey, j: FeatureKey, k: FeatureKey)
    requires i in doc && j in doc && k in doc
    ensures !(Precedes(doc, i, j) && Precedes(doc, j, i))
    ensures i != j ==> Precedes(doc, i, j) || Precedes(doc, j, i)
    ensures Precedes(doc, i, j) && Precedes(doc, j, k) ==> Precedes(doc, i, k)
  {
    CompareTextIsTotalOrder(PositionText(doc[i]), PositionText(doc[j]), PositionText(doc[k]));
    CompareTextIsTotalOrder(PositionText(doc[j]), PositionText(doc[i]), PositionText(doc[k]));
    CompareTextIsTotalOrder(PositionText(doc[j]), PositionText(doc[k]), PositionText(doc[i]));
    CompareTextIsTotalOrder(PositionText(doc[i]), PositionText(doc[k]), PositionText(doc[j]));
  }

  function LiveKeys(doc: Doc): set<FeatureKey> {
    set key | key in doc && doc[key].Exists()
  }

  ghost predicate Sorted(doc: Doc, keys: seq<FeatureKey>) {
    && (forall key | key in keys :: key in doc)
    && forall i, j | 0 <= i < j < |keys| :: Precedes(doc, keys[i], keys[j])
  }

  /** `keys` lists exactly the live features, in history order. */
  ghost predicate IsHistory(doc: Doc, keys: seq<FeatureKey>) {
    Sorted(doc, keys) && SetOf(keys) == LiveKeys(doc)
  }

  /** There is only one such list: the hash map's iteration order cannot show in the result. */
  lemma {:induction false} HistoryUnique(doc: Doc, xs: seq<FeatureKey>, ys: seq<FeatureKey>)
    requires Sorted(doc, xs) && Sorted(doc, ys) && SetOf(xs) == SetOf(ys)
    ensures xs == ys
    decreases |xs|
  {
    if xs == [] {
      assert forall j | 0 <= j < |ys| :: ys[j] in SetOf(ys);
    } else {
      assert xs[0] in SetOf(xs);
      var j :| 0 <= j < |ys| && ys[j] == xs[0];
      assert ys[0] in SetOf(ys);
      var i :| 0 <= i < |xs| && xs[i] == ys[0];
      PrecedesIsTotalOrder(doc, xs[0], ys[0], xs[0]);
      assert xs[0] == ys[0];
      TailSet(doc, xs);
      TailSet(doc, ys);
      HistoryUnique(doc, xs[1..], ys[1..]);
      assert xs == [xs[0]] + xs[1..];
    }
  }

  lemma TailSet(doc: Doc, keys: seq<FeatureKey>)
    requires Sorted(doc, keys) && keys != []
    ensures Sorted(doc, keys[1..])
    ensures SetOf(keys[1..]) == SetOf(keys) - {keys[0]}
  {
    forall key
      ensures key in SetOf(keys[1..]) <==> key in SetOf(keys) - {keys[0]}
    {
      if key in SetOf(keys) - {keys[0]} {
        var i :| 0 <= i < |keys| && keys[i] == key;
        assert keys[1..][i - 1] == key;
      }
      if key in keys[1..] {
        var i :| 0 <= i < |keys[1..]| && keys[1..][i] == key;
        PrecedesIsTotalOrder(doc, keys[0], keys[i + 1], keys[0]);
      }
    }
  }

  /** Live feature keys in history order; the entries are visited in whatever order the map yields them. */
  method OrderedKeys(doc: CrdtDoc) returns (keys: seq<FeatureKey>)
    ensures IsHistory(doc.features, keys)
  {
    keys := [];
    var todo := doc.features.Keys;
    while todo != {}
      invariant todo <= doc.features.Keys
      invariant Sorted(doc.features, keys)
      invariant SetOf(keys) == LiveKeys(doc.features) - todo
    {
      var key :| key in todo;
      if doc.features[key].Exists() {
        keys := InsertSorted(doc.features, keys, key);
      }
      todo := todo - {key};
    }
  }

  method InsertSorted(doc: Doc, keys: seq<FeatureKey>, key: FeatureKey) returns (r: seq<FeatureKey>)
    requires Sorted(doc, keys) && key in doc && key !in keys
    ensures Sorted(doc, r) && SetOf(r) == SetOf(keys) + {key}
  {
    var i := 0;
    while i < |keys| && Precedes(doc, keys[i], key)
      invariant 0 <= i <= |keys|
      invariant forall j | 0 <= j < i :: Precedes(doc, keys[j], key)
    {
      i := i + 1;
    }
    r := keys[..i] + [key] + keys[i..];
    forall j | i <= j < |keys|
      ensures Precedes(doc, key, keys[j])
    {
      PrecedesIsTotalOrder(doc, key, keys[i], keys[j]);
    }
    InsertionSorted(doc, keys, key, i);
  }

  lemma InsertionSorted(doc: Doc, keys: seq<FeatureKey>, key: FeatureKey, at: nat)
    requires Sorted(doc, keys) && key in doc && at <= |keys|
    requires forall j | 0 <= j < at :: Precedes(doc, keys[j], key)
    requires forall j | at <= j < |keys| :: Precedes(doc, key, keys[j])
    ensures var r := keys[..at] + [key] + keys[at..];
            Sorted(doc, r) && SetOf(r) == SetOf(keys) + {key}
  {
    hide Precedes;
    var r := keys[..at] + [key] + keys[at..];
    InsertedKeys(keys, key, at);
    forall i, j | 0 <= i < j < |r|
      ensures Precedes(doc, r[i], r[j])
    {
      assert r[i] == if i < at then keys[i] else if i == at then key else keys[i - 1];
      assert r[j] == if j < at then keys[j] else if j == at then key else keys[j - 1];
    }
  }

  lemma InsertedKeys(keys: seq<FeatureKey>, key: FeatureKey, at: nat)
    requires at <= |keys|
    ensures var r := keys[..at] + [key] + keys[at..];
            SetOf(r) == SetOf(keys) + {key} && forall k :: k in r <==> k in keys || k == key
  {
    assert keys == keys[..at] + keys[at..];
  }

  datatype SnapshotEntry = SnapshotEntry(key: FeatureKey, kind: string, params: map<string, ParamValue>)

  function KindText(f: FeatureState): string {
    if f.kind.Some? && f.kind.value.value.Text? then f.kind.value.value.s else ""
  }

  function SnapshotOf(doc: Doc, keys: seq<FeatureKey>): seq<SnapshotEntry>
    requires forall key | key in keys :: key in doc
  {
    seq(|keys|, i requires 0 <= i < |keys| => var f := doc[keys[i]];
      SnapshotEntry(keys[i], KindText(f), map name | name in f.params :: f.params[name].value))
  }

  /** An add of `key` no other add of it outranks. */
  ghost predicate LatestAdd(op: Op, key: FeatureKey, ops: set<Op>) {
    op in ops && op.AddFeature? && op.key == key
    && forall o | o in ops && o.AddFeature? && o.key == key :: !Less(op.tag, o.tag)
  }

  ghost predicate CarriesLatestKind(entry: SnapshotEntry, ops: set<Op>) {
    exists op :: LatestAdd(op, entry.key, ops) && entry.kind == op.kind
  }

  /** Every replica that has the same operations hands over the same snapshot, and each entry carries the kind of the
    latest add, never the empty fallback of a missing kind. */
  lemma SnapshotsAgree(a: Doc, b: Doc, ops: set<Op>, xs: seq<FeatureKey>, ys: seq<FeatureKey>)
    requires Decided(ops) && Denotes(a, ops) && Denotes(b, ops)
    requires IsHistory(a, xs) && IsHistory(b, ys)
    ensures xs == ys && SnapshotOf(a, xs) == SnapshotOf(b, ys)
    ensures forall i | 0 <= i < |xs| :: CarriesLatestKind(SnapshotOf(a, xs)[i], ops)
  {
    DenotationUnique(a, b, ops);
    HistoryUnique(a, xs, ys);
    forall i | 0 <= i < |xs|
      ensures CarriesLatestKind(SnapshotOf(a, xs)[i], ops)
    {
      assert xs[i] in SetOf(xs);
      KindIsLatest(a, ops, xs[i]);
    }
  }

  lemma KindIsLatest(doc: Doc, ops: set<Op>, key: FeatureKey)
    requires Denotes(doc, ops) && key in LiveKeys(doc)
    ensures exists op :: LatestAdd(op, key, ops) && KindText(doc[key]) == op.kind
  {
    var f := doc[key];
    var tag :| tag in f.addTags;
    var add :| add in ops && Adds(add, key, tag);
    assert Writes(add, key, Kind);
    assert SlotDenotes(RegisterAt(f, Kind), key, Kind, ops);
    var op :| op in ops && Writes(op, key, Kind) && Write(op, Kind) == f.kind;
    forall o | o in ops && o.AddFeature? && o.key == key
      ensures !Less(op.tag, o.tag)
    {
      assert Writes(o, key, Kind);
    }
    assert LatestAdd(op, key, ops);
  }
}
