/** The replicated document and its operations (collab/src/crdt.rs). */
module Crdt {
  import opened Options
  import opened Clocks

  type FeatureKey = nat

  datatype ParamValue = Number(n: real) | Int(i: int) | Text(s: string) | Bool(b: bool)

  /** A last-writer-wins register. */
  datatype Register = Register(value: ParamValue, clock: Stamp)

  datatype FeatureState = FeatureState(
    kind: Option<Register>,
    position: Option<Register>,
    params: map<string, Register>,
    addTags: set<Stamp>,
    removedTags: set<Stamp>
  )
  {
    /** A feature exists iff some add tag is not shadowed by a remove. */
    predicate Exists() {
      addTags - removedTags != {}
    }
  }

  const DEFAULT_FEATURE := FeatureState(None, None, map[], {}, {})

  datatype Op =
    | AddFeature(key: FeatureKey, kind: string, tag: Stamp, position: string)
    | RemoveFeature(key: FeatureKey, observedTags: seq<Stamp>)
    | SetParam(key: FeatureKey, name: string, value: ParamValue, clock: Stamp)
    | SetPosition(key: FeatureKey, position: string, clock: Stamp)
  {
    function StampOf(): Option<Stamp> {
      match this
      case AddFeature(_, _, tag, _) => Some(tag)
      case SetParam(_, _, _, clock) => Some(clock)
      case SetPosition(_, _, clock) => Some(clock)
      case RemoveFeature(_, _) => None
    }
  }

  type Doc = map<FeatureKey, FeatureState>

  /** Keep the register with the higher clock; the first one on a tie. */
  function MergeRegister(a: Register, b: Register): Register {
    if Less(a.clock, b.clock) then b else a
  }

  function MergeSlot(a: Option<Register>, b: Option<Register>): Option<Register> {
    if a.None? then b else if b.None? then a else Some(MergeRegister(a.value, b.value))
  }

  function Entry(doc: Doc, key: FeatureKey): FeatureState {
    if key in doc then doc[key] else DEFAULT_FEATURE
  }

  function Param(f: FeatureState, name: string): Option<Register> {
    if name in f.params then Some(f.params[name]) else None
  }

  function SetOf<T>(s: seq<T>): set<T> {
    set x | x in s
  }

  function ApplyToFeature(f: FeatureState, op: Op): FeatureState {
    match op
    case AddFeature(_, kind, tag, position) =>
      f.(addTags := f.addTags + {tag},
         kind := MergeSlot(f.kind, Some(Register(Text(kind), tag))),
         position := MergeSlot(f.position, Some(Register(Text(position), tag))))
    case RemoveFeature(_, observedTags) =>
      f.(removedTags := f.removedTags + SetOf(observedTags))
    case SetParam(_, name, value, clock) =>
      f.(params := f.params[name := MergeSlot(Param(f, name), Some(Register(value, clock))).value])
    case SetPosition(_, position, clock) =>
      f.(position := MergeSlot(f.position, Some(Register(Text(position), clock))))
  }

  /** The document after one operation. */
  function Applied(doc: Doc, op: Op): Doc {
    doc[op.key := ApplyToFeature(Entry(doc, op.key), op)]
  }

  /** The document after a sequence of operations. */
  function Replayed(doc: Doc, ops: seq<Op>): Doc
    decreases |ops|
  {
    if ops == [] then doc else Replayed(Applied(doc, ops[0]), ops[1..])
  }

  function JoinParams(a: map<string, Register>, b: map<string, Register>): map<string, Register> {
    map name | name in a.Keys + b.Keys ::
      if name !in a then b[name] else if name !in b then a[name] else MergeRegister(a[name], b[name])
  }

  function JoinFeature(f: FeatureState, g: FeatureState): FeatureState {
    FeatureState(MergeSlot(f.kind, g.kind), MergeSlot(f.position, g.position), JoinParams(f.params, g.params),
                 f.addTags + g.addTags, f.removedTags + g.removedTags)
  }

  /** The state-based merge of two documents. */
  function Joined(a: Doc, b: Doc): Doc {
    map key | key in a.Keys + b.Keys :: if key in b then JoinFeature(Entry(a, key), b[key]) else a[key]
  }

  /** What `apply` answers for the caller to decide whether anything changed. */
  function ReportsChange(doc: Doc, op: Op): bool {
    var f := Entry(doc, op.key);
    match op
    case AddFeature(_, _, tag, _) => tag !in f.addTags
    case RemoveFeature(_, observedTags) => exists t | t in observedTags :: t !in f.removedTags
    case SetParam(_, _, _, _) => ApplyToFeature(f, op) != f
    case SetPosition(_, _, _) => ApplyToFeature(f, op) != f
  }

  lemma {:induction false} ReplayedAppend(doc: Doc, xs: seq<Op>, ys: seq<Op>)
    ensures Replayed(doc, xs + ys) == Replayed(Replayed(doc, xs), ys)
    decreases |xs|
  {
    if xs == [] {
      assert xs + ys == ys;
    } else {
      assert (xs + ys)[1..] == xs[1..] + ys;
      ReplayedAppend(Applied(doc, xs[0]), xs[1..], ys);
    }
  }

  class CrdtDoc {
    var features: Doc

    constructor ()
      ensures features == map[]
    {
      features := map[];
    }

    /** Apply one operation in place; `changed` is the source's answer, which `ReportedChange` relates to real change. */
    method Apply(op: Op) returns (changed: bool)
      modifies this
      ensures features == Applied(old(features), op)
      ensures changed == ReportsChange(old(features), op)
    {
      var f := Entry(features, op.key);
      match op {
        case AddFeature(key, kind, tag, position) =>
          changed := tag !in f.addTags;
          f := f.(addTags := f.addTags + {tag});
          var kr := Register(Text(kind), tag);
          f := f.(kind := if f.kind.Some? then Some(MergeRegister(f.kind.value, kr)) else Some(kr));
          var pr := Register(Text(position), tag);
          f := f.(position := if f.position.Some? then Some(MergeRegister(f.position.value, pr)) else Some(pr));
        case RemoveFeature(key, observedTags) =>
          changed := false;
          ghost var before := f;
          var i := 0;
          while i < |observedTags|
            invariant 0 <= i <= |observedTags|
            invariant f == before.(removedTags := before.removedTags + SetOf(observedTags[..i]))
            invariant changed <==> exists t | t in observedTags[..i] :: t !in before.removedTags
          {
            var t := observedTags[i];
            assert observedTags[..i + 1] == observedTags[..i] + [t];
            changed := changed || t !in f.removedTags;
            f := f.(removedTags := f.removedTags + {t});
            i := i + 1;
          }
          assert observedTags[..i] == observedTags;
        case SetParam(key, name, value, clock) =>
          var reg := Register(value, clock);
          if name in f.params {
            var before := f.params[name];
            var after := MergeRegister(before, reg);
            f := f.(params := f.params[name := after]);
            changed := after != before;
            assert after == before ==> f.params == Entry(features, op.key).params;
          } else {
            f := f.(params := f.params[name := reg]);
            changed := true;
          }
        case SetPosition(key, position, clock) =>
          var reg := Register(Text(position), clock);
          if f.position.Some? {
            var before := f.position.value;
            var after := MergeRegister(before, reg);
            f := f.(position := Some(after));
            changed := after != before;
          } else {
            f := f.(position := Some(reg));
            changed := true;
          }
      }
      features := features[op.key := f];
    }

    /** State-based merge, entry by entry in any order of the other document's entries. */
    method Merge(other: CrdtDoc)
      modifies this
      ensures features == Joined(old(features), old(other.features))
    {
      ghost var mine := features;
      var theirs := other.features;
      var todo := theirs.Keys;
      while todo != {}
        invariant todo <= theirs.Keys
        invariant features.Keys == mine.Keys + (theirs.Keys - todo)
        invariant forall key | key in features ::
          features[key] == if key in theirs.Keys - todo then JoinFeature(Entry(mine, key), theirs[key]) else mine[key]
      {
        var key :| key in todo;
        var merged := MergeFeature(Entry(features, key), theirs[key]);
        features := features[key := merged];
        todo := todo - {key};
      }
    }

    static method MergeFeature(mine: FeatureState, theirs: FeatureState) returns (f: FeatureState)
      ensures f == JoinFeature(mine, theirs)
    {
      f := mine.(addTags := mine.addTags + theirs.addTags, removedTags := mine.removedTags + theirs.removedTags);
      if theirs.kind.Some? {
        f := f.(kind := if f.kind.Some? then Some(MergeRegister(f.kind.value, theirs.kind.value)) else theirs.kind);
      }
      if theirs.position.Some? {
        f := f.(position := if f.position.Some? then Some(MergeRegister(f.position.value, theirs.position.value))
                            else theirs.position);
      }
      var params := mine.params;
      var todo := theirs.params.Keys;
      while todo != {}
        invariant todo <= theirs.params.Keys
        invariant params.Keys == mine.params.Keys + (theirs.params.Keys - todo)
        invariant forall name | name in params ::
          params[name] == if name in theirs.params.Keys - todo
                          then JoinParams(mine.params, theirs.params)[name] else mine.params[name]
      {
        var name :| name in todo;
        var reg := theirs.params[name];
        params := params[name := if name in params then MergeRegister(params[name], reg) else reg];
        todo := todo - {name};
      }
      assert params == JoinParams(mine.params, theirs.params);
      f := f.(params := params);
    }
  }
}
