/** Documents only grow: every operation leads upwards in an order in which the
  larger of two documents absorbs the smaller (collab/src/crdt.rs:135-250). No
  hypothesis about stamps is needed. */
module Growth {
  import opened Options
  import opened Clocks
  import opened Crdt
  import opened Convergence

  /** The later register is the same one or strictly newer. */
  ghost predicate SlotBelow(a: Option<Register>, b: Option<Register>) {
    a.None? || (b.Some? && (a == b || Less(a.value.clock, b.value.clock)))
  }

  ghost predicate FeatureBelow(f: FeatureState, g: FeatureState) {
    && f.addTags <= g.addTags && f.removedTags <= g.removedTags
    && forall slot :: SlotBelow(RegisterAt(f, slot), RegisterAt(g, slot))
  }

  ghost predicate Below(a: Doc, b: Doc) {
    forall key | key in a :: key in b && FeatureBelow(a[key], b[key])
  }

  lemma SlotBelowTransitive(a: Option<Register>, b: Option<Register>, c: Option<Register>)
    requires SlotBelow(a, b) && SlotBelow(b, c)
    ensures SlotBelow(a, c)
  {
    if a.Some? {
      CompareIsTotalOrder(a.value.clock, b.value.clock, c.value.clock);
    }
  }

  lemma BelowTransitive(a: Doc, b: Doc, c: Doc)
    requires Below(a, b) && Below(b, c)
    ensures Below(a, c)
  {
    forall key | key in a
      ensures key in c && FeatureBelow(a[key], c[key])
    {
      forall slot
        ensures SlotBelow(RegisterAt(a[key], slot), RegisterAt(c[key], slot))
      {
        SlotBelowTransitive(RegisterAt(a[key], slot), RegisterAt(b[key], slot), RegisterAt(c[key], slot));
      }
    }
  }

  lemma FeatureGoesUp(f: FeatureState, op: Op)
    ensures FeatureBelow(f, ApplyToFeature(f, op))
  {
    var g := ApplyToFeature(f, op);
    forall slot
      ensures SlotBelow(RegisterAt(f, slot), RegisterAt(g, slot))
    {
      assert RegisterAt(g, slot) ==
        if Write(op, slot).Some? then MergeSlot(RegisterAt(f, slot), Write(op, slot)) else RegisterAt(f, slot);
    }
  }

  lemma AppliedGoesUp(doc: Doc, op: Op)
    ensures Below(doc, Applied(doc, op))
  {
    FeatureGoesUp(Entry(doc, op.key), op);
  }

  lemma {:induction false} ReplayedGoesUp(doc: Doc, ops: seq<Op>)
    ensures Below(doc, Replayed(doc, ops))
    decreases |ops|
  {
    if ops != [] {
      AppliedGoesUp(doc, ops[0]);
      ReplayedGoesUp(Applied(doc, ops[0]), ops[1..]);
      BelowTransitive(doc, Applied(doc, ops[0]), Replayed(doc, ops));
    }
  }

  lemma SlotAbsorbs(a: Option<Register>, b: Option<Register>)
    requires SlotBelow(a, b)
    ensures MergeSlot(a, b) == b == MergeSlot(b, a)
  {
    if a.Some? {
      CompareIsTotalOrder(a.value.clock, b.value.clock, a.value.clock);
    }
  }

  lemma FeatureAbsorbs(f: FeatureState, g: FeatureState)
    requires FeatureBelow(f, g)
    ensures JoinFeature(f, g) == g == JoinFeature(g, f)
  {
    SlotAbsorbs(RegisterAt(f, Kind), RegisterAt(g, Kind));
    SlotAbsorbs(RegisterAt(f, Position), RegisterAt(g, Position));
    forall name | name in f.params
      ensures name in g.params && MergeRegister(f.params[name], g.params[name]) == g.params[name]
              == MergeRegister(g.params[name], f.params[name])
    {
      assert SlotBelow(RegisterAt(f, Parameter(name)), RegisterAt(g, Parameter(name)));
      SlotAbsorbs(RegisterAt(f, Parameter(name)), RegisterAt(g, Parameter(name)));
    }
    assert JoinParams(f.params, g.params) == g.params == JoinParams(g.params, f.params);
  }

  /** The larger document absorbs the smaller, whichever is merged into the other. */
  lemma LargerAbsorbs(a: Doc, b: Doc)
    requires Below(a, b)
    ensures Joined(a, b) == b == Joined(b, a)
  {
    hide JoinFeature;
    forall key | key in a
      ensures JoinFeature(a[key], b[key]) == b[key] == JoinFeature(b[key], a[key])
    {
      FeatureAbsorbs(a[key], b[key]);
    }
    forall key | key in b && key !in a
      ensures JoinFeature(Entry(a, key), b[key]) == b[key]
    {
      FeatureAbsorbs(DEFAULT_FEATURE, b[key]);
    }
  }

  /** The order is antisymmetric, so a document that has grown never comes back. */
  lemma BelowAntisymmetric(a: Doc, b: Doc)
    requires Below(a, b) && Below(b, a)
    ensures a == b
  {
    hide Below, Joined;
    LargerAbsorbs(a, b);
    LargerAbsorbs(b, a);
  }

  /** An operation list that changes the document at any moment leaves it changed. */
  lemma NeverBack(doc: Doc, op: Op, ops: seq<Op>)
    requires Applied(doc, op) != doc
    ensures Replayed(Applied(doc, op), ops) != doc
  {
    hide Below, Applied, Replayed;
    AppliedGoesUp(doc, op);
    ReplayedGoesUp(Applied(doc, op), ops);
    if Replayed(Applied(doc, op), ops) == doc {
      BelowAntisymmetric(doc, Applied(doc, op));
    }
  }
}
