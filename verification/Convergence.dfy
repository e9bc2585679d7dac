/** What a document means, independently of the order in which it was built.

  `Denotes(doc, ops)` describes, slot by slot, the document that a *set* of
  operations stands for. Applying an operation adds it to that set and merging
  unites two sets; when the newest writes to each slot agree, as they do with
  unique stamps, a set denotes exactly one document. Order independence,
  idempotence and the merge laws of collab/src/crdt.rs follow, with their exact
  conditions.
*/
module Convergence {
  import opened Options
  import opened Clocks
  import opened Crdt

  /** The three families of last-writer-wins registers of one feature. */
  datatype Slot = Kind | Position | Parameter(name: string)

  function RegisterAt(f: FeatureState, slot: Slot): Option<Register> {
    match slot
    case Kind => f.kind
    case Position => f.position
    case Parameter(name) => Param(f, name)
  }

  /** What one operation writes into a slot of the feature it addresses. */
  function Write(op: Op, slot: Slot): Option<Register> {
    match op
    case AddFeature(_, kind, tag, position) =>
      if slot.Kind? then Some(Register(Text(kind), tag))
      else if slot.Position? then Some(Register(Text(position), tag))
      else None
    case SetParam(_, name, value, clock) =>
      if slot == Parameter(name) then Some(Register(value, clock)) else None
    case SetPosition(_, position, clock) =>
      if slot.Position? then Some(Register(Text(position), clock)) else None
    case RemoveFeature(_, _) => None
  }

  predicate Writes(op: Op, key: FeatureKey, slot: Slot) {
    op.key == key && Write(op, slot).Some?
  }

  /** The slot holds nothing if nothing was written to it, and otherwise a write no other write beats. */
  ghost predicate SlotDenotes(r: Option<Register>, key: FeatureKey, slot: Slot, ops: set<Op>) {
    match r
    case None => forall op | op in ops :: !Writes(op, key, slot)
    case Some(reg) =>
      && (exists op | op in ops :: Writes(op, key, slot) && Write(op, slot) == r)
      && forall op | op in ops && Writes(op, key, slot) :: !Less(reg.clock, Write(op, slot).value.clock)
  }

  ghost predicate Adds(op: Op, key: FeatureKey, tag: Stamp) {
    op.AddFeature? && op.key == key && op.tag == tag
  }

  ghost predicate Names(op: Op, key: FeatureKey, tag: Stamp) {
    op.RemoveFeature? && op.key == key && tag in op.observedTags
  }

  ghost predicate FeatureDenotes(f: FeatureState, key: FeatureKey, ops: set<Op>) {
    && (forall tag :: tag in f.addTags <==> exists op :: op in ops && Adds(op, key, tag))
    && (forall tag :: tag in f.removedTags <==> exists op :: op in ops && Names(op, key, tag))
    && (forall slot :: SlotDenotes(RegisterAt(f, slot), key, slot, ops))
  }

  ghost predicate Denotes(doc: Doc, ops: set<Op>) {
    && (forall key :: key in doc <==> exists op :: op in ops && op.key == key)
    && (forall key | key in doc :: FeatureDenotes(doc[key], key, ops))
  }

  /** Operations that carry the same stamp are the same operation. */
  ghost predicate UniqueStamps(ops: set<Op>) {
    forall o, p | o in ops && p in ops && o.StampOf().Some? && o.StampOf() == p.StampOf() :: o == p
  }

  /** Writes to the same slot with the same stamp write the same. */
  ghost predicate NoTies(ops: set<Op>) {
    forall o, p, key, slot | o in ops && p in ops && Tied(o, p, key, slot) :: Write(o, slot) == Write(p, slot)
  }

  ghost predicate Tied(o: Op, p: Op, key: FeatureKey, slot: Slot) {
    Writes(o, key, slot) && Writes(p, key, slot) && Write(o, slot).value.clock == Write(p, slot).value.clock
  }

  /** The operation writes to the slot and no other one writes to it with a later stamp. */
  ghost predicate Unbeaten(op: Op, key: FeatureKey, slot: Slot, ops: set<Op>) {
    && op in ops && Writes(op, key, slot)
    && forall o | o in ops && Writes(o, key, slot) :: !Less(Write(op, slot).value.clock, Write(o, slot).value.clock)
  }

  /** The newest writes to a slot write the same: the operations decide what it holds. */
  ghost predicate Decided(ops: set<Op>) {
    forall o, p, key, slot | Unbeaten(o, key, slot, ops) && Unbeaten(p, key, slot, ops) :: Write(o, slot) == Write(p, slot)
  }

  lemma UnbeatenTie(o: Op, p: Op, key: FeatureKey, slot: Slot, ops: set<Op>)
    requires Unbeaten(o, key, slot, ops) && Unbeaten(p, key, slot, ops)
    ensures Tied(o, p, key, slot)
  {
    var c, d := Write(o, slot).value.clock, Write(p, slot).value.clock;
    CompareIsTotalOrder(c, d, c);
  }

  lemma UniqueStampsDecide(ops: set<Op>)
    requires UniqueStamps(ops)
    ensures NoTies(ops) && Decided(ops)
  {
    forall o, p, key, slot | o in ops && p in ops && Tied(o, p, key, slot)
      ensures o == p
    {
      assert o.StampOf() == Some(Write(o, slot).value.clock) && p.StampOf() == Some(Write(p, slot).value.clock);
    }
    NoTiesIff(ops);
  }

  /** Writes to the same slot with the same stamp must write the same, iff whatever part of the operations has been
    delivered decides every slot. */
  lemma NoTiesIff(ops: set<Op>)
    ensures NoTies(ops) <==> forall part | part <= ops :: Decided(part)
    ensures NoTies(ops) ==> Decided(ops)
  {
    if NoTies(ops) {
      forall part, o, p, key, slot | part <= ops && Unbeaten(o, key, slot, part) && Unbeaten(p, key, slot, part)
        ensures Write(o, slot) == Write(p, slot)
      {
        UnbeatenTie(o, p, key, slot, part);
      }
    }
    if forall part | part <= ops :: Decided(part) {
      forall o, p, key, slot | o in ops && p in ops && Tied(o, p, key, slot)
        ensures Write(o, slot) == Write(p, slot)
      {
        var part := {o, p};
        CompareIsTotalOrder(Write(o, slot).value.clock, Write(p, slot).value.clock, Write(o, slot).value.clock);
        assert Decided(part) && Unbeaten(o, key, slot, part) && Unbeaten(p, key, slot, part);
      }
    }
  }

  // ----- Applying and merging, in terms of operation sets

  /** A feature nobody addressed denotes the empty state, whether or not the document has an entry. */
  lemma EntryDenotes(doc: Doc, key: FeatureKey, ops: set<Op>)
    requires Denotes(doc, ops)
    ensures FeatureDenotes(Entry(doc, key), key, ops)
  {
  }

  lemma SlotApply(r: Option<Register>, key: FeatureKey, slot: Slot, ops: set<Op>, op: Op)
    requires SlotDenotes(r, key, slot, ops)
    ensures SlotDenotes(if Writes(op, key, slot) then MergeSlot(r, Write(op, slot)) else r, key, slot, ops + {op})
  {
    if r.Some? {
      var w :| w in ops && Writes(w, key, slot) && Write(w, slot) == r;
      assert w in ops + {op};
      assert op in ops + {op};
    } else {
      assert op in ops + {op};
    }
  }

  lemma FeatureApply(f: FeatureState, key: FeatureKey, ops: set<Op>, op: Op)
    requires FeatureDenotes(f, key, ops)
    ensures FeatureDenotes(if op.key == key then ApplyToFeature(f, op) else f, key, ops + {op})
  {
    var g := if op.key == key then ApplyToFeature(f, op) else f;
    forall slot
      ensures SlotDenotes(RegisterAt(g, slot), key, slot, ops + {op})
    {
      SlotApply(RegisterAt(f, slot), key, slot, ops, op);
      assert RegisterAt(g, slot) ==
        if Writes(op, key, slot) then MergeSlot(RegisterAt(f, slot), Write(op, slot)) else RegisterAt(f, slot);
    }
    TagsApply(f, g, key, ops, op);
  }

  lemma TagsApply(f: FeatureState, g: FeatureState, key: FeatureKey, ops: set<Op>, op: Op)
    requires FeatureDenotes(f, key, ops)
    requires g == if op.key == key then ApplyToFeature(f, op) else f
    ensures forall tag :: tag in g.addTags <==> exists o :: o in ops + {op} && Adds(o, key, tag)
    ensures forall tag :: tag in g.removedTags <==> exists o :: o in ops + {op} && Names(o, key, tag)
  {
    forall tag
      ensures tag in g.addTags <==> exists o :: o in ops + {op} && Adds(o, key, tag)
    {
      assert tag in g.addTags <==> tag in f.addTags || Adds(op, key, tag);
      assert op in ops + {op};
    }
    forall tag
      ensures tag in g.removedTags <==> exists o :: o in ops + {op} && Names(o, key, tag)
    {
      assert tag in g.removedTags <==> tag in f.removedTags || Names(op, key, tag);
      assert op in ops + {op};
    }
  }

  lemma ApplyDenotes(doc: Doc, ops: set<Op>, op: Op)
    requires Denotes(doc, ops)
    ensures Denotes(Applied(doc, op), ops + {op})
  {
    var next := Applied(doc, op);
    forall key
      ensures key in next <==> exists o :: o in ops + {op} && o.key == key
    {
      assert op in ops + {op};
    }
    forall key | key in next
      ensures FeatureDenotes(next[key], key, ops + {op})
    {
      EntryDenotes(doc, key, ops);
      FeatureApply(Entry(doc, key), key, ops, op);
    }
  }

  lemma {:induction false} ReplayDenotes(doc: Doc, known: set<Op>, ops: seq<Op>)
    requires Denotes(doc, known)
    ensures Denotes(Replayed(doc, ops), known + SetOf(ops))
    decreases |ops|
  {
    if ops == [] {
      assert known + SetOf(ops) == known;
    } else {
      ApplyDenotes(doc, known, ops[0]);
      ReplayDenotes(Applied(doc, ops[0]), known + {ops[0]}, ops[1..]);
      assert known + SetOf(ops) == known + {ops[0]} + SetOf(ops[1..]);
    }
  }

  lemma SlotJoin(a: Option<Register>, b: Option<Register>, key: FeatureKey, slot: Slot, xs: set<Op>, ys: set<Op>)
    requires SlotDenotes(a, key, slot, xs) && SlotDenotes(b, key, slot, ys)
    ensures SlotDenotes(MergeSlot(a, b), key, slot, xs + ys)
  {
    var r := MergeSlot(a, b);
    if r.Some? {
      if r == a {
        var w :| w in xs && Writes(w, key, slot) && Write(w, slot) == a;
        assert w in xs + ys;
      } else {
        var w :| w in ys && Writes(w, key, slot) && Write(w, slot) == b;
        assert w in xs + ys;
      }
    }
  }

  lemma FeatureJoin(f: FeatureState, g: FeatureState, key: FeatureKey, xs: set<Op>, ys: set<Op>)
    requires FeatureDenotes(f, key, xs) && FeatureDenotes(g, key, ys)
    ensures FeatureDenotes(JoinFeature(f, g), key, xs + ys)
  {
    var j := JoinFeature(f, g);
    forall slot
      ensures SlotDenotes(RegisterAt(j, slot), key, slot, xs + ys)
    {
      SlotJoin(RegisterAt(f, slot), RegisterAt(g, slot), key, slot, xs, ys);
      assert RegisterAt(j, slot) == MergeSlot(RegisterAt(f, slot), RegisterAt(g, slot));
    }
    forall tag
      ensures tag in j.addTags <==> exists o :: o in xs + ys && Adds(o, key, tag)
      ensures tag in j.removedTags <==> exists o :: o in xs + ys && Names(o, key, tag)
    {
      assert forall o :: o in xs + ys <==> o in xs || o in ys;
    }
  }

  lemma JoinDenotes(a: Doc, b: Doc, xs: set<Op>, ys: set<Op>)
    requires Denotes(a, xs) && Denotes(b, ys)
    ensures Denotes(Joined(a, b), xs + ys)
  {
    hide JoinFeature, FeatureDenotes;
    var j := Joined(a, b);
    forall key
      ensures key in j <==> exists o :: o in xs + ys && o.key == key
    {
      assert forall o :: o in xs + ys <==> o in xs || o in ys;
    }
    forall key | key in j
      ensures FeatureDenotes(j[key], key, xs + ys)
    {
      EntryDenotes(a, key, xs);
      EntryDenotes(b, key, ys);
      FeatureJoin(Entry(a, key), Entry(b, key), key, xs, ys);
      JoinWithNothing(Entry(a, key));
    }
  }

  lemma JoinWithNothing(f: FeatureState)
    ensures JoinFeature(f, DEFAULT_FEATURE) == f
  {
    assert JoinParams(f.params, map[]) == f.params;
  }

  // ----- A set of operations that decides every slot denotes one document

  lemma SlotUnique(a: Option<Register>, b: Option<Register>, key: FeatureKey, slot: Slot, ops: set<Op>)
    requires Decided(ops)
    requires SlotDenotes(a, key, slot, ops) && SlotDenotes(b, key, slot, ops)
    ensures a == b
  {
    if a.Some? && b.Some? {
      var v :| v in ops && Writes(v, key, slot) && Write(v, slot) == a;
      var w :| w in ops && Writes(w, key, slot) && Write(w, slot) == b;
      assert Unbeaten(v, key, slot, ops) && Unbeaten(w, key, slot, ops);
    }
  }

  lemma FeatureUnique(f: FeatureState, g: FeatureState, key: FeatureKey, ops: set<Op>)
    requires Decided(ops)
    requires FeatureDenotes(f, key, ops) && FeatureDenotes(g, key, ops)
    ensures f == g
  {
    forall slot
      ensures RegisterAt(f, slot) == RegisterAt(g, slot)
    {
      SlotUnique(RegisterAt(f, slot), RegisterAt(g, slot), key, slot, ops);
    }
    assert f.addTags == g.addTags;
    assert f.removedTags == g.removedTags;
    SameFeature(f, g);
  }

  lemma DenotationUnique(a: Doc, b: Doc, ops: set<Op>)
    requires Decided(ops)
    requires Denotes(a, ops) && Denotes(b, ops)
    ensures a == b
  {
    assert a.Keys == b.Keys;
    forall key | key in a
      ensures a[key] == b[key]
    {
      FeatureUnique(a[key], b[key], key, ops);
    }
  }

  // ----- The laws the documentation promises

  /** Two op sequences with the same set of ops give the same document, in any order and with any repetition. */
  lemma OrderAndRepetitionIrrelevant(xs: seq<Op>, ys: seq<Op>)
    requires SetOf(xs) == SetOf(ys) && Decided(SetOf(xs))
    ensures Replayed(map[], xs) == Replayed(map[], ys)
  {
    ReplayDenotes(map[], {}, xs);
    ReplayDenotes(map[], {}, ys);
    assert {} + SetOf(xs) == SetOf(xs);
    assert {} + SetOf(ys) == SetOf(ys);
    DenotationUnique(Replayed(map[], xs), Replayed(map[], ys), SetOf(xs));
  }

  /** What was written first stays when nothing later has a later stamp. */
  lemma {:induction false} UnbeatenStays(doc: Doc, key: FeatureKey, slot: Slot, ops: seq<Op>)
    requires RegisterAt(Entry(doc, key), slot).Some?
    requires forall op | op in ops && Writes(op, key, slot) ::
               !Less(RegisterAt(Entry(doc, key), slot).value.clock, Write(op, slot).value.clock)
    ensures RegisterAt(Entry(Replayed(doc, ops), key), slot) == RegisterAt(Entry(doc, key), slot)
    decreases |ops|
  {
    if ops != [] {
      var op := ops[0];
      var f, g := Entry(doc, key), Entry(Applied(doc, op), key);
      assert g == if op.key == key then ApplyToFeature(f, op) else f;
      assert RegisterAt(g, slot) == if Writes(op, key, slot) then MergeSlot(RegisterAt(f, slot), Write(op, slot)) else RegisterAt(f, slot);
      UnbeatenStays(Applied(doc, op), key, slot, ops[1..]);
    }
  }

  lemma FirstWriteWins(op: Op, key: FeatureKey, slot: Slot, ops: seq<Op>)
    requires Unbeaten(op, key, slot, SetOf(ops))
    ensures SetOf([op] + ops) == SetOf(ops)
    ensures RegisterAt(Entry(Replayed(map[], [op] + ops), key), slot) == Write(op, slot)
  {
    assert ([op] + ops)[1..] == ops;
    assert RegisterAt(Entry(Applied(map[], op), key), slot) == Write(op, slot);
    UnbeatenStays(Applied(map[], op), key, slot, ops);
  }

  ghost predicate OrderIrrelevant(xs: seq<Op>) {
    forall ys | SetOf(ys) == SetOf(xs) :: Replayed(map[], ys) == Replayed(map[], xs)
  }

  lemma OrderIrrelevantDecides(xs: seq<Op>)
    requires OrderIrrelevant(xs)
    ensures Decided(SetOf(xs))
  {
    hide Unbeaten, Replayed, SetOf;
    forall o, p, key, slot | Unbeaten(o, key, slot, SetOf(xs)) && Unbeaten(p, key, slot, SetOf(xs))
      ensures Write(o, slot) == Write(p, slot)
    {
      FirstWriteWins(o, key, slot, xs);
      FirstWriteWins(p, key, slot, xs);
    }
  }

  /** Order and repetition never matter exactly when the operations decide every slot. */
  lemma OrderIrrelevantIff(xs: seq<Op>)
    ensures OrderIrrelevant(xs) <==> Decided(SetOf(xs))
  {
    if Decided(SetOf(xs)) {
      forall ys | SetOf(ys) == SetOf(xs)
        ensures Replayed(map[], ys) == Replayed(map[], xs)
      {
        OrderAndRepetitionIrrelevant(xs, ys);
      }
    }
    if OrderIrrelevant(xs) {
      OrderIrrelevantDecides(xs);
    }
  }

  /** State-based merge agrees with op-based replay of both histories, in either order. */
  lemma MergeIsReplayOfBoth(xs: seq<Op>, ys: seq<Op>)
    requires Decided(SetOf(xs) + SetOf(ys))
    ensures Joined(Replayed(map[], xs), Replayed(map[], ys)) == Replayed(map[], xs + ys) == Replayed(map[], ys + xs)
  {
    hide Joined, Denotes, Decided, Replayed;
    ReplayDenotes(map[], {}, xs);
    ReplayDenotes(map[], {}, ys);
    ReplayDenotes(map[], {}, xs + ys);
    ReplayDenotes(map[], {}, ys + xs);
    var all := SetOf(xs) + SetOf(ys);
    assert {} + SetOf(xs) == SetOf(xs);
    assert {} + SetOf(ys) == SetOf(ys);
    assert {} + SetOf(xs + ys) == all;
    assert {} + SetOf(ys + xs) == all;
    JoinDenotes(Replayed(map[], xs), Replayed(map[], ys), SetOf(xs), SetOf(ys));
    DenotationUnique(Joined(Replayed(map[], xs), Replayed(map[], ys)), Replayed(map[], xs + ys), all);
    DenotationUnique(Replayed(map[], xs + ys), Replayed(map[], ys + xs), all);
  }

  /** Two documents hold different registers with the same stamp somewhere. */
  ghost predicate Conflict(a: Doc, b: Doc) {
    exists key, slot :: SlotConflict(RegisterAt(Entry(a, key), slot), RegisterAt(Entry(b, key), slot))
  }

  ghost predicate SlotConflict(r: Option<Register>, t: Option<Register>) {
    r.Some? && t.Some? && r != t && r.value.clock == t.value.clock
  }

  lemma SlotLaws(r: Option<Register>, t: Option<Register>, w: Option<Register>)
    ensures MergeSlot(MergeSlot(r, t), w) == MergeSlot(r, MergeSlot(t, w)) && MergeSlot(r, r) == r
    ensures MergeSlot(r, t) == MergeSlot(t, r) <==> !SlotConflict(r, t)
  {
    if r.Some? && t.Some? {
      CompareIsTotalOrder(r.value.clock, t.value.clock, r.value.clock);
      if w.Some? {
        CompareIsTotalOrder(r.value.clock, t.value.clock, w.value.clock);
      }
    }
  }

  lemma JoinedSlot(f: FeatureState, g: FeatureState, slot: Slot)
    ensures RegisterAt(JoinFeature(f, g), slot) == MergeSlot(RegisterAt(f, slot), RegisterAt(g, slot))
  {
  }

  lemma JoinedEntry(a: Doc, b: Doc, key: FeatureKey)
    ensures Entry(Joined(a, b), key) == JoinFeature(Entry(a, key), Entry(b, key))
  {
    JoinWithNothing(Entry(a, key));
    JoinWithNothing(DEFAULT_FEATURE);
  }

  lemma SameFeature(f: FeatureState, g: FeatureState)
    requires f.addTags == g.addTags && f.removedTags == g.removedTags
    requires forall slot :: RegisterAt(f, slot) == RegisterAt(g, slot)
    ensures f == g
  {
    assert f.kind == RegisterAt(f, Kind) == RegisterAt(g, Kind) == g.kind;
    assert f.position == RegisterAt(f, Position) == RegisterAt(g, Position) == g.position;
    assert f.params == g.params by {
      forall name
        ensures Param(f, name) == Param(g, name)
      {
        assert RegisterAt(f, Parameter(name)) == RegisterAt(g, Parameter(name));
      }
      assert forall name :: (name in f.params <==> Param(f, name).Some?) && (name in g.params <==> Param(g, name).Some?);
      assert forall name | name in f.params :: Param(f, name).value == f.params[name];
    }
  }

  lemma SameDoc(a: Doc, b: Doc)
    requires a.Keys == b.Keys && forall key | key in a :: Entry(a, key) == Entry(b, key)
    ensures a == b
  {
    forall key | key in a
      ensures a[key] == b[key]
    {
      assert Entry(a, key) == Entry(b, key);
    }
  }

  lemma FeatureLaws(f: FeatureState, g: FeatureState, h: FeatureState)
    ensures JoinFeature(JoinFeature(f, g), h) == JoinFeature(f, JoinFeature(g, h)) && JoinFeature(f, f) == f
    ensures JoinFeature(f, g) == JoinFeature(g, f)
            <==> forall slot :: !SlotConflict(RegisterAt(f, slot), RegisterAt(g, slot))
  {
    forall slot
      ensures RegisterAt(JoinFeature(JoinFeature(f, g), h), slot) == RegisterAt(JoinFeature(f, JoinFeature(g, h)), slot)
      ensures RegisterAt(JoinFeature(f, f), slot) == RegisterAt(f, slot)
      ensures RegisterAt(JoinFeature(f, g), slot) == RegisterAt(JoinFeature(g, f), slot)
              <==> !SlotConflict(RegisterAt(f, slot), RegisterAt(g, slot))
    {
      JoinedSlot(f, g, slot);
      JoinedSlot(g, h, slot);
      JoinedSlot(g, f, slot);
      JoinedSlot(f, f, slot);
      JoinedSlot(JoinFeature(f, g), h, slot);
      JoinedSlot(f, JoinFeature(g, h), slot);
      SlotLaws(RegisterAt(f, slot), RegisterAt(g, slot), RegisterAt(h, slot));
    }
    SameFeature(JoinFeature(JoinFeature(f, g), h), JoinFeature(f, JoinFeature(g, h)));
    SameFeature(JoinFeature(f, f), f);
    if forall slot :: !SlotConflict(RegisterAt(f, slot), RegisterAt(g, slot)) {
      SameFeature(JoinFeature(f, g), JoinFeature(g, f));
    }
  }

  lemma EntryLaws(a: Doc, b: Doc, c: Doc, key: FeatureKey)
    ensures Entry(Joined(Joined(a, b), c), key) == Entry(Joined(a, Joined(b, c)), key)
    ensures Entry(Joined(a, a), key) == Entry(a, key)
    ensures Entry(Joined(a, b), key) == Entry(Joined(b, a), key)
            <==> forall slot :: !SlotConflict(RegisterAt(Entry(a, key), slot), RegisterAt(Entry(b, key), slot))
  {
    JoinedEntry(a, b, key);
    JoinedEntry(b, a, key);
    JoinedEntry(b, c, key);
    JoinedEntry(a, a, key);
    JoinedEntry(Joined(a, b), c, key);
    JoinedEntry(a, Joined(b, c), key);
    hide Entry, Joined, JoinFeature, RegisterAt, SlotConflict;
    FeatureLaws(Entry(a, key), Entry(b, key), Entry(c, key));
  }

  lemma JoinedKeys(a: Doc, b: Doc)
    ensures Joined(a, b).Keys == a.Keys + b.Keys
  {
  }

  lemma MergeAssociates(a: Doc, b: Doc, c: Doc)
    ensures Joined(Joined(a, b), c) == Joined(a, Joined(b, c))
  {
    JoinedKeys(a, b);
    JoinedKeys(b, c);
    JoinedKeys(Joined(a, b), c);
    JoinedKeys(a, Joined(b, c));
    hide Entry, Joined;
    forall key
      ensures Entry(Joined(Joined(a, b), c), key) == Entry(Joined(a, Joined(b, c)), key)
    {
      EntryLaws(a, b, c, key);
    }
    SameDoc(Joined(Joined(a, b), c), Joined(a, Joined(b, c)));
  }

  lemma MergeCommutesIff(a: Doc, b: Doc)
    ensures Joined(a, b) == Joined(b, a) <==> !Conflict(a, b)
  {
    JoinedKeys(a, b);
    JoinedKeys(b, a);
    hide Entry, Joined, RegisterAt, SlotConflict;
    forall key
      ensures Entry(Joined(a, b), key) == Entry(Joined(b, a), key)
              <==> forall slot :: !SlotConflict(RegisterAt(Entry(a, key), slot), RegisterAt(Entry(b, key), slot))
    {
      EntryLaws(a, b, a, key);
    }
    if !Conflict(a, b) {
      SameDoc(Joined(a, b), Joined(b, a));
    }
  }

  lemma MergeIsIdempotent(a: Doc)
    ensures Joined(a, a) == a
  {
    JoinedKeys(a, a);
    hide Entry, Joined;
    forall key
      ensures Entry(Joined(a, a), key) == Entry(a, key)
    {
      EntryLaws(a, a, a, key);
    }
    SameDoc(Joined(a, a), a);
  }

  /** Merge is associative and idempotent on all documents, and commutes exactly when the two hold no different registers
    with the same stamp. */
  lemma MergeIsASemilattice(a: Doc, b: Doc, c: Doc)
    ensures Joined(Joined(a, b), c) == Joined(a, Joined(b, c)) && Joined(a, a) == a
    ensures Joined(a, b) == Joined(b, a) <==> !Conflict(a, b)
  {
    MergeAssociates(a, b, c);
    MergeIsIdempotent(a);
    MergeCommutesIff(a, b);
  }

  /** Documents of operations without ties do not conflict. */
  lemma NoTiesNoConflict(a: Doc, b: Doc, xs: set<Op>, ys: set<Op>)
    requires Denotes(a, xs) && Denotes(b, ys) && NoTies(xs + ys)
    ensures !Conflict(a, b)
  {
    forall key, slot
      ensures !SlotConflict(RegisterAt(Entry(a, key), slot), RegisterAt(Entry(b, key), slot))
    {
      EntryDenotes(a, key, xs);
      EntryDenotes(b, key, ys);
      var r, t := RegisterAt(Entry(a, key), slot), RegisterAt(Entry(b, key), slot);
      if r.Some? && t.Some? {
        var o :| o in xs && Writes(o, key, slot) && Write(o, slot) == r;
        var p :| p in ys && Writes(p, key, slot) && Write(p, slot) == t;
        assert o in xs + ys && p in xs + ys;
        assert r.value.clock == t.value.clock ==> Tied(o, p, key, slot);
      }
    }
  }

  /** Applying an operation is merging with the one-operation document; no hypothesis is needed. */
  lemma ApplyIsMergeWithDelta(doc: Doc, op: Op)
    ensures Applied(doc, op) == Joined(doc, Applied(map[], op))
  {
    var delta := Applied(map[], op);
    var f := Entry(doc, op.key);
    assert Joined(doc, delta).Keys == Applied(doc, op).Keys;
    assert JoinParams(f.params, delta[op.key].params) == ApplyToFeature(f, op).params;
    assert JoinFeature(f, delta[op.key]) == ApplyToFeature(f, op);
  }

  /** Ties do occur without unique stamps, and then the laws fail: `merge` keeps its own value on a tie, so two replicas end up different. */
  lemma EqualStampsDiverge(key: FeatureKey, name: string, clock: Stamp, v: ParamValue, w: ParamValue)
    requires v != w
    ensures var o, p := SetParam(key, name, v, clock), SetParam(key, name, w, clock);
            Replayed(map[], [o, p]) != Replayed(map[], [p, o])
  {
    var o, p := SetParam(key, name, v, clock), SetParam(key, name, w, clock);
    assert Replayed(map[], [o, p]) == Applied(Applied(map[], o), p) by {
      assert [o, p][1..] == [p];
      assert Replayed(Applied(map[], o), [p]) == Applied(Applied(map[], o), p);
    }
    assert Replayed(map[], [p, o]) == Applied(Applied(map[], p), o) by {
      assert [p, o][1..] == [o];
      assert Replayed(Applied(map[], p), [o]) == Applied(Applied(map[], p), o);
    }
    assert Applied(Applied(map[], o), p)[key].params[name].value == v;
    assert Applied(Applied(map[], p), o)[key].params[name].value == w;
  }

  // ----- Observed-remove membership

  ghost predicate Live(doc: Doc, key: FeatureKey) {
    key in doc && doc[key].Exists()
  }

  /** An add that no remove names. */
  ghost predicate Surviving(op: Op, key: FeatureKey, ops: set<Op>) {
    op in ops && op.AddFeature? && op.key == key && forall r | r in ops :: !Names(r, key, op.tag)
  }

  /** A feature is live iff some add of it is named by no remove, even when the remove was delivered first. */
  lemma LiveIffAnAddSurvives(doc: Doc, ops: set<Op>, key: FeatureKey)
    requires Denotes(doc, ops)
    ensures Live(doc, key) <==> exists op :: Surviving(op, key, ops)
  {
    if Live(doc, key) {
      var f := doc[key];
      var tag :| tag in f.addTags - f.removedTags;
      var op :| op in ops && Adds(op, key, tag);
      assert Surviving(op, key, ops);
    }
    if op :| Surviving(op, key, ops) {
      assert key in doc;
      assert Adds(op, key, op.tag);
      assert op.tag in doc[key].addTags;
      assert op.tag !in doc[key].removedTags;
      assert op.tag in doc[key].addTags - doc[key].removedTags;
    }
  }

  /** A local remove kills the feature, and only the adds it has seen: later deliveries revive it iff they bring a new add. */
  lemma RemoveKillsExactlyWhatItSaw(doc: Doc, known: set<Op>, key: FeatureKey, tags: seq<Stamp>, more: set<Op>, later: Doc)
    requires Denotes(doc, known) && SetOf(tags) == Entry(doc, key).addTags
    requires Denotes(later, known + {RemoveFeature(key, tags)} + more)
    ensures !Live(Applied(doc, RemoveFeature(key, tags)), key)
    ensures Live(later, key) <==>
            exists op :: op !in known && Surviving(op, key, known + {RemoveFeature(key, tags)} + more)
  {
    var remove := RemoveFeature(key, tags);
    var all := known + {remove} + more;
    EntryDenotes(doc, key, known);
    LiveIffAnAddSurvives(later, all, key);
    forall op | op in known && op.AddFeature? && op.key == key
      ensures !Surviving(op, key, all)
    {
      assert Adds(op, key, op.tag);
      assert op.tag in SetOf(tags);
      assert remove in all && Names(remove, key, op.tag);
    }
  }

  /** An add whose tag is known changes nothing, whatever else it says: its registers are not newer. */
  lemma RepeatedAddChangesNothing(f: FeatureState, op: Op, known: Op, ops: set<Op>)
    requires op.AddFeature? && FeatureDenotes(f, op.key, ops) && known in ops && Adds(known, op.key, op.tag)
    ensures ApplyToFeature(f, op) == f
  {
    assert SlotDenotes(RegisterAt(f, Kind), op.key, Kind, ops) && SlotDenotes(RegisterAt(f, Position), op.key, Position, ops);
    assert Writes(known, op.key, Kind) && Writes(known, op.key, Position);
    assert f.addTags + {op.tag} == f.addTags;
  }

  /** `apply` answers whether the document changed, except for one call: a remove that names no tag of an unknown feature. */
  lemma ReportedChange(doc: Doc, ops: set<Op>, op: Op)
    requires Denotes(doc, ops)
    ensures ReportsChange(doc, op) == (Applied(doc, op) != doc)
        <==> !(op.RemoveFeature? && op.key !in doc && op.observedTags == [])
  {
    var f := Entry(doc, op.key);
    EntryDenotes(doc, op.key, ops);
    if op.AddFeature? && op.tag in f.addTags {
      var o :| o in ops && Adds(o, op.key, op.tag);
      assert op.key in doc;
      RepeatedAddChangesNothing(f, op, o, ops);
      assert Applied(doc, op) == doc;
    } else if op.key in doc {
      assert Applied(doc, op) == doc <==> ApplyToFeature(f, op) == f by {
        assert Applied(doc, op)[op.key] == ApplyToFeature(f, op);
        assert ApplyToFeature(f, op) == f ==> Applied(doc, op) == doc;
      }
      if op.RemoveFeature? {
        assert ReportsChange(doc, op) <==> !(SetOf(op.observedTags) <= f.removedTags);
        assert ApplyToFeature(f, op).removedTags == f.removedTags + SetOf(op.observedTags);
        assert SetOf(op.observedTags) <= f.removedTags ==> f.removedTags + SetOf(op.observedTags) == f.removedTags;
      }
    } else {
      assert op.key in Applied(doc, op);
      if op.RemoveFeature? && op.observedTags != [] {
        assert op.observedTags[0] in op.observedTags;
      }
    }
  }

  /** The failing case: removing the unknown feature 3 by naming no tag adds an empty entry, and no change is reported. */
  lemma EmptyRemoveGoesUnreported()
    ensures Denotes(map[], {})
    ensures !ReportsChange(map[], RemoveFeature(3, []))
    ensures Applied(map[], RemoveFeature(3, [])) == map[3 := DEFAULT_FEATURE]
  {
    var doc: Doc := map[];
    var none: seq<Stamp> := [];
    assert SetOf(none) == {};
    assert ApplyToFeature(DEFAULT_FEATURE, RemoveFeature(3, [])) == DEFAULT_FEATURE;
    assert Applied(doc, RemoveFeature(3, [])) == map[3 := DEFAULT_FEATURE];
  }
}
