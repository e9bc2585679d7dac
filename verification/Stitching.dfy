/** Stitching segments into closed contours by matching endpoints
  (`stitch_segments` of tpt-vertex-slicer/src/layers.rs). */
module Stitching {
  import opened Options
  import opened Planar
  import opened Magnitudes

  datatype Seg = Seg(a: P2, b: P2)

  /** Within the joining tolerance of 1e-6, compared by squares. */
  predicate Close(p: P2, q: P2) {
    Gap(p, q) <= 0.000000000001
  }

  const TOLERANCE: real := 0.000001

  /** Close points differ by at most 1e-6 along each axis; points that differ by at most 1e-6 in all are close. */
  lemma CloseAlongAxes(p: P2, q: P2)
    ensures Close(p, q) ==> Size(p.x - q.x) <= TOLERANCE && Size(p.y - q.y) <= TOLERANCE
    ensures Size(p.x - q.x) + Size(p.y - q.y) <= TOLERANCE ==> Close(p, q)
  {
    var u, v := Size(p.x - q.x), Size(p.y - q.y);
    assert TOLERANCE * TOLERANCE == 0.000000000001 && Gap(p, q) == u * u + v * v;
    SquareNotNegative(u);
    SquareNotNegative(v);
    if u > TOLERANCE {
      GrowsStrictly(TOLERANCE, u);
    }
    if v > TOLERANCE {
      GrowsStrictly(TOLERANCE, v);
    }
    if u + v <= TOLERANCE {
      SquareOfSum(u, v, 0.0);
      Grows(u + v, TOLERANCE);
    }
  }

  predicate Touches(s: Seg, p: P2) {
    s.a == p || s.b == p
  }

  /** The segment leads from (near) `from` to its other end. */
  predicate Joins(s: Seg, from: P2, far: P2) {
    if Close(s.a, from) then far == s.b else Close(s.b, from) && far == s.a
  }

  predicate NoRepeats<T(==)>(s: seq<T>) {
    forall i, j | 0 <= i < j < |s| :: s[i] != s[j]
  }

  predicate InRange(chain: seq<nat>, n: nat) {
    forall k | 0 <= k < |chain| :: chain[k] < n
  }

  // ----- What a walk has done

  /** A walk under way: `chain` lists the segments used, `pts` the points visited. */
  ghost predicate Walk(segs: seq<Seg>, chain: seq<nat>, pts: seq<P2>) {
    && |pts| == |chain| + 1 >= 2 && InRange(chain, |segs|) && NoRepeats(chain)
    && segs[chain[0]] == Seg(pts[0], pts[1])
    && forall k | 1 <= k < |chain| :: Joins(segs[chain[k]], pts[k], pts[k + 1])
  }

  /** A finished walk whose last segment led back to (near) the first point. */
  ghost predicate ClosedWalk(segs: seq<Seg>, chain: seq<nat>, pts: seq<P2>) {
    exists back: P2 :: Walk(segs, chain, pts + [back]) && Close(back, pts[0])
  }

  function Next(k: nat, n: nat): (j: nat)
    requires k < n
    ensures j < n
  {
    if k + 1 == n then 0 else k + 1
  }

  predicate Spans(s: Seg, p: P2, q: P2) {
    (s.a == p && s.b == q) || (s.a == q && s.b == p)
  }

  /** A simple closed polygon: distinct points, and each side exactly one of the segments, all different. */
  ghost predicate Cycle(segs: seq<Seg>, chain: seq<nat>, pts: seq<P2>) {
    && |pts| == |chain| >= 3 && InRange(chain, |segs|) && NoRepeats(chain) && NoRepeats(pts)
    && forall k | 0 <= k < |chain| :: Spans(segs[chain[k]], pts[k], pts[Next(k, |pts|)])
  }

  // ----- Segments that belong to closed curves

  ghost predicate IsEnd(segs: seq<Seg>, p: P2) {
    exists i :: 0 <= i < |segs| && Touches(segs[i], p)
  }

  /** Different endpoints are further apart than the tolerance. */
  ghost predicate Distinguished(segs: seq<Seg>) {
    forall p, q | IsEnd(segs, p) && IsEnd(segs, q) && Close(p, q) :: p == q
  }

  /** Every endpoint is the end of some other segment too, but never of three. */
  ghost predicate Paired(segs: seq<Seg>) {
    && (forall i, p | 0 <= i < |segs| && Touches(segs[i], p) :: HasPartner(segs, i, p))
    && (forall i, j, k, p | 0 <= i < |segs| && 0 <= j < |segs| && 0 <= k < |segs| && Touches(segs[i], p)
          && Touches(segs[j], p) && Touches(segs[k], p) :: i == j || j == k || i == k)
  }

  ghost predicate HasPartner(segs: seq<Seg>, i: nat, p: P2) {
    exists j :: 0 <= j < |segs| && j != i && Touches(segs[j], p)
  }

  /** No segment is a point, and no two have both ends in common. */
  ghost predicate Proper(segs: seq<Seg>) {
    && (forall i | 0 <= i < |segs| :: segs[i].a != segs[i].b)
    && forall i, j | 0 <= i < |segs| && 0 <= j < |segs| && Touches(segs[j], segs[i].a) && Touches(segs[j], segs[i].b) :: i == j
  }

  ghost predicate Matched(segs: seq<Seg>) {
    Distinguished(segs) && Paired(segs) && Proper(segs)
  }

  /** Segments that touch a used one are used. */
  ghost predicate Saturated(segs: seq<Seg>, used: set<nat>) {
    forall i, j, p | i in used && i < |segs| && 0 <= j < |segs| && Touches(segs[i], p) && Touches(segs[j], p) :: j in used
  }

  function Members(chain: seq<nat>): set<nat> {
    set i | i in chain
  }

  lemma CloseToItself(p: P2)
    ensures Close(p, p)
  {
  }

  lemma EndOf(segs: seq<Seg>, i: nat, p: P2)
    requires i < |segs| && Touches(segs[i], p)
    ensures IsEnd(segs, p)
  {
  }

  /** Among distinguished endpoints, joining is meeting exactly. */
  lemma JoinsExactly(segs: seq<Seg>, i: nat, from: P2, far: P2)
    requires Distinguished(segs) && i < |segs| && IsEnd(segs, from) && Joins(segs[i], from, far)
    ensures Spans(segs[i], from, far) && IsEnd(segs, far)
  {
    hide Close;
    EndOf(segs, i, segs[i].a);
    EndOf(segs, i, segs[i].b);
  }

  /** The points of a walk among distinguished segments are met exactly. */
  lemma {:induction false} WalkSpans(segs: seq<Seg>, chain: seq<nat>, pts: seq<P2>, k: nat)
    requires Distinguished(segs) && Walk(segs, chain, pts) && k < |chain|
    ensures Spans(segs[chain[k]], pts[k], pts[k + 1]) && IsEnd(segs, pts[k]) && IsEnd(segs, pts[k + 1])
  {
    hide Close;
    if k == 0 {
      EndOf(segs, chain[0], pts[0]);
      EndOf(segs, chain[0], pts[1]);
    } else {
      WalkSpans(segs, chain, pts, k - 1);
      JoinsExactly(segs, chain[k], pts[k], pts[k + 1]);
    }
  }

  // ----- A walk among matched segments

  /** The walk so far runs over new segments and distinct points. */
  ghost predicate Underway(segs: seq<Seg>, used: set<nat>, chain: seq<nat>, pts: seq<P2>) {
    Matched(segs) && Saturated(segs, used) && Walk(segs, chain, pts) && NoRepeats(pts) && Members(chain) !! used
  }

  lemma PartnerOf(segs: seq<Seg>, i: nat, p: P2)
    requires Paired(segs) && i < |segs| && Touches(segs[i], p)
    ensures HasPartner(segs, i, p)
  {
  }

  /** Of the segments of a walk only the last one meets the last point. */
  lemma OnlyLastTouches(segs: seq<Seg>, chain: seq<nat>, pts: seq<P2>, i: nat)
    requires Distinguished(segs) && Walk(segs, chain, pts) && NoRepeats(pts) && i in chain
    requires i < |segs| && Touches(segs[i], pts[|pts| - 1])
    ensures i == chain[|chain| - 1]
  {
    hide Close, Joins, Distinguished;
    var k :| 0 <= k < |chain| && chain[k] == i;
    WalkSpans(segs, chain, pts, k);
  }

  /** It can always go on: the partner of the last segment at its far end is still unused. */
  lemma NeverStuck(segs: seq<Seg>, used: set<nat>, chain: seq<nat>, pts: seq<P2>) returns (i: nat)
    requires Underway(segs, used, chain, pts)
    ensures i < |segs| && i !in used && i !in chain && Touches(segs[i], pts[|pts| - 1])
  {
    hide Close, Joins, Distinguished, Proper, Paired;
    var last, tail := chain[|chain| - 1], pts[|pts| - 1];
    WalkSpans(segs, chain, pts, |chain| - 1);
    PartnerOf(segs, last, tail);
    i :| 0 <= i < |segs| && i != last && Touches(segs[i], tail);
    assert last in Members(chain);
    if i in chain {
      OnlyLastTouches(segs, chain, pts, i);
    }
  }

  lemma AtMostTwo(segs: seq<Seg>, i: nat, j: nat, k: nat, p: P2)
    requires Paired(segs) && i < |segs| && j < |segs| && k < |segs|
    requires Touches(segs[i], p) && Touches(segs[j], p) && Touches(segs[k], p)
    ensures i == j || j == k || i == k
  {
  }

  /** An inner point of a walk is already met by two different segments. */
  lemma InnerPoint(segs: seq<Seg>, chain: seq<nat>, pts: seq<P2>, j: nat)
    requires Distinguished(segs) && Walk(segs, chain, pts) && 1 <= j < |chain|
    ensures Touches(segs[chain[j - 1]], pts[j]) && Touches(segs[chain[j]], pts[j]) && chain[j - 1] != chain[j]
  {
    hide Close, Joins, Distinguished;
    WalkSpans(segs, chain, pts, j - 1);
    WalkSpans(segs, chain, pts, j);
  }

  lemma InnerTouchersUsed(segs: seq<Seg>, chain: seq<nat>, pts: seq<P2>, i: nat, j: nat)
    requires Distinguished(segs) && Paired(segs) && Walk(segs, chain, pts) && 1 <= j < |chain|
    requires i < |segs| && Touches(segs[i], pts[j])
    ensures i in chain
  {
    hide Close, Joins, Distinguished, Paired;
    InnerPoint(segs, chain, pts, j);
    AtMostTwo(segs, chain[j - 1], chain[j], i, pts[j]);
    assert chain[j - 1] in chain && chain[j] in chain;
  }

  /** It never meets one of its inner points again. */
  lemma NeverCrosses(segs: seq<Seg>, used: set<nat>, chain: seq<nat>, pts: seq<P2>, i: nat, far: P2)
    requires Underway(segs, used, chain, pts) && i < |segs| && i !in chain && Joins(segs[i], pts[|pts| - 1], far)
    ensures far == pts[0] || far !in pts
  {
    hide Close, Joins, Distinguished, Paired;
    WalkSpans(segs, chain, pts, |chain| - 1);
    JoinsExactly(segs, i, pts[|pts| - 1], far);
    if far in pts && far != pts[0] {
      var j :| 0 <= j < |pts| && pts[j] == far;
      assert j < |chain| by {
        assert segs[i].a != segs[i].b;
      }
      InnerTouchersUsed(segs, chain, pts, i, j);
    }
  }

  lemma WalkExtends(segs: seq<Seg>, chain: seq<nat>, pts: seq<P2>, i: nat, far: P2)
    requires Walk(segs, chain, pts) && i < |segs| && i !in chain && Joins(segs[i], pts[|pts| - 1], far)
    ensures Walk(segs, chain + [i], pts + [far])
  {
    var chain', pts' := chain + [i], pts + [far];
    forall k | 1 <= k < |chain'|
      ensures Joins(segs[chain'[k]], pts'[k], pts'[k + 1])
    {
    }
  }

  lemma ReturnsExactly(segs: seq<Seg>, chain: seq<nat>, pts: seq<P2>, i: nat, far: P2)
    requires Distinguished(segs) && Walk(segs, chain, pts) && i < |segs|
    requires Joins(segs[i], pts[|pts| - 1], far) && Close(far, pts[0])
    ensures far == pts[0] && Spans(segs[i], pts[|pts| - 1], pts[0])
  {
    hide Close, Joins;
    WalkSpans(segs, chain, pts, 0);
    WalkSpans(segs, chain, pts, |chain| - 1);
    JoinsExactly(segs, i, pts[|pts| - 1], far);
  }

  lemma NotBackAtOnce(segs: seq<Seg>, chain: seq<nat>, pts: seq<P2>, i: nat)
    requires Proper(segs) && Walk(segs, chain, pts) && i < |segs| && i !in chain && Spans(segs[i], pts[|pts| - 1], pts[0])
    ensures |pts| >= 3
  {
    hide Joins, Proper;
    if |pts| == 2 {
      SameEnds(segs, chain[0], i, pts[0], pts[1]);
    }
  }

  lemma SameEnds(segs: seq<Seg>, i: nat, j: nat, p: P2, q: P2)
    requires Proper(segs) && i < |segs| && j < |segs| && Spans(segs[i], p, q) && Spans(segs[j], q, p)
    ensures i == j
  {
    assert Touches(segs[j], segs[i].a) && Touches(segs[j], segs[i].b);
  }

  /** When it returns to its first point, it is a simple closed polygon of at least three sides. */
  lemma ClosesAsCycle(segs: seq<Seg>, used: set<nat>, chain: seq<nat>, pts: seq<P2>, i: nat, far: P2)
    requires Underway(segs, used, chain, pts) && i < |segs| && i !in chain
    requires Joins(segs[i], pts[|pts| - 1], far) && Close(far, pts[0])
    ensures Cycle(segs, chain + [i], pts)
  {
    hide Close, Joins, Distinguished, Paired, Proper, Spans;
    ReturnsExactly(segs, chain, pts, i, far);
    NotBackAtOnce(segs, chain, pts, i);
    forall k | 0 <= k < |chain| + 1
      ensures Spans(segs[(chain + [i])[k]], pts[k], pts[Next(k, |pts|)])
    {
      if k < |chain| {
        WalkSpans(segs, chain, pts, k);
      }
    }
  }

  /** A cycle leaves nothing that touches it unused. */
  lemma CycleSaturates(segs: seq<Seg>, used: set<nat>, chain: seq<nat>, pts: seq<P2>)
    requires Matched(segs) && Saturated(segs, used) && Cycle(segs, chain, pts)
    ensures Saturated(segs, used + Members(chain))
  {
    forall i, j, p | i in used + Members(chain) && i < |segs| && 0 <= j < |segs| && Touches(segs[i], p) && Touches(segs[j], p)
      ensures j in used + Members(chain)
    {
      if i !in used {
        var k :| 0 <= k < |chain| && chain[k] == i;
        TwoAtEachPoint(segs, chain, pts, k, p, j);
      }
    }
  }

  lemma TwoAtEachPoint(segs: seq<Seg>, chain: seq<nat>, pts: seq<P2>, k: nat, p: P2, j: nat)
    requires Paired(segs) && Cycle(segs, chain, pts) && k < |chain| && Touches(segs[chain[k]], p)
    requires j < |segs| && Touches(segs[j], p)
    ensures j in chain
  {
    var n := |pts|;
    assert Spans(segs[chain[k]], pts[k], pts[Next(k, n)]);
    var m := if p == pts[k] then (if k == 0 then n - 1 else k - 1) else Next(k, n);
    assert Spans(segs[chain[m]], pts[m], pts[Next(m, n)]);
    assert Touches(segs[chain[m]], p) && chain[m] != chain[k];
    assert chain[m] in chain && chain[k] in chain;
  }

  // ----- The program

  function Unused(used: seq<bool>): nat {
    if used == [] then 0 else Unused(used[1..]) + if used[0] then 0 else 1
  }

  lemma {:induction false} MarkingUses(used: seq<bool>, i: nat)
    requires i < |used| && !used[i]
    ensures Unused(used[i := true]) + 1 == Unused(used)
  {
    if i > 0 {
      MarkingUses(used[1..], i - 1);
      assert used[i := true][1..] == used[1..][i - 1 := true];
    } else {
      assert used[i := true][1..] == used[1..];
    }
  }

  function UsedSet(used: seq<bool>): set<nat> {
    set i | 0 <= i < |used| && used[i]
  }

  ghost predicate NothingNear(segs: seq<Seg>, used: seq<bool>, p: P2)
    requires |used| == |segs|
  {
    forall i | 0 <= i < |segs| && !used[i] :: !Close(segs[i].a, p) && !Close(segs[i].b, p)
  }

  /** The first unused segment with an end near `tail`, and its other end. */
  method FindNext(segs: seq<Seg>, used: array<bool>, tail: P2) returns (found: Option<nat>, far: P2)
    requires used.Length == |segs|
    ensures found.Some? ==> found.value < |segs| && !used[found.value] && Joins(segs[found.value], tail, far)
    ensures found.Some? ==> forall i | 0 <= i < found.value && !used[i] :: !Close(segs[i].a, tail) && !Close(segs[i].b, tail)
    ensures found.None? ==> NothingNear(segs, used[..], tail)
  {
    far := P2(0.0, 0.0);
    var i := 0;
    while i < |segs|
      invariant 0 <= i <= |segs|
      invariant forall j | 0 <= j < i && !used[j] :: !Close(segs[j].a, tail) && !Close(segs[j].b, tail)
    {
      if !used[i] {
        if Close(segs[i].a, tail) {
          return Some(i), segs[i].b;
        } else if Close(segs[i].b, tail) {
          return Some(i), segs[i].a;
        }
      }
      i := i + 1;
    }
    found := None;
  }

  /** How a walk ended: back near its first point, or with no unused segment near its last one. */
  ghost predicate Finished(segs: seq<Seg>, used: seq<bool>, chain: seq<nat>, pts: seq<P2>)
    requires |used| == |segs|
  {
    ClosedWalk(segs, chain, pts) || (Walk(segs, chain, pts) && NothingNear(segs, used, pts[|pts| - 1]))
  }

  /** Exactly the segments of `chain`, all new, have been marked. */
  ghost predicate Marked(before: seq<bool>, after: seq<bool>, chain: seq<nat>) {
    && |before| == |after| && InRange(chain, |before|)
    && (forall k | 0 <= k < |chain| :: !before[chain[k]])
    && forall i | 0 <= i < |after| :: after[i] == (before[i] || i in chain)
  }

  lemma StartUnderway(segs: seq<Seg>, used: seq<bool>, start: nat)
    requires start < |segs| == |used| && !used[start]
    ensures Walk(segs, [start], [segs[start].a, segs[start].b])
    ensures Matched(segs) && Saturated(segs, UsedSet(used)) ==>
              Underway(segs, UsedSet(used), [start], [segs[start].a, segs[start].b])
    ensures Marked(used, used[start := true], [start])
  {
    var pts := [segs[start].a, segs[start].b];
    assert Members([start]) == {start};
    if Proper(segs) {
      assert NoRepeats(pts);
    }
  }

  lemma StepUnderway(segs: seq<Seg>, before: seq<bool>, used: seq<bool>, chain: seq<nat>, pts: seq<P2>, i: nat, far: P2)
    requires |before| == |used| == |segs| && Walk(segs, chain, pts) && Marked(before, used, chain)
    requires i < |segs| && !used[i] && Joins(segs[i], pts[|pts| - 1], far) && !Close(far, pts[0])
    ensures Walk(segs, chain + [i], pts + [far])
    ensures Underway(segs, UsedSet(before), chain, pts) ==> Underway(segs, UsedSet(before), chain + [i], pts + [far])
  {
    hide Close, Joins, Matched, Saturated, Walk, UsedSet, Marked, NoRepeats, Members;
    NewSegment(before, used, chain, i);
    WalkExtends(segs, chain, pts, i, far);
    CloseToItself(far);
    if Underway(segs, UsedSet(before), chain, pts) {
      NeverCrosses(segs, UsedSet(before), chain, pts, i, far);
      AppendKeeps(pts, far);
      WalkLengths(segs, chain, pts);
    }
  }

  lemma WalkLengths(segs: seq<Seg>, chain: seq<nat>, pts: seq<P2>)
    requires Walk(segs, chain, pts)
    ensures |pts| == |chain| + 1 >= 2
  {
  }

  lemma NewSegment(before: seq<bool>, used: seq<bool>, chain: seq<nat>, i: nat)
    requires Marked(before, used, chain) && i < |used| && !used[i]
    ensures i !in chain && i !in UsedSet(before) && Members(chain + [i]) == Members(chain) + {i}
  {
  }

  lemma AppendKeeps<T>(s: seq<T>, x: T)
    requires NoRepeats(s) && x !in s
    ensures NoRepeats(s + [x])
  {
  }

  lemma MarkedMore(before: seq<bool>, used: seq<bool>, chain: seq<nat>, i: nat)
    requires Marked(before, used, chain) && i < |used| && !used[i]
    ensures Marked(before, used[i := true], chain + [i])
  {
  }

  lemma EndsAsCycle(segs: seq<Seg>, before: seq<bool>, used: seq<bool>, chain: seq<nat>, pts: seq<P2>, i: nat, far: P2)
    requires |before| == |used| == |segs| && Walk(segs, chain, pts) && Marked(before, used, chain)
    requires i < |segs| && !used[i] && Joins(segs[i], pts[|pts| - 1], far) && Close(far, pts[0])
    ensures ClosedWalk(segs, chain + [i], pts)
    ensures Underway(segs, UsedSet(before), chain, pts) ==> Cycle(segs, chain + [i], pts)
  {
    WalkExtends(segs, chain, pts, i, far);
    if Underway(segs, UsedSet(before), chain, pts) {
      ClosesAsCycle(segs, UsedSet(before), chain, pts, i, far);
    }
  }

  lemma NotStuck(segs: seq<Seg>, before: seq<bool>, used: seq<bool>, chain: seq<nat>, pts: seq<P2>)
    requires |before| == |used| == |segs| && Marked(before, used, chain)
    requires Underway(segs, UsedSet(before), chain, pts)
    ensures !NothingNear(segs, used, pts[|pts| - 1])
  {
    var i := NeverStuck(segs, UsedSet(before), chain, pts);
    CloseToItself(pts[|pts| - 1]);
    assert !used[i];
  }

  /** One walk from an unused segment. Among matched segments it is a simple closed polygon. */
  method TraceLoop(segs: seq<Seg>, used: array<bool>, start: nat) returns (pts: seq<P2>, ghost chain: seq<nat>)
    requires used.Length == |segs| && start < |segs| && !used[start]
    modifies used
    ensures chain != [] && chain[0] == start && NoRepeats(chain) && Marked(old(used[..]), used[..], chain)
    ensures Finished(segs, used[..], chain, pts)
    ensures Matched(segs) && Saturated(segs, UsedSet(old(used[..]))) ==> Cycle(segs, chain, pts)
  {
    hide Close, Joins, Matched, Saturated, Walk, Cycle, UsedSet, NothingNear, Marked, Unused, ClosedWalk, Underway;
    ghost var before := used[..];
    ghost var good := Matched(segs) && Saturated(segs, UsedSet(before));
    StartUnderway(segs, before, start);
    used[start] := true;
    assert used[..] == before[start := true];
    pts := [segs[start].a, segs[start].b];
    chain := [start];
    while true
      invariant Walk(segs, chain, pts) && Marked(before, used[..], chain) && chain != [] && chain[0] == start
      invariant |pts| == |chain| + 1
      invariant good ==> Underway(segs, UsedSet(before), chain, pts)
      decreases Unused(used[..])
    {
      var found, far := FindNext(segs, used, pts[|pts| - 1]);
      if found.None? {
        if good {
          NotStuck(segs, before, used[..], chain, pts);
        }
        WalkParts(segs, chain, pts);
        return;
      }
      var i := found.value;
      ghost var was := used[..];
      MarkedMore(before, was, chain, i);
      MarkingUses(was, i);
      used[i] := true;
      assert used[..] == was[i := true];
      if Close(far, pts[0]) {
        EndsAsCycle(segs, before, was, chain, pts, i, far);
        chain := chain + [i];
        ClosedParts(segs, chain, pts);
        return;
      }
      StepUnderway(segs, before, was, chain, pts, i, far);
      chain := chain + [i];
      pts := pts + [far];
    }
  }

  lemma WalkParts(segs: seq<Seg>, chain: seq<nat>, pts: seq<P2>)
    requires Walk(segs, chain, pts)
    ensures NoRepeats(chain)
  {
  }

  lemma ClosedParts(segs: seq<Seg>, chain: seq<nat>, pts: seq<P2>)
    requires ClosedWalk(segs, chain, pts)
    ensures NoRepeats(chain)
  {
  }

  /** The chains run over exactly the used segments, each of them once. */
  ghost predicate Partition(chains: seq<seq<nat>>, used: seq<bool>) {
    && (forall i | 0 <= i < |used| :: used[i] <==> OnSome(chains, i))
    && (forall c | 0 <= c < |chains| :: NoRepeats(chains[c]))
    && (forall c, d | 0 <= c < d < |chains| :: Members(chains[c]) !! Members(chains[d]))
  }

  ghost predicate OnSome(chains: seq<seq<nat>>, i: nat) {
    exists c :: 0 <= c < |chains| && i in chains[c]
  }

  /** Every segment is on exactly one chain, once. */
  ghost predicate EachOnce(chains: seq<seq<nat>>, n: nat) {
    && (forall i | 0 <= i < n :: OnSome(chains, i))
    && (forall c | 0 <= c < |chains| :: NoRepeats(chains[c]))
    && (forall c, d | 0 <= c < d < |chains| :: Members(chains[c]) !! Members(chains[d]))
  }

  lemma PartitionMore(chains: seq<seq<nat>>, before: seq<bool>, used: seq<bool>, chain: seq<nat>)
    requires Partition(chains, before) && Marked(before, used, chain) && NoRepeats(chain)
    ensures Partition(chains + [chain], used)
  {
    var more := chains + [chain];
    forall i: nat | i < |used|
      ensures used[i] <==> OnSome(more, i)
    {
      if OnSome(chains, i) {
        var c :| 0 <= c < |chains| && i in chains[c];
        assert i in more[c];
      }
      if i in chain {
        assert i in more[|chains|];
      }
      if OnSome(more, i) {
        var c :| 0 <= c < |more| && i in more[c];
        assert c < |chains| ==> i in chains[c];
      }
    }
    forall c | 0 <= c < |chains|
      ensures Members(chains[c]) !! Members(chain)
    {
      ChainsApart(chains, before, used, chain, c);
    }
  }

  lemma ChainsApart(chains: seq<seq<nat>>, before: seq<bool>, used: seq<bool>, chain: seq<nat>, c: nat)
    requires Partition(chains, before) && Marked(before, used, chain) && c < |chains|
    ensures Members(chains[c]) !! Members(chain)
  {
    forall i | i in Members(chain)
      ensures i !in Members(chains[c])
    {
      var k :| 0 <= k < |chain| && chain[k] == i;
      assert !before[chain[k]];
      assert OnSome(chains, i) <==> before[i];
    }
  }

  lemma UsedGrows(before: seq<bool>, used: seq<bool>, chain: seq<nat>)
    requires Marked(before, used, chain)
    ensures UsedSet(used) == UsedSet(before) + Members(chain)
  {
  }

  ghost predicate AllCycles(segs: seq<Seg>, chains: seq<seq<nat>>, outlines: seq<seq<P2>>) {
    |chains| == |outlines| && forall c | 0 <= c < |chains| :: Cycle(segs, chains[c], outlines[c])
  }

  /** Every outline is a closed or an open walk over its chain. */
  ghost predicate AllWalks(segs: seq<Seg>, chains: seq<seq<nat>>, outlines: seq<seq<P2>>) {
    |chains| == |outlines| && forall c | 0 <= c < |chains| :: WalkOf(segs, chains[c], outlines[c])
  }

  ghost predicate WalkOf(segs: seq<Seg>, chain: seq<nat>, pts: seq<P2>) {
    ClosedWalk(segs, chain, pts) || Walk(segs, chain, pts)
  }

  /** The outlines of at least three points, in order. */
  function LongOnes(outlines: seq<seq<P2>>): seq<seq<P2>> {
    if outlines == [] then []
    else
      var last := outlines[|outlines| - 1];
      LongOnes(outlines[..|outlines| - 1]) + if |last| >= 3 then [last] else []
  }

  lemma LongOnesMore(outlines: seq<seq<P2>>, pts: seq<P2>)
    ensures LongOnes(outlines + [pts]) == LongOnes(outlines) + if |pts| >= 3 then [pts] else []
  {
    assert (outlines + [pts])[..|outlines|] == outlines;
  }

  lemma LoopAdded(segs: seq<Seg>, before: seq<bool>, used: seq<bool>, chains: seq<seq<nat>>, outlines: seq<seq<P2>>,
                  chain: seq<nat>, pts: seq<P2>)
    requires |before| == |used| == |segs| && Marked(before, used, chain) && Finished(segs, used, chain, pts)
    requires AllWalks(segs, chains, outlines)
    ensures AllWalks(segs, chains + [chain], outlines + [pts])
    ensures Matched(segs) && Saturated(segs, UsedSet(before)) && AllCycles(segs, chains, outlines) && Cycle(segs, chain, pts) ==>
              Saturated(segs, UsedSet(used)) && AllCycles(segs, chains + [chain], outlines + [pts]) && |pts| >= 3
  {
    hide Walk, ClosedWalk, NothingNear, Marked, Saturated, UsedSet;
    UsedGrows(before, used, chain);
    if Matched(segs) && Saturated(segs, UsedSet(before)) && Cycle(segs, chain, pts) {
      CycleSaturates(segs, UsedSet(before), chain, pts);
    }
  }

  /** Every segment is walked exactly once; outlines of fewer than three points are dropped. Among matched segments all
    outlines are kept, and each is a simple closed polygon. */
  method StitchSegments(segs: seq<Seg>)
    returns (contours: seq<seq<P2>>, ghost chains: seq<seq<nat>>, ghost outlines: seq<seq<P2>>)
    ensures EachOnce(chains, |segs|) && AllWalks(segs, chains, outlines) && contours == LongOnes(outlines)
    ensures Matched(segs) ==> AllCycles(segs, chains, contours)
  {
    var used := new bool[|segs|](_ => false);
    contours, chains, outlines := [], [], [];
    hide Matched, Saturated, Cycle, AllWalks, AllCycles, UsedSet, Partition, Marked, Finished, LongOnes;
    NothingUsed(segs, used[..]);
    var start := 0;
    while start < |segs|
      invariant 0 <= start <= |segs| && Partition(chains, used[..])
      invariant forall i | 0 <= i < start :: used[i]
      invariant AllWalks(segs, chains, outlines) && contours == LongOnes(outlines)
      invariant Matched(segs) ==> contours == outlines && Saturated(segs, UsedSet(used[..])) && AllCycles(segs, chains, outlines)
    {
      if !used[start] {
        ghost var before := used[..];
        ghost var chain: seq<nat>;
        var pts;
        pts, chain := TraceLoop(segs, used, start);
        PartitionMore(chains, before, used[..], chain);
        LoopAdded(segs, before, used[..], chains, outlines, chain, pts);
        LongOnesMore(outlines, pts);
        MarkedStays(before, used[..], chain);
        assert chain[0] == start;
        chains, outlines := chains + [chain], outlines + [pts];
        if |pts| >= 3 {
          contours := contours + [pts];
        }
      }
      start := start + 1;
    }
    AllUsed(chains, used[..]);
  }

  lemma NothingUsed(segs: seq<Seg>, used: seq<bool>)
    requires forall i | 0 <= i < |used| :: !used[i]
    ensures Partition([], used) && Saturated(segs, UsedSet(used)) && AllWalks(segs, [], []) && AllCycles(segs, [], [])
    ensures LongOnes([]) == []
  {
  }

  lemma MarkedStays(before: seq<bool>, used: seq<bool>, chain: seq<nat>)
    requires Marked(before, used, chain)
    ensures |used| == |before| && forall i | 0 <= i < |used| && (before[i] || i in chain) :: used[i]
  {
  }

  lemma AllUsed(chains: seq<seq<nat>>, used: seq<bool>)
    requires Partition(chains, used) && forall i | 0 <= i < |used| :: used[i]
    ensures EachOnce(chains, |used|)
  {
  }

  lemma SegmentAt(segs: seq<Seg>, chain: seq<nat>, pts: seq<P2>, p: P2) returns (i: nat, k: nat)
    requires Cycle(segs, chain, pts) && p in pts
    ensures k < |chain| && i == chain[k] && i < |segs| && Touches(segs[i], p)
  {
    k :| 0 <= k < |pts| && pts[k] == p;
    i := chain[k];
    assert Spans(segs[chain[k]], pts[k], pts[Next(k, |pts|)]);
  }

  lemma SharedSegment(segs: seq<Seg>, chain: seq<nat>, pts: seq<P2>, chain': seq<nat>, pts': seq<P2>, p: P2)
    returns (j: nat)
    requires Matched(segs) && Cycle(segs, chain, pts) && Cycle(segs, chain', pts') && p in pts && p in pts'
    ensures j in Members(chain) && j in Members(chain')
  {
    var i, k := SegmentAt(segs, chain, pts, p);
    var m;
    j, m := SegmentAt(segs, chain', pts', p);
    TwoAtEachPoint(segs, chain, pts, k, p, j);
  }

  /** Different contours have no point in common. */
  lemma ContoursDisjoint(segs: seq<Seg>, chains: seq<seq<nat>>, contours: seq<seq<P2>>, c: nat, d: nat, p: P2)
    requires Matched(segs) && AllCycles(segs, chains, contours) && EachOnce(chains, |segs|)
    requires c < d < |contours| && p in contours[c]
    ensures p !in contours[d]
  {
    hide Cycle, Matched;
    if p in contours[d] {
      var j := SharedSegment(segs, chains[c], contours[c], chains[d], contours[d], p);
    }
  }
}
