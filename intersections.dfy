/**
 * Bookkeeping between intersection detection and vertex insertion in the
 * grid-submersion kernel.  Intersections are grouped per edge; every edge
 * receives a slice of freshly added darts, two per intersection: the first
 * half for the side of the edge's own dart, the second half for the
 * opposite side.  Each intersection is then given the new dart that will
 * stand for it.  The grouping itself (edge ids, sorting by the float
 * parameter t) and the allocation of the darts in the map are not part of
 * this model: the groups and the first allocated dart are inputs.
 */
module Intersections {
  import opened SeqUtil

  /** An intersection: its index in the input list, its parameter along the edge, the dart it was found on. */
  datatype Intersection = Intersection(idx: nat, t: real, oldDart: nat)

  /** The intersections of one edge, in increasing t. */
  datatype EdgeIntersections = EdgeIntersections(edgeId: nat, vs: seq<Intersection>)

  // ---------------------------------------------------------------- dart slices

  function Sum(ns: seq<nat>): nat
  {
    if ns == [] then 0 else Sum(ns[..|ns| - 1]) + ns[|ns| - 1]
  }

  lemma SumSnoc(ns: seq<nat>, m: nat)
    requires m < |ns|
    ensures Sum(ns[..m + 1]) == Sum(ns[..m]) + ns[m]
  {
    assert ns[..m + 1][..m] == ns[..m];
  }

  lemma {:induction false} SumCons(ns: seq<nat>)
    requires ns != []
    ensures Sum(ns) == ns[0] + Sum(ns[1..])
  {
    if |ns| > 1 {
      SumCons(ns[..|ns| - 1]);
      assert ns[..|ns| - 1][1..] == ns[1..][..|ns[1..]| - 1];
    }
  }

  /** Two new darts per intersection of the edge. */
  function DartsPerEdge(groups: seq<EdgeIntersections>): (nd: seq<nat>)
    ensures |nd| == |groups|
    ensures forall k :: 0 <= k < |groups| ==> nd[k] == 2 * |groups[k].vs|
  {
    seq(|groups|, k requires 0 <= k < |groups| => 2 * |groups[k].vs|)
  }

  /** The running scan: each entry is the total of the entries before it, plus the initial state. */
  function Scan(ns: seq<nat>, state: nat): (r: seq<nat>)
    ensures |r| == |ns|
  {
    if ns == [] then [] else [state] + Scan(ns[1..], state + ns[0])
  }

  /** The scan from 0 gives prefix sums: where each edge's slice starts, relative to the first new dart. */
  lemma {:induction false} ScanIsPrefixSum(ns: seq<nat>, s: nat, k: nat)
    requires k < |ns|
    ensures Scan(ns, s)[k] == s + Sum(ns[..k])
  {
    if k > 0 {
      ScanIsPrefixSum(ns[1..], s + ns[0], k - 1);
      SumCons(ns[..k]);
      assert ns[..k][1..] == ns[1..][..k - 1];
    }
  }

  /** The dart slice of every edge: nd[k] consecutive darts starting at first + prefix[k]. */
  function DartSlices(nd: seq<nat>, first: nat): (slices: seq<seq<nat>>)
    ensures |slices| == |nd|
    ensures forall k :: 0 <= k < |nd| ==> |slices[k]| == nd[k]
  {
    var ps := Scan(nd, 0);
    seq(|nd|, k requires 0 <= k < |nd| => Interval(first + ps[k], first + ps[k] + nd[k]))
  }

  /** Slice k starts after the darts of the slices before it. */
  lemma DartSliceAt(nd: seq<nat>, first: nat, k: nat)
    requires k < |nd|
    ensures DartSlices(nd, first)[k] == Interval(first + Sum(nd[..k]), first + Sum(nd[..k]) + nd[k])
    ensures Sum(nd[..k]) + nd[k] == Sum(nd[..k + 1])
  {
    ScanIsPrefixSum(nd, 0, k);
    SumSnoc(nd, k);
  }

  /** Parts that are the intervals between consecutive bounds. */
  ghost predicate Consecutive(parts: seq<seq<nat>>, bounds: seq<nat>)
  {
    |bounds| == |parts| + 1
    && forall k :: 0 <= k < |parts| ==> bounds[k] <= bounds[k + 1] && parts[k] == Interval(bounds[k], bounds[k + 1])
  }

  /** The first m of such parts tile the interval from the first bound to the m-th. */
  lemma {:induction false} ConsecutivePrefix(parts: seq<seq<nat>>, bounds: seq<nat>, m: nat)
    requires Consecutive(parts, bounds) && m <= |parts|
    ensures bounds[0] <= bounds[m]
    ensures Flatten(parts[..m]) == Interval(bounds[0], bounds[m])
  {
    if m == 0 {
      assert parts[..0] == [];
    } else {
      ConsecutivePrefix(parts, bounds, m - 1);
      TileStep(parts, m, bounds[0], bounds[m - 1], bounds[m] - bounds[m - 1]);
    }
  }

  lemma ConsecutiveTile(parts: seq<seq<nat>>, bounds: seq<nat>)
    requires Consecutive(parts, bounds)
    ensures bounds[0] <= bounds[|parts|]
    ensures Flatten(parts) == Interval(bounds[0], bounds[|parts|])
  {
    ConsecutivePrefix(parts, bounds, |parts|);
    assert parts[..|parts|] == parts;
  }

  /** One more part that continues an interval extends it. */
  lemma TileStep(parts: seq<seq<nat>>, m: nat, lo: nat, mid: nat, len: nat)
    requires 0 < m <= |parts| && lo <= mid
    requires Flatten(parts[..m - 1]) == Interval(lo, mid)
    requires parts[m - 1] == Interval(mid, mid + len)
    ensures Flatten(parts[..m]) == Interval(lo, mid + len)
  {
    assert parts[..m] == parts[..m - 1] + [parts[m - 1]];
    FlattenAppend(parts[..m - 1], parts[m - 1]);
    IntervalSplit(lo, mid, mid + len);
  }

  /**
   * Together the slices are exactly the darts first, first + 1, ..., first +
   * total - 1, in order: consecutive, non-overlapping, and starting at the
   * first allocated dart.
   */
  lemma DartSlicesTile(nd: seq<nat>, first: nat)
    ensures Flatten(DartSlices(nd, first)) == Interval(first, first + Sum(nd))
  {
    var bounds := seq(|nd| + 1, k requires 0 <= k <= |nd| => first + Sum(nd[..k]));
    DartSlicesConsecutive(nd, first, bounds);
    assert nd[..0] == [] && nd[..|nd|] == nd;
    assert bounds[0] == first && bounds[|nd|] == first + Sum(nd);
    ConsecutiveTile(DartSlices(nd, first), bounds);
  }

  lemma DartSlicesConsecutive(nd: seq<nat>, first: nat, bounds: seq<nat>)
    requires |bounds| == |nd| + 1
    requires forall k :: 0 <= k <= |nd| ==> bounds[k] == first + Sum(nd[..k])
    ensures Consecutive(DartSlices(nd, first), bounds)
  {
    forall k | 0 <= k < |nd|
      ensures bounds[k] <= bounds[k + 1] && DartSlices(nd, first)[k] == Interval(bounds[k], bounds[k + 1])
    {
      DartSliceAt(nd, first, k);
    }
  }

  /** Every dart of an earlier slice precedes every dart of a later one. */
  lemma DartSlicesOrdered(nd: seq<nat>, first: nat, k1: nat, k2: nat, x: nat, y: nat)
    requires k1 < k2 < |nd|
    requires x in DartSlices(nd, first)[k1] && y in DartSlices(nd, first)[k2]
    ensures x < y
  {
    DartSliceAt(nd, first, k1);
    DartSliceAt(nd, first, k2);
    SumSnoc(nd, k1);
    SumPrefixMono(nd, k1 + 1, k2);
  }

  lemma {:induction false} SumPrefixMono(ns: seq<nat>, a: nat, b: nat)
    requires a <= b <= |ns|
    ensures Sum(ns[..a]) <= Sum(ns[..b])
  {
    if a < b {
      SumPrefixMono(ns, a, b - 1);
      SumSnoc(ns, b - 1);
    }
  }

  // ---------------------------------------------------------------- intersection ids

  /**
   * Every group has room in its slice (two darts per intersection) and every
   * intersection index is a position of the result.
   */
  predicate Fits(n: nat, groups: seq<EdgeIntersections>, slices: seq<seq<nat>>)
  {
    forall k :: 0 <= k < |groups| && k < |slices| ==>
      |groups[k].vs| <= |slices[k]| / 2
      && forall i :: 0 <= i < |groups[k].vs| ==> groups[k].vs[i].idx < n
  }

  /**
   * The new dart standing for intersection i of an edge: the i-th dart of the
   * slice's first half when it was found on the edge's own dart, otherwise
   * the i-th from the end of the second half (the opposite side runs the
   * other way).
   */
  function NewDartFor(e: EdgeIntersections, slice: seq<nat>, i: nat): (d: nat)
    requires i < |e.vs| <= |slice| / 2
    ensures d in slice
  {
    var hl := |slice| / 2;
    if e.vs[i].oldDart == e.edgeId then slice[i] else slice[hl + (hl - 1 - i)]
  }

  /** The assignments one group makes: (index, new dart), in order. */
  function GroupWrites(e: EdgeIntersections, slice: seq<nat>): (ws: seq<(nat, nat)>)
    requires |e.vs| <= |slice| / 2
    ensures |ws| == |e.vs|
    ensures forall i :: 0 <= i < |ws| ==> ws[i] == (e.vs[i].idx, NewDartFor(e, slice, i))
  {
    seq(|e.vs|, i requires 0 <= i < |e.vs| => (e.vs[i].idx, NewDartFor(e, slice, i)))
  }

  /** How many (group, slice) pairs are visited: the zip stops at the shorter list. */
  function Pairs(groups: seq<EdgeIntersections>, slices: seq<seq<nat>>): nat
  {
    if |groups| <= |slices| then |groups| else |slices|
  }

  /** The assignments of the first k groups, group after group. */
  function AllWrites(n: nat, groups: seq<EdgeIntersections>, slices: seq<seq<nat>>, k: nat): seq<(nat, nat)>
    requires Fits(n, groups, slices) && k <= Pairs(groups, slices)
  {
    if k == 0 then [] else AllWrites(n, groups, slices, k - 1) + GroupWrites(groups[k - 1], slices[k - 1])
  }

  /** res after the assignments ws, made in order; a later assignment to a position wins. */
  function Apply(res: seq<nat>, ws: seq<(nat, nat)>): (r: seq<nat>)
    ensures |r| == |res|
  {
    if ws == [] then res
    else
      var r := Apply(res, ws[..|ws| - 1]);
      var w := ws[|ws| - 1];
      if w.0 < |r| then r[w.0 := w.1] else r
  }

  /** A sequence of n null darts. */
  function Nulls(n: nat): (r: seq<nat>)
    ensures |r| == n && forall p :: 0 <= p < n ==> r[p] == 0
  {
    seq(n, _ => 0)
  }

  /** The ids the routine computes: all groups' assignments applied to n null darts. */
  function IntersectionIds(n: nat, groups: seq<EdgeIntersections>, slices: seq<seq<nat>>): (r: seq<nat>)
    requires Fits(n, groups, slices)
    ensures |r| == n
  {
    Apply(Nulls(n), AllWrites(n, groups, slices, Pairs(groups, slices)))
  }

  /**
   * `compute_intersection_ids`: starts from n null darts and, group by group
   * and intersection by intersection, stores the intersection's new dart at
   * its index.
   */
  method ComputeIntersectionIds(n: nat, groups: seq<EdgeIntersections>, slices: seq<seq<nat>>) returns (ids: seq<nat>)
    requires Fits(n, groups, slices)
    ensures ids == IntersectionIds(n, groups, slices)
  {
    var res := new nat[n](_ => 0);
    assert res[..] == Nulls(n);
    var pairs := Pairs(groups, slices);
    var k := 0;
    while k < pairs
      invariant 0 <= k <= pairs
      invariant res[..] == Apply(Nulls(n), AllWrites(n, groups, slices, k))
    {
      StoreGroup(res, groups[k], slices[k]);
      AllWritesStep(n, groups, slices, k + 1);
      k := k + 1;
    }
    ids := res[..];
  }

  /** One iteration of the outer loop: each intersection of e stores its new dart at its index. */
  method StoreGroup(res: array<nat>, e: EdgeIntersections, newDarts: seq<nat>)
    requires |e.vs| <= |newDarts| / 2 && forall i :: 0 <= i < |e.vs| ==> e.vs[i].idx < res.Length
    modifies res
    ensures res[..] == Apply(old(res[..]), GroupWrites(e, newDarts))
  {
    var hl := |newDarts| / 2;
    var fh, sh := newDarts[..hl], newDarts[hl..];
    ghost var before := res[..];
    ghost var ws := GroupWrites(e, newDarts);
    var i := 0;
    while i < |e.vs|
      invariant 0 <= i <= |e.vs|
      invariant res[..] == Apply(before, ws[..i])
    {
      var v := e.vs[i];
      res[v.idx] := if v.oldDart == e.edgeId then fh[i] else sh[hl - 1 - i];
      assert ws[..i + 1] == ws[..i] + [ws[i]];
      ApplySnoc(before, ws[..i], ws[i]);
      i := i + 1;
    }
    assert ws[..i] == ws;
  }

  // ---------------------------------------------------------------- what the ids are

  lemma ApplySnoc(res: seq<nat>, ws: seq<(nat, nat)>, w: (nat, nat))
    requires w.0 < |res|
    ensures Apply(res, ws + [w]) == Apply(res, ws)[w.0 := w.1]
  {
    assert (ws + [w])[..|ws|] == ws;
  }

  lemma {:induction false} ApplyConcat(res: seq<nat>, a: seq<(nat, nat)>, b: seq<(nat, nat)>)
    ensures Apply(res, a + b) == Apply(Apply(res, a), b)
  {
    if b != [] {
      assert (a + b)[..|a + b| - 1] == a + b[..|b| - 1];
      ApplyConcat(res, a, b[..|b| - 1]);
    } else {
      assert a + b == a;
    }
  }

  /** A position no assignment names keeps its value. */
  lemma {:induction false} ApplyUntouched(res: seq<nat>, ws: seq<(nat, nat)>, p: nat)
    requires p < |res|
    requires forall q :: 0 <= q < |ws| ==> ws[q].0 != p
    ensures Apply(res, ws)[p] == res[p]
  {
    if ws != [] {
      ApplyUntouched(res, ws[..|ws| - 1], p);
    }
  }

  /** When no two assignments name the same position, each position named holds its assignment. */
  lemma {:induction false} ApplyDistinct(res: seq<nat>, ws: seq<(nat, nat)>, q: nat)
    requires q < |ws| && ws[q].0 < |res|
    requires forall q1, q2 :: 0 <= q1 < q2 < |ws| ==> ws[q1].0 != ws[q2].0
    ensures Apply(res, ws)[ws[q].0] == ws[q].1
  {
    if q < |ws| - 1 {
      ApplyDistinct(res, ws[..|ws| - 1], q);
    }
  }

  /** No two intersections, in the same group or in different ones, share an index. */
  ghost predicate UniqueIndices(groups: seq<EdgeIntersections>)
  {
    forall k1, i1, k2, i2 ::
      0 <= k1 < |groups| && 0 <= i1 < |groups[k1].vs| && 0 <= k2 < |groups| && 0 <= i2 < |groups[k2].vs|
      && (k1 != k2 || i1 != i2)
      ==> groups[k1].vs[i1].idx != groups[k2].vs[i2].idx
  }

  /** The assignments of the first k groups name only indices of those groups. */
  lemma {:induction false} AllWritesIndices(n: nat, groups: seq<EdgeIntersections>, slices: seq<seq<nat>>, k: nat, q: nat)
    requires Fits(n, groups, slices) && k <= Pairs(groups, slices)
    requires q < |AllWrites(n, groups, slices, k)|
    ensures exists k0, i0 :: 0 <= k0 < k && 0 <= i0 < |groups[k0].vs| && AllWrites(n, groups, slices, k)[q].0 == groups[k0].vs[i0].idx
  {
    var prev := AllWrites(n, groups, slices, k - 1);
    var ws := GroupWrites(groups[k - 1], slices[k - 1]);
    assert AllWrites(n, groups, slices, k) == prev + ws;
    if q < |prev| {
      AllWritesIndices(n, groups, slices, k - 1, q);
    } else {
      assert AllWrites(n, groups, slices, k)[q] == ws[q - |prev|];
    }
  }

  /** After the first k groups, intersection i of group k0 < k holds its new dart. */
  lemma {:induction false} AllWritesResult(n: nat, groups: seq<EdgeIntersections>, slices: seq<seq<nat>>, k: nat, k0: nat, i0: nat)
    requires Fits(n, groups, slices) && k <= Pairs(groups, slices) && UniqueIndices(groups)
    requires k0 < k && i0 < |groups[k0].vs|
    ensures Apply(Nulls(n), AllWrites(n, groups, slices, k))[groups[k0].vs[i0].idx] == NewDartFor(groups[k0], slices[k0], i0)
  {
    var prev := AllWrites(n, groups, slices, k - 1);
    var ws := GroupWrites(groups[k - 1], slices[k - 1]);
    var p := groups[k0].vs[i0].idx;
    AllWritesStep(n, groups, slices, k);
    if k0 < k - 1 {
      AllWritesResult(n, groups, slices, k - 1, k0, i0);
      GroupWritesAvoid(groups, slices[k - 1], k - 1, k0, i0);
      ApplyUntouched(Apply(Nulls(n), prev), ws, p);
    } else {
      GroupWritesDistinct(groups, slices[k - 1], k - 1);
      ApplyDistinct(Apply(Nulls(n), prev), ws, i0);
      assert ws[i0] == (p, NewDartFor(groups[k0], slices[k0], i0));
    }
  }

  /** The first k groups' result is the first k - 1 groups' result with group k's assignments applied. */
  lemma AllWritesStep(n: nat, groups: seq<EdgeIntersections>, slices: seq<seq<nat>>, k: nat)
    requires Fits(n, groups, slices) && 0 < k <= Pairs(groups, slices)
    ensures Apply(Nulls(n), AllWrites(n, groups, slices, k))
      == Apply(Apply(Nulls(n), AllWrites(n, groups, slices, k - 1)), GroupWrites(groups[k - 1], slices[k - 1]))
  {
    ApplyConcat(Nulls(n), AllWrites(n, groups, slices, k - 1), GroupWrites(groups[k - 1], slices[k - 1]));
  }

  /** A group names none of the indices of another group. */
  lemma GroupWritesAvoid(groups: seq<EdgeIntersections>, slice: seq<nat>, k: nat, k0: nat, i0: nat)
    requires UniqueIndices(groups) && k < |groups| && |groups[k].vs| <= |slice| / 2
    requires k0 < |groups| && k0 != k && i0 < |groups[k0].vs|
    ensures forall q :: 0 <= q < |groups[k].vs| ==> GroupWrites(groups[k], slice)[q].0 != groups[k0].vs[i0].idx
  {
  }

  /** Within a group, no two assignments name the same index. */
  lemma GroupWritesDistinct(groups: seq<EdgeIntersections>, slice: seq<nat>, k: nat)
    requires UniqueIndices(groups) && k < |groups| && |groups[k].vs| <= |slice| / 2
    ensures var ws := GroupWrites(groups[k], slice);
      forall q1, q2 :: 0 <= q1 < q2 < |ws| ==> ws[q1].0 != ws[q2].0
  {
  }

  /**
   * With distinct intersection indices, the entry of each intersection is its
   * new dart: the i-th of the first half on the edge's own side, the i-th
   * from the end of the second half on the opposite side.
   */
  lemma IntersectionIdOf(n: nat, groups: seq<EdgeIntersections>, slices: seq<seq<nat>>, k: nat, i: nat)
    requires Fits(n, groups, slices) && UniqueIndices(groups)
    requires k < Pairs(groups, slices) && i < |groups[k].vs|
    ensures groups[k].vs[i].idx < n
    ensures var hl := |slices[k]| / 2;
      IntersectionIds(n, groups, slices)[groups[k].vs[i].idx]
      == if groups[k].vs[i].oldDart == groups[k].edgeId then slices[k][..hl][i] else slices[k][hl..][hl - 1 - i]
  {
    AllWritesResult(n, groups, slices, Pairs(groups, slices), k, i);
  }

  /** Positions no intersection names stay null. */
  lemma UnsetIdsAreNull(n: nat, groups: seq<EdgeIntersections>, slices: seq<seq<nat>>, p: nat)
    requires Fits(n, groups, slices) && p < n
    requires forall k, i :: 0 <= k < |groups| && 0 <= i < |groups[k].vs| ==> groups[k].vs[i].idx != p
    ensures IntersectionIds(n, groups, slices)[p] == 0
  {
    var ws := AllWrites(n, groups, slices, Pairs(groups, slices));
    forall q | 0 <= q < |ws| ensures ws[q].0 != p {
      AllWritesIndices(n, groups, slices, Pairs(groups, slices), q);
    }
    ApplyUntouched(Nulls(n), ws, p);
  }

  /**
   * When the slices are those allocated for the groups, every group fits its
   * slice, and the two sides of an intersection get different new darts.
   */
  lemma SlicesFitGroups(groups: seq<EdgeIntersections>, first: nat, k: nat, i: nat)
    requires k < |groups| && i < |groups[k].vs|
    ensures var slices := DartSlices(DartsPerEdge(groups), first);
      |slices[k]| == 2 * |groups[k].vs| && |slices[k]| / 2 == |groups[k].vs|
      && slices[k][i] != slices[k][|groups[k].vs| + (|groups[k].vs| - 1 - i)]
  {
  }
}
