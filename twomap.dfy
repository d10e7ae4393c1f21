/**
 * The 2D combinatorial map: a table of β images per dart (dart 0 is the
 * null dart), the set of dart ids currently unused, and the sparse storage
 * of vertex positions indexed by vertex id.
 */
module TwoMap {
  import opened Wrappers
  import opened SeqUtil
  import opened Betas
  import opened Orbits
  import opened AttributeCollections

  /** Position of a vertex. */
  datatype Vertex2 = Vertex2(x: real, y: real)

  /** `n` rows of a free dart. */
  function FreeRows(n: nat): (t: BetaTable)
    ensures |t| == n && forall d :: 0 <= d < n ==> t[d] == FreeRow
  {
    if n == 0 then [] else FreeRows(n - 1) + [FreeRow]
  }

  /** Appending free darts keeps a well-formed table well formed. */
  lemma AppendFreeRowsKeepsConsistent(t: BetaTable, k: nat)
    requires Consistent(t)
    ensures Consistent(t + FreeRows(k))
  {
    var u := t + FreeRows(k);
    assert forall d :: 0 <= d < |t| ==> u[d] == t[d];
  }

  /** A non-empty set of darts has a smallest element. */
  lemma HasMinimum(s: set<nat>)
    requires s != {}
    ensures exists m :: m in s && forall x :: x in s ==> m <= x
  {
    var y :| y in s;
    MinimumBelow(s, y);
  }

  /** Walking down from any member y of s reaches the smallest one. */
  lemma {:induction false} MinimumBelow(s: set<nat>, y: nat)
    requires y in s
    ensures exists m :: m in s && forall x :: x in s ==> m <= x
    decreases y
  {
    if x :| x in s && x < y {
      MinimumBelow(s, x);
    } else {
      assert forall x :: x in s ==> y <= x;
    }
  }

  /** Moving the next yielded dart v from the rest of an orbit to the darts seen. */
  lemma SeenOneMore(seen: seq<nat>, v: nat, rem: seq<nat>, rest: seq<nat>)
    requires rest == [v] + rem
    ensures seen + rest == (seen + [v]) + rem && |rem| < |rest|
    ensures Values(seen + [v]) == Values(seen) + {v}
  {
  }

  // --- face sweeps

  /** Every unused dart is a free dart of the table. */
  ghost predicate UnusedAreFree(t: BetaTable, unused: set<nat>)
  {
    forall d :: d in unused ==> d < |t| && t[d] == FreeRow
  }

  /** Dart ids inside the table and distinct from the null dart. */
  predicate DartsOf(t: BetaTable, ids: seq<nat>)
  {
    forall k :: 0 <= k < |ids| ==> 0 < ids[k] < |t|
  }

  /** The darts of the faces of `ids`. */
  ghost function Swept(t: BetaTable, ids: seq<nat>): set<nat>
    requires InRange(t) && DartsOf(t, ids)
  {
    if ids == [] then {}
    else Swept(t, ids[..|ids| - 1]) + Values(OrbitSeq(t, Face, ids[|ids| - 1]))
  }

  /** A swept dart lies in the face of one of the ids. */
  lemma {:induction false} SweptMember(t: BetaTable, ids: seq<nat>, y: nat) returns (k: nat)
    requires InRange(t) && DartsOf(t, ids) && y in Swept(t, ids)
    ensures k < |ids| && y in OrbitSeq(t, Face, ids[k])
  {
    var init := ids[..|ids| - 1];
    if y in Swept(t, init) {
      k := SweptMember(t, init, y);
    } else {
      k := |ids| - 1;
    }
  }

  /** The darts of the face of each id are swept. */
  lemma {:induction false} SweptContains(t: BetaTable, ids: seq<nat>, k: nat, y: nat)
    requires InRange(t) && DartsOf(t, ids) && k < |ids| && y in OrbitSeq(t, Face, ids[k])
    ensures y in Swept(t, ids)
  {
    if k < |ids| - 1 {
      SweptContains(t, ids[..|ids| - 1], k, y);
    }
  }

  /** In a well-formed table no face orbit of another dart reaches a free dart. */
  lemma FreeDartOutsideFaces(t: BetaTable, u: nat, d: nat)
    requires Consistent(t) && 0 < u < |t| && t[u] == FreeRow && 0 < d < |t| && d != u
    ensures u !in OrbitSeq(t, Face, d)
  {
    var s := DartSet(|t|) - {u};
    forall x, y | x in s && x < |t| && y in Images(t, Face, x) ensures y == 0 || y in s {
      FreeDartIsNoImage(t, u, x);
    }
    OrbitLeast(t, Face, d, s);
  }

  /**
   * When every used dart below `d` is swept, `d` is either swept already or
   * the smallest dart of its face.
   */
  lemma UnsweptDartIsFaceId(t: BetaTable, unused: set<nat>, ids: seq<nat>, d: nat)
    requires Consistent(t) && UnusedAreFree(t, unused) && DartsOf(t, ids)
    requires 0 < d < |t| && d !in unused
    requires forall x :: 0 < x < d && x !in unused ==> x in Swept(t, ids)
    ensures CellId(t, Face, d) != d ==> d in Swept(t, ids)
  {
    var m := CellId(t, Face, d);
    if m != d {
      OrbitShape(t, Face, d);
      assert m != 0 && m < d;
      if m in unused {
        FreeDartOutsideFaces(t, m, d);
      }
      assert m in Swept(t, ids);
      CellPoliciesReversible(t, Face);
      SameFaceSwept(t, ids, m, d);
    }
  }

  /** Sweeping one dart of a face sweeps all of it. */
  lemma SameFaceSwept(t: BetaTable, ids: seq<nat>, m: nat, d: nat)
    requires InRange(t) && Reversible(t, Face) && DartsOf(t, ids)
    requires 0 < m < |t| && 0 < d < |t| && m in OrbitSeq(t, Face, d) && m in Swept(t, ids)
    ensures d in Swept(t, ids)
  {
    var k := SweptMember(t, ids, m);
    OrbitOfMember(t, Face, ids[k], m);
    OrbitOfMember(t, Face, d, m);
    OrbitShape(t, Face, d);
    assert d in Values(OrbitSeq(t, Face, d));
    SweptContains(t, ids, k, d);
  }

  /** A swept dart belongs to the face of one of the ids, so its face id is that id. */
  lemma SweptDartFaceId(t: BetaTable, ids: seq<nat>, d: nat) returns (k: nat)
    requires InRange(t) && Reversible(t, Face) && DartsOf(t, ids) && 0 < d < |t| && d in Swept(t, ids)
    ensures k < |ids| && CellId(t, Face, d) == CellId(t, Face, ids[k])
  {
    k := SweptMember(t, ids, d);
    CellIdSharedByMembers(t, Face, ids[k], d);
  }

  /** The bookkeeping of a face sweep that has visited darts 1 .. d - 1. */
  ghost predicate SweepState(t: BetaTable, unused: set<nat>, ids: seq<nat>, marked: set<nat>, d: nat)
    requires InRange(t)
  {
    1 <= d <= |t| && DartsOf(t, ids)
    && (forall k :: 0 <= k < |ids| ==> ids[k] < d && ids[k] !in unused)
    && (forall i, j :: 0 <= i < j < |ids| ==> ids[i] < ids[j])
    && marked == Swept(t, ids)
  }

  /** What a face sweep has established about darts 1 .. d - 1 of a well-formed map. */
  ghost predicate SweepComplete(t: BetaTable, unused: set<nat>, ids: seq<nat>, marked: set<nat>, d: nat)
    requires InRange(t) && DartsOf(t, ids) && d <= |t|
  {
    (forall k :: 0 <= k < |ids| ==> CellId(t, Face, ids[k]) == ids[k])
    && (forall x :: 0 < x < d && x !in unused ==> x in marked)
    && (forall x :: 0 < x < d && x !in unused ==> (x in ids <==> CellId(t, Face, x) == x))
  }

  /** Opening a face at dart d appends d to the ids and sweeps its face. */
  lemma SweepStateOpen(t: BetaTable, unused: set<nat>, ids: seq<nat>, marked: set<nat>, d: nat)
    requires InRange(t) && SweepState(t, unused, ids, marked, d)
    requires d < |t| && d !in unused
    ensures SweepState(t, unused, ids + [d], marked + {d} + Values(OrbitSeq(t, Face, d)), d + 1)
  {
    var ids2 := ids + [d];
    assert ids2[..|ids2| - 1] == ids;
    OrbitShape(t, Face, d);
    assert d in Values(OrbitSeq(t, Face, d));
  }

  /** Opening a face at a dart that is the smallest of its face keeps the sweep complete. */
  lemma SweepCompleteOpen(t: BetaTable, unused: set<nat>, ids: seq<nat>, marked: set<nat>, marked2: set<nat>, d: nat)
    requires InRange(t) && DartsOf(t, ids) && d < |t| && 0 < d
    requires forall k :: 0 <= k < |ids| ==> ids[k] < d
    requires CellId(t, Face, d) == d && marked <= marked2 && d in marked2
    requires SweepComplete(t, unused, ids, marked, d)
    ensures SweepComplete(t, unused, ids + [d], marked2, d + 1)
  {
    var ids2 := ids + [d];
    forall k | 0 <= k < |ids2| ensures CellId(t, Face, ids2[k]) == ids2[k] {
      if k < |ids| {
        assert ids2[k] == ids[k];
      }
    }
    forall x | 0 < x < d + 1 && x !in unused ensures x in ids2 <==> CellId(t, Face, x) == x {
      if x < d {
        assert x in ids2 <==> x in ids;
      }
    }
  }

  /** Visiting an unused or already swept dart changes nothing. */
  lemma SweepStateSkip(t: BetaTable, unused: set<nat>, ids: seq<nat>, marked: set<nat>, d: nat)
    requires InRange(t) && SweepState(t, unused, ids, marked, d) && d < |t|
    ensures SweepState(t, unused, ids, marked, d + 1)
  {
  }

  /** In a well-formed map a swept dart is not the id of its face: an earlier id is. */
  lemma SweptDartIsNotFaceId(t: BetaTable, ids: seq<nat>, d: nat)
    requires InRange(t) && Reversible(t, Face) && DartsOf(t, ids) && 0 < d < |t| && d in Swept(t, ids)
    requires forall k :: 0 <= k < |ids| ==> ids[k] < d && CellId(t, Face, ids[k]) == ids[k]
    ensures CellId(t, Face, d) != d
  {
    var k := SweptDartFaceId(t, ids, d);
  }

  /** Skipping a dart that is unused or not the id of its face keeps the sweep complete. */
  lemma SweepCompleteSkip(t: BetaTable, unused: set<nat>, ids: seq<nat>, marked: set<nat>, d: nat)
    requires InRange(t) && DartsOf(t, ids) && d < |t|
    requires forall k :: 0 <= k < |ids| ==> ids[k] < d
    requires d in unused || (d in marked && CellId(t, Face, d) != d)
    requires SweepComplete(t, unused, ids, marked, d)
    ensures SweepComplete(t, unused, ids, marked, d + 1)
  {
    assert d !in ids;
  }

  class CMap2 {
    var betas: BetaTable
    var nDarts: nat
    var unusedDarts: set<nat>
    const vertices: AttrSparseVec<Vertex2>

    /** One β row per dart, images inside the map, one vertex slot per dart id. */
    ghost predicate Valid()
      reads this, vertices
    {
      |betas| == nDarts && nDarts >= 1 && InRange(betas)
      && (forall d :: d in unusedDarts ==> d < nDarts)
      && |vertices.data| == nDarts
    }

    /** A map of `n` free darts plus the null dart, no vertex and no unused dart. */
    constructor (n: nat)
      ensures Valid() && fresh(vertices)
      ensures nDarts == n + 1 && betas == FreeRows(n + 1) && unusedDarts == {}
      ensures vertices.data == NoneSlots(n + 1)
      ensures Consistent(betas)
    {
      vertices := new AttrSparseVec(n + 1);
      unusedDarts := {};
      betas := FreeRows(n + 1);
      nDarts := n + 1;
    }

    /** βi(d). */
    function BetaOf(i: nat, d: nat): (b: nat)
      reads this, vertices
      requires Valid() && i < 3 && d < nDarts
      ensures b < nDarts
    {
      Beta(betas, i, d)
    }

    /** Whether d has no βi image. */
    predicate IsIFree(i: nat, d: nat)
      reads this, vertices
      requires Valid() && i < 3 && d < nDarts
    {
      BetaOf(i, d) == NullDart
    }

    /** Whether d has no image at all: its row is the free row. */
    predicate IsFree(d: nat)
      reads this, vertices
      requires Valid() && d < nDarts
      ensures IsFree(d) <==> betas[d] == FreeRow
      ensures IsFree(d) <==> IsIFree(0, d) && IsIFree(1, d) && IsIFree(2, d)
    {
      BetaOf(0, d) == NullDart && BetaOf(1, d) == NullDart && BetaOf(2, d) == NullDart
    }

    /** Appends one free dart and returns its id, the old dart count. */
    method AddFreeDart() returns (id: nat)
      requires Valid()
      modifies this, vertices
      ensures Valid()
      ensures id == old(nDarts) && nDarts == old(nDarts) + 1
      ensures betas == old(betas) + [FreeRow] && unusedDarts == old(unusedDarts)
      ensures vertices.data == old(vertices.data) + [None]
      ensures IsFree(id)
      ensures Consistent(old(betas)) ==> Consistent(betas)
    {
      id := nDarts;
      nDarts := nDarts + 1;
      if Consistent(betas) {
        AppendFreeRowsKeepsConsistent(betas, 1);
      }
      assert FreeRows(1) == [FreeRow];
      betas := betas + [FreeRow];
      vertices.Extend(1);
      assert NoneSlots<Vertex2>(1) == [None];
    }

    /** Appends `k` free darts and returns the id of the first one. */
    method AddFreeDarts(k: nat) returns (id: nat)
      requires Valid()
      modifies this, vertices
      ensures Valid()
      ensures id == old(nDarts) && nDarts == old(nDarts) + k
      ensures betas == old(betas) + FreeRows(k) && unusedDarts == old(unusedDarts)
      ensures vertices.data == old(vertices.data) + NoneSlots(k)
      ensures forall d :: id <= d < nDarts ==> IsFree(d)
      ensures Consistent(old(betas)) ==> Consistent(betas)
    {
      id := nDarts;
      nDarts := nDarts + k;
      if Consistent(betas) {
        AppendFreeRowsKeepsConsistent(betas, k);
      }
      betas := betas + FreeRows(k);
      vertices.Extend(k);
      assert forall d :: id <= d < nDarts ==> betas[d] == FreeRows(k)[d - id];
    }

    /**
     * Reuses the smallest unused id, clearing its row, or appends a free
     * dart when no id is unused.
     */
    method InsertFreeDart() returns (id: nat)
      requires Valid()
      modifies this, vertices
      ensures Valid()
      ensures old(unusedDarts) != {} ==>
                id in old(unusedDarts) && (forall x :: x in old(unusedDarts) ==> id <= x)
                && unusedDarts == old(unusedDarts) - {id} && nDarts == old(nDarts)
                && betas == old(betas)[id := FreeRow] && vertices.data == old(vertices.data)
      ensures old(unusedDarts) == {} ==>
                id == old(nDarts) && nDarts == old(nDarts) + 1 && unusedDarts == {}
                && betas == old(betas) + [FreeRow] && vertices.data == old(vertices.data) + [None]
      ensures IsFree(id)
    {
      if unusedDarts != {} {
        HasMinimum(unusedDarts);
        var m :| m in unusedDarts && forall x :: x in unusedDarts ==> m <= x;
        unusedDarts := unusedDarts - {m};
        betas := betas[m := FreeRow];
        id := m;
      } else {
        id := AddFreeDart();
      }
    }

    /** Darts `RemoveFreeDart` accepts: free ones that are not unused already. */
    predicate RemovableFreeDart(d: nat)
      reads this, vertices
      requires Valid()
    {
      d < nDarts && IsFree(d) && d !in unusedDarts
    }

    /**
     * Marks a free dart as unused and clears the links that point back to
     * it; since the dart is free these land on the null dart's row.  The
     * dart is no longer removable: a second removal is refused.
     */
    method RemoveFreeDart(d: nat)
      requires Valid() && RemovableFreeDart(d)
      modifies this
      ensures Valid()
      ensures unusedDarts == old(unusedDarts) + {d} && nDarts == old(nDarts)
      ensures betas == old(betas)[0 := FreeRow]
      ensures NullIsFree(old(betas)) ==> betas == old(betas)
      ensures !RemovableFreeDart(d)
    {
      unusedDarts := unusedDarts + {d};
      var b0d, b1d, b2d := betas[d].b0, betas[d].b1, betas[d].b2;
      betas := betas[b0d := betas[b0d].(b1 := 0)];
      betas := betas[b1d := betas[b1d].(b0 := 0)];
      betas := betas[b2d := betas[b2d].(b2 := 0)];
    }

    /** Sets β1(l) := r and β0(r) := l; l must be 1-free and r 0-free. */
    method OneLink(l: nat, r: nat)
      requires Valid() && l < nDarts && r < nDarts
      requires IsIFree(1, l) && IsIFree(0, r)
      modifies this
      ensures Valid() && nDarts == old(nDarts) && unusedDarts == old(unusedDarts)
      ensures betas == OneLinked(old(betas), l, r)
      ensures Consistent(old(betas)) && 0 < l && 0 < r ==> Consistent(betas)
    {
      if Consistent(betas) && 0 < l && 0 < r {
        OneLinkKeepsConsistent(betas, l, r);
      }
      betas := betas[l := betas[l].(b1 := r)];
      betas := betas[r := betas[r].(b0 := l)];
    }

    /** Sets β2(l) := r and β2(r) := l; both darts must be 2-free. */
    method TwoLink(l: nat, r: nat)
      requires Valid() && l < nDarts && r < nDarts
      requires IsIFree(2, l) && IsIFree(2, r)
      modifies this
      ensures Valid() && nDarts == old(nDarts) && unusedDarts == old(unusedDarts)
      ensures betas == TwoLinked(old(betas), l, r)
      ensures Consistent(old(betas)) && 0 < l && 0 < r ==> Consistent(betas)
    {
      if Consistent(betas) && 0 < l && 0 < r {
        TwoLinkKeepsConsistent(betas, l, r);
      }
      betas := betas[l := betas[l].(b2 := r)];
      betas := betas[r := betas[r].(b2 := l)];
    }

    /** Clears β1(l) and β0 of the former β1(l). */
    method OneUnlink(l: nat)
      requires Valid() && l < nDarts
      modifies this
      ensures Valid() && nDarts == old(nDarts) && unusedDarts == old(unusedDarts)
      ensures betas == OneUnlinked(old(betas), l)
      ensures Consistent(old(betas)) && 0 < l ==> Consistent(betas)
    {
      if Consistent(betas) && 0 < l {
        OneUnlinkKeepsConsistent(betas, l);
      }
      var r := betas[l].b1;
      betas := betas[l := betas[l].(b1 := 0)];
      betas := betas[r := betas[r].(b0 := 0)];
    }

    /** Clears β2 of l and of its former β2 image. */
    method TwoUnlink(l: nat)
      requires Valid() && l < nDarts
      modifies this
      ensures Valid() && nDarts == old(nDarts) && unusedDarts == old(unusedDarts)
      ensures betas == TwoUnlinked(old(betas), l)
      ensures Consistent(old(betas)) && 0 < l ==> Consistent(betas)
    {
      if Consistent(betas) && 0 < l {
        TwoUnlinkKeepsConsistent(betas, l);
      }
      var r := betas[l].b2;
      betas := betas[l := betas[l].(b2 := 0)];
      betas := betas[r := betas[r].(b2 := 0)];
    }

    /**
     * `set_beta::<I>`: overwrites β_i(d) with v and nothing else; unlike the
     * links it neither checks freeness nor touches the partner dart.
     */
    method SetBeta(i: nat, d: nat, v: nat)
      requires Valid() && i < 3 && d < nDarts && v < nDarts
      modifies this
      ensures Valid() && nDarts == old(nDarts) && unusedDarts == old(unusedDarts)
      ensures betas == WithBeta(old(betas), i, d, v)
    {
      betas := WithBeta(betas, i, d, v);
    }

    /** The id of the vertex of d: the smallest dart of its vertex orbit. */
    function VertexId(d: nat): (id: nat)
      reads this, vertices
      requires Valid() && d < nDarts
      ensures id <= d && id < nDarts
    {
      CellId(betas, Vertex, d)
    }

    /** The id of the edge of d: the smallest dart of its edge orbit. */
    function EdgeId(d: nat): (id: nat)
      reads this, vertices
      requires Valid() && d < nDarts
      ensures id <= d
    {
      CellId(betas, Edge, d)
    }

    /** The id of the face of d: the smallest dart of its face orbit. */
    function FaceId(d: nat): (id: nat)
      reads this, vertices
      requires Valid() && d < nDarts
      ensures id <= d
    {
      CellId(betas, Face, d)
    }

    /** Gives a value to a vertex id that has none yet. */
    method InsertVertex(vid: nat, v: Vertex2)
      requires Valid() && vid < nDarts && vertices.data[vid].None?
      modifies vertices
      ensures Valid()
      ensures vertices.data == old(vertices.data)[vid := Some(v)]
    {
      vertices.Insert(vid, v);
    }

    /**
     * 1-sew: a 1-link, refused when l has no β2 image and the vertex of r has
     * no value.  (When l has a β2 image the source merges the two old vertex
     * values into the new vertex; that merge is not part of this model.)
     */
    method OneSew(l: nat, r: nat)
      requires Valid() && l < nDarts && r < nDarts
      requires IsIFree(2, l) ==> vertices.data[VertexId(r)].Some?
      requires IsIFree(1, l) && IsIFree(0, r)
      modifies this
      ensures Valid() && nDarts == old(nDarts) && unusedDarts == old(unusedDarts)
      ensures betas == OneLinked(old(betas), l, r)
    {
      OneLink(l, r);
    }

    /**
     * 2-sew: a 2-link, refused when both darts are 1-free and neither of their
     * vertices has a value.  Only β2 changes.  (When a dart has a β1 image the
     * source checks orientation on the vertex positions and merges vertex
     * values; neither is part of this model.)
     */
    method TwoSew(l: nat, r: nat)
      requires Valid() && l < nDarts && r < nDarts
      requires IsIFree(1, l) && IsIFree(1, r) ==>
                 vertices.data[VertexId(l)].Some? || vertices.data[VertexId(r)].Some?
      requires IsIFree(2, l) && IsIFree(2, r)
      modifies this
      ensures Valid() && nDarts == old(nDarts) && unusedDarts == old(unusedDarts)
      ensures betas == TwoLinked(old(betas), l, r)
      ensures forall d :: 0 <= d < nDarts ==> betas[d].b0 == old(betas[d].b0) && betas[d].b1 == old(betas[d].b1)
    {
      TwoLink(l, r);
    }

    /** Adds every dart of the face orbit of `d` to `marked`. */
    method MarkFace(d: nat, marked: set<nat>) returns (marked2: set<nat>)
      requires Valid() && d < nDarts
      ensures marked2 == marked + Values(OrbitSeq(betas, Face, d))
    {
      marked2 := marked;
      var orbit := new Orbit2(betas, Face, d);
      ghost var seen: seq<nat> := [];
      while true
        invariant orbit.Valid() && orbit.betas == betas && orbit.policy == Face
        invariant seen + orbit.Remaining() == OrbitSeq(betas, Face, d)
        invariant marked2 == marked + Values(seen)
        decreases |orbit.Remaining()|
      {
        ghost var rest := orbit.Remaining();
        var dart := orbit.Next();
        if dart.None? {
          break;
        }
        SeenOneMore(seen, dart.value, orbit.Remaining(), rest);
        marked2 := marked2 + {dart.value};
        seen := seen + [dart.value];
      }
    }

    /**
     * The face ids of the map, in increasing order: darts 1 .. n - 1 are
     * visited in order, skipping unused ones, and a dart not yet marked opens
     * a new face whose orbit is then marked.  In a well-formed map whose
     * unused darts are free, the result is exactly the used darts that are
     * the smallest of their face.
     */
    method FetchFaces() returns (ids: seq<nat>)
      requires Valid()
      ensures forall i, j :: 0 <= i < j < |ids| ==> ids[i] < ids[j]
      ensures forall k :: 0 <= k < |ids| ==> 0 < ids[k] < nDarts && ids[k] !in unusedDarts
      ensures Consistent(betas) && UnusedAreFree(betas, unusedDarts) ==>
                forall d :: 0 < d < nDarts && d !in unusedDarts ==> (d in ids <==> FaceId(d) == d)
    {
      ghost var wf := Consistent(betas) && UnusedAreFree(betas, unusedDarts);
      ids := [];
      var marked: set<nat> := {};
      var d := 1;
      while d < nDarts
        invariant SweepState(betas, unusedDarts, ids, marked, d)
        invariant wf ==> SweepComplete(betas, unusedDarts, ids, marked, d)
      {
        if d !in unusedDarts && d !in marked {
          SweepStateOpen(betas, unusedDarts, ids, marked, d);
          var marked2 := MarkFace(d, marked + {d});
          if wf {
            UnsweptDartIsFaceId(betas, unusedDarts, ids, d);
            SweepCompleteOpen(betas, unusedDarts, ids, marked, marked2, d);
          }
          ids := ids + [d];
          marked := marked2;
        } else {
          SweepStateSkip(betas, unusedDarts, ids, marked, d);
          if wf {
            if d !in unusedDarts {
              CellPoliciesReversible(betas, Face);
              SweptDartIsNotFaceId(betas, ids, d);
            }
            SweepCompleteSkip(betas, unusedDarts, ids, marked, d);
          }
        }
        d := d + 1;
      }
    }
  }
}
