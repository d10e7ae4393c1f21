/**
 * Splitting an edge in two (`split_edge` and `split_edge_noalloc`).  As for
 * the n-way split, the rewiring is first a function from table to table,
 * SplitTable, whose properties are proved here; the methods on the map then
 * apply it one `set_beta` and one link at a time.
 *
 * The position of the new vertex is not modelled: only the presence of the
 * edge's two end vertices is checked.
 */
module EdgeSingle {
  import opened Wrappers
  import opened AttributeCollections
  import opened Betas
  import opened Splits
  import opened TwoMap
  import opened EdgeMultiple

  // ---------------------------------------------------------------- the rewiring as a function

  /**
   * The four `set_beta` calls that cut b from β1(b) and β2(b) from its own
   * β1 image (read before any of them), then the 2-unlink of b and β2(b).
   */
  function TwoSidedOpened(t: BetaTable, b: nat): (u: BetaTable)
    requires InRange(t) && b < |t| && t[b].b2 != NullDart
    ensures |u| == |t|
  {
    var b2 := t[b].b2;
    var c, c2 := t[b].b1, t[b2].b1;
    var t1 := WithBeta(WithBeta(WithBeta(WithBeta(t, 1, b, 0), 0, c, 0), 1, b2, 0), 0, c2, 0);
    TwoUnlinked(t1, b)
  }

  /**
   * The table after `inner_split` has put n1 (and n2 when the edge has two
   * darts) in the middle of the edge of b.  On an edge of one dart the new
   * dart is linked to the old β1(b) even when that is the null dart; on an
   * edge of two darts those links are skipped then.
   */
  function SplitTable(t: BetaTable, b: nat, n1: nat, n2: nat): (u: BetaTable)
    requires InRange(t) && b < |t| && n1 < |t| && (t[b].b2 != NullDart ==> n2 < |t|)
    ensures |u| == |t|
  {
    var c, b2 := t[b].b1, t[b].b2;
    if b2 == NullDart then
      OneLinked(OneLinked(OneUnlinked(t, b), b, n1), n1, c)
    else
      var c2 := t[b2].b1;
      var t1 := Close(OneLinked(TwoSidedOpened(t, b), b, n1), n1, c, true);
      var t2 := Close(OneLinked(t1, b2, n2), n2, c2, true);
      TwoLinked(TwoLinked(t2, b, n2), b2, n1)
  }

  /**
   * What a split needs of its input: a well-formed table, an edge dart b
   * that is not its own β2 image, and free, non-null new darts distinct
   * from b and from each other (n2 only matters on an edge of two darts).
   */
  ghost predicate SplitReady(t: BetaTable, b: nat, n1: nat, n2: nat)
  {
    Consistent(t) && 0 < b < |t| && t[b].b2 != b
    && 0 < n1 < |t| && t[n1] == FreeRow && n1 != b
    && (t[b].b2 != NullDart ==> 0 < n2 < |t| && t[n2] == FreeRow && n2 != n1)
  }

  // ---------------------------------------------------------------- edge of one dart

  /**
   * On an edge of one dart, n1 ends up between b and its old β1 image c:
   * β1 runs b → n1 → c, β0 runs back the same way, and neither b nor n1
   * has a β2 image.  When c is the null dart, the null dart's β0 is n1.
   */
  lemma OneSidedSplitShape(t: BetaTable, b: nat, n1: nat, n2: nat)
    requires SplitReady(t, b, n1, n2) && t[b].b2 == NullDart
    ensures var u, c := SplitTable(t, b, n1, n2), t[b].b1;
      u[b].b1 == n1 && u[b].b2 == 0 && u[n1] == DartBetas(b, c, 0) && u[c].b0 == n1
  {
    FreeDartIsNotEdge(t, b, n1);
  }

  /**
   * The split of an edge of one dart keeps the table well formed exactly
   * when the old β1(b) is not the null dart.
   */
  lemma OneSidedSplitConsistent(t: BetaTable, b: nat, n1: nat, n2: nat)
    requires SplitReady(t, b, n1, n2) && t[b].b2 == NullDart
    ensures Consistent(SplitTable(t, b, n1, n2)) <==> t[b].b1 != NullDart
  {
    var c := t[b].b1;
    var t1 := OneUnlinked(t, b);
    FreeDartIsNotEdge(t, b, n1);
    OneUnlinkKeepsConsistent(t, b);
    OneLinkKeepsConsistent(t1, b, n1);
    var t2 := OneLinked(t1, b, n1);
    if c != NullDart {
      assert t2[c].b0 == 0 by {
        if c != b {
          assert t2[c] == t1[c];
        }
      }
      OneLinkKeepsConsistent(t2, n1, c);
    } else {
      OneSidedSplitShape(t, b, n1, n2);
      assert SplitTable(t, b, n1, n2)[0].b0 != 0;
    }
  }

  // ---------------------------------------------------------------- edge of two darts

  /** Opening a two-sided edge frees b and β2(b) on β1 and β2, and clears β0 of their old β1 images. */
  lemma TwoSidedOpenedFacts(t: BetaTable, b: nat)
    requires Consistent(t) && 0 < b < |t| && t[b].b2 != NullDart && t[b].b2 != b
    ensures var u, b2 := TwoSidedOpened(t, b), t[b].b2;
      var c, c2 := t[b].b1, t[b2].b1;
      Consistent(u) && u[b].b1 == 0 && u[b].b2 == 0 && u[b2].b1 == 0 && u[b2].b2 == 0
      && (c != 0 ==> u[c].b0 == 0) && (c2 != 0 ==> u[c2].b0 == 0)
      && (forall x :: 0 <= x < |t| && x != b && x != c && x != b2 && x != c2 ==> u[x] == t[x])
  {
    var b2 := t[b].b2;
    var t1 := OneUnlinked(t, b);
    assert t1[b2].b1 == t[b2].b1;
    var t2 := OneUnlinked(t1, b2);
    assert TwoSidedOpened(t, b) == TwoUnlinked(t2, b);
    OneUnlinkKeepsConsistent(t, b);
    OneUnlinkKeepsConsistent(t1, b2);
    TwoUnlinkKeepsConsistent(t2, b);
  }

  /** The darts a two-sided split links: the new ones are none of the edge's darts. */
  lemma TwoSidedDistinct(t: BetaTable, b: nat, n1: nat, n2: nat)
    requires SplitReady(t, b, n1, n2) && t[b].b2 != NullDart
    ensures var b2 := t[b].b2;
      var c, c2 := t[b].b1, t[b2].b1;
      n1 != c && n1 != b2 && n1 != c2 && n2 != b && n2 != c && n2 != b2 && n2 != c2
      && (c != 0 ==> c != c2)
  {
    FreeDartIsNotEdge(t, b, n1);
    FreeDartIsNotEdge(t, b, n2);
  }

  /** The first half of a two-sided split: b → n1 → c on the opened table. */
  lemma TwoSidedFirstHalf(t: BetaTable, b: nat, n1: nat, n2: nat)
    requires SplitReady(t, b, n1, n2) && t[b].b2 != NullDart
    ensures var b2 := t[b].b2;
      var c, c2 := t[b].b1, t[b2].b1;
      var v := Close(OneLinked(TwoSidedOpened(t, b), b, n1), n1, c, true);
      Consistent(v) && v[b].b1 == n1 && v[b].b2 == 0 && v[n1] == DartBetas(b, c, 0)
      && (c != 0 ==> v[c].b0 == n1)
      && v[b2].b1 == 0 && v[b2].b2 == 0 && v[n2] == FreeRow && (c2 != 0 ==> v[c2].b0 == 0)
      && (forall x :: 0 <= x < |t| && x != b && x != c && x != b2 && x != c2 && x != n1 ==> v[x] == t[x])
  {
    var b2 := t[b].b2;
    var c := t[b].b1;
    var t2 := TwoSidedOpened(t, b);
    TwoSidedOpenedFacts(t, b);
    TwoSidedDistinct(t, b, n1, n2);
    ThreadDart(t2, b, n1, c);
  }

  /** 1-links l to a free dart n, then n to r unless r is null: the run l → n → r. */
  lemma ThreadDart(v: BetaTable, l: nat, n: nat, r: nat)
    requires Consistent(v) && 0 < l < |v| && 0 < n < |v| && r < |v| && l != n && n != r
    requires v[l].b1 == 0 && v[n] == FreeRow && (r != 0 ==> v[r].b0 == 0)
    ensures var v1 := OneLinked(v, l, n);
      Consistent(v1) && v1[n].b1 == 0 && (r != 0 ==> v1[r].b0 == 0)
    ensures var w := Close(OneLinked(v, l, n), n, r, true);
      Consistent(w) && w[l].b1 == n && w[l].b2 == v[l].b2 && w[n] == DartBetas(l, r, 0)
      && (r != 0 ==> w[r].b0 == n)
      && (forall x :: 0 <= x < |v| && x != l && x != n && x != r ==> w[x] == v[x])
  {
    OneLinkKeepsConsistent(v, l, n);
    var v1 := OneLinked(v, l, n);
    if r != NullDart {
      assert v1[r].b0 == 0 by {
        if r != l {
          assert v1[r] == v[r];
        }
      }
      OneLinkKeepsConsistent(v1, n, r);
    }
  }

  /** The two β2 links that end a two-sided split: b ↔ n2, then b2 ↔ n1. */
  lemma PairNewDarts(v: BetaTable, b: nat, b2: nat, n1: nat, n2: nat)
    requires Consistent(v) && 0 < b < |v| && 0 < b2 < |v| && 0 < n1 < |v| && 0 < n2 < |v|
    requires b != b2 && b != n1 && b != n2 && b2 != n1 && b2 != n2 && n1 != n2
    requires v[b].b2 == 0 && v[b2].b2 == 0 && v[n1].b2 == 0 && v[n2].b2 == 0
    ensures var w := TwoLinked(TwoLinked(v, b, n2), b2, n1);
      Consistent(w) && w[b] == v[b].(b2 := n2) && w[n2] == v[n2].(b2 := b)
      && w[b2] == v[b2].(b2 := n1) && w[n1] == v[n1].(b2 := b2)
      && (forall x :: 0 <= x < |v| && x != b && x != b2 && x != n1 && x != n2 ==> w[x] == v[x])
  {
    TwoLinkKeepsConsistent(v, b, n2);
    TwoLinkKeepsConsistent(TwoLinked(v, b, n2), b2, n1);
  }

  /** The tables a two-sided split goes through, with their facts: v after the first half, w after β2(b) → n2 → c2. */
  lemma TwoSidedSteps(t: BetaTable, b: nat, n1: nat, n2: nat) returns (v: BetaTable, w: BetaTable)
    requires SplitReady(t, b, n1, n2) && t[b].b2 != NullDart
    ensures var b2 := t[b].b2;
      var c, c2 := t[b].b1, t[b2].b1;
      v == Close(OneLinked(TwoSidedOpened(t, b), b, n1), n1, c, true)
      && w == Close(OneLinked(v, b2, n2), n2, c2, true)
      && SplitTable(t, b, n1, n2) == TwoLinked(TwoLinked(w, b, n2), b2, n1)
      && Consistent(w) && |w| == |t|
      && w[b2].b1 == n2 && w[b2].b2 == 0 && w[n2] == DartBetas(b2, c2, 0) && (c2 != 0 ==> w[c2].b0 == n2)
      && (forall x :: 0 <= x < |t| && x != b2 && x != n2 && x != c2 ==> w[x] == v[x])
  {
    var b2 := t[b].b2;
    var c, c2 := t[b].b1, t[b2].b1;
    v := Close(OneLinked(TwoSidedOpened(t, b), b, n1), n1, c, true);
    TwoSidedFirstHalf(t, b, n1, n2);
    TwoSidedDistinct(t, b, n1, n2);
    ThreadDart(v, b2, n2, c2);
    w := Close(OneLinked(v, b2, n2), n2, c2, true);
  }

  /** A two-sided split keeps the table well formed. */
  lemma TwoSidedSplitConsistent(t: BetaTable, b: nat, n1: nat, n2: nat)
    requires SplitReady(t, b, n1, n2) && t[b].b2 != NullDart
    ensures Consistent(SplitTable(t, b, n1, n2))
  {
    var v, w := TwoSidedSteps(t, b, n1, n2);
    TwoSidedFirstHalf(t, b, n1, n2);
    TwoSidedDistinct(t, b, n1, n2);
    PairNewDarts(w, b, t[b].b2, n1, n2);
  }

  /**
   * A two-sided split: β1 runs b → n1 → c and β2(b) → n2 → c2 (c2 the old
   * β1 of β2(b)), β0 runs back the same way, and the β2 pairs become
   * b ↔ n2 and β2(b) ↔ n1.
   */
  lemma TwoSidedSplitShape(t: BetaTable, b: nat, n1: nat, n2: nat)
    requires SplitReady(t, b, n1, n2) && t[b].b2 != NullDart
    ensures var u, b2 := SplitTable(t, b, n1, n2), t[b].b2;
      var c, c2 := t[b].b1, t[b2].b1;
      u[b].b1 == n1 && u[b].b2 == n2 && u[n1] == DartBetas(b, c, b2) && (c != 0 ==> u[c].b0 == n1)
      && u[b2].b1 == n2 && u[b2].b2 == n1 && u[n2] == DartBetas(b2, c2, b) && (c2 != 0 ==> u[c2].b0 == n2)
  {
    var v, w := TwoSidedSteps(t, b, n1, n2);
    TwoSidedFirstHalf(t, b, n1, n2);
    TwoSidedDistinct(t, b, n1, n2);
    PairNewDarts(w, b, t[b].b2, n1, n2);
  }

  /** Outside b, β2(b), their old β1 images and the new darts, a two-sided split changes nothing. */
  lemma TwoSidedSplitFrame(t: BetaTable, b: nat, n1: nat, n2: nat)
    requires SplitReady(t, b, n1, n2) && t[b].b2 != NullDart
    ensures var u, b2 := SplitTable(t, b, n1, n2), t[b].b2;
      forall x :: 0 <= x < |t| && x != b && x != t[b].b1 && x != b2 && x != t[b2].b1 && x != n1 && x != n2 ==> u[x] == t[x]
  {
    var v, w := TwoSidedSteps(t, b, n1, n2);
    TwoSidedFirstHalf(t, b, n1, n2);
    TwoSidedDistinct(t, b, n1, n2);
    PairNewDarts(w, b, t[b].b2, n1, n2);
  }

  /**
   * The split touches no dart besides b, β2(b), their old β1 images and the
   * new darts.
   */
  lemma SplitFrame(t: BetaTable, b: nat, n1: nat, n2: nat, x: nat)
    requires SplitReady(t, b, n1, n2) && x < |t|
    requires x != b && x != t[b].b1 && x != n1
    requires t[b].b2 != NullDart ==> x != t[b].b2 && x != t[t[b].b2].b1 && x != n2
    ensures SplitTable(t, b, n1, n2)[x] == t[x]
  {
    if t[b].b2 != NullDart {
      TwoSidedSplitFrame(t, b, n1, n2);
    } else {
      FreeDartIsNotEdge(t, b, n1);
    }
  }

  // ---------------------------------------------------------------- the operations on a map

  /** The rewiring of an edge of one dart, with the source's `set_beta` calls and links. */
  method RewireOneSided(m: CMap2, b: nat, n1: nat, ghost n2: nat)
    requires m.Valid() && SplitReady(m.betas, b, n1, n2) && m.betas[b].b2 == NullDart
    modifies m
    ensures m.Valid() && m.nDarts == old(m.nDarts) && m.unusedDarts == old(m.unusedDarts)
    ensures m.betas == SplitTable(old(m.betas), b, n1, n2)
  {
    ghost var t := m.betas;
    var c := m.BetaOf(1, b);
    FreeDartIsNotEdge(t, b, n1);
    m.SetBeta(1, b, 0);
    m.SetBeta(0, c, 0);
    OneUnlinkKeepsConsistent(t, b);
    m.OneLink(b, n1);
    m.OneLink(n1, c);
  }

  /** The four `set_beta` calls and the 2-unlink that open an edge of two darts. */
  method OpenTwoSided(m: CMap2, b: nat) returns (b2: nat, c: nat, c2: nat)
    requires m.Valid() && Consistent(m.betas) && 0 < b < m.nDarts && m.betas[b].b2 != NullDart
    modifies m
    ensures m.Valid() && m.nDarts == old(m.nDarts) && m.unusedDarts == old(m.unusedDarts)
    ensures b2 == old(m.betas[b].b2) && c == old(m.betas[b].b1) && c2 == old(m.betas[b2].b1)
    ensures m.betas == TwoSidedOpened(old(m.betas), b)
  {
    b2 := m.BetaOf(2, b);
    c := m.BetaOf(1, b);
    c2 := m.BetaOf(1, b2);
    m.SetBeta(1, b, 0);
    m.SetBeta(0, c, 0);
    m.SetBeta(1, b2, 0);
    m.SetBeta(0, c2, 0);
    m.TwoUnlink(b);
  }

  /** `one_link(l, n)`, then `one_link(n, r)` unless r is null. */
  method ThreadNewDart(m: CMap2, l: nat, n: nat, r: nat)
    requires m.Valid() && Consistent(m.betas) && 0 < l < m.nDarts && 0 < n < m.nDarts && r < m.nDarts
    requires l != n && n != r && m.betas[l].b1 == 0 && m.betas[n] == FreeRow && (r != 0 ==> m.betas[r].b0 == 0)
    modifies m
    ensures m.Valid() && m.nDarts == old(m.nDarts) && m.unusedDarts == old(m.unusedDarts)
    ensures m.betas == Close(OneLinked(old(m.betas), l, n), n, r, true)
  {
    ThreadDart(m.betas, l, n, r);
    m.OneLink(l, n);
    if r != NullDart {
      m.OneLink(n, r);
    }
  }

  /** The rewiring of an edge of two darts, with the source's `set_beta` calls and links. */
  method RewireTwoSided(m: CMap2, b: nat, n1: nat, n2: nat)
    requires m.Valid() && SplitReady(m.betas, b, n1, n2) && m.betas[b].b2 != NullDart
    modifies m
    ensures m.Valid() && m.nDarts == old(m.nDarts) && m.unusedDarts == old(m.unusedDarts)
    ensures m.betas == SplitTable(old(m.betas), b, n1, n2)
  {
    ghost var t := m.betas;
    var b2, c, c2 := OpenTwoSided(m, b);
    TwoSidedOpenedFacts(t, b);
    TwoSidedDistinct(t, b, n1, n2);
    ThreadNewDart(m, b, n1, c);
    TwoSidedFirstHalf(t, b, n1, n2);
    ThreadNewDart(m, b2, n2, c2);
    ghost var v, w := TwoSidedSteps(t, b, n1, n2);
    m.TwoLink(b, n2);
    m.TwoLink(b2, n1);
  }

  /**
   * `inner_split`: refuses the edge, before changing anything, when one of
   * its end vertices has no value (those of b and β1(b) on an edge of one
   * dart, of b and β2(b) on an edge of two); otherwise rewires it as
   * SplitTable.  The null dart's vertex is the one looked up when β1(b) is
   * null on an edge of one dart, so as long as the null dart has no vertex
   * the unguarded link to β1(b) never reaches the null dart.
   */
  method InnerSplit(m: CMap2, b: nat, n1: nat, n2: nat) returns (r: Result<(), SplitEdgeError>)
    requires m.Valid() && SplitReady(m.betas, b, n1, n2)
    modifies m
    ensures m.Valid() && m.nDarts == old(m.nDarts) && m.unusedDarts == old(m.unusedDarts)
    ensures r.Ok? <==> old(m.vertices.data[m.VertexId(b)]).Some? && old(m.vertices.data[m.VertexId(FarEnd(m.betas, b))]).Some?
    ensures r.Err? ==> r == Err(UndefinedEdge) && m.betas == old(m.betas)
    ensures r.Ok? ==> m.betas == SplitTable(old(m.betas), b, n1, n2)
    ensures r.Ok? && old(m.vertices.data[NullDart]).None? ==> Consistent(m.betas)
  {
    if m.vertices.data[m.VertexId(b)].None? || m.vertices.data[m.VertexId(FarEnd(m.betas, b))].None? {
      return Err(UndefinedEdge);
    }
    Rewire(m, b, n1, n2);
    r := Ok(());
  }

  /** The rewiring of either case; it keeps the table well formed unless the edge ends in the null dart. */
  method Rewire(m: CMap2, b: nat, n1: nat, n2: nat)
    requires m.Valid() && SplitReady(m.betas, b, n1, n2)
    modifies m
    ensures m.Valid() && m.nDarts == old(m.nDarts) && m.unusedDarts == old(m.unusedDarts)
    ensures m.betas == SplitTable(old(m.betas), b, n1, n2)
    ensures FarEnd(old(m.betas), b) != NullDart ==> Consistent(m.betas)
  {
    ghost var t := m.betas;
    if m.BetaOf(2, b) == NullDart {
      RewireOneSided(m, b, n1, n2);
      OneSidedSplitConsistent(t, b, n1, n2);
    } else {
      RewireTwoSided(m, b, n1, n2);
      TwoSidedSplitConsistent(t, b, n1, n2);
    }
  }

  /**
   * The checks `split_edge_noalloc` makes before the split, in order: a
   * midpoint outside ]0; 1[, then a first new dart that is null or not
   * free, then (on an edge of two darts only) a second one that is.
   */
  function SplitPreChecks(t: BetaTable, b: nat, n1: nat, n2: nat, mid: Option<real>): (e: Option<SplitEdgeError>)
    requires b < |t| && n1 < |t| && (t[b].b2 != NullDart ==> n2 < |t|)
    ensures e == Some(VertexBound) <==> mid.Some? && !Inside(mid.value)
    ensures e.None? <==>
      (mid.None? || Inside(mid.value)) && n1 != NullDart && t[n1] == FreeRow
      && (t[b].b2 != NullDart ==> n2 != NullDart && t[n2] == FreeRow)
    ensures e.Some? && e != Some(VertexBound) ==> e.value.InvalidDarts?
  {
    if mid.Some? && !Inside(mid.value) then Some(VertexBound)
    else if n1 == NullDart || t[n1] != FreeRow then Some(InvalidDarts("first dart is null or not free"))
    else if t[b].b2 != NullDart && (n2 == NullDart || t[n2] != FreeRow) then Some(InvalidDarts("second dart is null or not free"))
    else None
  }

  /**
   * `split_edge_noalloc`: the split with caller-provided darts; a refused
   * split leaves the map as it was.
   */
  method SplitEdgeNoAlloc(m: CMap2, b: nat, n1: nat, n2: nat, mid: Option<real>) returns (r: Result<(), SplitEdgeError>)
    requires m.Valid() && Consistent(m.betas) && 0 < b < m.nDarts && m.betas[b].b2 != b
    requires n1 < m.nDarts && n1 != b && (m.betas[b].b2 != NullDart ==> n2 < m.nDarts && n2 != n1)
    modifies m
    ensures m.Valid() && m.nDarts == old(m.nDarts) && m.unusedDarts == old(m.unusedDarts)
    ensures r.Err? ==> m.betas == old(m.betas)
    ensures var e := SplitPreChecks(old(m.betas), b, n1, n2, mid);
      e.Some? ==> r == Err(e.value)
    ensures var e := SplitPreChecks(old(m.betas), b, n1, n2, mid);
      e.None? ==>
        (r.Ok? <==> old(m.vertices.data[m.VertexId(b)]).Some? && old(m.vertices.data[m.VertexId(FarEnd(m.betas, b))]).Some?)
        && (r.Err? ==> r == Err(UndefinedEdge))
        && (r.Ok? ==> m.betas == SplitTable(old(m.betas), b, n1, n2))
  {
    if mid.Some? && !Inside(mid.value) {
      return Err(VertexBound);
    }
    var b2 := m.BetaOf(2, b);
    if n1 == NullDart || !m.IsFree(n1) {
      return Err(InvalidDarts("first dart is null or not free"));
    }
    if b2 != NullDart && (n2 == NullDart || !m.IsFree(n2)) {
      return Err(InvalidDarts("second dart is null or not free"));
    }
    r := InnerSplit(m, b, n1, n2);
  }

  /** The darts `split_edge` appends: one for an edge of one dart, two for an edge of two. */
  method AllocateSplitDarts(m: CMap2, b: nat) returns (n1: nat, n2: nat)
    requires m.Valid() && Consistent(m.betas) && 0 < b < m.nDarts && m.betas[b].b2 != b
    modifies m, m.vertices
    ensures m.Valid() && m.unusedDarts == old(m.unusedDarts)
    ensures var k := if old(m.betas[b].b2) == NullDart then 1 else 2;
      m.nDarts == old(m.nDarts) + k && m.vertices.data == old(m.vertices.data) + NoneSlots(k)
      && m.betas == old(m.betas) + FreeRows(k)
      && n1 == old(m.nDarts) && n2 == (if k == 1 then NullDart else n1 + 1)
    ensures SplitReady(m.betas, b, n1, n2)
  {
    ghost var t := m.betas;
    var b2 := m.BetaOf(2, b);
    if b2 == NullDart {
      n1 := m.AddFreeDart();
      n2 := NullDart;
      assert [FreeRow] == FreeRows(1);
      AppendFreeRowsKeepsConsistent(t, 1);
    } else {
      n1 := m.AddFreeDarts(2);
      n2 := n1 + 1;
      AppendFreeRowsKeepsConsistent(t, 2);
      assert m.betas[n2] == FreeRows(2)[1];
    }
    assert m.betas[b] == t[b];
  }

  /**
   * `split_edge`: checks the midpoint, appends one new dart for an edge of
   * one dart or two for an edge of two (they stay in the map even when the
   * split is then refused), and splits with them.
   */
  method SplitEdge(m: CMap2, b: nat, mid: Option<real>) returns (r: Result<(), SplitEdgeError>)
    requires m.Valid() && Consistent(m.betas) && 0 < b < m.nDarts && m.betas[b].b2 != b
    modifies m, m.vertices
    ensures m.Valid() && m.unusedDarts == old(m.unusedDarts)
    ensures mid.Some? && !Inside(mid.value) ==>
      r == Err(VertexBound) && m.nDarts == old(m.nDarts) && m.betas == old(m.betas)
      && m.vertices.data == old(m.vertices.data)
    ensures var k := if old(m.betas[b].b2) == NullDart then 1 else 2;
      (mid.None? || Inside(mid.value)) ==>
        m.nDarts == old(m.nDarts) + k && m.vertices.data == old(m.vertices.data) + NoneSlots(k)
        && (r.Err? ==>
              r == Err(UndefinedEdge) && m.betas == old(m.betas) + FreeRows(k)
              && (m.vertices.data[m.VertexId(b)].None? || m.vertices.data[m.VertexId(FarEnd(m.betas, b))].None?))
    ensures var k := if old(m.betas[b].b2) == NullDart then 1 else 2;
      var n := old(m.nDarts);
      r.Ok? ==>
        (mid.None? || Inside(mid.value))
        && m.betas == SplitTable(old(m.betas) + FreeRows(k), b, n, if k == 1 then NullDart else n + 1)
  {
    if mid.Some? && !Inside(mid.value) {
      return Err(VertexBound);
    }
    var n1, n2 := AllocateSplitDarts(m, b);
    r := InnerSplit(m, b, n1, n2);
  }
}
