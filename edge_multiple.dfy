/**
 * Splitting an edge into n + 1 segments (`splitn_edge` and its variant with
 * pre-allocated darts).  The β rewiring is first given as a function from
 * table to table, `SplitnWith`, whose properties are proved here; the
 * methods on the map then apply it link by link.
 *
 * Vertex coordinates are not modelled: the new vertices' positions are
 * never written, and only the presence of the two end vertices is checked.
 */
module EdgeMultiple {
  import opened Wrappers
  import opened SeqUtil
  import opened AttributeCollections
  import opened Betas
  import opened Splits
  import opened TwoMap

  // ---------------------------------------------------------------- the rewiring as a function

  /**
   * The link that closes a chain onto r, the old β1 image of the chain's
   * first dart.  As written the source makes it even when r is the null
   * dart; the corrected version skips it then, as the single split does.
   */
  function Close(t: BetaTable, l: nat, r: nat, guarded: bool): (u: BetaTable)
    requires l < |t| && r < |t|
    ensures |u| == |t|
  {
    if guarded && r == NullDart then t else OneLinked(t, l, r)
  }

  /** Clears β1(b) and β0 of its old image, then the β2 link of b if it has one. */
  function Opened(t: BetaTable, b: nat): (u: BetaTable)
    requires InRange(t) && b < |t|
    ensures |u| == |t|
  {
    var t1 := OneUnlinked(t, b);
    if t[b].b2 != NullDart then TwoUnlinked(t1, b) else t1
  }

  /** The first side: the darts of fh threaded between b and its old β1 image. */
  function FirstSide(t: BetaTable, b: nat, fh: seq<nat>, guarded: bool): (u: BetaTable)
    requires InRange(t) && b < |t| && AllBelow(fh, |t|)
    ensures |u| == |t|
  {
    Close(ChainOne(Opened(t, b), b, fh), LastOr(b, fh), t[b].b1, guarded)
  }

  /**
   * The end of the second side, from the table t5 in which b2 is 1-free:
   * the second chain from b2 over ms and sh, the 1-link of its last dart q
   * to c2 (skipped when guarded and c2 is null), and the 2-link of q with b.
   */
  function Tail(t5: BetaTable, b: nat, b2: nat, ms: seq<nat>, sh: seq<nat>, c2: nat, guarded: bool): (u: BetaTable)
    requires b2 < |t5| && b < |t5| && c2 < |t5| && AllBelow(ms, |t5|) && AllBelow(sh, |t5|) && |ms| == |sh|
    ensures |u| == |t5|
  {
    var q := LastOr(b2, sh);
    TwoLinked(Close(ChainTwo(t5, b2, ms, sh), q, c2, guarded), q, b)
  }

  /**
   * The second side, on b2: the darts of sh threaded between b2 and its
   * β1 image, each dart of the chain 2-linked with the first-side dart
   * across, and the last one 2-linked with b.
   */
  function SecondSide(v: BetaTable, b: nat, b2: nat, fh: seq<nat>, sh: seq<nat>, guarded: bool): (u: BetaTable)
    requires b < |v| && b2 < |v| && v[b2].b1 < |v| && AllBelow(fh, |v|) && AllBelow(sh, |v|) && |fh| == |sh|
    ensures |u| == |v|
  {
    Tail(OneUnlinked(v, b2), b, b2, Reversed(fh), sh, v[b2].b1, guarded)
  }

  /** `inner_splitn`'s rewiring of the edge of b with first-half darts fh and second-half darts sh. */
  function SplitnWith(t: BetaTable, b: nat, fh: seq<nat>, sh: seq<nat>, guarded: bool): (u: BetaTable)
    requires InRange(t) && b < |t| && AllBelow(fh, |t|) && AllBelow(sh, |t|) && |fh| == |sh|
    ensures |u| == |t|
  {
    var v := FirstSide(t, b, fh, guarded);
    if t[b].b2 == NullDart then v
    else
      FirstSideInRange(t, b, fh, guarded);
      SecondSide(v, b, t[b].b2, fh, sh, guarded)
  }

  /** The rewiring as the source writes it: both closing links are made unconditionally. */
  function SplitnAsWritten(t: BetaTable, b: nat, fh: seq<nat>, sh: seq<nat>): (u: BetaTable)
    requires InRange(t) && b < |t| && AllBelow(fh, |t|) && AllBelow(sh, |t|) && |fh| == |sh|
    ensures |u| == |t|
  {
    SplitnWith(t, b, fh, sh, false)
  }

  /** The corrected rewiring: a closing link to the null dart is skipped. */
  function SplitnTable(t: BetaTable, b: nat, fh: seq<nat>, sh: seq<nat>): (u: BetaTable)
    requires InRange(t) && b < |t| && AllBelow(fh, |t|) && AllBelow(sh, |t|) && |fh| == |sh|
    ensures |u| == |t|
  {
    SplitnWith(t, b, fh, sh, true)
  }

  // ---------------------------------------------------------------- images stay in range

  lemma OneLinkedInRange(t: BetaTable, l: nat, r: nat)
    requires InRange(t) && l < |t| && r < |t|
    ensures InRange(OneLinked(t, l, r))
  {
    var u := OneLinked(t, l, r);
    forall d | 0 <= d < |t|
      ensures u[d].b0 < |t| && u[d].b1 < |t| && u[d].b2 < |t|
    {
      if d != l && d != r {
        assert u[d] == t[d];
      }
    }
  }

  lemma {:induction false} ChainOneInRange(t: BetaTable, p: nat, ds: seq<nat>)
    requires InRange(t) && p < |t| && AllBelow(ds, |t|)
    ensures InRange(ChainOne(t, p, ds))
  {
    if ds != [] {
      var pre := ds[..|ds| - 1];
      ChainOneInRange(t, p, pre);
      OneLinkedInRange(ChainOne(t, p, pre), LastOr(p, pre), ds[|ds| - 1]);
    }
  }

  lemma OpenedInRange(t: BetaTable, b: nat)
    requires InRange(t) && b < |t|
    ensures InRange(Opened(t, b))
  {
    var t1 := OneUnlinked(t, b);
    assert InRange(t1) by {
      forall d | 0 <= d < |t|
        ensures t1[d].b0 < |t| && t1[d].b1 < |t| && t1[d].b2 < |t|
      {
        if d != b && d != t[b].b1 {
          assert t1[d] == t[d];
        }
      }
    }
    if t[b].b2 != NullDart {
      var t2 := TwoUnlinked(t1, b);
      forall d | 0 <= d < |t|
        ensures t2[d].b0 < |t| && t2[d].b1 < |t| && t2[d].b2 < |t|
      {
        if d != b && d != t1[b].b2 {
          assert t2[d] == t1[d];
        }
      }
    }
  }

  lemma FirstSideInRange(t: BetaTable, b: nat, fh: seq<nat>, guarded: bool)
    requires InRange(t) && b < |t| && AllBelow(fh, |t|)
    ensures InRange(FirstSide(t, b, fh, guarded))
  {
    OpenedInRange(t, b);
    ChainOneInRange(Opened(t, b), b, fh);
    if !(guarded && t[b].b1 == NullDart) {
      OneLinkedInRange(ChainOne(Opened(t, b), b, fh), LastOr(b, fh), t[b].b1);
    }
  }

  // ---------------------------------------------------------------- what the rewiring relies on

  /**
   * The darts the rewiring is given: a well-formed table; b a non-null dart
   * that is not its own β2 image; the darts of fh non-null, free, distinct
   * and other than b; when b has a β2 image, the darts of sh non-null, free
   * and distinct too, and no dart in both halves.
   */
  ghost predicate SplitnReady(t: BetaTable, b: nat, fh: seq<nat>, sh: seq<nat>)
  {
    Consistent(t) && 0 < b < |t| && |fh| == |sh| && AllBelow(fh, |t|) && AllBelow(sh, |t|)
    && t[b].b2 != b && b !in fh && NoRepeats(fh)
    && (forall k :: 0 <= k < |fh| ==> fh[k] != NullDart && t[fh[k]] == FreeRow)
    && (t[b].b2 != NullDart ==>
          NoRepeats(sh)
          && (forall k :: 0 <= k < |sh| ==> sh[k] != NullDart && t[sh[k]] == FreeRow)
          && (forall i, j :: 0 <= i < |fh| && 0 <= j < |sh| ==> fh[i] != sh[j]))
  }

  /** A free dart is none of b, β1(b), β2(b) and β1(β2(b)). */
  lemma FreeDartIsNotEdge(t: BetaTable, b: nat, x: nat)
    requires Consistent(t) && 0 < b < |t| && 0 < x < |t| && t[x] == FreeRow && x != b
    ensures x != t[b].b1 && x != t[b].b2 && x != t[t[b].b2].b1
  {
    FreeDartIsNoImage(t, x, b);
    FreeDartIsNoImage(t, x, t[b].b2);
  }

  /** After opening: b is 1- and 2-free, β0 of its old β1 image is null, β2(b) keeps its β1. */
  lemma OpenedFacts(t: BetaTable, b: nat)
    requires Consistent(t) && 0 < b < |t| && t[b].b2 != b
    ensures var u, c, b2 := Opened(t, b), t[b].b1, t[b].b2;
      Consistent(u) && u[b].b1 == 0 && u[b].b2 == 0
      && (c != 0 ==> u[c].b0 == 0)
      && (b2 != 0 ==> u[b2].b2 == 0 && u[b2].b1 == t[b2].b1)
      && (forall x :: 0 <= x < |t| && x != b && x != c && x != b2 ==> u[x] == t[x])
  {
    var t1 := OneUnlinked(t, b);
    OneUnlinkKeepsConsistent(t, b);
    if t[b].b2 != NullDart {
      TwoUnlinkKeepsConsistent(t1, b);
    }
  }

  /** The first chain may run from b on the opened table; the new darts are none of the edge's darts. */
  lemma FirstSideSetup(t: BetaTable, b: nat, fh: seq<nat>, sh: seq<nat>)
    requires SplitnReady(t, b, fh, sh)
    ensures ChainOneReady(Opened(t, b), b, fh)
    ensures forall k :: 0 <= k < |fh| ==> fh[k] != t[b].b1 && fh[k] != t[b].b2
  {
    var t2 := Opened(t, b);
    OpenedFacts(t, b);
    forall k | 0 <= k < |fh|
      ensures fh[k] != t[b].b1 && fh[k] != t[b].b2 && t2[fh[k]] == FreeRow
    {
      FreeDartIsNotEdge(t, b, fh[k]);
    }
  }

  /** The corrected first side keeps the table well formed. */
  lemma FirstSideConsistent(t: BetaTable, b: nat, fh: seq<nat>, sh: seq<nat>)
    requires SplitnReady(t, b, fh, sh)
    ensures Consistent(FirstSide(t, b, fh, true))
  {
    var c := t[b].b1;
    var t2 := Opened(t, b);
    OpenedFacts(t, b);
    FirstSideSetup(t, b, fh, sh);
    ChainOneLinks(t2, b, fh);
    ChainOneConsistent(t2, b, fh);
    var t3 := ChainOne(t2, b, fh);
    if c != NullDart {
      assert t3[c].b0 == 0 by {
        if c != b {
          assert t3[c] == t2[c];
        }
      }
      OneLinkKeepsConsistent(t3, LastOr(b, fh), c);
    }
  }

  /**
   * After the first side β1 runs b, fh[0], ..., fh[n-1], β1(b).  When the
   * last link is skipped, β1 of the last dart stays null, which is β1(b).
   */
  lemma FirstSideRun(t: BetaTable, b: nat, fh: seq<nat>, sh: seq<nat>, guarded: bool)
    requires SplitnReady(t, b, fh, sh)
    ensures var u, c := FirstSide(t, b, fh, guarded), t[b].b1;
      && u[b].b1 == (if fh == [] then c else fh[0])
      && (forall k :: 0 <= k < |fh| - 1 ==> u[fh[k]].b1 == fh[k + 1])
      && (fh != [] ==> u[fh[|fh| - 1]].b1 == c)
  {
    var c := t[b].b1;
    var t2 := Opened(t, b);
    FirstSideSetup(t, b, fh, sh);
    ChainOneLinks(t2, b, fh);
    var t3 := ChainOne(t2, b, fh);
    var l := LastOr(b, fh);
    var u := FirstSide(t, b, fh, guarded);
    assert u == Close(t3, l, c, guarded);
    assert l != c || fh == [];
    if fh != [] {
      assert u[b].b1 == t3[b].b1;
    }
    forall k | 0 <= k < |fh| - 1
      ensures u[fh[k]].b1 == fh[k + 1]
    {
      assert fh[k] != l;
    }
  }

  /**
   * After the first side the new darts and b are 2-free, β2(b) keeps its β1
   * image, and nothing outside b, β1(b), β2(b) and fh changes.
   */
  lemma FirstSideFrame(t: BetaTable, b: nat, fh: seq<nat>, sh: seq<nat>, guarded: bool)
    requires SplitnReady(t, b, fh, sh)
    ensures var u, c, b2 := FirstSide(t, b, fh, guarded), t[b].b1, t[b].b2;
      && (forall k :: 0 <= k < |fh| ==> u[fh[k]].b2 == 0)
      && u[b].b2 == 0
      && (b2 != 0 ==> u[b2].b2 == 0 && u[b2].b1 == t[b2].b1)
      && (forall x :: 0 <= x < |t| && x != b && x != c && x != b2 && x !in fh ==> u[x] == t[x])
  {
    var c, b2 := t[b].b1, t[b].b2;
    var t2 := Opened(t, b);
    OpenedFacts(t, b);
    FirstSideSetup(t, b, fh, sh);
    ChainOneLinks(t2, b, fh);
    var t3 := ChainOne(t2, b, fh);
    var l := LastOr(b, fh);
    var u := FirstSide(t, b, fh, guarded);
    assert u == Close(t3, l, c, guarded);
    assert l != c || fh == [];
    forall k | 0 <= k < |fh|
      ensures u[fh[k]].b2 == 0
    {
      assert t3[fh[k]].b2 == t2[fh[k]].b2;
    }
    if b2 != NullDart {
      assert t3[b2] == t2[b2];
    }
    forall x | 0 <= x < |t| && x != b && x != c && x != b2 && x !in fh
      ensures u[x] == t[x]
    {
      assert t3[x] == t2[x];
    }
  }

  /**
   * The second chain may run from β2(b) once β2(b) is 1-unlinked, and the
   * darts involved are told apart: no dart of sh is b, β1(b) or the old
   * β1(β2(b)), which no dart of fh is either.
   */
  lemma SecondSideSetup(t: BetaTable, b: nat, fh: seq<nat>, sh: seq<nat>, guarded: bool)
    requires SplitnReady(t, b, fh, sh) && t[b].b2 != NullDart
    ensures var v, b2 := FirstSide(t, b, fh, guarded), t[b].b2;
      && v[b2].b1 == t[b2].b1
      && ChainTwoReady(OneUnlinked(v, b2), b2, Reversed(fh), sh)
      && (guarded ==> Consistent(OneUnlinked(v, b2)))
      && (forall k :: 0 <= k < |sh| ==> sh[k] != b && sh[k] != t[b].b1 && sh[k] != t[b2].b1)
      && (forall k :: 0 <= k < |fh| ==> fh[k] != t[b2].b1)
  {
    var v, b2 := FirstSide(t, b, fh, guarded), t[b].b2;
    var c2 := t[b2].b1;
    FirstSideFrame(t, b, fh, sh, guarded);
    var t5 := OneUnlinked(v, b2);
    if guarded {
      FirstSideConsistent(t, b, fh, sh);
      OneUnlinkKeepsConsistent(v, b2);
    }
    forall k | 0 <= k < |sh|
      ensures sh[k] != b && sh[k] != t[b].b1 && sh[k] != c2 && sh[k] != b2 && t5[sh[k]] == FreeRow
    {
      FreeDartIsNotEdge(t, b, sh[k]);
      assert sh[k] !in fh;
    }
    forall k | 0 <= k < |fh|
      ensures fh[k] != c2 && fh[k] != b2 && t5[fh[k]].b2 == 0
    {
      FreeDartIsNotEdge(t, b, fh[k]);
    }
    var ms := Reversed(fh);
    assert NoRepeats(ms) by {
      forall i, j | 0 <= i < j < |ms|
        ensures ms[i] != ms[j]
      {
        assert ms[i] == fh[|fh| - 1 - i] && ms[j] == fh[|fh| - 1 - j];
      }
    }
    assert ChainTwoReady(t5, b2, ms, sh);
  }

  /** The second chain, its guarded closing link and the final 2-link keep a table well formed. */
  lemma SecondTailConsistent(t5: BetaTable, b: nat, b2: nat, ms: seq<nat>, sh: seq<nat>, c2: nat)
    requires Consistent(t5) && ChainTwoReady(t5, b2, ms, sh) && 0 < b2 && 0 < b < |t5| && c2 < |t5|
    requires forall k :: 0 <= k < |ms| ==> ms[k] != 0 && sh[k] != 0
    requires c2 != NullDart ==> t5[c2].b0 == 0 && c2 !in ms && c2 !in sh
    requires b != b2 && b !in ms && b !in sh && t5[b].b2 == 0
    ensures Consistent(Tail(t5, b, b2, ms, sh, c2, true))
  {
    ChainTwoConsistent(t5, b2, ms, sh);
    ChainTwoLinks(t5, b2, ms, sh);
    var t6 := ChainTwo(t5, b2, ms, sh);
    assert ChainTwoEnds(t5, t6, b2, ms, sh);
    assert ChainTwoFrame(t5, t6, b2, ms, sh);
    var q := LastOr(b2, sh);
    if c2 != NullDart {
      assert t6[c2].b0 == 0 by {
        if c2 != b2 {
          assert t6[c2] == t5[c2];
        }
      }
      OneLinkKeepsConsistent(t6, q, c2);
    }
    var t7 := Close(t6, q, c2, true);
    assert t6[b] == t5[b];
    TwoLinkKeepsConsistent(t7, q, b);
  }

  /** The corrected second side keeps the table well formed. */
  lemma SecondSideConsistent(t: BetaTable, b: nat, fh: seq<nat>, sh: seq<nat>)
    requires SplitnReady(t, b, fh, sh) && t[b].b2 != NullDart
    ensures Consistent(SplitnTable(t, b, fh, sh))
  {
    var v, b2 := FirstSide(t, b, fh, true), t[b].b2;
    var c2 := t[b2].b1;
    FirstSideInRange(t, b, fh, true);
    FirstSideFrame(t, b, fh, sh, true);
    SecondSideSetup(t, b, fh, sh, true);
    var t5 := OneUnlinked(v, b2);
    var ms := Reversed(fh);
    assert c2 != NullDart ==> t5[c2].b0 == 0;
    assert b !in ms && b !in sh && t5[b].b2 == 0;
    SecondTailConsistent(t5, b, b2, ms, sh, c2);
  }

  /** What the second side's chain and links are given, in terms of the table t5 they start from. */
  ghost predicate TailReady(t5: BetaTable, b: nat, b2: nat, ms: seq<nat>, sh: seq<nat>, c2: nat)
  {
    ChainTwoReady(t5, b2, ms, sh) && b < |t5| && c2 < |t5|
    && c2 !in ms && c2 !in sh && b != b2 && b !in ms && b !in sh
  }

  /** On the second side β1 runs b2, sh[0], ..., sh[n-1], c2. */
  lemma TailRun(t5: BetaTable, b: nat, b2: nat, ms: seq<nat>, sh: seq<nat>, c2: nat, guarded: bool)
    requires TailReady(t5, b, b2, ms, sh, c2)
    ensures var u := Tail(t5, b, b2, ms, sh, c2, guarded);
      && u[b2].b1 == (if sh == [] then c2 else sh[0])
      && (forall k :: 0 <= k < |sh| - 1 ==> u[sh[k]].b1 == sh[k + 1])
      && (sh != [] ==> u[sh[|sh| - 1]].b1 == c2)
  {
    ChainTwoLinks(t5, b2, ms, sh);
    var t6 := ChainTwo(t5, b2, ms, sh);
    assert ChainTwoEnds(t5, t6, b2, ms, sh);
    assert ChainTwoSides(t5, t6, b2, ms, sh);
    var q := LastOr(b2, sh);
    var u := Tail(t5, b, b2, ms, sh, c2, guarded);
    forall k | 0 <= k < |sh| - 1
      ensures u[sh[k]].b1 == sh[k + 1]
    {
      assert sh[k] != q;
    }
  }

  /** On the second side β2 takes b2, sh[0], ..., sh[n-1] to ms[0], ..., ms[n-1], b. */
  lemma TailPairs(t5: BetaTable, b: nat, b2: nat, ms: seq<nat>, sh: seq<nat>, c2: nat, guarded: bool)
    requires TailReady(t5, b, b2, ms, sh, c2)
    ensures var u := Tail(t5, b, b2, ms, sh, c2, guarded);
      && (forall k :: 0 <= k < |sh| ==> u[if k == 0 then b2 else sh[k - 1]].b2 == ms[k])
      && u[LastOr(b2, sh)].b2 == b
  {
    ChainTwoLinks(t5, b2, ms, sh);
    var t6 := ChainTwo(t5, b2, ms, sh);
    assert ChainTwoEnds(t5, t6, b2, ms, sh);
    assert ChainTwoSides(t5, t6, b2, ms, sh);
    var q := LastOr(b2, sh);
    var u := Tail(t5, b, b2, ms, sh, c2, guarded);
    forall k | 0 <= k < |sh|
      ensures u[if k == 0 then b2 else sh[k - 1]].b2 == ms[k]
    {
      if k > 0 {
        assert sh[k - 1] != q;
      }
    }
  }

  /** On the second side β2 takes ms[0], ..., ms[n-1], b back to b2, sh[0], ..., sh[n-1]. */
  lemma TailMates(t5: BetaTable, b: nat, b2: nat, ms: seq<nat>, sh: seq<nat>, c2: nat, guarded: bool)
    requires TailReady(t5, b, b2, ms, sh, c2)
    ensures var u := Tail(t5, b, b2, ms, sh, c2, guarded);
      && (forall k :: 0 <= k < |sh| ==> u[ms[k]].b2 == if k == 0 then b2 else sh[k - 1])
      && u[b].b2 == LastOr(b2, sh)
  {
    ChainTwoLinks(t5, b2, ms, sh);
    var t6 := ChainTwo(t5, b2, ms, sh);
    assert ChainTwoMates(t5, t6, b2, ms, sh);
    var q := LastOr(b2, sh);
    var u := Tail(t5, b, b2, ms, sh, c2, guarded);
    forall k | 0 <= k < |sh|
      ensures u[ms[k]].b2 == if k == 0 then b2 else sh[k - 1]
    {
      assert ms[k] != q;
    }
  }

  /**
   * The second side changes no dart outside b, b2, c2, ms and sh, and
   * keeps β0 and β1 of b and of every dart of ms.
   */
  lemma TailFrame(t5: BetaTable, b: nat, b2: nat, ms: seq<nat>, sh: seq<nat>, c2: nat, guarded: bool)
    requires TailReady(t5, b, b2, ms, sh, c2)
    ensures var u := Tail(t5, b, b2, ms, sh, c2, guarded);
      && (forall x :: 0 <= x < |t5| && x != b && x != b2 && x != c2 && x !in ms && x !in sh ==> u[x] == t5[x])
      && u[b].b1 == t5[b].b1
      && (forall k :: 0 <= k < |ms| ==> u[ms[k]].b1 == t5[ms[k]].b1)
  {
    ChainTwoLinks(t5, b2, ms, sh);
    var t6 := ChainTwo(t5, b2, ms, sh);
    assert ChainTwoFrame(t5, t6, b2, ms, sh);
    assert ChainTwoMates(t5, t6, b2, ms, sh);
    var q := LastOr(b2, sh);
    var u := Tail(t5, b, b2, ms, sh, c2, guarded);
    assert t6[b] == t5[b];
    forall k | 0 <= k < |ms|
      ensures u[ms[k]].b1 == t5[ms[k]].b1
    {
      assert ms[k] != q && ms[k] != c2;
    }
  }

  // ---------------------------------------------------------------- what the rewiring does

  /** On a two-sided edge the rewiring is the tail applied to the first side with β2(b) 1-unlinked. */
  lemma TwoSidedTail(t: BetaTable, b: nat, fh: seq<nat>, sh: seq<nat>, guarded: bool)
    requires SplitnReady(t, b, fh, sh) && t[b].b2 != NullDart
    ensures var v, b2 := FirstSide(t, b, fh, guarded), t[b].b2;
      && v[b2].b1 == t[b2].b1
      && TailReady(OneUnlinked(v, b2), b, b2, Reversed(fh), sh, t[b2].b1)
      && SplitnWith(t, b, fh, sh, guarded) == Tail(OneUnlinked(v, b2), b, b2, Reversed(fh), sh, t[b2].b1, guarded)
  {
    SecondSideSetup(t, b, fh, sh, guarded);
    var ms := Reversed(fh);
    forall k | 0 <= k < |ms|
      ensures ms[k] != t[t[b].b2].b1 && ms[k] != b
    {
      assert ms[k] == fh[|fh| - 1 - k];
    }
  }

  /** β1 runs b, fh[0], ..., fh[n-1], then the old β1(b). */
  lemma SplitnFirstRun(t: BetaTable, b: nat, fh: seq<nat>, sh: seq<nat>, guarded: bool)
    requires SplitnReady(t, b, fh, sh)
    ensures AllBelow([b] + fh + [t[b].b1], |t|)
    ensures OneRun(SplitnWith(t, b, fh, sh, guarded), [b] + fh + [t[b].b1])
  {
    var v, b2 := FirstSide(t, b, fh, guarded), t[b].b2;
    var u := SplitnWith(t, b, fh, sh, guarded);
    FirstSideRun(t, b, fh, sh, guarded);
    if b2 != NullDart {
      TwoSidedTail(t, b, fh, sh, guarded);
      var c2 := t[b2].b1;
      var t5 := OneUnlinked(v, b2);
      var ms := Reversed(fh);
      TailFrame(t5, b, b2, ms, sh, c2, guarded);
      assert u[b].b1 == v[b].b1;
      forall k | 0 <= k < |fh|
        ensures u[fh[k]].b1 == v[fh[k]].b1
      {
        assert fh[k] == ms[|fh| - 1 - k];
        assert fh[k] != b2 && fh[k] != c2;
      }
    }
    OneRunOf(u, b, fh, t[b].b1);
  }

  /** On a two-sided edge β1 runs β2(b), sh[0], ..., sh[n-1], then the old β1(β2(b)). */
  lemma SplitnSecondRun(t: BetaTable, b: nat, fh: seq<nat>, sh: seq<nat>, guarded: bool)
    requires SplitnReady(t, b, fh, sh) && t[b].b2 != NullDart
    ensures AllBelow([t[b].b2] + sh + [t[t[b].b2].b1], |t|)
    ensures OneRun(SplitnWith(t, b, fh, sh, guarded), [t[b].b2] + sh + [t[t[b].b2].b1])
  {
    var v, b2 := FirstSide(t, b, fh, guarded), t[b].b2;
    TwoSidedTail(t, b, fh, sh, guarded);
    TailRun(OneUnlinked(v, b2), b, b2, Reversed(fh), sh, t[b2].b1, guarded);
    OneRunOf(SplitnWith(t, b, fh, sh, guarded), b2, sh, t[b2].b1);
  }

  /** The pairing facts of the tail, read as two sequences of mates. */
  lemma PairsOf(u: BetaTable, b: nat, b2: nat, ms: seq<nat>, sh: seq<nat>)
    requires |ms| == |sh| && b < |u| && b2 < |u| && AllBelow(ms, |u|) && AllBelow(sh, |u|)
    requires forall k :: 0 <= k < |sh| ==> u[if k == 0 then b2 else sh[k - 1]].b2 == ms[k]
    requires forall k :: 0 <= k < |sh| ==> u[ms[k]].b2 == if k == 0 then b2 else sh[k - 1]
    requires u[LastOr(b2, sh)].b2 == b && u[b].b2 == LastOr(b2, sh)
    ensures AllBelow([b2] + sh, |u|) && AllBelow(ms + [b], |u|)
    ensures TwoPairs(u, [b2] + sh, ms + [b])
  {
    var xs, ys := [b2] + sh, ms + [b];
    forall k | 0 <= k < |xs|
      ensures u[xs[k]].b2 == ys[k] && u[ys[k]].b2 == xs[k]
    {
      if k < |sh| {
        assert xs[k] == if k == 0 then b2 else sh[k - 1];
        assert ys[k] == ms[k];
      } else {
        assert xs[k] == LastOr(b2, sh) && ys[k] == b;
      }
    }
  }

  /**
   * On a two-sided edge β2 pairs β2(b), sh[0], ..., sh[n-1] with fh[n-1],
   * ..., fh[0], b: each new dart faces the new dart across the edge.
   */
  lemma SplitnPairs(t: BetaTable, b: nat, fh: seq<nat>, sh: seq<nat>, guarded: bool)
    requires SplitnReady(t, b, fh, sh) && t[b].b2 != NullDart
    ensures AllBelow([t[b].b2] + sh, |t|) && AllBelow(Reversed(fh) + [b], |t|)
    ensures TwoPairs(SplitnWith(t, b, fh, sh, guarded), [t[b].b2] + sh, Reversed(fh) + [b])
  {
    var v, b2 := FirstSide(t, b, fh, guarded), t[b].b2;
    TwoSidedTail(t, b, fh, sh, guarded);
    var t5 := OneUnlinked(v, b2);
    TailPairs(t5, b, b2, Reversed(fh), sh, t[b2].b1, guarded);
    TailMates(t5, b, b2, Reversed(fh), sh, t[b2].b1, guarded);
    PairsOf(SplitnWith(t, b, fh, sh, guarded), b, b2, Reversed(fh), sh);
  }

  /** On a one-sided edge the new darts stay 2-free, and so does b. */
  lemma SplitnOneSided(t: BetaTable, b: nat, fh: seq<nat>, sh: seq<nat>, guarded: bool)
    requires SplitnReady(t, b, fh, sh) && t[b].b2 == NullDart
    ensures var u := SplitnWith(t, b, fh, sh, guarded);
      u[b].b2 == 0 && forall k :: 0 <= k < |fh| ==> u[fh[k]].b2 == 0
  {
    FirstSideFrame(t, b, fh, sh, guarded);
  }

  /** On a two-sided edge the tail leaves alone every dart the first side left alone. */
  lemma SecondSideFrame(t: BetaTable, b: nat, fh: seq<nat>, sh: seq<nat>, guarded: bool, x: nat)
    requires SplitnReady(t, b, fh, sh) && t[b].b2 != NullDart && x < |t|
    requires x != b && x != t[b].b2 && x != t[t[b].b2].b1 && x !in fh && x !in sh
    ensures SplitnWith(t, b, fh, sh, guarded)[x] == FirstSide(t, b, fh, guarded)[x]
  {
    var v, b2 := FirstSide(t, b, fh, guarded), t[b].b2;
    TwoSidedTail(t, b, fh, sh, guarded);
    var t5 := OneUnlinked(v, b2);
    var ms := Reversed(fh);
    TailFrame(t5, b, b2, ms, sh, t[b2].b1, guarded);
  }

  /**
   * Only the edge's darts, their old β1 images and the new darts change:
   * every other non-null dart keeps its row.
   */
  lemma SplitnFrame(t: BetaTable, b: nat, fh: seq<nat>, sh: seq<nat>, guarded: bool, x: nat)
    requires SplitnReady(t, b, fh, sh) && 0 < x < |t|
    requires x != b && x != t[b].b1 && x !in fh
    requires t[b].b2 != NullDart ==> x != t[b].b2 && x != t[t[b].b2].b1 && x !in sh
    ensures SplitnWith(t, b, fh, sh, guarded)[x] == t[x]
  {
    FirstSideFrame(t, b, fh, sh, guarded);
    assert FirstSide(t, b, fh, guarded)[x] == t[x];
    if t[b].b2 != NullDart {
      SecondSideFrame(t, b, fh, sh, guarded, x);
    } else {
      assert SplitnWith(t, b, fh, sh, guarded) == FirstSide(t, b, fh, guarded);
    }
  }

  /** The corrected rewiring keeps the table well formed. */
  lemma SplitnConsistent(t: BetaTable, b: nat, fh: seq<nat>, sh: seq<nat>)
    requires SplitnReady(t, b, fh, sh)
    ensures Consistent(SplitnTable(t, b, fh, sh))
  {
    if t[b].b2 == NullDart {
      FirstSideConsistent(t, b, fh, sh);
    } else {
      SecondSideConsistent(t, b, fh, sh);
    }
  }

  /**
   * As written, splitting a two-sided edge whose second dart has no β1
   * image leaves the null dart with a β0 image: the last dart of the second
   * side, which is never null.  The table is then no longer well formed.
   */
  lemma SplitnAsWrittenLinksNull(t: BetaTable, b: nat, fh: seq<nat>, sh: seq<nat>)
    requires SplitnReady(t, b, fh, sh) && t[b].b2 != NullDart && t[t[b].b2].b1 == NullDart
    ensures SplitnAsWritten(t, b, fh, sh)[0].b0 == LastOr(t[b].b2, sh) != NullDart
    ensures !Consistent(SplitnAsWritten(t, b, fh, sh))
  {
    var v, b2 := FirstSide(t, b, fh, false), t[b].b2;
    TwoSidedTail(t, b, fh, sh, false);
    var t6 := ChainTwo(OneUnlinked(v, b2), b2, Reversed(fh), sh);
    var q := LastOr(b2, sh);
    assert Close(t6, q, 0, false)[0].b0 == q;
  }

  // ---------------------------------------------------------------- the documented example

  /**
   * The map of the documented example of `splitn_edge` once its six new
   * darts are added: the edge 1 ↔ 2, both darts 1-free, and darts 3 to 8 free.
   */
  function ExampleTable(): (t: BetaTable)
    ensures |t| == 9
  {
    seq(9, d => if d == 1 then DartBetas(0, 0, 2) else if d == 2 then DartBetas(0, 0, 1) else FreeRow)
  }

  lemma ExampleConsistent()
    ensures Consistent(ExampleTable())
  {
    var t := ExampleTable();
    assert InRange(t) && NullIsFree(t);
    assert forall d :: 0 < d < 9 && d != 1 && d != 2 ==> t[d] == FreeRow;
  }

  lemma ExampleDarts(fh: seq<nat>, sh: seq<nat>)
    requires fh == [3, 4, 5] && sh == [6, 7, 8]
    ensures NoRepeats(fh) && NoRepeats(sh) && AllBelow(fh, 9) && AllBelow(sh, 9)
    ensures forall i, j :: 0 <= i < |fh| && 0 <= j < |sh| ==> fh[i] != sh[j]
    ensures forall k :: 0 <= k < 3 ==> fh[k] != NullDart && sh[k] != NullDart && fh[k] != 1
  {
    assert forall i :: 0 <= i < 3 ==> fh[i] == 3 + i && sh[i] == 6 + i;
  }

  lemma ExampleReady()
    ensures SplitnReady(ExampleTable(), 1, [3, 4, 5], [6, 7, 8])
  {
    ExampleConsistent();
    ExampleDarts([3, 4, 5], [6, 7, 8]);
    ExampleReadyOf(ExampleTable(), [3, 4, 5], [6, 7, 8]);
  }

  lemma ExampleReadyOf(t: BetaTable, fh: seq<nat>, sh: seq<nat>)
    requires Consistent(t) && |t| == 9 && t[1].b2 == 2 && forall x :: 2 < x < 9 ==> t[x] == FreeRow
    requires fh == [3, 4, 5] && sh == [6, 7, 8]
    requires NoRepeats(fh) && NoRepeats(sh) && AllBelow(fh, 9) && AllBelow(sh, 9)
    requires forall i, j :: 0 <= i < |fh| && 0 <= j < |sh| ==> fh[i] != sh[j]
    requires forall k :: 0 <= k < 3 ==> fh[k] != NullDart && sh[k] != NullDart && fh[k] != 1
    ensures SplitnReady(t, 1, fh, sh)
  {
    assert forall k :: 0 <= k < 3 ==> 2 < fh[k] < 9 && 2 < sh[k] < 9;
  }

  /**
   * Splitting at 0.25, 0.5 and 0.75 gives the β images the example asserts:
   * 1 → 3 → 4 → 5 and 2 → 6 → 7 → 8 by β1, with 5 and 8 1-free, and 1 ↔ 8,
   * 3 ↔ 7, 4 ↔ 6, 5 ↔ 2 by β2.
   */
  lemma ExampleSplit()
    ensures var u := SplitnTable(ExampleTable(), 1, [3, 4, 5], [6, 7, 8]);
      && u[1].b1 == 3 && u[3].b1 == 4 && u[4].b1 == 5 && u[5].b1 == 0
      && u[2].b1 == 6 && u[6].b1 == 7 && u[7].b1 == 8 && u[8].b1 == 0
      && u[1].b2 == 8 && u[3].b2 == 7 && u[4].b2 == 6 && u[5].b2 == 2
      && Consistent(u)
  {
    ExampleReady();
    SplitOfEdgeOneTwo(ExampleTable(), [3, 4, 5], [6, 7, 8]);
  }

  /** The example's split, for any table in which the edge 1 ↔ 2 has 1-free darts. */
  lemma SplitOfEdgeOneTwo(t: BetaTable, fh: seq<nat>, sh: seq<nat>)
    requires SplitnReady(t, 1, fh, sh) && |t| == 9 && t[1].b1 == 0 && t[1].b2 == 2 && t[2].b1 == 0
    requires fh == [3, 4, 5] && sh == [6, 7, 8]
    ensures var u := SplitnTable(t, 1, fh, sh);
      && u[1].b1 == 3 && u[3].b1 == 4 && u[4].b1 == 5 && u[5].b1 == 0
      && u[2].b1 == 6 && u[6].b1 == 7 && u[7].b1 == 8 && u[8].b1 == 0
      && u[1].b2 == 8 && u[3].b2 == 7 && u[4].b2 == 6 && u[5].b2 == 2
      && Consistent(u)
  {
    var u := SplitnTable(t, 1, fh, sh);
    SplitnFirstRun(t, 1, fh, sh, true);
    SplitnSecondRun(t, 1, fh, sh, true);
    SplitnPairs(t, 1, fh, sh, true);
    SplitnConsistent(t, 1, fh, sh);
    ExampleLinks(u, fh, sh);
  }

  /** The example's β images, read off the two runs and the pairs. */
  lemma ExampleLinks(u: BetaTable, fh: seq<nat>, sh: seq<nat>)
    requires |u| == 9 && fh == [3, 4, 5] && sh == [6, 7, 8]
    requires OneRun(u, [1] + fh + [0]) && OneRun(u, [2] + sh + [0])
    requires AllBelow(Reversed(fh) + [1], |u|) && TwoPairs(u, [2] + sh, Reversed(fh) + [1])
    ensures && u[1].b1 == 3 && u[3].b1 == 4 && u[4].b1 == 5 && u[5].b1 == 0
      && u[2].b1 == 6 && u[6].b1 == 7 && u[7].b1 == 8 && u[8].b1 == 0
      && u[1].b2 == 8 && u[3].b2 == 7 && u[4].b2 == 6 && u[5].b2 == 2
  {
    var run1, run2, xs, ys := [1] + fh + [0], [2] + sh + [0], [2] + sh, Reversed(fh) + [1];
    assert run1 == [1, 3, 4, 5, 0] && run2 == [2, 6, 7, 8, 0];
    assert xs == [2, 6, 7, 8] && ys == [5, 4, 3, 1];
    assert u[run1[0]].b1 == run1[1] && u[run1[1]].b1 == run1[2] && u[run1[2]].b1 == run1[3] && u[run1[3]].b1 == run1[4];
    assert u[run2[0]].b1 == run2[1] && u[run2[1]].b1 == run2[2] && u[run2[2]].b1 == run2[3] && u[run2[3]].b1 == run2[4];
    assert u[ys[0]].b2 == xs[0] && u[ys[1]].b2 == xs[1] && u[ys[2]].b2 == xs[2] && u[ys[3]].b2 == xs[3];
  }

  /**
   * The same split as written: the second side's closing link to the null
   * dart gives the null dart the β0 image 8, which the example does not check.
   */
  lemma ExampleSplitAsWritten()
    ensures SplitnAsWritten(ExampleTable(), 1, [3, 4, 5], [6, 7, 8])[0].b0 == 8
    ensures !Consistent(SplitnAsWritten(ExampleTable(), 1, [3, 4, 5], [6, 7, 8]))
  {
    ExampleReady();
    SplitnAsWrittenLinksNull(ExampleTable(), 1, [3, 4, 5], [6, 7, 8]);
  }

  // ---------------------------------------------------------------- what the loops rely on

  /**
   * Before the first closing link: the last dart of the chain is 1-free and
   * the old β1(b) is 0-free, the null dart included, so the source's
   * assertions on that link hold.
   */
  lemma FirstCloseReady(t: BetaTable, b: nat, fh: seq<nat>, sh: seq<nat>)
    requires SplitnReady(t, b, fh, sh)
    ensures ChainOneReady(Opened(t, b), b, fh)
    ensures var t3, c := ChainOne(Opened(t, b), b, fh), t[b].b1;
      t3[LastOr(b, fh)].b1 == 0 && t3[c].b0 == 0
  {
    var c := t[b].b1;
    var t2 := Opened(t, b);
    OpenedFacts(t, b);
    FirstSideSetup(t, b, fh, sh);
    ChainOneLinks(t2, b, fh);
    var t3 := ChainOne(t2, b, fh);
    if c != b {
      assert t3[c] == t2[c];
    }
  }

  /**
   * On a two-sided edge, in the table t5 the first side v leaves once β2(b)
   * is 1-unlinked, β1(β2(b)) is 0-free and b is 2-free.
   */
  lemma SecondSideFree(t: BetaTable, b: nat, fh: seq<nat>, sh: seq<nat>, guarded: bool, v: BetaTable, t5: BetaTable)
    requires SplitnReady(t, b, fh, sh) && t[b].b2 != NullDart
    requires v == FirstSide(t, b, fh, guarded) && v[t[b].b2].b1 == t[t[b].b2].b1
    requires t5 == OneUnlinked(v, t[b].b2)
    ensures t5[t[t[b].b2].b1].b0 == 0 && t5[b].b2 == 0
  {
    FirstSideFrame(t, b, fh, sh, guarded);
  }

  /** Before the tail's closing links: q is 1- and 2-free, c2 is 0-free, and b is 2-free. */
  lemma TailCloseReady(t5: BetaTable, b: nat, b2: nat, ms: seq<nat>, sh: seq<nat>, c2: nat, guarded: bool)
    requires TailReady(t5, b, b2, ms, sh, c2)
    requires t5[c2].b0 == 0 && t5[b].b2 == 0
    ensures var t6, q := ChainTwo(t5, b2, ms, sh), LastOr(b2, sh);
      && t6[q].b1 == 0 && t6[c2].b0 == 0
      && Close(t6, q, c2, guarded)[q].b2 == 0 && Close(t6, q, c2, guarded)[b].b2 == 0
  {
    ChainTwoLinks(t5, b2, ms, sh);
    var t6 := ChainTwo(t5, b2, ms, sh);
    assert ChainTwoEnds(t5, t6, b2, ms, sh);
    assert ChainTwoFrame(t5, t6, b2, ms, sh);
    if c2 != b2 {
      assert t6[c2] == t5[c2];
    }
    assert t6[b] == t5[b];
  }

  // ---------------------------------------------------------------- the map operations

  /** Every relative position lies strictly inside the edge. */
  predicate AllInside(ts: seq<real>)
  {
    forall k :: 0 <= k < |ts| ==> Inside(ts[k])
  }

  /** The dart whose vertex is the far end of the edge of b: β2(b) when b has one, else β1(b). */
  function FarEnd(t: BetaTable, b: nat): (d: nat)
    requires b < |t|
    ensures d == t[b].b1 || d == t[b].b2
  {
    if t[b].b2 == NullDart then t[b].b1 else t[b].b2
  }

  /**
   * The checks `inner_splitn` makes before changing anything, given the
   * values of the edge's two end vertices: a position outside ]0; 1[ first,
   * then a missing end vertex.
   */
  function InnerChecks(ts: seq<real>, v1: Option<Vertex2>, v2: Option<Vertex2>): (r: Result<(), SplitEdgeError>)
    ensures r.Ok? <==> AllInside(ts) && v1.Some? && v2.Some?
    ensures r == Err(VertexBound) <==> !AllInside(ts)
    ensures r == Err(UndefinedEdge) <==> AllInside(ts) && (v1.None? || v2.None?)
  {
    if !AllInside(ts) then Err(VertexBound)
    else if v1.None? || v2.None? then Err(UndefinedEdge)
    else Ok(())
  }

  /**
   * The first half of `inner_splitn`'s rewiring: b is cut from β1(b) and
   * from β2(b), the darts of fh are threaded after b, and the last one is
   * linked to the old β1(b), even when that is the null dart.
   */
  method ThreadFirstSide(m: CMap2, b: nat, fh: seq<nat>, ghost sh: seq<nat>)
    requires m.Valid() && SplitnReady(m.betas, b, fh, sh)
    modifies m
    ensures m.Valid() && m.nDarts == old(m.nDarts) && m.unusedDarts == old(m.unusedDarts)
    ensures m.betas == FirstSide(old(m.betas), b, fh, false)
  {
    ghost var t := m.betas;
    var c := m.BetaOf(1, b);
    OpenEdge(m, b);
    FirstCloseReady(t, b, fh, sh);
    var prev := ThreadChainOne(m, b, fh);
    m.OneLink(prev, c);
  }

  /** b is cut from β1(b), whose β0 is cleared, and from β2(b) when it has one. */
  method OpenEdge(m: CMap2, b: nat)
    requires m.Valid() && b < m.nDarts
    modifies m
    ensures m.Valid() && m.nDarts == old(m.nDarts) && m.unusedDarts == old(m.unusedDarts)
    ensures m.betas == Opened(old(m.betas), b)
  {
    var b2 := m.BetaOf(2, b);
    var c := m.BetaOf(1, b);
    m.SetBeta(1, b, NullDart);
    m.SetBeta(0, c, NullDart);
    if b2 != NullDart {
      m.TwoUnlink(b);
    }
  }

  /** Each dart of ds in turn is 1-linked after the previous one (p at first); the last one is returned. */
  method ThreadChainOne(m: CMap2, p: nat, ds: seq<nat>) returns (last: nat)
    requires m.Valid() && ChainOneReady(m.betas, p, ds)
    modifies m
    ensures m.Valid() && m.nDarts == old(m.nDarts) && m.unusedDarts == old(m.unusedDarts)
    ensures m.betas == ChainOne(old(m.betas), p, ds) && last == LastOr(p, ds)
  {
    ghost var t := m.betas;
    last := p;
    var i := 0;
    while i < |ds|
      invariant i <= |ds|
      invariant m.Valid() && m.nDarts == old(m.nDarts) && m.unusedDarts == old(m.unusedDarts)
      invariant m.betas == ChainOne(t, p, ds[..i]) && last == LastOr(p, ds[..i])
    {
      ChainOneNext(t, p, ds, i);
      m.OneLink(last, ds[i]);
      last := ds[i];
      i := i + 1;
    }
    assert ds[..i] == ds;
  }

  /**
   * The second half of `inner_splitn`'s rewiring: b2 is cut from its β1
   * image c2, the darts of sh are threaded after b2, each one's predecessor
   * 2-linked with the first-half dart across (fh taken backwards), the last
   * one linked to c2, even when that is the null dart, and then 2-linked
   * with b.
   */
  method ThreadSecondSide(m: CMap2, b: nat, b2: nat, fh: seq<nat>, sh: seq<nat>)
    requires m.Valid() && b2 < m.nDarts
    requires TailReady(OneUnlinked(m.betas, b2), b, b2, Reversed(fh), sh, m.betas[b2].b1)
    requires var t5, c2 := OneUnlinked(m.betas, b2), m.betas[b2].b1;
      t5[c2].b0 == 0 && t5[b].b2 == 0
    modifies m
    ensures m.Valid() && m.nDarts == old(m.nDarts) && m.unusedDarts == old(m.unusedDarts)
    ensures m.betas == Tail(OneUnlinked(old(m.betas), b2), b, b2, Reversed(fh), sh, old(m.betas[b2].b1), false)
  {
    var c2 := m.BetaOf(1, b2);
    m.SetBeta(1, b2, NullDart);
    m.SetBeta(0, c2, NullDart);
    ghost var t5 := m.betas;
    var ms := Reversed(fh);
    var prev := ThreadChainTwo(m, b2, ms, sh);
    TailCloseReady(t5, b, b2, ms, sh, c2, false);
    CloseSecondSide(m, b, prev, c2);
  }

  /**
   * Each dart ss[k] in turn: the previous dart (p at first) is 2-linked
   * with ms[k], then 1-linked to ss[k]; the last dart of ss is returned.
   */
  method ThreadChainTwo(m: CMap2, p: nat, ms: seq<nat>, ss: seq<nat>) returns (last: nat)
    requires m.Valid() && ChainTwoReady(m.betas, p, ms, ss)
    modifies m
    ensures m.Valid() && m.nDarts == old(m.nDarts) && m.unusedDarts == old(m.unusedDarts)
    ensures m.betas == ChainTwo(old(m.betas), p, ms, ss) && last == LastOr(p, ss)
  {
    ghost var t := m.betas;
    last := p;
    var i := 0;
    while i < |ss|
      invariant i <= |ss|
      invariant m.Valid() && m.nDarts == old(m.nDarts) && m.unusedDarts == old(m.unusedDarts)
      invariant m.betas == ChainTwo(t, p, ms[..i], ss[..i]) && last == LastOr(p, ss[..i])
    {
      ChainTwoNext(t, p, ms, ss, i);
      m.TwoLink(last, ms[i]);
      m.OneLink(last, ss[i]);
      last := ss[i];
      i := i + 1;
    }
    assert ms[..i] == ms && ss[..i] == ss;
  }

  /** The last dart q of the second chain is linked to c2, null or not, then 2-linked with b. */
  method CloseSecondSide(m: CMap2, b: nat, q: nat, c2: nat)
    requires m.Valid() && b < m.nDarts && q < m.nDarts && c2 < m.nDarts
    requires m.betas[q].b1 == 0 && m.betas[c2].b0 == 0
    requires Close(m.betas, q, c2, false)[q].b2 == 0 && Close(m.betas, q, c2, false)[b].b2 == 0
    modifies m
    ensures m.Valid() && m.nDarts == old(m.nDarts) && m.unusedDarts == old(m.unusedDarts)
    ensures m.betas == TwoLinked(Close(old(m.betas), q, c2, false), q, b)
  {
    m.OneLink(q, c2);
    m.TwoLink(q, b);
  }

  /**
   * `inner_splitn`: refuses with the error of InnerChecks and leaves the
   * map alone, or applies the rewiring as written link by link, the
   * closing links to a null old β1 image included.
   */
  method InnerSplitn(m: CMap2, b: nat, fh: seq<nat>, sh: seq<nat>, ts: seq<real>) returns (r: Result<(), SplitEdgeError>)
    requires m.Valid() && SplitnReady(m.betas, b, fh, sh) && |ts| == |fh|
    modifies m
    ensures m.Valid() && m.nDarts == old(m.nDarts) && m.unusedDarts == old(m.unusedDarts)
    ensures r == InnerChecks(ts, old(m.vertices.data[m.VertexId(b)]), old(m.vertices.data[m.VertexId(FarEnd(m.betas, b))]))
    ensures r.Err? ==> m.betas == old(m.betas)
    ensures r.Ok? ==> m.betas == SplitnAsWritten(old(m.betas), b, fh, sh)
  {
    if exists k :: 0 <= k < |ts| && !Inside(ts[k]) {
      return Err(VertexBound);
    }
    var b2 := m.BetaOf(2, b);
    var c := m.BetaOf(1, b);
    if m.vertices.data[m.VertexId(b)].None? || m.vertices.data[m.VertexId(if b2 == NullDart then c else b2)].None? {
      return Err(UndefinedEdge);
    }
    ghost var t := m.betas;
    ThreadFirstSide(m, b, fh, sh);
    if b2 != NullDart {
      TwoSidedTail(t, b, fh, sh, false);
      SecondSideFree(t, b, fh, sh, false, m.betas, OneUnlinked(m.betas, b2));
      ThreadSecondSide(m, b, b2, fh, sh);
    }
    return Ok(());
  }

  /** Distinct new darts, the null dart aside (it may fill an unused second half). */
  predicate NewDartsDistinct(nd: seq<nat>)
  {
    forall i, j :: 0 <= i < j < |nd| && nd[i] != NullDart ==> nd[i] != nd[j]
  }

  /**
   * The checks `splitn_edge_no_alloc` makes on the darts it is given, in
   * order, before anything else: None when they all pass.
   */
  function NoAllocChecks(t: BetaTable, b: nat, nd: seq<nat>, n: nat): (r: Option<SplitEdgeError>)
    requires b < |t| && AllBelow(nd, |t|)
    ensures r.None? <==>
      && |nd| == 2 * n
      && (forall k :: 0 <= k < |nd| ==> t[nd[k]] == FreeRow)
      && (forall k :: 0 <= k < n ==> nd[k] != NullDart)
      && (t[b].b2 != NullDart ==> forall k :: n <= k < |nd| ==> nd[k] != NullDart)
    ensures r == Some(WrongAmountDarts(2 * n, |nd|)) <==> |nd| != 2 * n
    ensures r == Some(InvalidDarts("one dart is not free")) <==>
      |nd| == 2 * n && exists k :: 0 <= k < |nd| && t[nd[k]] != FreeRow
  {
    if |nd| != 2 * n then Some(WrongAmountDarts(2 * n, |nd|))
    else if exists k :: 0 <= k < |nd| && t[nd[k]] != FreeRow then Some(InvalidDarts("one dart is not free"))
    else if exists k :: 0 <= k < n && nd[k] == NullDart then Some(InvalidDarts("one dart of the first half is null"))
    else if t[b].b2 != NullDart && exists k :: n <= k < |nd| && nd[k] == NullDart then
      Some(InvalidDarts("one dart of the second half is null"))
    else None
  }

  /** Darts that pass the checks are darts the rewiring may use. */
  lemma NoAllocChecksReady(t: BetaTable, b: nat, nd: seq<nat>, n: nat)
    requires Consistent(t) && 0 < b < |t| && t[b].b2 != b && AllBelow(nd, |t|) && NewDartsDistinct(nd)
    requires NoAllocChecks(t, b, nd, n).None?
    requires forall k :: 0 <= k < n ==> nd[k] != b
    ensures SplitnReady(t, b, nd[..n], nd[n..])
  {
    var fh, sh := nd[..n], nd[n..];
    assert forall k :: 0 <= k < n ==> fh[k] == nd[k];
    assert forall k :: 0 <= k < |sh| ==> sh[k] == nd[n + k];
  }

  /** The dart checks of `splitn_edge_no_alloc`, made on the map in the source's order. */
  method CheckNewDarts(m: CMap2, b: nat, nd: seq<nat>, n: nat) returns (e: Option<SplitEdgeError>)
    requires m.Valid() && b < m.nDarts && AllBelow(nd, m.nDarts)
    ensures e == NoAllocChecks(m.betas, b, nd, n)
  {
    if |nd| != 2 * n {
      return Some(WrongAmountDarts(2 * n, |nd|));
    }
    if exists k :: 0 <= k < |nd| && !m.IsFree(nd[k]) {
      return Some(InvalidDarts("one dart is not free"));
    }
    var fh, sh := nd[..n], nd[n..];
    var b2 := m.BetaOf(2, b);
    if exists k :: 0 <= k < |fh| && fh[k] == NullDart {
      return Some(InvalidDarts("one dart of the first half is null"));
    }
    if b2 != NullDart && exists k :: 0 <= k < |sh| && sh[k] == NullDart {
      assert exists k :: n <= k < |nd| && nd[k] == NullDart;
      return Some(InvalidDarts("one dart of the second half is null"));
    }
    assert forall k :: n <= k < |nd| ==> nd[k] == sh[k - n];
    return None;
  }

  /**
   * `splitn_edge_no_alloc`: checks the darts it is given, then runs
   * InnerSplitn with the first n of them on b's side and the last n on
   * β2(b)'s side.
   */
  method SplitnEdgeNoAlloc(m: CMap2, b: nat, nd: seq<nat>, ts: seq<real>) returns (r: Result<(), SplitEdgeError>)
    requires m.Valid() && Consistent(m.betas) && 0 < b < m.nDarts && m.betas[b].b2 != b
    requires AllBelow(nd, m.nDarts) && NewDartsDistinct(nd)
    requires forall k :: 0 <= k < |nd| && k < |ts| ==> nd[k] != b
    modifies m
    ensures m.Valid() && m.nDarts == old(m.nDarts) && m.unusedDarts == old(m.unusedDarts)
    ensures var pre := NoAllocChecks(old(m.betas), b, nd, |ts|);
      r == if pre.Some? then Err(pre.value)
           else InnerChecks(ts, old(m.vertices.data[m.VertexId(b)]), old(m.vertices.data[m.VertexId(FarEnd(m.betas, b))]))
    ensures r.Err? ==> m.betas == old(m.betas)
    ensures r.Ok? ==> |nd| == 2 * |ts| && m.betas == SplitnAsWritten(old(m.betas), b, nd[..|ts|], nd[|ts|..])
  {
    var e := CheckNewDarts(m, b, nd, |ts|);
    if e.Some? {
      return Err(e.value);
    }
    NoAllocChecksReady(m.betas, b, nd, |ts|);
    r := InnerSplitn(m, b, nd[..|ts|], nd[|ts|..], ts);
  }

  // ---------------------------------------------------------------- with allocation

  /** How many darts `splitn_edge` adds: n for an edge of one dart, 2n for an edge of two. */
  function NewDartCount(t: BetaTable, b: nat, n: nat): (k: nat)
    requires b < |t|
    ensures k == n || k == 2 * n
    ensures k == 2 * n <==> t[b].b2 != NullDart || n == 0
  {
    if t[b].b2 == NullDart then n else 2 * n
  }

  /** n null darts: the second half `splitn_edge` passes for an edge of one dart. */
  function NullDarts(n: nat): (s: seq<nat>)
    ensures |s| == n && forall k :: 0 <= k < n ==> s[k] == NullDart
  {
    seq(n, _ => NullDart)
  }

  /**
   * The second half `splitn_edge` passes for an edge b of the table t,
   * once it has appended its darts after the last dart of t.
   */
  function SecondHalf(t: BetaTable, b: nat, n: nat): (sh: seq<nat>)
    requires b < |t|
    ensures |sh| == n
  {
    if t[b].b2 == NullDart then NullDarts(n) else Interval(|t| + n, |t| + 2 * n)
  }

  /** The halves AllocateHalves builds are SecondHalf's, and ready for the rewiring. */
  lemma AllocatedHalves(t: BetaTable, b: nat, n: nat, first: nat, fh: seq<nat>, sh: seq<nat>)
    requires Consistent(t) && 0 < b < |t| && t[b].b2 != b && first == |t|
    requires fh == Interval(first, first + n)
    requires sh == if t[b].b2 == NullDart then NullDarts(n) else Interval(first + n, first + 2 * n)
    ensures sh == SecondHalf(t, b, n)
    ensures SplitnReady(t + FreeRows(NewDartCount(t, b, n)), b, fh, sh)
  {
    HalvesOf(t, b, n, first, fh, sh);
    FreshDartsReady(t, b, n);
  }

  lemma HalvesOf(t: BetaTable, b: nat, n: nat, first: nat, fh: seq<nat>, sh: seq<nat>)
    requires b < |t| && first == |t| && fh == Interval(first, first + n)
    requires sh == if t[b].b2 == NullDart then NullDarts(n) else Interval(first + n, first + 2 * n)
    ensures fh == Interval(|t|, |t| + n) && sh == SecondHalf(t, b, n)
  {
  }

  /** The darts `splitn_edge` appends are darts the rewiring may use. */
  lemma FreshDartsReady(t: BetaTable, b: nat, n: nat)
    requires Consistent(t) && 0 < b < |t| && t[b].b2 != b
    ensures var u := t + FreeRows(NewDartCount(t, b, n));
      SplitnReady(u, b, Interval(|t|, |t| + n), SecondHalf(t, b, n))
  {
    var k, lo := NewDartCount(t, b, n), |t|;
    var u := t + FreeRows(k);
    AppendFreeRowsKeepsConsistent(t, k);
    var fh, sh := Interval(lo, lo + n), SecondHalf(t, b, n);
    assert u[b] == t[b];
    forall i | 0 <= i < n
      ensures fh[i] != NullDart && u[fh[i]] == FreeRow
    {
      assert u[lo + i] == FreeRows(k)[i];
    }
    if t[b].b2 != NullDart {
      forall i | 0 <= i < n
        ensures sh[i] == lo + n + i && u[sh[i]] == FreeRow
      {
        assert u[lo + n + i] == FreeRows(k)[n + i];
      }
    }
  }

  /**
   * The allocation `splitn_edge` makes: n darts for an edge of one dart,
   * whose second half is then n null darts, 2n for an edge of two.
   */
  method AllocateHalves(m: CMap2, b: nat, n: nat) returns (fh: seq<nat>, sh: seq<nat>)
    requires m.Valid() && Consistent(m.betas) && 0 < b < m.nDarts && m.betas[b].b2 != b
    modifies m, m.vertices
    ensures m.Valid() && m.unusedDarts == old(m.unusedDarts)
    ensures var k := NewDartCount(old(m.betas), b, n);
      m.nDarts == old(m.nDarts) + k && m.vertices.data == old(m.vertices.data) + NoneSlots(k)
      && m.betas == old(m.betas) + FreeRows(k)
    ensures fh == Interval(old(m.nDarts), old(m.nDarts) + n) && sh == SecondHalf(old(m.betas), b, n)
    ensures SplitnReady(m.betas, b, fh, sh)
  {
    ghost var t := m.betas;
    var b2 := m.BetaOf(2, b);
    var k := if b2 == NullDart then n else 2 * n;
    assert k == NewDartCount(t, b, n) && |t| == m.nDarts;
    var first := m.AddFreeDarts(k);
    fh := Interval(first, first + n);
    sh := if b2 == NullDart then NullDarts(n) else Interval(first + n, first + 2 * n);
    AllocatedHalves(t, b, n, first, fh, sh);
  }

  /**
   * `splitn_edge`: appends the darts the split needs (they stay in the map
   * even when the split is refused), then runs InnerSplitn with them.
   */
  method SplitnEdge(m: CMap2, b: nat, ts: seq<real>) returns (r: Result<(), SplitEdgeError>)
    requires m.Valid() && Consistent(m.betas) && 0 < b < m.nDarts && m.betas[b].b2 != b
    modifies m, m.vertices
    ensures m.Valid() && m.unusedDarts == old(m.unusedDarts)
    ensures var k := NewDartCount(old(m.betas), b, |ts|);
      m.nDarts == old(m.nDarts) + k && m.vertices.data == old(m.vertices.data) + NoneSlots(k)
    ensures var grown := old(m.betas) + FreeRows(NewDartCount(old(m.betas), b, |ts|));
      r.Err? ==>
        m.betas == grown
        && r == InnerChecks(ts, m.vertices.data[m.VertexId(b)], m.vertices.data[m.VertexId(FarEnd(m.betas, b))])
    ensures var grown := old(m.betas) + FreeRows(NewDartCount(old(m.betas), b, |ts|));
      r.Ok? ==>
        AllInside(ts)
        && m.betas == SplitnAsWritten(grown, b, Interval(old(m.nDarts), old(m.nDarts) + |ts|), SecondHalf(old(m.betas), b, |ts|))
  {
    var fh, sh := AllocateHalves(m, b, |ts|);
    r := InnerSplitn(m, b, fh, sh, ts);
  }
}
