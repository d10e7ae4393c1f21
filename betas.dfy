/**
 * The β table of a 2-map.  Each dart d has three images β0(d), β1(d), β2(d);
 * dart 0 is the null dart, and a dart whose βi image is null is i-free.  In a
 * well-formed map β0 undoes β1 and β2 is an involution.  The link and unlink
 * operations are given here as functions from table to table; the map's
 * methods apply them in place.
 */
module Betas {
  /** The images of one dart: [β0, β1, β2]. */
  datatype DartBetas = DartBetas(b0: nat, b1: nat, b2: nat)
  {
    /** The image by βi, for i in {0, 1, 2}. */
    function Image(i: nat): nat
      requires i < 3
    {
      if i == 0 then b0 else if i == 1 then b1 else b2
    }
  }

  type BetaTable = seq<DartBetas>

  const NullDart: nat := 0
  /** The row of a dart that is free in every dimension. */
  const FreeRow: DartBetas := DartBetas(0, 0, 0)

  function Beta(t: BetaTable, i: nat, d: nat): nat
    requires i < 3 && d < |t|
  {
    t[d].Image(i)
  }

  /** Every image names a dart of the table. */
  ghost predicate InRange(t: BetaTable)
  {
    forall d :: 0 <= d < |t| ==> t[d].b0 < |t| && t[d].b1 < |t| && t[d].b2 < |t|
  }

  /** The null dart exists and is linked to nothing. */
  ghost predicate NullIsFree(t: BetaTable)
  {
    |t| > 0 && t[0] == FreeRow
  }

  /**
   * A well-formed table: images in range, the null dart free, β0 the inverse
   * of β1 and β2 an involution wherever they are not null.
   */
  ghost predicate Consistent(t: BetaTable)
  {
    InRange(t) && NullIsFree(t)
    && (forall d :: 0 < d < |t| && t[d].b1 != 0 ==> t[t[d].b1].b0 == d)
    && (forall d :: 0 < d < |t| && t[d].b0 != 0 ==> t[t[d].b0].b1 == d)
    && (forall d :: 0 < d < |t| && t[d].b2 != 0 ==> t[t[d].b2].b2 == d)
  }

  /** In a well-formed table no dart points to a free dart. */
  lemma FreeDartIsNoImage(t: BetaTable, u: nat, x: nat)
    requires Consistent(t) && 0 < u < |t| && t[u] == FreeRow && x < |t|
    ensures t[x].b0 != u && t[x].b1 != u && t[x].b2 != u
  {
  }

  /** Set βi(d) := v, leaving every other image alone. */
  function WithBeta(t: BetaTable, i: nat, d: nat, v: nat): (u: BetaTable)
    requires i < 3 && d < |t|
    ensures |u| == |t|
  {
    t[d := if i == 0 then t[d].(b0 := v) else if i == 1 then t[d].(b1 := v) else t[d].(b2 := v)]
  }

  /** 1-link: β1(l) := r, then β0(r) := l. */
  function OneLinked(t: BetaTable, l: nat, r: nat): (u: BetaTable)
    requires l < |t| && r < |t|
    ensures |u| == |t|
    ensures u[l].b1 == r && u[r].b0 == l
    ensures u[l].b2 == t[l].b2 && u[r].b2 == t[r].b2
    ensures l != r ==> u[l].b0 == t[l].b0 && u[r].b1 == t[r].b1
    ensures forall d :: 0 <= d < |t| && d != l && d != r ==> u[d] == t[d]
  {
    WithBeta(WithBeta(t, 1, l, r), 0, r, l)
  }

  /** 2-link: β2(l) := r, then β2(r) := l. */
  function TwoLinked(t: BetaTable, l: nat, r: nat): (u: BetaTable)
    requires l < |t| && r < |t|
    ensures |u| == |t|
    ensures u[l].b2 == r && u[r].b2 == l
    ensures u[l].b0 == t[l].b0 && u[l].b1 == t[l].b1 && u[r].b0 == t[r].b0 && u[r].b1 == t[r].b1
    ensures forall d :: 0 <= d < |t| && d != l && d != r ==> u[d] == t[d]
  {
    WithBeta(WithBeta(t, 2, l, r), 2, r, l)
  }

  /** 1-unlink: with r the old β1(l), β1(l) := 0, then β0(r) := 0. */
  function OneUnlinked(t: BetaTable, l: nat): (u: BetaTable)
    requires l < |t| && t[l].b1 < |t|
    ensures |u| == |t|
    ensures u[l].b1 == 0 && u[t[l].b1].b0 == 0
    ensures u[l].b2 == t[l].b2 && u[t[l].b1].b2 == t[t[l].b1].b2
    ensures t[l].b1 != l ==> u[l].b0 == t[l].b0 && u[t[l].b1].b1 == t[t[l].b1].b1
    ensures forall d :: 0 <= d < |t| && d != l && d != t[l].b1 ==> u[d] == t[d]
  {
    WithBeta(WithBeta(t, 1, l, 0), 0, t[l].b1, 0)
  }

  /** 2-unlink: with r the old β2(l), β2(l) := 0, then β2(r) := 0. */
  function TwoUnlinked(t: BetaTable, l: nat): (u: BetaTable)
    requires l < |t| && t[l].b2 < |t|
    ensures |u| == |t|
    ensures u[l].b2 == 0 && u[t[l].b2].b2 == 0
    ensures u[l].b0 == t[l].b0 && u[l].b1 == t[l].b1
    ensures u[t[l].b2].b0 == t[t[l].b2].b0 && u[t[l].b2].b1 == t[t[l].b2].b1
    ensures forall d :: 0 <= d < |t| && d != l && d != t[l].b2 ==> u[d] == t[d]
  {
    WithBeta(WithBeta(t, 2, l, 0), 2, t[l].b2, 0)
  }

  /** Unlinking right after linking gives back the original table. */
  lemma OneLinkThenUnlink(t: BetaTable, l: nat, r: nat)
    requires l < |t| && r < |t| && t[l].b1 == 0 && t[r].b0 == 0
    ensures OneUnlinked(OneLinked(t, l, r), l) == t
  {
    var u := OneUnlinked(OneLinked(t, l, r), l);
    assert forall d :: 0 <= d < |t| ==> u[d] == t[d];
  }

  /** Unlinking right after linking gives back the original table. */
  lemma TwoLinkThenUnlink(t: BetaTable, l: nat, r: nat)
    requires l < |t| && r < |t| && t[l].b2 == 0 && t[r].b2 == 0
    ensures TwoUnlinked(TwoLinked(t, l, r), l) == t
  {
    var u := TwoUnlinked(TwoLinked(t, l, r), l);
    assert forall d :: 0 <= d < |t| ==> u[d] == t[d];
  }

  /** Linking two non-null darts keeps a table well formed. */
  lemma OneLinkKeepsConsistent(t: BetaTable, l: nat, r: nat)
    requires Consistent(t) && 0 < l < |t| && 0 < r < |t| && t[l].b1 == 0 && t[r].b0 == 0
    ensures Consistent(OneLinked(t, l, r))
  {
  }

  /** Linking two non-null darts keeps a table well formed. */
  lemma TwoLinkKeepsConsistent(t: BetaTable, l: nat, r: nat)
    requires Consistent(t) && 0 < l < |t| && 0 < r < |t| && t[l].b2 == 0 && t[r].b2 == 0
    ensures Consistent(TwoLinked(t, l, r))
  {
  }

  /** Unlinking a non-null dart keeps a table well formed. */
  lemma OneUnlinkKeepsConsistent(t: BetaTable, l: nat)
    requires Consistent(t) && 0 < l < |t|
    ensures Consistent(OneUnlinked(t, l))
  {
  }

  /** Unlinking a non-null dart keeps a table well formed. */
  lemma TwoUnlinkKeepsConsistent(t: BetaTable, l: nat)
    requires Consistent(t) && 0 < l < |t|
    ensures Consistent(TwoUnlinked(t, l))
  {
  }
}
