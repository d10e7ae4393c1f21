/**
 * Shared part of the edge-split kernels: the error they report and the two
 * link chains the multi-split builds, as functions from β table to β table.
 *
 * The first chain threads a run of new darts into the β1 cycle after a dart
 * p: p → ds[0] → ds[1] → ...; the second does the same on the opposite side
 * of the edge while 2-linking each new dart with the matching first-side
 * dart, taken in reverse order.
 */
module Splits {
  import opened Betas

  /** Why a split was refused; the map is unchanged when one is returned. */
  datatype SplitEdgeError =
    | UndefinedEdge            // an end of the edge has no vertex value
    | VertexBound              // a relative position lies outside ]0; 1[
    | InvalidDarts(reason: string)
    | WrongAmountDarts(expected: nat, given: nat)

  /** A relative position strictly inside the edge. */
  predicate Inside(t: real)
  {
    0.0 < t < 1.0
  }

  /** The last dart of ds, or p when there is none. */
  function LastOr(p: nat, ds: seq<nat>): (l: nat)
    ensures l == p || l in ds
  {
    if ds == [] then p else ds[|ds| - 1]
  }

  predicate AllBelow(ds: seq<nat>, n: nat)
  {
    forall k :: 0 <= k < |ds| ==> ds[k] < n
  }

  predicate NoRepeats(ds: seq<nat>)
  {
    forall i, j :: 0 <= i < j < |ds| ==> ds[i] != ds[j]
  }

  /** β1 runs along ds: every dart of ds but the last has the next one as its β1 image. */
  ghost predicate OneRun(u: BetaTable, ds: seq<nat>)
    requires AllBelow(ds, |u|)
  {
    forall k :: 0 <= k < |ds| - 1 ==> u[ds[k]].b1 == ds[k + 1]
  }

  /** The run p, ds[0], ..., ds[n-1], r from its links. */
  lemma OneRunOf(u: BetaTable, p: nat, ds: seq<nat>, r: nat)
    requires p < |u| && AllBelow(ds, |u|) && r < |u|
    requires u[p].b1 == (if ds == [] then r else ds[0])
    requires forall k :: 0 <= k < |ds| - 1 ==> u[ds[k]].b1 == ds[k + 1]
    requires ds != [] ==> u[ds[|ds| - 1]].b1 == r
    ensures AllBelow([p] + ds + [r], |u|) && OneRun(u, [p] + ds + [r])
  {
    var run := [p] + ds + [r];
    forall k | 0 <= k < |run| - 1
      ensures u[run[k]].b1 == run[k + 1]
    {
      if 0 < k < |run| - 2 {
        assert run[k] == ds[k - 1] && run[k + 1] == ds[k];
      }
    }
  }

  /** β2 pairs xs[k] with ys[k] for every k, both ways. */
  ghost predicate TwoPairs(u: BetaTable, xs: seq<nat>, ys: seq<nat>)
    requires AllBelow(xs, |u|) && AllBelow(ys, |u|) && |xs| == |ys|
  {
    forall k :: 0 <= k < |xs| ==> u[xs[k]].b2 == ys[k] && u[ys[k]].b2 == xs[k]
  }

  // ---------------------------------------------------------------- first chain

  /** For each dart d of ds in turn: 1-link the previous dart (p at first) to d. */
  function ChainOne(t: BetaTable, p: nat, ds: seq<nat>): (u: BetaTable)
    requires p < |t| && AllBelow(ds, |t|)
    ensures |u| == |t|
    decreases |ds|
  {
    if ds == [] then t
    else OneLinked(ChainOne(t, p, ds[..|ds| - 1]), LastOr(p, ds[..|ds| - 1]), ds[|ds| - 1])
  }

  /** What the first chain needs: distinct new darts other than p, 0- and 1-free, and p 1-free. */
  ghost predicate ChainOneReady(t: BetaTable, p: nat, ds: seq<nat>)
  {
    p < |t| && AllBelow(ds, |t|) && NoRepeats(ds)
    && (forall k :: 0 <= k < |ds| ==> ds[k] != p && t[ds[k]].b0 == 0 && t[ds[k]].b1 == 0)
    && t[p].b1 == 0
  }

  lemma ChainOneReadyPrefix(t: BetaTable, p: nat, ds: seq<nat>)
    requires ChainOneReady(t, p, ds) && ds != []
    ensures ChainOneReady(t, p, ds[..|ds| - 1])
    ensures ds[|ds| - 1] !in ds[..|ds| - 1]
  {
  }

  /**
   * The shape the first chain leaves: β1 runs p → ds[0] → ... → ds[n-1],
   * whose β1 stays null; β0 runs back the same way; no β2 image changes and
   * no dart outside p and ds changes.
   */
  ghost predicate ChainOneShape(t: BetaTable, u: BetaTable, p: nat, ds: seq<nat>)
    requires p < |t| && AllBelow(ds, |t|) && |u| == |t|
  {
    && u[LastOr(p, ds)].b1 == 0
    && (forall x :: 0 <= x < |t| && x != p && x !in ds ==> u[x] == t[x])
    && u[p].b0 == t[p].b0 && u[p].b2 == t[p].b2
    && (ds != [] ==> u[p].b1 == ds[0])
    && (forall k :: 0 <= k < |ds| ==> u[ds[k]].b0 == (if k == 0 then p else ds[k - 1]) && u[ds[k]].b2 == t[ds[k]].b2)
    && (forall k :: 0 <= k < |ds| - 1 ==> u[ds[k]].b1 == ds[k + 1])
  }

  /** One more link extends the shape by one dart. */
  lemma ChainOneStep(t: BetaTable, v: BetaTable, p: nat, pre: seq<nat>, d: nat)
    requires p < |t| && AllBelow(pre, |t|) && |v| == |t| && d < |t|
    requires ChainOneShape(t, v, p, pre)
    requires NoRepeats(pre) && p !in pre && d != p && d !in pre && t[d].b1 == 0
    ensures ChainOneShape(t, OneLinked(v, LastOr(p, pre), d), p, pre + [d])
  {
    var ds := pre + [d];
    var n := |ds|;
    var l := LastOr(p, pre);
    var u := OneLinked(v, l, d);
    assert l != d;
    assert v[d] == t[d];
    assert LastOr(p, ds) == d;
    forall k | 0 <= k < n
      ensures u[ds[k]].b0 == (if k == 0 then p else ds[k - 1]) && u[ds[k]].b2 == t[ds[k]].b2
    {
      if k < n - 1 {
        assert ds[k] == pre[k];
        assert v[pre[k]].b0 == (if k == 0 then p else pre[k - 1]);
        assert v[pre[k]].b2 == t[pre[k]].b2;
        assert u[ds[k]].b0 == v[ds[k]].b0 && u[ds[k]].b2 == v[ds[k]].b2;
        if k > 0 {
          assert ds[k - 1] == pre[k - 1];
        }
      } else {
        assert ds[k] == d;
        if k > 0 {
          assert ds[k - 1] == l;
        }
      }
    }
    forall k | 0 <= k < n - 1
      ensures u[ds[k]].b1 == ds[k + 1]
    {
      assert ds[k] == pre[k];
      if k < n - 2 {
        assert ds[k + 1] == pre[k + 1];
        assert ds[k] != l;
      } else {
        assert ds[k] == l && ds[k + 1] == d;
      }
    }
    forall x | 0 <= x < |t| && x != p && x !in ds
      ensures u[x] == t[x]
    {
      assert x !in pre;
    }
    if pre != [] {
      assert ds[0] == pre[0];
      assert p != l;
      assert u[p] == v[p];
    } else {
      assert l == p && ds[0] == d;
    }
    assert u[LastOr(p, ds)].b1 == 0;
    assert u[p].b0 == t[p].b0 && u[p].b2 == t[p].b2;
    assert AllBelow(ds, |t|);
    assert ds != [] ==> u[p].b1 == ds[0];
    assert (forall x :: 0 <= x < |t| && x != p && x !in ds ==> u[x] == t[x]);
    assert (forall k :: 0 <= k < |ds| ==> u[ds[k]].b0 == (if k == 0 then p else ds[k - 1]) && u[ds[k]].b2 == t[ds[k]].b2);
    assert (forall k :: 0 <= k < |ds| - 1 ==> u[ds[k]].b1 == ds[k + 1]);
    assert ChainOneShape(t, u, p, ds);
  }

  /** The first chain leaves its shape. */
  lemma {:induction false} ChainOneLinks(t: BetaTable, p: nat, ds: seq<nat>)
    requires ChainOneReady(t, p, ds)
    ensures ChainOneShape(t, ChainOne(t, p, ds), p, ds)
  {
    if ds != [] {
      var pre := ds[..|ds| - 1];
      ChainOneReadyPrefix(t, p, ds);
      ChainOneLinks(t, p, pre);
      ChainOneStep(t, ChainOne(t, p, pre), p, pre, ds[|ds| - 1]);
      assert pre + [ds[|ds| - 1]] == ds;
    }
  }

  /**
   * Link i of the first chain, as a loop makes it: the chain so far ends in
   * a 1-free dart, ds[i] is still 0-free, and linking the two extends the
   * chain by ds[i].
   */
  lemma ChainOneNext(t: BetaTable, p: nat, ds: seq<nat>, i: nat)
    requires ChainOneReady(t, p, ds) && i < |ds|
    ensures var v := ChainOne(t, p, ds[..i]);
      && v[LastOr(p, ds[..i])].b1 == 0 && v[ds[i]].b0 == 0
      && ChainOne(t, p, ds[..i + 1]) == OneLinked(v, LastOr(p, ds[..i]), ds[i])
      && LastOr(p, ds[..i + 1]) == ds[i]
  {
    assert ds[..i + 1][..i] == ds[..i];
    assert ChainOneReady(t, p, ds[..i]);
    ChainOneLinks(t, p, ds[..i]);
    assert ds[i] !in ds[..i];
  }

  /** The first chain keeps a table well formed when p and the new darts are not null. */
  lemma {:induction false} ChainOneConsistent(t: BetaTable, p: nat, ds: seq<nat>)
    requires ChainOneReady(t, p, ds) && Consistent(t) && 0 < p
    requires forall k :: 0 <= k < |ds| ==> ds[k] != 0
    ensures Consistent(ChainOne(t, p, ds))
  {
    if ds != [] {
      var pre := ds[..|ds| - 1];
      ChainOneReadyPrefix(t, p, ds);
      ChainOneConsistent(t, p, pre);
      ChainOneLinks(t, p, pre);
      assert ds[|ds| - 1] !in pre;
      OneLinkKeepsConsistent(ChainOne(t, p, pre), LastOr(p, pre), ds[|ds| - 1]);
    }
  }

  // ---------------------------------------------------------------- second chain

  /** s in reverse order. */
  function Reversed(s: seq<nat>): (r: seq<nat>)
    ensures |r| == |s| && forall k :: 0 <= k < |s| ==> r[k] == s[|s| - 1 - k]
  {
    seq(|s|, k requires 0 <= k < |s| => s[|s| - 1 - k])
  }

  /**
   * For each pair (m, s) of ms and ss in turn, with q the previous dart of ss
   * (p at first): 2-link q with m, then 1-link q to s.
   */
  function ChainTwo(t: BetaTable, p: nat, ms: seq<nat>, ss: seq<nat>): (u: BetaTable)
    requires p < |t| && AllBelow(ms, |t|) && AllBelow(ss, |t|) && |ms| == |ss|
    ensures |u| == |t|
    decreases |ss|
  {
    if ss == [] then t
    else PairLinked(ChainTwo(t, p, ms[..|ms| - 1], ss[..|ss| - 1]), p, ms, ss)
  }

  /** The last step of the second chain: q, the dart before the last of ss (p if none), is 2-linked with the last of ms, then 1-linked to the last of ss. */
  function PairLinked(v: BetaTable, p: nat, ms: seq<nat>, ss: seq<nat>): (u: BetaTable)
    requires p < |v| && AllBelow(ms, |v|) && AllBelow(ss, |v|) && |ms| == |ss| > 0
    ensures |u| == |v|
  {
    var n := |ss|;
    var q := LastOr(p, ss[..n - 1]);
    OneLinked(TwoLinked(v, q, ms[n - 1]), q, ss[n - 1])
  }

  /**
   * What the second chain needs: distinct darts in ms and ss, no dart in
   * both, p in neither; the darts of ss free, those of ms 2-free, p 1- and
   * 2-free.
   */
  ghost predicate ChainTwoReady(t: BetaTable, p: nat, ms: seq<nat>, ss: seq<nat>)
  {
    p < |t| && AllBelow(ms, |t|) && AllBelow(ss, |t|) && |ms| == |ss|
    && NoRepeats(ms) && NoRepeats(ss)
    && (forall i, j :: 0 <= i < |ms| && 0 <= j < |ss| ==> ms[i] != ss[j])
    && (forall k :: 0 <= k < |ss| ==> ss[k] != p && t[ss[k]] == FreeRow)
    && (forall k :: 0 <= k < |ms| ==> ms[k] != p && t[ms[k]].b2 == 0)
    && t[p].b1 == 0 && t[p].b2 == 0
  }

  lemma ChainTwoReadyPrefix(t: BetaTable, p: nat, ms: seq<nat>, ss: seq<nat>)
    requires ChainTwoReady(t, p, ms, ss) && ss != []
    ensures ChainTwoReady(t, p, ms[..|ms| - 1], ss[..|ss| - 1])
    ensures ms[|ms| - 1] !in ms[..|ms| - 1] && ms[|ms| - 1] !in ss[..|ss| - 1] && ms[|ms| - 1] != ss[|ss| - 1]
    ensures ss[|ss| - 1] !in ms[..|ms| - 1] && ss[|ss| - 1] !in ss[..|ss| - 1]
  {
  }

  /**
   * The shape the second chain leaves: β1 runs p → ss[0] → ... → ss[n-1],
   * whose β1 and β2 stay null; β0 runs back the same way; each ms[k] is
   * 2-linked with the dart before ss[k] (p for k = 0); the β0 and β1 images
   * of ms are untouched, and so is every dart outside p, ms and ss.
   */
  ghost predicate ChainTwoShape(t: BetaTable, u: BetaTable, p: nat, ms: seq<nat>, ss: seq<nat>)
    requires p < |t| && AllBelow(ms, |t|) && AllBelow(ss, |t|) && |ms| == |ss| && |u| == |t|
  {
    ChainTwoEnds(t, u, p, ms, ss) && ChainTwoFrame(t, u, p, ms, ss)
    && ChainTwoSides(t, u, p, ms, ss) && ChainTwoMates(t, u, p, ms, ss)
  }

  ghost predicate ChainTwoEnds(t: BetaTable, u: BetaTable, p: nat, ms: seq<nat>, ss: seq<nat>)
    requires p < |t| && AllBelow(ms, |t|) && AllBelow(ss, |t|) && |ms| == |ss| && |u| == |t|
  {
    && u[LastOr(p, ss)].b1 == 0 && u[LastOr(p, ss)].b2 == 0
    && u[p].b0 == t[p].b0
    && (ss != [] ==> u[p].b1 == ss[0] && u[p].b2 == ms[0])
  }

  ghost predicate ChainTwoFrame(t: BetaTable, u: BetaTable, p: nat, ms: seq<nat>, ss: seq<nat>)
    requires |u| == |t|
  {
    forall x :: 0 <= x < |t| && x != p && x !in ms && x !in ss ==> u[x] == t[x]
  }

  ghost predicate ChainTwoSides(t: BetaTable, u: BetaTable, p: nat, ms: seq<nat>, ss: seq<nat>)
    requires p < |t| && AllBelow(ms, |t|) && AllBelow(ss, |t|) && |ms| == |ss| && |u| == |t|
  {
    && (forall k :: 0 <= k < |ss| ==> u[ss[k]].b0 == (if k == 0 then p else ss[k - 1]))
    && (forall k :: 0 <= k < |ss| - 1 ==> u[ss[k]].b1 == ss[k + 1] && u[ss[k]].b2 == ms[k + 1])
  }

  ghost predicate ChainTwoMates(t: BetaTable, u: BetaTable, p: nat, ms: seq<nat>, ss: seq<nat>)
    requires p < |t| && AllBelow(ms, |t|) && AllBelow(ss, |t|) && |ms| == |ss| && |u| == |t|
  {
    forall k :: 0 <= k < |ms| ==>
      u[ms[k]].b2 == (if k == 0 then p else ss[k - 1])
      && u[ms[k]].b0 == t[ms[k]].b0 && u[ms[k]].b1 == t[ms[k]].b1
  }

  /** What one more pair may rely on. */
  ghost predicate ChainTwoStepReady(t: BetaTable, v: BetaTable, p: nat, ms: seq<nat>, ss: seq<nat>, m: nat, s: nat)
  {
    p < |t| && AllBelow(ms, |t|) && AllBelow(ss, |t|) && |ms| == |ss| && |v| == |t|
    && m < |t| && s < |t|
    && ChainTwoShape(t, v, p, ms, ss)
    && NoRepeats(ms) && NoRepeats(ss) && p !in ms && p !in ss
    && m != p && m !in ms && m !in ss && s != p && s !in ms && s !in ss && m != s
    && (forall i, j :: 0 <= i < |ms| && 0 <= j < |ss| ==> ms[i] != ss[j])
    && t[m].b2 == 0 && t[s] == FreeRow
  }

  /** Before one more pair: the previous dart is 1- and 2-free, m is 2-free, s is 0-free. */
  lemma ChainTwoStepFree(t: BetaTable, v: BetaTable, p: nat, ms: seq<nat>, ss: seq<nat>, m: nat, s: nat)
    requires ChainTwoStepReady(t, v, p, ms, ss, m, s)
    ensures var q := LastOr(p, ss);
      q != m && q != s && v[q].b1 == 0 && v[q].b2 == 0
      && v[m].b0 == t[m].b0 && v[m].b1 == t[m].b1 && v[m].b2 == 0 && v[s] == FreeRow
  {
    assert ChainTwoEnds(t, v, p, ms, ss) && ChainTwoFrame(t, v, p, ms, ss);
  }

  /** What the last pair of ms and ss may rely on, given the table v its prefixes leave. */
  ghost predicate PairReady(t: BetaTable, v: BetaTable, p: nat, ms: seq<nat>, ss: seq<nat>)
  {
    |ms| == |ss| > 0
    && ChainTwoStepReady(t, v, p, ms[..|ms| - 1], ss[..|ss| - 1], ms[|ms| - 1], ss[|ss| - 1])
  }

  lemma ChainTwoStepEnds(t: BetaTable, v: BetaTable, p: nat, ms2: seq<nat>, ss2: seq<nat>)
    requires PairReady(t, v, p, ms2, ss2)
    ensures ChainTwoEnds(t, PairLinked(v, p, ms2, ss2), p, ms2, ss2)
    ensures ChainTwoFrame(t, PairLinked(v, p, ms2, ss2), p, ms2, ss2)
  {
    var ms, ss, m, s := ms2[..|ms2| - 1], ss2[..|ss2| - 1], ms2[|ms2| - 1], ss2[|ss2| - 1];
    ChainTwoStepFree(t, v, p, ms, ss, m, s);
    var q := LastOr(p, ss);
    var u := OneLinked(TwoLinked(v, q, m), q, s);
    assert LastOr(p, ss2) == s;
    assert ChainTwoEnds(t, v, p, ms, ss) && ChainTwoFrame(t, v, p, ms, ss);
    if ss != [] {
      assert ss2[0] == ss[0] && ms2[0] == ms[0];
      assert p != q;
    } else {
      assert q == p && ss2[0] == s && ms2[0] == m;
    }
    forall x | 0 <= x < |t| && x != p && x !in ms2 && x !in ss2
      ensures u[x] == t[x]
    {
      assert x !in ms && x !in ss;
    }
  }

  lemma ChainTwoStepSides(t: BetaTable, v: BetaTable, p: nat, ms2: seq<nat>, ss2: seq<nat>)
    requires PairReady(t, v, p, ms2, ss2)
    ensures ChainTwoSides(t, PairLinked(v, p, ms2, ss2), p, ms2, ss2)
  {
    var ms, ss, m, s := ms2[..|ms2| - 1], ss2[..|ss2| - 1], ms2[|ms2| - 1], ss2[|ss2| - 1];
    ChainTwoStepFree(t, v, p, ms, ss, m, s);
    var n := |ss2|;
    var q := LastOr(p, ss);
    var u := OneLinked(TwoLinked(v, q, m), q, s);
    assert ChainTwoSides(t, v, p, ms, ss);
    forall k | 0 <= k < n
      ensures u[ss2[k]].b0 == (if k == 0 then p else ss2[k - 1])
    {
      if k < n - 1 {
        assert ss2[k] == ss[k];
        if k > 0 {
          assert ss2[k - 1] == ss[k - 1];
        }
      } else if k > 0 {
        assert ss2[k - 1] == q;
      }
    }
    forall k | 0 <= k < n - 1
      ensures u[ss2[k]].b1 == ss2[k + 1] && u[ss2[k]].b2 == ms2[k + 1]
    {
      assert ss2[k] == ss[k];
      if k < n - 2 {
        assert ss2[k + 1] == ss[k + 1] && ms2[k + 1] == ms[k + 1];
        assert ss[k] != q;
      } else {
        assert ss[k] == q && ss2[k + 1] == s && ms2[k + 1] == m;
      }
    }
  }

  lemma ChainTwoStepMates(t: BetaTable, v: BetaTable, p: nat, ms2: seq<nat>, ss2: seq<nat>)
    requires PairReady(t, v, p, ms2, ss2)
    ensures ChainTwoMates(t, PairLinked(v, p, ms2, ss2), p, ms2, ss2)
  {
    var ms, ss, m, s := ms2[..|ms2| - 1], ss2[..|ss2| - 1], ms2[|ms2| - 1], ss2[|ss2| - 1];
    ChainTwoStepFree(t, v, p, ms, ss, m, s);
    var n := |ss2|;
    var q := LastOr(p, ss);
    var u := OneLinked(TwoLinked(v, q, m), q, s);
    assert ChainTwoMates(t, v, p, ms, ss);
    forall k | 0 <= k < n
      ensures u[ms2[k]].b2 == (if k == 0 then p else ss2[k - 1])
              && u[ms2[k]].b0 == t[ms2[k]].b0 && u[ms2[k]].b1 == t[ms2[k]].b1
    {
      if k < n - 1 {
        assert ms2[k] == ms[k];
        assert ms[k] != q && ms[k] != m && ms[k] != s;
        if k > 0 {
          assert ss2[k - 1] == ss[k - 1];
        }
      } else {
        assert ms2[k] == m;
        if k > 0 {
          assert ss2[k - 1] == q;
        }
      }
    }
  }

  /** The last pair of a ready chain may be added to the shape its prefix leaves. */
  lemma ChainTwoStepReadyOf(t: BetaTable, p: nat, ms: seq<nat>, ss: seq<nat>, v: BetaTable)
    requires ChainTwoReady(t, p, ms, ss) && ss != [] && |v| == |t|
    requires ChainTwoShape(t, v, p, ms[..|ms| - 1], ss[..|ss| - 1])
    ensures PairReady(t, v, p, ms, ss)
  {
    ChainTwoReadyPrefix(t, p, ms, ss);
  }

  /** One more pair keeps the shape. */
  lemma ChainTwoStep(t: BetaTable, v: BetaTable, p: nat, ms: seq<nat>, ss: seq<nat>)
    requires PairReady(t, v, p, ms, ss)
    ensures ChainTwoShape(t, PairLinked(v, p, ms, ss), p, ms, ss)
  {
    ChainTwoStepEnds(t, v, p, ms, ss);
    ChainTwoStepSides(t, v, p, ms, ss);
    ChainTwoStepMates(t, v, p, ms, ss);
  }

  /** The second chain leaves its shape. */
  lemma {:induction false} ChainTwoLinks(t: BetaTable, p: nat, ms: seq<nat>, ss: seq<nat>)
    requires ChainTwoReady(t, p, ms, ss)
    ensures ChainTwoShape(t, ChainTwo(t, p, ms, ss), p, ms, ss)
  {
    if ss != [] {
      var v := ChainTwo(t, p, ms[..|ms| - 1], ss[..|ss| - 1]);
      ChainTwoReadyPrefix(t, p, ms, ss);
      ChainTwoLinks(t, p, ms[..|ms| - 1], ss[..|ss| - 1]);
      ChainTwoStepReadyOf(t, p, ms, ss, v);
      ChainTwoStep(t, v, p, ms, ss);
    }
  }

  /**
   * Pair i of the second chain, as a loop makes it: the chain so far ends
   * in a 2-free dart q and ms[i] is 2-free; once they are 2-linked, q is
   * still 1-free and ss[i] 0-free, and 1-linking them extends the chain.
   */
  lemma ChainTwoNext(t: BetaTable, p: nat, ms: seq<nat>, ss: seq<nat>, i: nat)
    requires ChainTwoReady(t, p, ms, ss) && i < |ss|
    ensures var v, q := ChainTwo(t, p, ms[..i], ss[..i]), LastOr(p, ss[..i]);
      && v[q].b2 == 0 && v[ms[i]].b2 == 0
      && TwoLinked(v, q, ms[i])[q].b1 == 0 && TwoLinked(v, q, ms[i])[ss[i]].b0 == 0
      && ChainTwo(t, p, ms[..i + 1], ss[..i + 1]) == OneLinked(TwoLinked(v, q, ms[i]), q, ss[i])
      && LastOr(p, ss[..i + 1]) == ss[i]
  {
    var ms2, ss2 := ms[..i + 1], ss[..i + 1];
    assert ms2[..i] == ms[..i] && ss2[..i] == ss[..i];
    assert ChainTwoReady(t, p, ms2, ss2);
    ChainTwoReadyPrefix(t, p, ms2, ss2);
    var v := ChainTwo(t, p, ms[..i], ss[..i]);
    ChainTwoLinks(t, p, ms[..i], ss[..i]);
    ChainTwoStepReadyOf(t, p, ms2, ss2, v);
    ChainTwoStepFree(t, v, p, ms[..i], ss[..i], ms[i], ss[i]);
  }

  /** The second chain keeps a table well formed when p and every dart of ms and ss are not null. */
  lemma {:induction false} ChainTwoConsistent(t: BetaTable, p: nat, ms: seq<nat>, ss: seq<nat>)
    requires ChainTwoReady(t, p, ms, ss) && Consistent(t) && 0 < p
    requires forall k :: 0 <= k < |ms| ==> ms[k] != 0 && ss[k] != 0
    ensures Consistent(ChainTwo(t, p, ms, ss))
  {
    if ss != [] {
      var n := |ss|;
      var ms1, ss1 := ms[..n - 1], ss[..n - 1];
      var v := ChainTwo(t, p, ms1, ss1);
      ChainTwoReadyPrefix(t, p, ms, ss);
      ChainTwoConsistent(t, p, ms1, ss1);
      ChainTwoLinks(t, p, ms1, ss1);
      ChainTwoStepReadyOf(t, p, ms, ss, v);
      ChainTwoStepFree(t, v, p, ms1, ss1, ms[n - 1], ss[n - 1]);
      LinkPairKeepsConsistent(v, LastOr(p, ss1), ms[n - 1], ss[n - 1]);
    }
  }

  /** A 2-link then a 1-link from the same free dart keep a table well formed. */
  lemma LinkPairKeepsConsistent(v: BetaTable, q: nat, m: nat, s: nat)
    requires Consistent(v) && 0 < q < |v| && 0 < m < |v| && 0 < s < |v| && q != m && q != s
    requires v[q].b1 == 0 && v[q].b2 == 0 && v[m].b2 == 0 && v[s].b0 == 0
    ensures Consistent(OneLinked(TwoLinked(v, q, m), q, s))
  {
    TwoLinkKeepsConsistent(v, q, m);
    OneLinkKeepsConsistent(TwoLinked(v, q, m), q, s);
  }
}
