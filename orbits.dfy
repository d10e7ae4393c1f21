/**
 * Orbits of a 2-map: the darts reached from a start dart by repeatedly
 * applying the β functions a policy names, in breadth-first order.  The
 * traversal keeps a queue of pending darts and a set of marked darts; the
 * null dart and the start dart are marked from the outset, so the null dart
 * is never yielded and no dart is yielded twice.
 */
module Orbits {
  import opened Wrappers
  import opened Betas
  import opened SeqUtil

  /** Which β functions an orbit follows. */
  datatype OrbitPolicy =
    | Vertex        // β1∘β2, then β2∘β0
    | VertexLinear  // β1∘β2
    | Edge          // β2
    | Face          // β1, then β0
    | FaceLinear    // β1
    | Custom(indices: seq<nat>)  // βi for each listed i, in order

  /** A custom policy may only name β0, β1 and β2; any other index panics. */
  predicate ValidPolicy(p: OrbitPolicy)
  {
    p.Custom? ==> forall k :: 0 <= k < |p.indices| ==> p.indices[k] < 3
  }

  /** βi(d) for each listed index i, in order. */
  function CustomImages(t: BetaTable, indices: seq<nat>, d: nat): (imgs: seq<nat>)
    requires InRange(t) && d < |t|
    requires forall k :: 0 <= k < |indices| ==> indices[k] < 3
    ensures |imgs| == |indices|
    ensures forall k :: 0 <= k < |imgs| ==> imgs[k] == Beta(t, indices[k], d) && imgs[k] < |t|
  {
    if indices == [] then []
    else [Beta(t, indices[0], d)] + CustomImages(t, indices[1..], d)
  }

  /** The images of `d` the policy visits, in the order the traversal tries them. */
  function Images(t: BetaTable, p: OrbitPolicy, d: nat): (imgs: seq<nat>)
    requires InRange(t) && d < |t| && ValidPolicy(p)
    ensures forall k :: 0 <= k < |imgs| ==> imgs[k] < |t|
  {
    match p
    case Vertex => [Beta(t, 1, Beta(t, 2, d)), Beta(t, 2, Beta(t, 0, d))]
    case VertexLinear => [Beta(t, 1, Beta(t, 2, d))]
    case Edge => [Beta(t, 2, d)]
    case Face => [Beta(t, 1, d), Beta(t, 0, d)]
    case FaceLinear => [Beta(t, 1, d)]
    case Custom(indices) => CustomImages(t, indices, d)
  }

  /** Try each image in turn: an unmarked one is marked and queued. */
  function Enqueue(imgs: seq<nat>, pending: seq<nat>, marked: set<nat>): (seq<nat>, set<nat>)
  {
    if imgs == [] then (pending, marked)
    else if imgs[0] in marked then Enqueue(imgs[1..], pending, marked)
    else Enqueue(imgs[1..], pending + [imgs[0]], marked + {imgs[0]})
  }

  /**
   * Enqueueing appends distinct, previously unmarked images to the queue,
   * marks exactly those, and leaves every image marked.
   */
  lemma {:induction false} EnqueueProps(imgs: seq<nat>, pending: seq<nat>, marked: set<nat>)
    ensures var r := Enqueue(imgs, pending, marked); var p2, m2 := r.0, r.1;
      |pending| <= |p2| && p2[..|pending|] == pending
      && m2 == marked + Values(p2[|pending|..])
      && (forall k :: |pending| <= k < |p2| ==> p2[k] in imgs && p2[k] !in marked)
      && Distinct(p2[|pending|..])
      && (forall y :: y in imgs ==> y in m2)
  {
    if imgs != [] {
      var x := imgs[0];
      if x in marked {
        EnqueueProps(imgs[1..], pending, marked);
      } else {
        var pending1, marked1 := pending + [x], marked + {x};
        EnqueueProps(imgs[1..], pending1, marked1);
        var r := Enqueue(imgs[1..], pending1, marked1); var p2, m2 := r.0, r.1;
        assert p2[..|pending1|][..|pending|] == p2[..|pending|];
        var added := p2[|pending|..];
        assert added == [x] + p2[|pending1|..];
        assert Values(added) == {x} + Values(p2[|pending1|..]);
      }
    }
  }

  /** The darts 0 .. n - 1. */
  function DartSet(n: nat): (s: set<nat>)
    ensures forall x: nat :: x in s <==> x < n
  {
    if n == 0 then {} else DartSet(n - 1) + {n - 1}
  }

  /** A subset is no larger than its superset. */
  lemma {:induction false} SubsetCard(a: set<nat>, b: set<nat>)
    requires a <= b
    ensures |a| <= |b|
    decreases |a|
  {
    if a != {} {
      var x :| x in a;
      SubsetCard(a - {x}, b - {x});
    }
  }

  /** Marking a new dart of the map shrinks the set of unmarked darts. */
  lemma MarkingShrinksUnmarked(n: nat, marked: set<nat>, marked2: set<nat>, x: nat)
    requires marked <= marked2 && x in marked2 && x !in marked && x < n
    ensures |DartSet(n) - marked2| < |DartSet(n) - marked|
  {
    SubsetCard(DartSet(n) - marked2, (DartSet(n) - marked) - {x});
  }

  /** One traversal step either marks a new dart of the map or only shortens the queue. */
  lemma EnqueueProgress(n: nat, imgs: seq<nat>, pending: seq<nat>, marked: set<nat>)
    requires forall k :: 0 <= k < |imgs| ==> imgs[k] < n
    ensures var r := Enqueue(imgs, pending, marked); var p2, m2 := r.0, r.1;
      (m2 == marked && p2 == pending) || |DartSet(n) - m2| < |DartSet(n) - marked|
  {
    EnqueueProps(imgs, pending, marked);
    var r := Enqueue(imgs, pending, marked); var p2, m2 := r.0, r.1;
    if |p2| > |pending| {
      var x := p2[|pending|];
      assert x in Values(p2[|pending|..]);
      MarkingShrinksUnmarked(n, marked, m2, x);
    } else {
      assert p2 == p2[..|pending|];
    }
  }

  /** The queue is made of darts of the map. */
  predicate QueueInRange(t: BetaTable, pending: seq<nat>)
  {
    forall k :: 0 <= k < |pending| ==> pending[k] < |t|
  }

  /** One traversal step: the queue and the marks after the head of the queue is visited. */
  function Step(t: BetaTable, p: OrbitPolicy, pending: seq<nat>, marked: set<nat>): (seq<nat>, set<nat>)
    requires InRange(t) && ValidPolicy(p) && pending != [] && pending[0] < |t|
  {
    Enqueue(Images(t, p, pending[0]), pending[1..], marked)
  }

  /** A step keeps the queue inside the map and makes progress. */
  lemma StepDecreases(t: BetaTable, p: OrbitPolicy, pending: seq<nat>, marked: set<nat>)
    requires InRange(t) && ValidPolicy(p) && pending != [] && QueueInRange(t, pending)
    ensures QueueInRange(t, Step(t, p, pending, marked).0)
    ensures |DartSet(|t|) - Step(t, p, pending, marked).1| < |DartSet(|t|) - marked|
      || (Step(t, p, pending, marked).1 == marked && |Step(t, p, pending, marked).0| < |pending|)
  {
    var imgs := Images(t, p, pending[0]);
    EnqueueProps(imgs, pending[1..], marked);
    EnqueueProgress(|t|, imgs, pending[1..], marked);
    var p2 := Step(t, p, pending, marked).0;
    forall k | 0 <= k < |p2| ensures p2[k] < |t| {
      if k < |pending| - 1 {
        assert p2[k] == pending[k + 1];
      } else {
        assert p2[k] in imgs;
      }
    }
  }

  /** A step drops the head of the queue and keeps the rest of it in front. */
  lemma StepKeepsQueue(t: BetaTable, p: OrbitPolicy, pending: seq<nat>, marked: set<nat>)
    requires InRange(t) && ValidPolicy(p) && pending != [] && QueueInRange(t, pending)
    ensures |pending| - 1 <= |Step(t, p, pending, marked).0|
    ensures forall k :: 0 <= k < |pending| - 1 ==> Step(t, p, pending, marked).0[k] == pending[k + 1]
  {
    EnqueueProps(Images(t, p, pending[0]), pending[1..], marked);
  }

  /**
   * A step appends the distinct, previously unmarked images of the head of
   * the queue, marking exactly those; afterwards every image of the head is
   * marked.
   */
  lemma StepAppends(t: BetaTable, p: OrbitPolicy, pending: seq<nat>, marked: set<nat>)
    requires InRange(t) && ValidPolicy(p) && pending != [] && QueueInRange(t, pending)
    ensures |pending| - 1 <= |Step(t, p, pending, marked).0|
    ensures forall k :: |pending| - 1 <= k < |Step(t, p, pending, marked).0| ==>
      Step(t, p, pending, marked).0[k] in Images(t, p, pending[0]) && Step(t, p, pending, marked).0[k] !in marked
    ensures forall i, j :: |pending| - 1 <= i < j < |Step(t, p, pending, marked).0| ==>
      Step(t, p, pending, marked).0[i] != Step(t, p, pending, marked).0[j]
    ensures forall y :: y in Step(t, p, pending, marked).1 <==>
      y in marked || exists k :: |pending| - 1 <= k < |Step(t, p, pending, marked).0| && Step(t, p, pending, marked).0[k] == y
    ensures forall y :: y in Images(t, p, pending[0]) ==> y in Step(t, p, pending, marked).1
  {
    var imgs := Images(t, p, pending[0]);
    EnqueueProps(imgs, pending[1..], marked);
    var p2 := Step(t, p, pending, marked).0;
    var n1 := |pending| - 1;
    var added := p2[n1..];
    forall i, j | n1 <= i < j < |p2| ensures p2[i] != p2[j] {
      assert p2[i] == added[i - n1] && p2[j] == added[j - n1];
    }
    forall y ensures y in Values(added) <==> exists k :: n1 <= k < |p2| && p2[k] == y {
      if y in Values(added) {
        var k :| 0 <= k < |added| && added[k] == y;
        assert p2[n1 + k] == y;
      }
    }
  }

  /** The darts the traversal yields from the given queue and marks, in order. */
  function Bfs(t: BetaTable, p: OrbitPolicy, pending: seq<nat>, marked: set<nat>): (out: seq<nat>)
    requires InRange(t) && ValidPolicy(p) && QueueInRange(t, pending)
    ensures QueueInRange(t, out)
    decreases |DartSet(|t|) - marked|, |pending|
  {
    if pending == [] then []
    else
      var next := Step(t, p, pending, marked);
      StepDecreases(t, p, pending, marked);
      [pending[0]] + Bfs(t, p, next.0, next.1)
  }

  /** The darts of the orbit of `d`, in the order the traversal yields them. */
  function OrbitSeq(t: BetaTable, p: OrbitPolicy, d: nat): seq<nat>
    requires InRange(t) && ValidPolicy(p) && d < |t|
  {
    Bfs(t, p, [d], {0, d})
  }

  /** A non-empty queue yields its head, then what the step leaves behind yields. */
  lemma BfsUnfold(t: BetaTable, p: OrbitPolicy, pending: seq<nat>, marked: set<nat>)
    requires InRange(t) && ValidPolicy(p) && pending != [] && QueueInRange(t, pending)
    ensures QueueInRange(t, Step(t, p, pending, marked).0)
    ensures Bfs(t, p, pending, marked)
      == [pending[0]] + Bfs(t, p, Step(t, p, pending, marked).0, Step(t, p, pending, marked).1)
  {
    StepDecreases(t, p, pending, marked);
  }

  /** The traversal yields the queued darts first, in queue order. */
  lemma {:induction false} BfsPrefix(t: BetaTable, p: OrbitPolicy, pending: seq<nat>, marked: set<nat>)
    requires InRange(t) && ValidPolicy(p) && QueueInRange(t, pending)
    ensures |pending| <= |Bfs(t, p, pending, marked)|
    ensures forall k :: 0 <= k < |pending| ==> Bfs(t, p, pending, marked)[k] == pending[k]
    decreases |DartSet(|t|) - marked|, |pending|
  {
    if pending != [] {
      var next := Step(t, p, pending, marked);
      BfsUnfold(t, p, pending, marked);
      StepDecreases(t, p, pending, marked);
      StepKeepsQueue(t, p, pending, marked);
      BfsPrefix(t, p, next.0, next.1);
    }
  }

  /** Every queued dart is marked. */
  ghost predicate QueueMarked(pending: seq<nat>, marked: set<nat>)
  {
    forall k :: 0 <= k < |pending| ==> pending[k] in marked
  }

  /** Steps keep every queued dart marked. */
  lemma StepKeepsQueueMarked(t: BetaTable, p: OrbitPolicy, pending: seq<nat>, marked: set<nat>)
    requires InRange(t) && ValidPolicy(p) && pending != [] && QueueInRange(t, pending)
    requires QueueMarked(pending, marked)
    ensures QueueMarked(Step(t, p, pending, marked).0, Step(t, p, pending, marked).1)
  {
    StepKeepsQueue(t, p, pending, marked);
    StepAppends(t, p, pending, marked);
    var p2, m2 := Step(t, p, pending, marked).0, Step(t, p, pending, marked).1;
    forall k | 0 <= k < |p2| ensures p2[k] in m2 {
      if k < |pending| - 1 {
        assert p2[k] == pending[k + 1];
      }
    }
  }

  /** A step keeps a duplicate-free queue of marked darts duplicate-free. */
  lemma StepKeepsDistinct(t: BetaTable, p: OrbitPolicy, pending: seq<nat>, marked: set<nat>)
    requires InRange(t) && ValidPolicy(p) && pending != [] && QueueInRange(t, pending)
    requires Distinct(pending) && QueueMarked(pending, marked)
    ensures Distinct(Step(t, p, pending, marked).0)
  {
    StepKeepsQueue(t, p, pending, marked);
    StepAppends(t, p, pending, marked);
    var p2 := Step(t, p, pending, marked).0;
    var n1 := |pending| - 1;
    forall i, j | 0 <= i < j < |p2| ensures p2[i] != p2[j] {
      if j >= n1 && i < n1 {
        assert p2[i] == pending[i + 1] && p2[i] in marked;
      } else if j < n1 {
        assert p2[i] == pending[i + 1] && p2[j] == pending[j + 1];
      }
    }
  }

  /**
   * From a duplicate-free queue of marked darts, the traversal yields no dart
   * twice, and every dart it yields after the queue was unmarked at the start.
   */
  lemma {:induction false} BfsShape(t: BetaTable, p: OrbitPolicy, pending: seq<nat>, marked: set<nat>)
    requires InRange(t) && ValidPolicy(p) && QueueInRange(t, pending)
    requires Distinct(pending) && QueueMarked(pending, marked)
    ensures Distinct(Bfs(t, p, pending, marked))
    ensures forall k :: |pending| <= k < |Bfs(t, p, pending, marked)| ==> Bfs(t, p, pending, marked)[k] !in marked
    decreases |DartSet(|t|) - marked|, |pending|
  {
    if pending != [] {
      var next := Step(t, p, pending, marked);
      var p2, m2 := next.0, next.1;
      BfsUnfold(t, p, pending, marked);
      StepDecreases(t, p, pending, marked);
      StepKeepsQueue(t, p, pending, marked);
      StepAppends(t, p, pending, marked);
      StepKeepsQueueMarked(t, p, pending, marked);
      StepKeepsDistinct(t, p, pending, marked);
      BfsShape(t, p, p2, m2);
      BfsPrefix(t, p, p2, m2);
      var rest := Bfs(t, p, p2, m2);
      var n1 := |pending| - 1;
      var d := pending[0];
      assert d in marked;
      forall k | 0 <= k < |rest| ensures rest[k] != d {
        if k < n1 {
          assert rest[k] == pending[k + 1];
        } else if k < |p2| {
          assert rest[k] == p2[k];
        } else {
          assert rest[k] !in m2;
        }
      }
      var out := Bfs(t, p, pending, marked);
      forall k | |pending| <= k < |out| ensures out[k] !in marked {
        assert out[k] == rest[k - 1];
        if k - 1 < |p2| {
          assert rest[k - 1] == p2[k - 1];
        }
      }
    }
  }

  /**
   * From a queue of marked darts, the traversal is closed: each image of a
   * yielded dart is yielded too or was marked at the start.
   */
  lemma {:induction false} BfsClosed(t: BetaTable, p: OrbitPolicy, pending: seq<nat>, marked: set<nat>)
    requires InRange(t) && ValidPolicy(p) && QueueInRange(t, pending)
    requires QueueMarked(pending, marked)
    ensures forall i, y :: 0 <= i < |Bfs(t, p, pending, marked)| && y in Images(t, p, Bfs(t, p, pending, marked)[i]) ==>
      y in marked || y in Bfs(t, p, pending, marked)
    decreases |DartSet(|t|) - marked|, |pending|
  {
    if pending != [] {
      var next := Step(t, p, pending, marked);
      var p2, m2 := next.0, next.1;
      BfsUnfold(t, p, pending, marked);
      StepDecreases(t, p, pending, marked);
      StepAppends(t, p, pending, marked);
      StepKeepsQueueMarked(t, p, pending, marked);
      BfsClosed(t, p, p2, m2);
      BfsPrefix(t, p, p2, m2);
      var rest := Bfs(t, p, p2, m2);
      var out := Bfs(t, p, pending, marked);
      forall i, y | 0 <= i < |out| && y in Images(t, p, out[i]) ensures y in marked || y in out {
        if y !in marked && (i == 0 || y !in rest) {
          if i != 0 {
            assert out[i] == rest[i - 1];
          }
          assert y in m2;
          var k :| |pending| - 1 <= k < |p2| && p2[k] == y;
          assert rest[k] == y;
        }
      }
    }
  }

  /** A set of darts that every visited image of its members stays in, or is null. */
  ghost predicate ClosedUnder(t: BetaTable, p: OrbitPolicy, s: set<nat>)
    requires InRange(t) && ValidPolicy(p)
  {
    forall x, y :: x in s && x < |t| && y in Images(t, p, x) ==> y == 0 || y in s
  }

  /**
   * With the null dart marked, the traversal from darts of a closed set never
   * leaves that set.
   */
  lemma {:induction false} BfsStaysInClosedSet(t: BetaTable, p: OrbitPolicy, pending: seq<nat>, marked: set<nat>, s: set<nat>)
    requires InRange(t) && ValidPolicy(p) && QueueInRange(t, pending)
    requires 0 in marked && Values(pending) <= s && ClosedUnder(t, p, s)
    ensures Values(Bfs(t, p, pending, marked)) <= s
    decreases |DartSet(|t|) - marked|, |pending|
  {
    if pending != [] {
      var next := Step(t, p, pending, marked);
      var p2, m2 := next.0, next.1;
      BfsUnfold(t, p, pending, marked);
      StepDecreases(t, p, pending, marked);
      StepKeepsQueue(t, p, pending, marked);
      StepAppends(t, p, pending, marked);
      assert Values(p2) <= s by {
        forall x | x in Values(p2) ensures x in s {
          var k :| 0 <= k < |p2| && p2[k] == x;
          if k < |pending| - 1 {
            assert x == pending[k + 1];
          } else {
            assert x in Images(t, p, pending[0]) && x != 0;
          }
        }
      }
      BfsStaysInClosedSet(t, p, p2, m2, s);
    }
  }

  // --- properties of one orbit

  /** An orbit yields its start dart first, never yields a dart twice, and never the null dart after it. */
  lemma OrbitShape(t: BetaTable, p: OrbitPolicy, d: nat)
    requires InRange(t) && ValidPolicy(p) && d < |t|
    ensures |OrbitSeq(t, p, d)| >= 1 && OrbitSeq(t, p, d)[0] == d
    ensures Distinct(OrbitSeq(t, p, d))
    ensures forall k :: 0 < k < |OrbitSeq(t, p, d)| ==> OrbitSeq(t, p, d)[k] != 0
    ensures d != 0 ==> 0 !in OrbitSeq(t, p, d)
  {
    BfsPrefix(t, p, [d], {0, d});
    BfsShape(t, p, [d], {0, d});
    assert QueueMarked([d], {0, d});
  }

  /** Every image of a dart of an orbit is in the orbit or is null. */
  lemma OrbitClosed(t: BetaTable, p: OrbitPolicy, d: nat)
    requires InRange(t) && ValidPolicy(p) && d < |t|
    ensures ClosedUnder(t, p, Values(OrbitSeq(t, p, d)))
  {
    BfsPrefix(t, p, [d], {0, d});
    BfsClosed(t, p, [d], {0, d});
  }

  /** An orbit is contained in every closed set holding its start dart. */
  lemma OrbitLeast(t: BetaTable, p: OrbitPolicy, d: nat, s: set<nat>)
    requires InRange(t) && ValidPolicy(p) && d < |t|
    requires d in s && ClosedUnder(t, p, s)
    ensures Values(OrbitSeq(t, p, d)) <= s
  {
    BfsStaysInClosedSet(t, p, [d], {0, d}, s);
  }

  /** A policy whose non-null steps can always be walked back in one step. */
  ghost predicate Reversible(t: BetaTable, p: OrbitPolicy)
    requires InRange(t) && ValidPolicy(p)
  {
    forall x, y :: 0 < x < |t| && 0 < y < |t| && y in Images(t, p, x) ==> x in Images(t, p, y)
  }

  /** In a well-formed map the vertex, edge and face policies can be walked back. */
  lemma CellPoliciesReversible(t: BetaTable, p: OrbitPolicy)
    requires Consistent(t) && (p == Vertex || p == Edge || p == Face)
    ensures Reversible(t, p)
  {
  }

  /** For a policy that can be walked back, the darts outside a closed set form a closed set. */
  lemma ComplementClosed(t: BetaTable, p: OrbitPolicy, s: set<nat>)
    requires InRange(t) && ValidPolicy(p) && Reversible(t, p) && ClosedUnder(t, p, s)
    ensures ClosedUnder(t, p, DartSet(|t|) - s - {0})
  {
    var rest := DartSet(|t|) - s - {0};
    forall x, y | x in rest && x < |t| && y in Images(t, p, x) ensures y == 0 || y in rest {
      if y != 0 {
        assert y < |t|;
        ReversibleAt(t, p, x, y);
        ClosedAt(t, p, s, y, x);
        assert y !in s;
        assert y in DartSet(|t|);
      }
    }
  }

  /** One instance of `Reversible`. */
  lemma ReversibleAt(t: BetaTable, p: OrbitPolicy, x: nat, y: nat)
    requires InRange(t) && ValidPolicy(p) && Reversible(t, p)
    requires 0 < x < |t| && 0 < y < |t| && y in Images(t, p, x)
    ensures x in Images(t, p, y)
  {
  }

  /** One instance of `ClosedUnder`, read backwards. */
  lemma ClosedAt(t: BetaTable, p: OrbitPolicy, s: set<nat>, y: nat, x: nat)
    requires InRange(t) && ValidPolicy(p) && ClosedUnder(t, p, s)
    requires y < |t| && x != 0 && x !in s && x in Images(t, p, y)
    ensures y !in s
  {
  }

  /**
   * For a policy that can be walked back, any dart of an orbit reaches exactly
   * the same darts: orbits of such policies are the cells of the map.
   */
  lemma OrbitOfMember(t: BetaTable, p: OrbitPolicy, d: nat, e: nat)
    requires InRange(t) && ValidPolicy(p) && Reversible(t, p)
    requires 0 < d < |t| && 0 < e < |t| && e in OrbitSeq(t, p, d)
    ensures Values(OrbitSeq(t, p, e)) == Values(OrbitSeq(t, p, d))
  {
    OrbitShape(t, p, d);
    OrbitShape(t, p, e);
    OrbitClosed(t, p, d);
    OrbitClosed(t, p, e);
    var od := Values(OrbitSeq(t, p, d));
    var oe := Values(OrbitSeq(t, p, e));
    OrbitLeast(t, p, e, od);
    if d !in oe {
      // the darts outside the orbit of e are closed too, so they would hold
      // the whole orbit of d, e included
      var rest := DartSet(|t|) - oe - {0};
      ComplementClosed(t, p, oe);
      OrbitLeast(t, p, d, rest);
      assert false;
    }
    OrbitLeast(t, p, d, oe);
  }

  // --- cell identifiers

  /** The smallest dart of a non-empty sequence. */
  function SeqMin(s: seq<nat>): (m: nat)
    requires |s| > 0
    ensures m in s && forall k :: 0 <= k < |s| ==> m <= s[k]
  {
    if |s| == 1 then s[0]
    else
      var m := SeqMin(s[1..]);
      assert forall k :: 1 <= k < |s| ==> s[k] == s[1..][k - 1];
      if s[0] <= m then s[0] else m
  }

  /** Sequences over the same darts have the same smallest dart. */
  lemma SeqMinOfSameValues(s1: seq<nat>, s2: seq<nat>)
    requires |s1| > 0 && |s2| > 0 && Values(s1) == Values(s2)
    ensures SeqMin(s1) == SeqMin(s2)
  {
    assert SeqMin(s1) in Values(s2) && SeqMin(s2) in Values(s1);
  }

  /** The id of the cell of `d`: the smallest dart of its orbit. */
  function CellId(t: BetaTable, p: OrbitPolicy, d: nat): (id: nat)
    requires InRange(t) && ValidPolicy(p) && d < |t|
    ensures id <= d && id in OrbitSeq(t, p, d)
    ensures forall x :: x in OrbitSeq(t, p, d) ==> id <= x
  {
    OrbitShape(t, p, d);
    SeqMin(OrbitSeq(t, p, d))
  }

  /** A cell id can be computed from any dart of the cell. */
  lemma CellIdSharedByMembers(t: BetaTable, p: OrbitPolicy, d: nat, e: nat)
    requires InRange(t) && ValidPolicy(p) && Reversible(t, p)
    requires 0 < d < |t| && 0 < e < |t| && e in OrbitSeq(t, p, d)
    ensures CellId(t, p, e) == CellId(t, p, d)
  {
    OrbitShape(t, p, d);
    OrbitShape(t, p, e);
    OrbitOfMember(t, p, d, e);
    SeqMinOfSameValues(OrbitSeq(t, p, e), OrbitSeq(t, p, d));
  }

  // --- orbits of particular policies

  /** Enqueueing one image. */
  lemma EnqueueOne(y: nat, pending: seq<nat>, marked: set<nat>)
    ensures Enqueue([y], pending, marked) == if y in marked then (pending, marked) else (pending + [y], marked + {y})
  {
    assert [y][1..] == [];
  }

  /** Enqueueing two images is enqueueing one after the other. */
  lemma EnqueueTwo(y: nat, z: nat, pending: seq<nat>, marked: set<nat>)
    ensures Enqueue([y, z], pending, marked)
      == Enqueue([z], Enqueue([y], pending, marked).0, Enqueue([y], pending, marked).1)
  {
    assert [y, z][1..] == [z];
    EnqueueOne(y, pending, marked);
  }

  /** The step from a one-dart queue. */
  lemma StepFromOne(t: BetaTable, p: OrbitPolicy, x: nat, marked: set<nat>)
    requires InRange(t) && ValidPolicy(p) && x < |t|
    ensures Step(t, p, [x], marked) == Enqueue(Images(t, p, x), [], marked)
  {
    assert [x][1..] == [];
  }

  /** The orbit of a dart under the empty custom policy is that dart alone. */
  lemma EmptyCustomOrbit(t: BetaTable, d: nat)
    requires InRange(t) && d < |t|
    ensures OrbitSeq(t, Custom([]), d) == [d]
  {
    BfsUnfold(t, Custom([]), [d], {0, d});
    assert Images(t, Custom([]), d) == [];
  }

  /**
   * In a well-formed map the edge orbit of a dart is the dart and its
   * β2 image; a dart without a β2 image (or that is its own image) is alone
   * in its edge.
   */
  lemma EdgeOrbit(t: BetaTable, d: nat)
    requires Consistent(t) && 0 < d < |t|
    ensures OrbitSeq(t, Edge, d) == if Beta(t, 2, d) in {0, d} then [d] else [d, Beta(t, 2, d)]
  {
    EdgeOrbitOfInvolutivePair(t, d);
  }

  /** The edge orbit of a dart whose β2 image, if any, is another dart sent back to it. */
  lemma EdgeOrbitOfInvolutivePair(t: BetaTable, d: nat)
    requires InRange(t) && 0 < d < |t|
    requires Beta(t, 2, d) != 0 ==> Beta(t, 2, Beta(t, 2, d)) == d
    ensures OrbitSeq(t, Edge, d) == if Beta(t, 2, d) in {0, d} then [d] else [d, Beta(t, 2, d)]
  {
    var e := Beta(t, 2, d);
    BfsUnfold(t, Edge, [d], {0, d});
    StepFromOne(t, Edge, d, {0, d});
    assert Images(t, Edge, d) == [e];
    EnqueueOne(e, [], {0, d});
    if e !in {0, d} {
      assert [] + [e] == [e] && {0, d} + {e} == {0, d, e};
      BfsUnfold(t, Edge, [e], {0, d, e});
      StepFromOne(t, Edge, e, {0, d, e});
      assert Images(t, Edge, e) == [d];
      EnqueueOne(d, [], {0, d, e});
      assert Bfs(t, Edge, [e], {0, d, e}) == [e] + Bfs(t, Edge, [], {0, d, e}) == [e];
    }
  }

  /** A policy that follows a single β function (or composition) from each dart. */
  predicate SingleImage(p: OrbitPolicy)
  {
    p.VertexLinear? || p.Edge? || p.FaceLinear? || (p.Custom? && |p.indices| == 1)
  }

  /**
   * Under a single-image policy the orbit is a chain: each yielded dart is
   * the image of the one before it.
   */
  lemma {:induction false} SingleImageChain(t: BetaTable, p: OrbitPolicy, x: nat, marked: set<nat>)
    requires InRange(t) && ValidPolicy(p) && SingleImage(p) && x < |t|
    ensures forall k :: 0 <= k < |Bfs(t, p, [x], marked)| - 1 ==>
      Bfs(t, p, [x], marked)[k + 1] == Images(t, p, Bfs(t, p, [x], marked)[k])[0]
    decreases |DartSet(|t|) - marked|
  {
    var imgs := Images(t, p, x);
    assert |imgs| == 1;
    BfsUnfold(t, p, [x], marked);
    StepDecreases(t, p, [x], marked);
    var next := Step(t, p, [x], marked);
    StepFromOne(t, p, x, marked);
    assert imgs == [imgs[0]];
    EnqueueOne(imgs[0], [], marked);
    if imgs[0] !in marked {
      assert [] + [imgs[0]] == [imgs[0]];
      SingleImageChain(t, p, imgs[0], marked + {imgs[0]});
      BfsPrefix(t, p, [imgs[0]], marked + {imgs[0]});
    } else {
      assert next.0 == [];
    }
  }

  /** The face-linear orbit follows β1 alone. */
  lemma FaceLinearFollowsBeta1(t: BetaTable, d: nat)
    requires InRange(t) && d < |t|
    ensures forall k :: 0 <= k < |OrbitSeq(t, FaceLinear, d)| - 1 ==>
      OrbitSeq(t, FaceLinear, d)[k + 1] == Beta(t, 1, OrbitSeq(t, FaceLinear, d)[k])
  {
    SingleImageChain(t, FaceLinear, d, {0, d});
  }

  /**
   * The face orbit tries β1 before β0: the second dart it yields, if any, is
   * β1 of the start dart when that is a new dart, and β0 of it otherwise.
   */
  lemma FaceOrbitSecondDart(t: BetaTable, d: nat)
    requires InRange(t) && 0 < d < |t|
    ensures var o := OrbitSeq(t, Face, d);
      (Beta(t, 1, d) !in {0, d} ==> |o| >= 2 && o[1] == Beta(t, 1, d))
      && (Beta(t, 1, d) in {0, d} && Beta(t, 0, d) !in {0, d} ==> |o| >= 2 && o[1] == Beta(t, 0, d))
      && (Beta(t, 1, d) in {0, d} && Beta(t, 0, d) in {0, d} ==> o == [d])
  {
    var b1, b0 := Beta(t, 1, d), Beta(t, 0, d);
    BfsUnfold(t, Face, [d], {0, d});
    assert Images(t, Face, d) == [b1, b0];
    StepDecreases(t, Face, [d], {0, d});
    var next := Step(t, Face, [d], {0, d});
    StepFromOne(t, Face, d, {0, d});
    EnqueueTwo(b1, b0, [], {0, d});
    EnqueueOne(b1, [], {0, d});
    EnqueueOne(b0, Enqueue([b1], [], {0, d}).0, Enqueue([b1], [], {0, d}).1);
    BfsPrefix(t, Face, next.0, next.1);
    if b1 !in {0, d} {
      assert next.0[0] == b1;
    } else if b0 !in {0, d} {
      assert next.0 == [b0];
    } else {
      assert next.0 == [];
    }
  }

  /** Under a two-index custom policy a dart's images are its βi and βj images, in that order. */
  lemma CustomPairImages(t: BetaTable, i: nat, j: nat, x: nat)
    requires InRange(t) && x < |t| && i < 3 && j < 3
    ensures Images(t, Custom([i, j]), x) == [Beta(t, i, x), Beta(t, j, x)]
  {
    assert [i, j][1..] == [j];
    assert [j][1..] == [];
  }

  /** A one-dart queue whose two images add exactly one new dart `y` moves on to `y`. */
  lemma BfsChainStep(t: BetaTable, p: OrbitPolicy, x: nat, marked: set<nat>, a: nat, b: nat, y: nat)
    requires InRange(t) && ValidPolicy(p) && x < |t| && Images(t, p, x) == [a, b]
    requires (a !in marked && y == a && b in marked + {a}) || (a in marked && b !in marked && y == b)
    ensures y < |t|
    ensures Bfs(t, p, [x], marked) == [x] + Bfs(t, p, [y], marked + {y})
  {
    BfsUnfold(t, p, [x], marked);
    StepFromOne(t, p, x, marked);
    EnqueueTwo(a, b, [], marked);
    EnqueueOne(a, [], marked);
    EnqueueOne(b, Enqueue([a], [], marked).0, Enqueue([a], [], marked).1);
    assert [] + [y] == [y];
  }

  /** A one-dart queue whose two images are both marked already ends the traversal. */
  lemma BfsChainEnd(t: BetaTable, p: OrbitPolicy, x: nat, marked: set<nat>, a: nat, b: nat)
    requires InRange(t) && ValidPolicy(p) && x < |t| && Images(t, p, x) == [a, b]
    requires a in marked && b in marked
    ensures Bfs(t, p, [x], marked) == [x]
  {
    BfsUnfold(t, p, [x], marked);
    StepFromOne(t, p, x, marked);
    EnqueueTwo(a, b, [], marked);
    EnqueueOne(a, [], marked);
    EnqueueOne(b, [], marked);
  }

  /**
   * A small map: two triangles 1-2-3 and 4-5-6 and a pentagon 7-..-11, with
   * the edges 2|4 and 6|7 shared.
   */
  function SimpleMap(): (t: BetaTable)
    ensures |t| == 12
  {
    [ FreeRow,
      DartBetas(3, 2, 0), DartBetas(1, 3, 4), DartBetas(2, 1, 0),
      DartBetas(6, 5, 2), DartBetas(4, 6, 0), DartBetas(5, 4, 7),
      DartBetas(11, 8, 6), DartBetas(7, 9, 0), DartBetas(8, 10, 0), DartBetas(9, 11, 0), DartBetas(10, 7, 0) ]
  }

  /** The β1 and β2 images of each dart of `SimpleMap`. */
  ghost predicate SimpleMapLinks(t: BetaTable)
  {
    && |t| == 12 && InRange(t)
    && t[1].b1 == 2 && t[1].b2 == 0 && t[2].b1 == 3 && t[2].b2 == 4
    && t[3].b1 == 1 && t[3].b2 == 0 && t[4].b1 == 5 && t[4].b2 == 2
    && t[5].b1 == 6 && t[5].b2 == 0 && t[6].b1 == 4 && t[6].b2 == 7
    && t[7].b1 == 8 && t[7].b2 == 6 && t[8].b1 == 9 && t[8].b2 == 0
    && t[9].b1 == 10 && t[9].b2 == 0 && t[10].b1 == 11 && t[10].b2 == 0
    && t[11].b1 == 7 && t[11].b2 == 0
  }

  lemma SimpleMapRows(t: BetaTable)
    requires t == SimpleMap()
    ensures SimpleMapLinks(t)
  {
  }

  /** One step of the β1-then-β2 traversal from a one-dart queue that adds exactly one new dart `y`. */
  lemma PairPolicyStep(t: BetaTable, x: nat, a: nat, b: nat, marked: set<nat>, y: nat, rest: seq<nat>)
    requires InRange(t) && x < |t| && t[x].b1 == a && t[x].b2 == b
    requires (a !in marked && y == a && b in marked + {y}) || (a in marked && b !in marked && y == b)
    requires y < |t| ==> Bfs(t, Custom([1, 2]), [y], marked + {y}) == rest
    ensures Bfs(t, Custom([1, 2]), [x], marked) == [x] + rest
  {
    CustomPairImages(t, 1, 2, x);
    BfsChainStep(t, Custom([1, 2]), x, marked, a, b, y);
  }

  /** The end of the traversal of `SimpleMap`: 9, 10 and 11 once 0 to 9 are marked. */
  lemma SimpleMapLastDarts(t: BetaTable)
    requires SimpleMapLinks(t)
    ensures Bfs(t, Custom([1, 2]), [9], {0, 1, 2, 3, 4, 5, 6, 7, 8, 9}) == [9, 10, 11]
  {
    var m9 := {0, 1, 2, 3, 4, 5, 6, 7, 8, 9};
    var m10 := m9 + {10};
    var m11 := m10 + {11};
    CustomPairImages(t, 1, 2, 11);
    BfsChainEnd(t, Custom([1, 2]), 11, m11, 7, 0);
    PairPolicyStep(t, 10, 11, 0, m10, 11, [11]);
    PairPolicyStep(t, 9, 10, 0, m9, 10, [10, 11]);
  }

  /** The pentagon's darts follow dart 6 once 0 to 6 are marked. */
  lemma SimpleMapPentagon(t: BetaTable)
    requires SimpleMapLinks(t)
    ensures Bfs(t, Custom([1, 2]), [6], {0, 1, 2, 3, 4, 5, 6}) == [6, 7, 8, 9, 10, 11]
  {
    var m6 := {0, 1, 2, 3, 4, 5, 6};
    var m7 := m6 + {7};
    var m8 := m7 + {8};
    assert m8 + {9} == {0, 1, 2, 3, 4, 5, 6, 7, 8, 9};
    SimpleMapLastDarts(t);
    PairPolicyStep(t, 8, 9, 0, m8, 9, [9, 10, 11]);
    PairPolicyStep(t, 7, 8, 6, m7, 8, [8, 9, 10, 11]);
    PairPolicyStep(t, 6, 4, 7, m6, 7, [7, 8, 9, 10, 11]);
  }

  /** From dart 2 the traversal crosses to the second triangle, then to the pentagon. */
  lemma SimpleMapSecondTriangle(t: BetaTable)
    requires SimpleMapLinks(t)
    ensures Bfs(t, Custom([1, 2]), [2], {0, 1, 2, 3}) == [2, 4, 5, 6, 7, 8, 9, 10, 11]
  {
    var m2 := {0, 1, 2, 3};
    var m4 := m2 + {4};
    var m5 := m4 + {5};
    assert m5 + {6} == {0, 1, 2, 3, 4, 5, 6};
    SimpleMapPentagon(t);
    PairPolicyStep(t, 5, 6, 0, m5, 6, [6, 7, 8, 9, 10, 11]);
    PairPolicyStep(t, 4, 5, 2, m4, 5, [5, 6, 7, 8, 9, 10, 11]);
    PairPolicyStep(t, 2, 3, 4, m2, 4, [4, 5, 6, 7, 8, 9, 10, 11]);
  }

  /**
   * The traversal order is fixed: following β1 then β2 from dart 3 visits
   * the whole of `SimpleMap` as 3, 1, 2, 4, 5, ..., 11.
   */
  lemma CustomOrbitOfSimpleMap(t: BetaTable)
    requires t == SimpleMap()
    ensures OrbitSeq(t, Custom([1, 2]), 3) == [3, 1, 2, 4, 5, 6, 7, 8, 9, 10, 11]
  {
    SimpleMapRows(t);
    CustomOrbitOfLinks(t);
  }

  /** The traversal of `CustomOrbitOfSimpleMap`, for any table with the links of `SimpleMap`. */
  lemma CustomOrbitOfLinks(t: BetaTable)
    requires SimpleMapLinks(t)
    ensures OrbitSeq(t, Custom([1, 2]), 3) == [3, 1, 2, 4, 5, 6, 7, 8, 9, 10, 11]
  {
    var m3 := {0, 3};
    var m1 := m3 + {1};
    assert m1 + {2} == {0, 1, 2, 3};
    SimpleMapSecondTriangle(t);
    PairPolicyStep(t, 1, 2, 0, m1, 2, [2, 4, 5, 6, 7, 8, 9, 10, 11]);
    PairPolicyStep(t, 3, 1, 0, m3, 1, [1, 2, 4, 5, 6, 7, 8, 9, 10, 11]);
  }

  // --- the iterator

  /**
   * A lazy orbit over a fixed β table: each call to `Next` yields the next
   * dart of the traversal, or nothing once the queue is empty.
   */
  class Orbit2 {
    const betas: BetaTable
    const policy: OrbitPolicy
    var marked: set<nat>
    var pending: seq<nat>

    ghost predicate Valid()
      reads this
    {
      InRange(betas) && QueueInRange(betas, pending)
    }

    /** The darts this orbit has still to yield, in order. */
    ghost function Remaining(): seq<nat>
      reads this
      requires Valid() && ValidPolicy(policy)
    {
      Bfs(betas, policy, pending, marked)
    }

    /** The orbit of `dart`; the null dart and the start dart are marked from the outset. */
    constructor (betas: BetaTable, policy: OrbitPolicy, dart: nat)
      requires InRange(betas) && dart < |betas|
      ensures Valid() && this.betas == betas && this.policy == policy
      ensures pending == [dart] && marked == {0, dart}
      ensures ValidPolicy(policy) ==> Remaining() == OrbitSeq(betas, policy, dart)
    {
      this.betas := betas;
      this.policy := policy;
      marked := {0, dart};
      pending := [dart];
    }

    /**
     * Pops the head of the queue, marks and queues each of its unmarked
     * images in policy order, and yields it.
     */
    method Next() returns (r: Option<nat>)
      requires Valid() && (pending != [] ==> ValidPolicy(policy))
      modifies this
      ensures Valid()
      ensures old(pending) == [] ==> r == None && pending == [] && marked == old(marked)
      ensures old(pending) != [] ==>
                r == Some(old(pending)[0]) && (pending, marked) == Step(betas, policy, old(pending), old(marked))
      ensures ValidPolicy(policy) ==>
        old(Remaining()) == (if r.Some? then [r.value] else []) + Remaining()
    {
      if pending == [] {
        return None;
      }
      ghost var p0, m0 := pending, marked;
      var d := pending[0];
      pending := pending[1..];
      var images := Images(betas, policy, d);
      var k := 0;
      while k < |images|
        invariant 0 <= k <= |images|
        invariant Enqueue(images[k..], pending, marked) == Step(betas, policy, p0, m0)
      {
        var image := images[k];
        assert images[k..][1..] == images[k + 1..];
        if image !in marked {
          marked := marked + {image};
          pending := pending + [image];
        }
        k := k + 1;
      }
      r := Some(d);
      StepDecreases(betas, policy, p0, m0);
      BfsUnfold(betas, policy, p0, m0);
    }
  }
}
