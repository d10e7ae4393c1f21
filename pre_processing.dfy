/**
 * Step 0 of the overlay-grid algorithm: a boundary is consistently oriented
 * when no vertex starts two of its segments and no vertex ends two of them.
 */
module PreProcessing {
  import opened Wrappers
  import opened SeqUtil

  /** A boundary segment, as the pair (origin vertex, end vertex). */
  type Segment = (nat, nat)

  /** The subset of the algorithm's error kinds that this step can raise. */
  datatype GrisubalError = InconsistentOrientation(reason: string)

  function Origins(segments: seq<Segment>): (os: seq<nat>)
    ensures |os| == |segments| && forall k :: 0 <= k < |segments| ==> os[k] == segments[k].0
  {
    seq(|segments|, k requires 0 <= k < |segments| => segments[k].0)
  }

  function Endpoints(segments: seq<Segment>): (es: seq<nat>)
    ensures |es| == |segments| && forall k :: 0 <= k < |segments| ==> es[k] == segments[k].1
  {
    seq(|segments|, k requires 0 <= k < |segments| => segments[k].1)
  }

  /** The orientation requirement the check enforces. */
  predicate ConsistentlyOriented(segments: seq<Segment>)
  {
    Distinct(Origins(segments)) && Distinct(Endpoints(segments))
  }

  /**
   * Walk the segments once, remembering the origins and endpoints seen so far,
   * and stop at the first origin or endpoint met twice.
   */
  method DetectOrientationIssue(segments: seq<Segment>) returns (r: Result<(), GrisubalError>)
    ensures r.Ok? <==> ConsistentlyOriented(segments)
    ensures r.Err? ==> r.error == InconsistentOrientation("in-boundary inconsistency")
  {
    var origins: set<nat> := {};
    var endpoints: set<nat> := {};
    var i := 0;
    while i < |segments|
      invariant 0 <= i <= |segments|
      invariant origins == set k | 0 <= k < i :: segments[k].0
      invariant endpoints == set k | 0 <= k < i :: segments[k].1
      invariant Distinct(Origins(segments[..i])) && Distinct(Endpoints(segments[..i]))
    {
      var (orig, endp) := segments[i];
      var newOrigin := orig !in origins;
      if newOrigin {
        origins := origins + {orig};
      }
      var newEndpoint := false;
      if newOrigin {
        newEndpoint := endp !in endpoints;
        if newEndpoint {
          endpoints := endpoints + {endp};
        }
      }
      if !newOrigin || !newEndpoint {
        if !newOrigin {
          var k :| 0 <= k < i && segments[k].0 == orig;
          assert Origins(segments)[k] == Origins(segments)[i];
        } else {
          var k :| 0 <= k < i && segments[k].1 == endp;
          assert Endpoints(segments)[k] == Endpoints(segments)[i];
        }
        return Err(InconsistentOrientation("in-boundary inconsistency"));
      }
      assert Origins(segments[..i + 1]) == Origins(segments[..i]) + [orig];
      assert Endpoints(segments[..i + 1]) == Endpoints(segments[..i]) + [endp];
      i := i + 1;
    }
    assert segments[..i] == segments;
    return Ok(());
  }

  /** Appending x keeps a sequence duplicate-free exactly when x is new to it. */
  lemma DistinctSnoc(xs: seq<nat>, x: nat)
    ensures Distinct(xs + [x]) <==> Distinct(xs) && x !in xs
  {
    var ys := xs + [x];
    if Distinct(ys) {
      forall i, j | 0 <= i < j < |xs| ensures xs[i] != xs[j] {
        assert ys[i] == xs[i] && ys[j] == xs[j];
      }
      forall k | 0 <= k < |xs| ensures xs[k] != x {
        assert ys[k] == xs[k] && ys[|xs|] == x;
      }
    }
  }

  /**
   * One step of the check: a boundary extended by the segment g stays
   * consistently oriented exactly when it was, and g's origin is not yet an
   * origin and g's endpoint not yet an endpoint.
   */
  lemma {:induction false} AppendSegmentOriented(segments: seq<Segment>, g: Segment)
    ensures ConsistentlyOriented(segments + [g])
      <==> ConsistentlyOriented(segments) && g.0 !in Origins(segments) && g.1 !in Endpoints(segments)
  {
    assert Origins(segments + [g]) == Origins(segments) + [g.0];
    assert Endpoints(segments + [g]) == Endpoints(segments) + [g.1];
    DistinctSnoc(Origins(segments), g.0);
    DistinctSnoc(Endpoints(segments), g.1);
  }

  /** The values of a non-empty sequence are its head and the values of its tail. */
  lemma ValuesCons(xs: seq<nat>)
    requires xs != []
    ensures Values(xs) == {xs[0]} + Values(xs[1..])
  {
    assert xs == [xs[0]] + xs[1..];
  }

  /** A non-empty sequence is duplicate-free iff its head is not in its tail and its tail is duplicate-free. */
  lemma DistinctCons(xs: seq<nat>)
    requires xs != []
    ensures Distinct(xs) <==> xs[0] !in Values(xs[1..]) && Distinct(xs[1..])
  {
    var rest := xs[1..];
    if xs[0] in Values(rest) {
      var j :| 0 <= j < |rest| && rest[j] == xs[0];
      assert xs[j + 1] == xs[0];
    } else if Distinct(rest) {
      forall i, j | 0 <= i < j < |xs| ensures xs[i] != xs[j] {
        if i == 0 {
          assert xs[j] == rest[j - 1];
        } else {
          assert xs[i] == rest[i - 1] && xs[j] == rest[j - 1];
        }
      }
    } else {
      var i, j :| 0 <= i < j < |rest| && rest[i] == rest[j];
      assert xs[i + 1] == xs[j + 1];
    }
  }

  /** A sequence is duplicate-free exactly when its set of values is as large as it is. */
  lemma {:induction false} DistinctIffFullCardinality(xs: seq<nat>)
    ensures |Values(xs)| <= |xs|
    ensures Distinct(xs) <==> |Values(xs)| == |xs|
  {
    if xs != [] {
      DistinctIffFullCardinality(xs[1..]);
      ValuesCons(xs);
      DistinctCons(xs);
    }
  }

  /** The values a projection takes depend only on which segments occur. */
  lemma SameSegmentsSameValues(s1: seq<Segment>, s2: seq<Segment>)
    requires multiset(s1) == multiset(s2)
    ensures Values(Origins(s1)) == Values(Origins(s2))
    ensures Values(Endpoints(s1)) == Values(Endpoints(s2))
  {
    forall v | v in Values(Origins(s1)) ensures v in Values(Origins(s2)) {
      var k :| 0 <= k < |s1| && Origins(s1)[k] == v;
      assert s1[k] in multiset(s2);
      var m :| 0 <= m < |s2| && s2[m] == s1[k];
      assert Origins(s2)[m] == v;
    }
    forall v | v in Values(Origins(s2)) ensures v in Values(Origins(s1)) {
      var k :| 0 <= k < |s2| && Origins(s2)[k] == v;
      assert s2[k] in multiset(s1);
      var m :| 0 <= m < |s1| && s1[m] == s2[k];
      assert Origins(s1)[m] == v;
    }
    forall v | v in Values(Endpoints(s1)) ensures v in Values(Endpoints(s2)) {
      var k :| 0 <= k < |s1| && Endpoints(s1)[k] == v;
      assert s1[k] in multiset(s2);
      var m :| 0 <= m < |s2| && s2[m] == s1[k];
      assert Endpoints(s2)[m] == v;
    }
    forall v | v in Values(Endpoints(s2)) ensures v in Values(Endpoints(s1)) {
      var k :| 0 <= k < |s2| && Endpoints(s2)[k] == v;
      assert s2[k] in multiset(s1);
      var m :| 0 <= m < |s1| && s1[m] == s2[k];
      assert Endpoints(s1)[m] == v;
    }
  }

  /** Whether the check fails does not depend on the order of the segments. */
  lemma OrientationIgnoresSegmentOrder(s1: seq<Segment>, s2: seq<Segment>)
    requires multiset(s1) == multiset(s2)
    ensures ConsistentlyOriented(s1) <==> ConsistentlyOriented(s2)
  {
    assert |s1| == |multiset(s1)| == |multiset(s2)| == |s2|;
    SameSegmentsSameValues(s1, s2);
    DistinctIffFullCardinality(Origins(s1));
    DistinctIffFullCardinality(Origins(s2));
    DistinctIffFullCardinality(Endpoints(s1));
    DistinctIffFullCardinality(Endpoints(s2));
  }
}
