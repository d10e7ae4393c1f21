/** Sequence helpers shared by the dart-allocation models. */
module SeqUtil {
  /** The darts lo, lo + 1, ..., hi - 1, in order (empty when hi <= lo). */
  function Interval(lo: nat, hi: nat): (s: seq<nat>)
    ensures |s| == if hi <= lo then 0 else hi - lo
    ensures forall k :: 0 <= k < |s| ==> s[k] == lo + k
  {
    if hi <= lo then [] else seq(hi - lo, k requires 0 <= k < hi - lo => lo + k)
  }

  /** Consecutive intervals glue together. */
  lemma IntervalSplit(lo: nat, mid: nat, hi: nat)
    requires lo <= mid <= hi
    ensures Interval(lo, mid) + Interval(mid, hi) == Interval(lo, hi)
  {
    assert |Interval(lo, mid) + Interval(mid, hi)| == |Interval(lo, hi)|;
    forall k | 0 <= k < hi - lo
      ensures (Interval(lo, mid) + Interval(mid, hi))[k] == Interval(lo, hi)[k]
    {
      if k < mid - lo {
      } else {
        assert (Interval(lo, mid) + Interval(mid, hi))[k] == Interval(mid, hi)[k - (mid - lo)];
      }
    }
  }

  /** Concatenation of a sequence of sequences, in order. */
  function Flatten<T>(parts: seq<seq<T>>): seq<T>
  {
    if parts == [] then [] else Flatten(parts[..|parts| - 1]) + parts[|parts| - 1]
  }

  /** Flattening one more part appends it. */
  lemma FlattenAppend<T>(parts: seq<seq<T>>, last: seq<T>)
    ensures Flatten(parts + [last]) == Flatten(parts) + last
  {
    assert (parts + [last])[..|parts|] == parts;
  }

  /** The values a sequence takes. */
  function Values<T>(xs: seq<T>): set<T>
  {
    set x | x in xs
  }

  /** No value occurs twice. */
  predicate Distinct<T(==)>(xs: seq<T>)
  {
    forall i, j :: 0 <= i < j < |xs| ==> xs[i] != xs[j]
  }
}
