/**
 * Dart blocks: darts reserved in advance from a map and then handed out to
 * an operation a few at a time.  A compact block owns the consecutive ids
 * start .. start + size - 1; a sparse block owns an arbitrary list of ids.
 * Reserving the block from the map happens in a transaction and is not part
 * of this model; the blocks are built from what that reservation returns.
 */
module Darts {
  import opened Wrappers
  import opened SeqUtil

  /** A half-open range of dart ids, lo included and hi excluded. */
  datatype DartRange = DartRange(lo: nat, hi: nat)
  {
    function Ids(): seq<nat>
    {
      Interval(lo, hi)
    }
  }

  /** Ids of a sequence of ranges, range after range. */
  function RangesIds(rs: seq<DartRange>): seq<nat>
  {
    if rs == [] then [] else RangesIds(rs[..|rs| - 1]) + rs[|rs| - 1].Ids()
  }

  /**
   * Ranges whose ids, laid end to end, are the consecutive ids lo, lo + 1, ...
   * never share a dart, and every dart of an earlier range precedes every dart
   * of a later one.
   */
  lemma {:induction false} ConsecutiveRangesAreDisjoint(rs: seq<DartRange>, lo: nat, hi: nat)
    requires RangesIds(rs) == Interval(lo, hi)
    ensures forall i, j, x, y :: 0 <= i < j < |rs| && x in rs[i].Ids() && y in rs[j].Ids() ==> x < y
  {
    if rs != [] {
      var init := rs[..|rs| - 1];
      var last := rs[|rs| - 1];
      var n := |RangesIds(init)|;
      assert RangesIds(rs) == RangesIds(init) + last.Ids();
      assert RangesIds(init) == Interval(lo, lo + n) by {
        forall k | 0 <= k < n ensures RangesIds(init)[k] == lo + k {
          assert RangesIds(rs)[k] == RangesIds(init)[k];
        }
      }
      ConsecutiveRangesAreDisjoint(init, lo, lo + n);
      forall i, j, x, y | 0 <= i < j < |rs| && x in rs[i].Ids() && y in rs[j].Ids() ensures x < y {
        if j < |rs| - 1 {
          assert init[i] == rs[i] && init[j] == rs[j];
        } else {
          assert x in RangesIds(init) by { RangeIdsContainsPart(init, i, x); }
          var p :| 0 <= p < |last.Ids()| && last.Ids()[p] == y;
          assert RangesIds(rs)[n + p] == y;
        }
      }
    }
  }

  /** Each range's ids occur in the ids of the whole sequence, below its length bound. */
  lemma {:induction false} RangeIdsContainsPart(rs: seq<DartRange>, i: nat, x: nat)
    requires i < |rs| && x in rs[i].Ids()
    ensures x in RangesIds(rs)
  {
    var init := rs[..|rs| - 1];
    assert RangesIds(rs) == RangesIds(init) + rs[|rs| - 1].Ids();
    if i < |rs| - 1 {
      assert init[i] == rs[i];
      RangeIdsContainsPart(init, i, x);
    }
  }

  /** A block of the consecutive darts start .. start + size - 1. */
  class CompactDartBlock {
    const start: nat
    const size: nat
    var cursor: nat
    /** The ranges handed out so far, in order. */
    ghost var taken: seq<DartRange>

    /** Every handed-out range is non-empty and they tile start .. cursor - 1. */
    ghost predicate Valid()
      reads this
    {
      start <= cursor <= start + size
      && (forall k :: 0 <= k < |taken| ==> taken[k].lo < taken[k].hi)
      && RangesIds(taken) == Interval(start, cursor)
    }

    /** A block as the reservation builds it, with nothing handed out yet. */
    constructor (start: nat, size: nat)
      ensures Valid()
      ensures this.start == start && this.size == size && cursor == start && taken == []
    {
      this.start := start;
      this.size := size;
      cursor := start;
      taken := [];
    }

    /** Hand out the next `n` darts of the block, if that many remain. */
    method TakeN(n: nat) returns (r: Option<DartRange>)
      requires Valid()
      modifies this
      ensures Valid()
      ensures n != 0 && old(cursor) + n <= start + size ==>
        r == Some(DartRange(old(cursor), old(cursor) + n)) && cursor == old(cursor) + n
        && taken == old(taken) + [r.value]
      ensures !(n != 0 && old(cursor) + n <= start + size) ==>
        r == None && cursor == old(cursor) && taken == old(taken)
    {
      var c := cursor;
      if n != 0 && c + n <= start + size {
        cursor := cursor + n;
        r := Some(DartRange(c, cursor));
        assert RangesIds(taken + [r.value]) == RangesIds(taken) + r.value.Ids() by {
          assert (taken + [r.value])[..|taken|] == taken;
        }
        IntervalSplit(start, c, cursor);
        taken := taken + [r.value];
      } else {
        r := None;
      }
    }

    /**
     * The darts not handed out yet; the block is consumed by this call.  With
     * the ranges already taken, they are exactly the darts of the block.
     */
    method TakeRemaining() returns (r: DartRange)
      requires Valid()
      ensures r == DartRange(cursor, start + size)
      ensures RangesIds(taken) + r.Ids() == Interval(start, start + size)
    {
      r := DartRange(cursor, start + size);
      IntervalSplit(start, cursor, start + size);
    }
  }

  /** A block of arbitrary reserved darts, handed out in their stored order. */
  class SparseDartBlock {
    const darts: seq<nat>
    var cursor: nat
    /** The slices handed out so far, in order. */
    ghost var taken: seq<seq<nat>>

    /** The handed-out slices are non-empty and tile darts[..cursor]. */
    ghost predicate Valid()
      reads this
    {
      cursor <= |darts|
      && (forall k :: 0 <= k < |taken| ==> taken[k] != [])
      && Flatten(taken) == darts[..cursor]
    }

    /** A block as the reservation builds it, with nothing handed out yet. */
    constructor (darts: seq<nat>)
      ensures Valid()
      ensures this.darts == darts && cursor == 0 && taken == []
    {
      this.darts := darts;
      cursor := 0;
      taken := [];
    }

    /** Hand out the next `n` darts of the block, if that many remain. */
    method TakeN(n: nat) returns (r: Option<seq<nat>>)
      requires Valid()
      modifies this
      ensures Valid()
      ensures n != 0 && old(cursor) + n <= |darts| ==>
        r == Some(darts[old(cursor)..old(cursor) + n]) && cursor == old(cursor) + n
        && taken == old(taken) + [r.value]
      ensures !(n != 0 && old(cursor) + n <= |darts|) ==>
        r == None && cursor == old(cursor) && taken == old(taken)
    {
      var c := cursor;
      if n != 0 && c + n <= |darts| {
        cursor := cursor + n;
        r := Some(darts[c..cursor]);
        FlattenAppend(taken, r.value);
        assert darts[..c] + darts[c..cursor] == darts[..cursor];
        taken := taken + [r.value];
      } else {
        r := None;
      }
    }

    /**
     * The darts not handed out yet; the block is consumed by this call.  With
     * the slices already taken, they are all the darts of the block, in order.
     */
    method TakeRemaining() returns (r: seq<nat>)
      requires Valid()
      ensures r == darts[cursor..]
      ensures Flatten(taken) + r == darts
    {
      r := darts[cursor..];
      assert darts[..cursor] + darts[cursor..] == darts;
    }
  }
}
