/**
 * Attribute storage indexed by cell id.  The sparse vector keeps one optional
 * value per id; the compact vector keeps the values packed in a data vector,
 * an index map from ids to data slots, and a stack of data slots freed by
 * removals that later insertions reuse.  Both expose the same abstract view:
 * one optional value per id.
 */
module AttributeCollections {
  import opened Wrappers

  /** Number of ids that hold a value. */
  function CountSome<T>(s: seq<Option<T>>): (c: nat)
    ensures c <= |s|
  {
    if s == [] then 0 else CountSome(s[..|s| - 1]) + (if s[|s| - 1].Some? then 1 else 0)
  }

  /** The count is zero exactly when no id holds a value, and full exactly when all do. */
  lemma {:induction false} CountSomeExtremes<T>(s: seq<Option<T>>)
    ensures CountSome(s) == 0 <==> forall i :: 0 <= i < |s| ==> s[i].None?
    ensures CountSome(s) == |s| <==> forall i :: 0 <= i < |s| ==> s[i].Some?
  {
    if s != [] {
      var init := s[..|s| - 1];
      CountSomeExtremes(init);
      assert forall i :: 0 <= i < |init| ==> init[i] == s[i];
    }
  }

  /** `n` slots without a value. */
  function NoneSlots<T>(n: nat): (s: seq<Option<T>>)
    ensures |s| == n && forall i :: 0 <= i < n ==> s[i].None?
  {
    if n == 0 then [] else NoneSlots(n - 1) + [None]
  }

  /** Appending empty slots does not change the count. */
  lemma {:induction false} CountSomeAppendNone<T>(s: seq<Option<T>>, n: nat)
    ensures CountSome(s + NoneSlots(n)) == CountSome(s)
  {
    if n == 0 {
      assert s + NoneSlots(n) == s;
    } else {
      var t := s + NoneSlots(n - 1);
      assert s + NoneSlots(n) == t + [None];
      assert (t + [None])[..|t|] == t;
      assert CountSome(t + [None]) == CountSome(t);
      CountSomeAppendNone(s, n - 1);
    }
  }

  /** Writing one slot changes the count by the change at that slot. */
  lemma {:induction false} CountSomeUpdate<T>(s: seq<Option<T>>, i: nat, v: Option<T>)
    requires i < |s|
    ensures CountSome(s[i := v]) + (if s[i].Some? then 1 else 0)
         == CountSome(s) + (if v.Some? then 1 else 0)
  {
    var last := |s| - 1;
    assert s[i := v][..last] == if i < last then s[..last][i := v] else s[..last];
    if i < last {
      CountSomeUpdate(s[..last], i, v);
    }
  }

  /**
   * Vec::swap_remove: take out element i and move the last element into its
   * place (or just pop when i is the last index).
   */
  function SwapRemove<T>(s: seq<T>, i: nat): (T, seq<T>)
    requires i < |s|
  {
    if i == |s| - 1 then (s[i], s[..i]) else (s[i], s[..|s| - 1][i := s[|s| - 1]])
  }

  /**
   * Pushing a value and swap-removing index i replaces element i by that value
   * and returns the old element; at i == |s| it returns the pushed value and
   * leaves the sequence as it was.
   */
  lemma PushThenSwapRemove<T>(s: seq<T>, x: T, i: nat)
    requires i <= |s|
    ensures SwapRemove(s + [x], i) == if i < |s| then (s[i], s[i := x]) else (x, s)
  {
    if i < |s| {
      assert (s + [x])[..|s|][i := x] == s[i := x];
    } else {
      assert (s + [x])[..i] == s;
    }
  }

  // --- sparse storage

  /** One optional value per id. */
  class AttrSparseVec<T> {
    var data: seq<Option<T>>

    /** Storage for `nIds` ids, all without a value. */
    constructor (nIds: nat)
      ensures data == NoneSlots(nIds)
      ensures NVertices() == 0
    {
      CountSomeExtremes(NoneSlots<T>(nIds));
      data := NoneSlots(nIds);
    }

    /** Room for `length` more ids, all without a value. */
    method Extend(length: nat)
      modifies this
      ensures data == old(data) + NoneSlots(length)
      ensures NVertices() == old(NVertices())
    {
      CountSomeAppendNone(data, length);
      data := data + NoneSlots(length);
    }

    /** Number of ids that hold a value. */
    function NVertices(): (n: nat)
      reads this
      ensures n <= |data|
    {
      CountSome(data)
    }

    function Get(index: nat): Option<T>
      reads this
      requires index < |data|
    {
      data[index]
    }

    /** Store `val` at `index`, whatever was there. */
    method Set(index: nat, val: T)
      requires index < |data|
      modifies this
      ensures data == old(data)[index := Some(val)]
      ensures NVertices() == old(NVertices()) + (if old(data[index]).None? then 1 else 0)
    {
      CountSomeUpdate(data, index, Some(val));
      data := data[index := Some(val)];
    }

    /** Store `val` at `index`, which must not hold a value yet. */
    method Insert(index: nat, val: T)
      requires index < |data| && data[index].None?
      modifies this
      ensures data == old(data)[index := Some(val)]
      ensures NVertices() == old(NVertices()) + 1
    {
      CountSomeUpdate(data, index, Some(val));
      data := data[index := Some(val)];
    }

    /**
     * Store `val` at `index` and return what was there.  The push-then-swap-remove
     * implementation also accepts index == |data|: it then hands `val` back and
     * stores nothing.
     */
    method Replace(index: nat, val: T) returns (prev: Option<T>)
      requires index <= |data|
      modifies this
      ensures index < old(|data|) ==> prev == old(data[index]) && data == old(data)[index := Some(val)]
      ensures index == old(|data|) ==> prev == Some(val) && data == old(data)
    {
      PushThenSwapRemove(data, Some(val), index);
      data := data + [Some(val)];
      var removed := SwapRemove(data, index);
      prev, data := removed.0, removed.1;
    }

    /** Take the value out of `index` and return it; the slot is left empty. */
    method Remove(index: nat) returns (prev: Option<T>)
      requires index <= |data|
      modifies this
      ensures index < old(|data|) ==> prev == old(data[index]) && data == old(data)[index := None]
      ensures index == old(|data|) ==> prev == None && data == old(data)
      ensures NVertices() == old(NVertices()) - (if prev.Some? then 1 else 0)
    {
      PushThenSwapRemove(data, None, index);
      if index < |data| {
        CountSomeUpdate(data, index, None);
      }
      data := data + [None];
      var removed := SwapRemove(data, index);
      prev, data := removed.0, removed.1;
    }
  }

  // --- compact storage

  /** Every mapped slot and every free slot lies inside a data vector of length n. */
  ghost predicate SlotsInRange(indexMap: seq<Option<nat>>, free: seq<nat>, n: nat)
  {
    (forall i :: 0 <= i < |indexMap| && indexMap[i].Some? ==> indexMap[i].value < n)
    && (forall k :: 0 <= k < |free| ==> free[k] < n)
  }

  /** No slot is mapped from two ids. */
  ghost predicate MapInjective(indexMap: seq<Option<nat>>)
  {
    forall i, j :: 0 <= i < |indexMap| && 0 <= j < |indexMap| && i != j && indexMap[i].Some? && indexMap[j].Some?
      ==> indexMap[i].value != indexMap[j].value
  }

  /** No slot is freed twice. */
  ghost predicate FreeDistinct(free: seq<nat>)
  {
    forall k, l :: 0 <= k < l < |free| ==> free[k] != free[l]
  }

  /** No slot is both mapped and free. */
  ghost predicate FreeUnmapped(indexMap: seq<Option<nat>>, free: seq<nat>)
  {
    forall i, k :: 0 <= i < |indexMap| && 0 <= k < |free| && indexMap[i].Some? ==> indexMap[i].value != free[k]
  }

  /**
   * The compact storage's invariant over a data vector of length n: slots in
   * range, no slot mapped twice, freed twice, or both mapped and freed, and
   * every slot one or the other.
   */
  ghost predicate CompactInv(indexMap: seq<Option<nat>>, free: seq<nat>, n: nat)
  {
    SlotsInRange(indexMap, free, n) && MapInjective(indexMap) && FreeDistinct(free)
    && FreeUnmapped(indexMap, free) && n == |free| + CountSome(indexMap)
  }

  /** What each id holds, looked up through the index map. */
  function View<T>(indexMap: seq<Option<nat>>, data: seq<T>): (v: seq<Option<T>>)
    requires forall i :: 0 <= i < |indexMap| && indexMap[i].Some? ==> indexMap[i].value < |data|
    ensures |v| == |indexMap|
    ensures forall i :: 0 <= i < |indexMap| ==> v[i].Some? == indexMap[i].Some?
  {
    seq(|indexMap|, i requires 0 <= i < |indexMap| =>
      if indexMap[i].Some? then Some(data[indexMap[i].value]) else None)
  }

  /**
   * Mapping `index` to a slot that no other id uses and storing `val` there
   * changes the view at `index` only.
   */
  lemma ViewAfterStore<T>(indexMap: seq<Option<nat>>, data: seq<T>, data2: seq<T>, index: nat, slot: nat, val: T)
    requires forall i :: 0 <= i < |indexMap| && indexMap[i].Some? ==> indexMap[i].value < |data|
    requires index < |indexMap| && |data| <= |data2| && slot < |data2| && data2[slot] == val
    requires forall k :: 0 <= k < |data| && k != slot ==> data2[k] == data[k]
    requires forall i :: 0 <= i < |indexMap| && i != index && indexMap[i].Some? ==> indexMap[i].value != slot
    ensures View(indexMap[index := Some(slot)], data2) == View(indexMap, data)[index := Some(val)]
  {
  }

  /** Unmapping `index` empties the view at `index` only. */
  lemma ViewAfterUnmap<T>(indexMap: seq<Option<nat>>, data: seq<T>, index: nat)
    requires forall i :: 0 <= i < |indexMap| && indexMap[i].Some? ==> indexMap[i].value < |data|
    requires index < |indexMap|
    ensures View(indexMap[index := None], data) == View(indexMap, data)[index := None]
  {
  }

  /** Mapping an unmapped id to the most recently freed slot keeps the invariant. */
  lemma InvAfterReuse(indexMap: seq<Option<nat>>, free: seq<nat>, n: nat, index: nat)
    requires CompactInv(indexMap, free, n) && index < |indexMap| && indexMap[index].None? && free != []
    ensures CompactInv(indexMap[index := Some(free[|free| - 1])], free[..|free| - 1], n)
  {
    CountSomeUpdate(indexMap, index, Some(free[|free| - 1]));
  }

  /** Mapping an unmapped id to a new slot at the end keeps the invariant. */
  lemma InvAfterPush(indexMap: seq<Option<nat>>, free: seq<nat>, n: nat, index: nat)
    requires CompactInv(indexMap, free, n) && index < |indexMap| && indexMap[index].None? && free == []
    ensures CompactInv(indexMap[index := Some(n)], free, n + 1)
  {
    CountSomeUpdate(indexMap, index, Some(n));
  }

  /** Unmapping a mapped id and freeing its slot keeps the invariant. */
  lemma InvAfterUnmap(indexMap: seq<Option<nat>>, free: seq<nat>, n: nat, index: nat)
    requires CompactInv(indexMap, free, n) && index < |indexMap| && indexMap[index].Some?
    ensures CompactInv(indexMap[index := None], free + [indexMap[index].value], n)
  {
    CountSomeUpdate(indexMap, index, None);
    var im := indexMap[index := None];
    var fr := free + [indexMap[index].value];
    assert FreeDistinct(fr) by {
      forall k, l | 0 <= k < l < |fr| ensures fr[k] != fr[l] {
        if l == |free| {
          assert fr[k] == free[k];
        }
      }
    }
  }

  /** Values packed in `data`, reached from the ids through `indexMap`. */
  class AttrCompactVec<T> {
    var unusedDataSlots: seq<nat>
    var indexMap: seq<Option<nat>>
    var data: seq<T>

    ghost predicate Valid()
      reads this
    {
      CompactInv(indexMap, unusedDataSlots, |data|)
    }

    /** The abstract content: the optional value of each id. */
    ghost function Contents(): seq<Option<T>>
      reads this
      requires Valid()
    {
      View(indexMap, data)
    }

    /** Storage for `nIds` ids, all without a value. */
    constructor (nIds: nat)
      ensures Valid()
      ensures Contents() == NoneSlots(nIds)
      ensures unusedDataSlots == [] && data == []
    {
      CountSomeExtremes(NoneSlots<nat>(nIds));
      unusedDataSlots := [];
      indexMap := NoneSlots(nIds);
      data := [];
    }

    /** Room for `length` more ids, all without a value. */
    method Extend(length: nat)
      requires Valid()
      modifies this
      ensures Valid()
      ensures Contents() == old(Contents()) + NoneSlots(length)
      ensures data == old(data) && unusedDataSlots == old(unusedDataSlots)
    {
      CountSomeAppendNone(indexMap, length);
      indexMap := indexMap + NoneSlots(length);
    }

    /**
     * Size of the data vector, as the storage reports its vertex count; this
     * includes the slots freed by removals.
     */
    function NVertices(): (n: nat)
      reads this
      requires Valid()
      ensures n == CountSome(Contents()) + |unusedDataSlots|
    {
      CountSomeSameShape(indexMap, Contents());
      |data|
    }

    /** Number of ids that hold a value: the data slots that are not free. */
    function NStored(): (n: nat)
      reads this
      requires Valid()
      ensures n == CountSome(Contents())
    {
      CountSomeSameShape(indexMap, Contents());
      |data| - |unusedDataSlots|
    }

    /** The value of `index`, read through the index map. */
    function Get(index: nat): (r: Option<T>)
      reads this
      requires Valid() && index < |indexMap|
      ensures r == Contents()[index]
    {
      if indexMap[index].Some? then Some(data[indexMap[index].value]) else None
    }

    /**
     * Store `val` at `index`: in place when `index` already has a slot, else in
     * the most recently freed slot, else in a new slot at the end.
     */
    method Set(index: nat, val: T)
      requires Valid() && index < |indexMap|
      modifies this
      ensures Valid()
      ensures Contents() == old(Contents())[index := Some(val)]
      ensures old(indexMap[index]).Some? ==>
        indexMap == old(indexMap) && unusedDataSlots == old(unusedDataSlots) && |data| == old(|data|)
      ensures old(indexMap[index]).None? && old(unusedDataSlots) != [] ==>
        indexMap[index] == Some(old(unusedDataSlots[|unusedDataSlots| - 1]))
        && unusedDataSlots == old(unusedDataSlots[..|unusedDataSlots| - 1]) && |data| == old(|data|)
      ensures old(indexMap[index]).None? && old(unusedDataSlots) == [] ==>
        indexMap[index] == Some(old(|data|)) && unusedDataSlots == [] && data == old(data) + [val]
    {
      if indexMap[index].Some? {
        var slot := indexMap[index].value;
        ViewAfterStore(indexMap, data, data[slot := val], index, slot, val);
        assert indexMap[index := Some(slot)] == indexMap;
        data := data[slot := val];
      } else {
        FillFreeSlot(index, val);
      }
    }

    /** Store `val` at `index`, which must not hold a value yet. */
    method Insert(index: nat, val: T)
      requires Valid() && index < |indexMap| && indexMap[index].None?
      modifies this
      ensures Valid()
      ensures Contents() == old(Contents())[index := Some(val)]
      ensures old(unusedDataSlots) != [] ==>
        indexMap[index] == Some(old(unusedDataSlots[|unusedDataSlots| - 1]))
        && unusedDataSlots == old(unusedDataSlots[..|unusedDataSlots| - 1]) && |data| == old(|data|)
      ensures old(unusedDataSlots) == [] ==>
        indexMap[index] == Some(old(|data|)) && unusedDataSlots == [] && data == old(data) + [val]
    {
      FillFreeSlot(index, val);
    }

    /** Give the unmapped `index` a slot holding `val`: a freed one if any, else a new one. */
    method FillFreeSlot(index: nat, val: T)
      requires Valid() && index < |indexMap| && indexMap[index].None?
      modifies this
      ensures Valid()
      ensures Contents() == old(Contents())[index := Some(val)]
      ensures old(unusedDataSlots) != [] ==>
        indexMap[index] == Some(old(unusedDataSlots[|unusedDataSlots| - 1]))
        && unusedDataSlots == old(unusedDataSlots[..|unusedDataSlots| - 1]) && |data| == old(|data|)
      ensures old(unusedDataSlots) == [] ==>
        indexMap[index] == Some(old(|data|)) && unusedDataSlots == [] && data == old(data) + [val]
    {
      if unusedDataSlots != [] {
        var slot := unusedDataSlots[|unusedDataSlots| - 1];
        InvAfterReuse(indexMap, unusedDataSlots, |data|, index);
        ViewAfterStore(indexMap, data, data[slot := val], index, slot, val);
        unusedDataSlots := unusedDataSlots[..|unusedDataSlots| - 1];
        data := data[slot := val];
        indexMap := indexMap[index := Some(slot)];
      } else {
        InvAfterPush(indexMap, unusedDataSlots, |data|, index);
        ViewAfterStore(indexMap, data, data + [val], index, |data|, val);
        indexMap := indexMap[index := Some(|data|)];
        data := data + [val];
      }
    }

    /** Store `val` at the mapped `index` and return the value it replaces. */
    method Replace(index: nat, val: T) returns (prev: Option<T>)
      requires Valid() && index < |indexMap| && indexMap[index].Some?
      modifies this
      ensures Valid()
      ensures prev == old(Contents())[index] && prev.Some?
      ensures Contents() == old(Contents())[index := Some(val)]
      ensures indexMap == old(indexMap) && unusedDataSlots == old(unusedDataSlots)
    {
      var slot := indexMap[index].value;
      PushThenSwapRemove(data, val, slot);
      ViewAfterStore(indexMap, data, data[slot := val], index, slot, val);
      assert indexMap[index := Some(slot)] == indexMap;
      data := data + [val];
      var removed := SwapRemove(data, slot);
      data := removed.1;
      prev := Some(removed.0);
    }

    /**
     * Unmap `index`, free its slot and return its value; an unmapped index
     * gives None.  The push-then-swap-remove implementation also accepts
     * index == |indexMap|, which changes nothing.
     */
    method Remove(index: nat) returns (prev: Option<T>)
      requires Valid() && index <= |indexMap|
      modifies this
      ensures Valid()
      ensures index < old(|indexMap|) ==>
        prev == old(Contents())[index] && Contents() == old(Contents())[index := None]
      ensures index == old(|indexMap|) ==> prev == None && Contents() == old(Contents())
      ensures prev.Some? ==> unusedDataSlots == old(unusedDataSlots) + [old(indexMap[index].value)]
      ensures prev.None? ==> unusedDataSlots == old(unusedDataSlots)
      ensures data == old(data)
    {
      PushThenSwapRemove(indexMap, None, index);
      if index < |indexMap| {
        ViewAfterUnmap(indexMap, data, index);
        if indexMap[index].Some? {
          InvAfterUnmap(indexMap, unusedDataSlots, |data|, index);
        } else {
          assert indexMap[index := None] == indexMap;
        }
      }
      indexMap := indexMap + [None];
      var removed := SwapRemove(indexMap, index);
      indexMap := removed.1;
      if removed.0.Some? {
        var slot := removed.0.value;
        unusedDataSlots := unusedDataSlots + [slot];
        prev := Some(data[slot]);
      } else {
        prev := None;
      }
    }

    /** The index map and the view hold values at the same ids, so they count alike. */
    static lemma {:induction false} CountSomeSameShape<U, V>(a: seq<Option<U>>, b: seq<Option<V>>)
      requires |a| == |b| && forall i :: 0 <= i < |a| ==> a[i].Some? == b[i].Some?
      ensures CountSome(a) == CountSome(b)
    {
      if a != [] {
        CountSomeSameShape(a[..|a| - 1], b[..|b| - 1]);
      }
    }
  }

  /**
   * The compact storage's vertex count overstates the stored values: after an
   * insertion and a removal at id 0 nothing is stored, yet the count is one.
   */
  method CompactCountAfterRemoval<T>(v: T) returns (reported: nat, stored: nat)
    ensures reported == 1 && stored == 0
  {
    var storage := new AttrCompactVec<T>(1);
    storage.Insert(0, v);
    var removed := storage.Remove(0);
    assert storage.Contents() == [None];
    reported := storage.NVertices();
    stored := storage.NStored();
  }
}
