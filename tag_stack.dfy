/**
 * The growable stack of open elements (TagStack in scanner.cc): an array of
 * `Tag` values, the number in use and the number allocated. Growth doubles
 * the allocation and the allocation never shrinks.
 */
module TagStacks {
  import opened Wrappers
  import opened Tags

  /** The capacity tag_stack_reserve starts doubling from when nothing is allocated yet. */
  const InitialCapacity := 8

  /**
   * The doubling loop of tag_stack_reserve: the first `c * 2^k` that is at least
   * `wanted`, so it overshoots by less than a factor of two unless no doubling was needed.
   */
  function Grow(c: nat, wanted: nat): (r: nat)
    requires c > 0
    ensures r >= wanted && r >= c
    ensures c < wanted ==> r < 2 * wanted
    decreases wanted - c
  {
    if c >= wanted then c else Grow(2 * c, wanted)
  }

  /**
   * tag_stack_reserve: the new capacity covers the request, is never lower
   * than before, and is unchanged when the request already fits.
   */
  function NextCapacity(capacity: nat, wanted: nat): (r: nat)
    ensures r >= wanted && r >= capacity
    ensures wanted <= capacity ==> r == capacity
    ensures capacity < wanted ==> r < 2 * wanted || r == InitialCapacity
  {
    if wanted <= capacity then capacity
    else Grow(if capacity == 0 then InitialCapacity else capacity, wanted)
  }

  function Pow2(k: nat): nat
  {
    if k == 0 then 1 else 2 * Pow2(k - 1)
  }

  /** The doubling loop only ever doubles: its result is a power-of-two multiple of its start. */
  lemma {:induction false} GrowBounds(c: nat, wanted: nat)
    requires c > 0
    ensures exists k: nat :: Grow(c, wanted) == c * Pow2(k)
    decreases wanted - c
  {
    if c >= wanted {
      assert Grow(c, wanted) == c * Pow2(0);
    } else {
      GrowBounds(2 * c, wanted);
      var k: nat :| Grow(2 * c, wanted) == 2 * c * Pow2(k);
      assert Grow(c, wanted) == c * Pow2(k + 1);
    }
  }

  /** `n` copies of the reset sentinel, the slots tag_stack_resize exposes. */
  function Resets(n: nat): (r: seq<Tag>)
    ensures |r| == n && forall i | 0 <= i < n :: r[i] == TagReset()
  {
    if n == 0 then [] else Resets(n - 1) + [TagReset()]
  }

  /** tag_stack_contains on the stack's contents: some entry is equal to `tag` under tag_equals. */
  function StackContains(tags: seq<Tag>, tag: Tag): (r: bool)
    ensures tag.kind != CUSTOM ==> (r <==> exists i | 0 <= i < |tags| :: tags[i].kind == tag.kind)
    ensures tag.kind == CUSTOM ==> (r <==> tag in tags)
  {
    exists i | 0 <= i < |tags| :: Equals(tags[i], tag)
  }

  /** tag_stack_top on the contents: the last entry, if any. */
  function Peek(tags: seq<Tag>): (r: Option<Tag>)
    ensures r.None? <==> |tags| == 0
    ensures r.Some? ==> r.value == tags[|tags| - 1]
  {
    if |tags| == 0 then None else Some(tags[|tags| - 1])
  }

  /** tag_stack_pop on the contents: drops the last entry; a no-op on an empty stack. */
  function Drop(tags: seq<Tag>): (r: seq<Tag>)
    ensures |tags| == 0 ==> r == []
    ensures |tags| > 0 ==> |r| == |tags| - 1 && r + [tags[|tags| - 1]] == tags
  {
    if |tags| == 0 then tags else tags[..|tags| - 1]
  }

  /** Pushing then popping gives the stack back; popping then pushing the old top does too. */
  lemma DropUndoesPush(tags: seq<Tag>, tag: Tag)
    ensures Drop(tags + [tag]) == tags
    ensures Peek(tags + [tag]) == Some(tag)
    ensures |tags| > 0 ==> Drop(tags) + [Peek(tags).value] == tags
  {
  }

  class TagStack {
    var data: array<Tag>
    var size: nat
    var capacity: nat

    /** The allocation is exactly `capacity` slots and the first `size` are in use. */
    predicate Valid()
      reads this
    {
      size <= capacity && data.Length == capacity
    }

    /** The open elements, bottom first. */
    function Contents(): seq<Tag>
      reads this, data
      requires Valid()
    {
      data[..size]
    }

    /** tag_stack_init: no allocation, no entries. */
    constructor ()
      ensures Valid() && Contents() == [] && capacity == 0
      ensures fresh(data)
    {
      data := new Tag[0];
      size := 0;
      capacity := 0;
    }

    /** tag_stack_free: releases the allocation and empties the stack. */
    method Free()
      modifies this
      ensures Valid() && Contents() == [] && capacity == 0
      ensures fresh(data)
    {
      data := new Tag[0];
      size := 0;
      capacity := 0;
    }

    /**
     * tag_stack_reserve: makes room for `wanted` entries by doubling (from 8 when
     * nothing is allocated), keeping the entries; the allocation never shrinks.
     */
    method Reserve(wanted: nat)
      requires Valid()
      modifies this
      ensures Valid()
      ensures capacity == NextCapacity(old(capacity), wanted)
      ensures capacity >= wanted && capacity >= old(capacity)
      ensures size == old(size) && Contents() == old(Contents())
      ensures data == old(data) || fresh(data)
      ensures wanted <= old(capacity) ==> data == old(data)
    {
      if wanted <= capacity {
        return;
      }
      var newCapacity := if capacity > 0 then capacity else InitialCapacity;
      while newCapacity < wanted
        invariant newCapacity > 0
        invariant Grow(newCapacity, wanted) == NextCapacity(capacity, wanted)
        decreases wanted - newCapacity
      {
        newCapacity := 2 * newCapacity;
      }
      var grown := new Tag[newCapacity];
      forall i | 0 <= i < data.Length {
        grown[i] := data[i];
      }
      assert grown[..size] == data[..size];
      data := grown;
      capacity := newCapacity;
    }

    /**
     * tag_stack_resize: sets the number of entries to `newSize`; slots that become
     * exposed hold the reset sentinel and the surviving entries are kept.
     */
    method Resize(newSize: nat)
      requires Valid()
      modifies this, data
      ensures Valid()
      ensures capacity == NextCapacity(old(capacity), newSize) && size == newSize
      ensures data == old(data) || fresh(data)
      ensures newSize <= old(size) ==> Contents() == old(Contents())[..newSize]
      ensures newSize > old(size) ==> Contents() == old(Contents()) + Resets(newSize - old(size))
    {
      Reserve(newSize);
      if newSize > size {
        var i := size;
        while i < newSize
          invariant size <= i <= newSize <= data.Length
          invariant Valid() && size == old(size) && capacity == NextCapacity(old(capacity), newSize)
          invariant data == old(data) || fresh(data)
          invariant data[..size] == old(Contents())
          invariant data[size..i] == Resets(i - size)
        {
          data[i] := TagReset();
          assert data[size..i + 1] == data[size..i] + [TagReset()];
          i := i + 1;
        }
        assert data[..newSize] == data[..size] + data[size..newSize];
      }
      size := newSize;
    }

    /** tag_stack_push: the tag becomes the top and the entries below it are unchanged. */
    method Push(tag: Tag)
      requires Valid()
      modifies this, data
      ensures Valid()
      ensures Contents() == old(Contents()) + [tag]
      ensures data == old(data) || fresh(data)
      ensures capacity == NextCapacity(old(capacity), old(size) + 1)
    {
      Reserve(size + 1);
      data[size] := tag;
      size := size + 1;
    }

    /** tag_stack_pop: drops the top entry; a no-op on an empty stack. */
    method Pop()
      requires Valid()
      modifies this
      ensures Valid() && capacity == old(capacity) && data == old(data)
      ensures Contents() == Drop(old(Contents()))
    {
      if size == 0 {
        return;
      }
      size := size - 1;
    }

    /** tag_stack_top: the last entry, or None for an empty stack. */
    function Top(): (r: Option<Tag>)
      reads this, data
      requires Valid()
      ensures r == Peek(Contents())
    {
      if size == 0 then None else Some(data[size - 1])
    }

    /** tag_stack_empty: no open elements. */
    function Empty(): (r: bool)
      reads this, data
      requires Valid()
      ensures r <==> Contents() == [] && Top().None?
    {
      size == 0
    }

    /** tag_stack_contains: a linear search under tag_equals. */
    method Contains(tag: Tag) returns (found: bool)
      requires Valid()
      ensures found <==> StackContains(Contents(), tag)
    {
      var i := 0;
      while i < size
        invariant i <= size
        invariant forall j | 0 <= j < i :: !Equals(data[j], tag)
      {
        if Equals(data[i], tag) {
          assert Contents()[i] == data[i];
          return true;
        }
        i := i + 1;
      }
      assert forall j | 0 <= j < size :: Contents()[j] == data[j];
      return false;
    }
  }
}
