/** The growable array of the tree-sitter runtime: reserve, grow, splice, and
    sorted insertion, in place. */
module SortedArray {
  import opened Basics

  const U32 := 0x1_0000_0000

  // ----- Orders and sorted sequences -----

  /** A three-way comparison that is a total order up to its zeros. */
  ghost predicate IsOrder<T(!new)>(compare: (T, T) -> int) {
    && (forall a :: compare(a, a) == 0)
    && (forall a, b :: compare(a, b) < 0 <==> compare(b, a) > 0)
    && (forall a, b, c :: compare(a, b) <= 0 && compare(b, c) <= 0 ==> compare(a, c) <= 0)
    && (forall a, b, c :: compare(a, b) < 0 && compare(b, c) <= 0 ==> compare(a, c) < 0)
    && (forall a, b, c :: compare(a, b) <= 0 && compare(b, c) < 0 ==> compare(a, c) < 0)
  }

  ghost predicate StrictlySorted<T>(compare: (T, T) -> int, s: seq<T>) {
    forall i, j | 0 <= i < j < |s| :: compare(s[i], s[j]) < 0
  }

  ghost predicate Present<T>(compare: (T, T) -> int, s: seq<T>, x: T) {
    exists i | 0 <= i < |s| :: compare(s[i], x) == 0
  }

  /** Insertion by walking the sequence: the reference for the in-place one. */
  function Inserted<T>(compare: (T, T) -> int, s: seq<T>, x: T): seq<T> {
    if s == [] then [x]
    else if compare(s[0], x) == 0 then s
    else if compare(s[0], x) > 0 then [x] + s
    else [s[0]] + Inserted(compare, s[1..], x)
  }

  /** Everything before `i` is below the value, everything from `i` on above it. */
  ghost predicate Splits<T>(compare: (T, T) -> int, s: seq<T>, x: T, i: nat) {
    && i <= |s|
    && (forall k | 0 <= k < i :: compare(s[k], x) < 0)
    && (forall k | i <= k < |s| :: compare(s[k], x) > 0)
  }

  /** Where the value belongs, insertion is a splice. */
  lemma {:induction false} InsertedAt<T(!new)>(compare: (T, T) -> int, s: seq<T>, x: T, i: nat)
    requires Splits(compare, s, x, i)
    ensures Inserted(compare, s, x) == s[..i] + [x] + s[i..]
    decreases i
  {
    if i > 0 {
      InsertedAt(compare, s[1..], x, i - 1);
      assert s[..i] == [s[0]] + s[1..][..i - 1];
      assert s[i..] == s[1..][i - 1..];
    }
  }

  lemma Below<T(!new)>(compare: (T, T) -> int, a: T, b: T, c: T)
    requires IsOrder(compare) && compare(a, b) < 0 && compare(b, c) <= 0
    ensures compare(a, c) < 0
  {
  }

  lemma {:induction false} InsertedWhenPresent<T(!new)>(compare: (T, T) -> int, s: seq<T>, x: T, i: nat)
    requires IsOrder(compare) && StrictlySorted(compare, s)
    requires i < |s| && compare(s[i], x) == 0
    ensures Inserted(compare, s, x) == s
    decreases i
  {
    hide IsOrder;
    if i > 0 {
      Below(compare, s[0], s[i], x);
      InsertedWhenPresent(compare, s[1..], x, i - 1);
      assert s == [s[0]] + s[1..];
    }
  }

  /** An absent value splits a sorted sequence. */
  lemma {:induction false} SplitPoint<T(!new)>(compare: (T, T) -> int, s: seq<T>, x: T) returns (i: nat)
    requires IsOrder(compare) && StrictlySorted(compare, s) && !Present(compare, s, x)
    ensures Splits(compare, s, x, i)
    decreases |s|
  {
    if s == [] || compare(s[0], x) > 0 {
      i := 0;
      assert forall k | 0 < k < |s| :: compare(s[0], s[k]) < 0 && compare(x, s[0]) < 0;
    } else {
      assert forall k | 0 <= k < |s[1..]| :: s[1..][k] == s[k + 1];
      var j := SplitPoint(compare, s[1..], x);
      i := j + 1;
      assert forall k | 1 <= k < |s| :: s[k] == s[1..][k - 1];
    }
  }

  lemma SplicedSorted<T(!new)>(compare: (T, T) -> int, s: seq<T>, x: T, i: nat)
    requires IsOrder(compare) && StrictlySorted(compare, s) && Splits(compare, s, x, i)
    ensures StrictlySorted(compare, s[..i] + [x] + s[i..])
  {
    var r := s[..i] + [x] + s[i..];
    assert forall k | 0 <= k < i :: r[k] == s[k];
    assert r[i] == x;
    assert forall k | i < k < |r| :: r[k] == s[k - 1];
    forall a, b | 0 <= a < b < |r|
      ensures compare(r[a], r[b]) < 0
    {
      if a == i {
        assert compare(s[b - 1], x) > 0;
      }
    }
  }

  /** Insertion keeps the order, and adds exactly the value when it is absent and
      nothing when it is present. */
  lemma InsertedSorted<T(!new)>(compare: (T, T) -> int, s: seq<T>, x: T)
    requires IsOrder(compare) && StrictlySorted(compare, s)
    ensures StrictlySorted(compare, Inserted(compare, s, x))
    ensures Present(compare, s, x) ==> Inserted(compare, s, x) == s
    ensures !Present(compare, s, x) ==> multiset(Inserted(compare, s, x)) == multiset(s) + multiset{x}
    ensures Present(compare, Inserted(compare, s, x), x)
  {
    hide IsOrder;
    hide StrictlySorted;
    if Present(compare, s, x) {
      var i :| 0 <= i < |s| && compare(s[i], x) == 0;
      InsertedWhenPresent(compare, s, x, i);
    } else {
      var i := SplitPoint(compare, s, x);
      InsertedAt(compare, s, x, i);
      SplicedSorted(compare, s, x, i);
      assert s == s[..i] + s[i..];
      assert (s[..i] + [x] + s[i..])[i] == x;
      SameAsItself(compare, x);
    }
  }

  lemma SameAsItself<T(!new)>(compare: (T, T) -> int, x: T)
    requires IsOrder(compare)
    ensures compare(x, x) == 0
  {
  }

  // ----- The array -----

  class Array<T(0,!new)> {
    var contents: array?<T>
    var size: nat
    var capacity: nat

    ghost predicate Valid()
      reads this
    {
      && size <= capacity < U32
      && (contents == null ==> capacity == 0)
      && (contents != null ==> contents.Length == capacity)
    }

    ghost function Contents(): (s: seq<T>)
      requires Valid()
      reads this, contents
      ensures |s| == size
    {
      if contents == null then [] else contents[..size]
    }

    /** `array_init`. */
    constructor ()
      ensures Valid() && Contents() == [] && capacity == 0
    {
      contents, size, capacity := null, 0, 0;
    }

    /** `_array__reserve`: a larger block with the old elements, or nothing. */
    method Reserve(newCapacity: nat)
      requires Valid() && newCapacity < U32
      modifies this
      ensures Valid() && Contents() == old(Contents()) && size == old(size)
      ensures capacity == if newCapacity > old(capacity) then newCapacity else old(capacity)
      ensures contents == old(contents) || fresh(contents)
    {
      if newCapacity > capacity {
        var block := new T[newCapacity];
        if contents != null {
          forall k | 0 <= k < capacity {
            block[k] := contents[k];
          }
        }
        contents := block;
        capacity := newCapacity;
      }
    }

    /** `_array__grow`: at least doubling, in 32-bit arithmetic. */
    method Grow(count: nat)
      requires Valid() && size + count < U32
      modifies this
      ensures Valid() && Contents() == old(Contents()) && size == old(size)
      ensures capacity >= size + count && capacity >= old(capacity)
      ensures contents == old(contents) || fresh(contents)
    {
      var newSize := size + count;
      if newSize > capacity {
        var newCapacity := capacity * 2 % U32;
        if newCapacity < 8 {
          newCapacity := 8;
        }
        if newCapacity < newSize {
          newCapacity := newSize;
        }
        Reserve(newCapacity);
      }
    }

    /** `array_push`. */
    method Push(element: T)
      requires Valid() && size + 1 < U32
      modifies this, contents
      ensures Valid() && Contents() == old(Contents()) + [element]
      ensures contents == old(contents) || fresh(contents)
    {
      Grow(1);
      contents[size] := element;
      size := size + 1;
    }

    /** `_array__splice`: new elements, or zeros, in place of old ones. */
    method Splice(index: nat, oldCount: nat, newCount: nat, elements: Option<seq<T>>, zero: T)
      requires Valid() && index + oldCount <= size && size + newCount - oldCount < U32
      requires elements.Some? ==> |elements.value| == newCount
      modifies this, contents
      ensures Valid()
      ensures Contents() == old(Contents())[..index]
                            + (if elements.Some? then elements.value else seq(newCount, _ => zero))
                            + old(Contents())[index + oldCount..]
      ensures contents == old(contents) || fresh(contents)
    {
      var newSize := size + newCount - oldCount;
      Reserve(newSize);
      if contents == null {
        return;
      }
      var block := if elements.Some? then elements.value else seq(newCount, _ => zero);
      SpliceBlock(contents, size, index, index + oldCount, block);
      size := newSize;
    }

    /** `_array__erase`. */
    method Erase(index: nat)
      requires Valid() && index < size
      modifies this, contents
      ensures Valid() && contents == old(contents)
      ensures Contents() == old(Contents())[..index] + old(Contents())[index + 1..]
    {
      var tail := size - index - 1;
      forall k | 0 <= k < tail {
        contents[index + k] := contents[index + 1 + k];
      }
      size := size - 1;
    }

    /** `_array__search_sorted` from the start of the array. */
    method SearchSorted(compare: (T, T) -> int, needle: T) returns (index: nat, found: bool)
      requires Valid() && IsSearchable(compare, Contents())
      ensures found ==> index < size && compare(Contents()[index], needle) == 0
      ensures !found ==> Splits(compare, Contents(), needle, index)
    {
      index, found := 0, false;
      var left := size - index;
      if left == 0 {
        return;
      }
      ghost var s := Contents();
      hide IsOrder;
      hide StrictlySorted;
      hide IsSearchable;
      hide Narrowed;
      NarrowedAtFirst(compare, s, needle);
      while left > 1
        invariant 1 <= left && index + left <= size
        invariant Narrowed(compare, s, needle, index, index + left)
      {
        var halfSize := left / 2;
        var midIndex := index + halfSize;
        assert contents[midIndex] == s[midIndex];
        var comparison := compare(contents[midIndex], needle);
        Narrows(compare, s, needle, index, midIndex, index + left);
        if comparison <= 0 {
          index := midIndex;
        }
        left := left - halfSize;
      }
      NarrowedToOne(compare, s, needle, index);
      assert contents[index] == s[index];
      var comparison := compare(contents[index], needle);
      if comparison == 0 {
        found := true;
      } else if comparison < 0 {
        index := index + 1;
      }
    }

    /** `array_insert_sorted_with`. */
    method InsertSorted(compare: (T, T) -> int, value: T)
      requires Valid() && IsSearchable(compare, Contents()) && size + 1 < U32
      modifies this, contents
      ensures Valid() && Contents() == Inserted(compare, old(Contents()), value)
      ensures contents == old(contents) || fresh(contents)
    {
      ghost var s := Contents();
      var index, found := SearchSorted(compare, value);
      if found {
        FoundIsInserted(compare, s, value, index);
      } else {
        Splice(index, 0, 1, Some([value]), value);
        PlacedIsInserted(compare, s, value, index);
      }
    }
  }

  /** `memmove`: the block is read before any of it is written. */
  method MoveBlock<T>(a: array<T>, to: nat, from: nat, n: nat)
    requires to + n <= a.Length && from + n <= a.Length
    modifies a
    ensures a[to..to + n] == old(a[from..from + n])
    ensures forall k | 0 <= k < a.Length && !(to <= k < to + n) :: a[k] == old(a[k])
  {
    forall k | 0 <= k < n {
      a[to + k] := a[from + k];
    }
  }

  /** `memcpy` from elements outside the array. */
  method CopyBlock<T>(a: array<T>, to: nat, elements: seq<T>)
    requires to + |elements| <= a.Length
    modifies a
    ensures a[to..to + |elements|] == elements
    ensures forall k | 0 <= k < a.Length && !(to <= k < to + |elements|) :: a[k] == old(a[k])
  {
    forall k | 0 <= k < |elements| {
      a[to + k] := elements[k];
    }
  }

  /** The tail moves as one block, then the new elements are copied in. */
  method SpliceBlock<T>(a: array<T>, size: nat, index: nat, oldEnd: nat, elements: seq<T>)
    requires index <= oldEnd <= size <= a.Length && size + |elements| - (oldEnd - index) <= a.Length
    modifies a
    ensures a[..size + |elements| - (oldEnd - index)]
            == old(a[..size])[..index] + elements + old(a[..size])[oldEnd..]
  {
    ghost var s := a[..size];
    var newEnd := index + |elements|;
    if size > oldEnd {
      MoveBlock(a, newEnd, oldEnd, size - oldEnd);
    }
    ghost var moved := a[..];
    assert moved[newEnd..newEnd + (size - oldEnd)] == s[oldEnd..];
    assert moved[..index] == s[..index];
    if |elements| > 0 {
      CopyBlock(a, index, elements);
    }
    assert a[index..newEnd] == elements;
    assert a[..newEnd + (size - oldEnd)] == a[..][..newEnd + (size - oldEnd)];
    SplicedBlock(s, moved, a[..], index, oldEnd, elements);
  }

  lemma SplicedBlock<T>(s: seq<T>, moved: seq<T>, copied: seq<T>, index: nat, oldEnd: nat, elements: seq<T>)
    requires index <= oldEnd <= |s| && |moved| == |copied| >= index + |elements| + (|s| - oldEnd)
    requires moved[..index] == s[..index]
    requires var newEnd := index + |elements|; moved[newEnd..newEnd + (|s| - oldEnd)] == s[oldEnd..]
    requires copied[index..index + |elements|] == elements
    requires forall k | 0 <= k < |copied| && !(index <= k < index + |elements|) :: copied[k] == moved[k]
    ensures copied[..index + |elements| + (|s| - oldEnd)] == s[..index] + elements + s[oldEnd..]
  {
    var newEnd, end := index + |elements|, index + |elements| + (|s| - oldEnd);
    assert copied[..index] == moved[..index];
    assert copied[newEnd..end] == moved[newEnd..end];
    assert copied[..end] == copied[..index] + copied[index..newEnd] + copied[newEnd..end];
  }

  /** Sorted under a comparison that behaves on the elements at hand. */
  ghost predicate IsSearchable<T(!new)>(compare: (T, T) -> int, s: seq<T>) {
    IsOrder(compare) && StrictlySorted(compare, s)
  }

  /** The value can only be in `lo..hi`. */
  ghost predicate Narrowed<T>(compare: (T, T) -> int, s: seq<T>, x: T, lo: nat, hi: nat) {
    && lo <= hi <= |s|
    && (forall k | 0 <= k < lo :: compare(s[k], x) < 0)
    && (forall k | hi <= k < |s| :: compare(s[k], x) > 0)
  }

  lemma NarrowedAtFirst<T>(compare: (T, T) -> int, s: seq<T>, x: T)
    ensures Narrowed(compare, s, x, 0, |s|)
  {
  }

  /** One probe: the half that cannot hold the value is dropped, and never more
      than the larger half stays. */
  lemma Narrows<T(!new)>(compare: (T, T) -> int, s: seq<T>, x: T, lo: nat, mid: nat, hi: nat)
    requires IsSearchable(compare, s) && Narrowed(compare, s, x, lo, hi) && lo <= mid < hi
    ensures compare(s[mid], x) <= 0 ==> Narrowed(compare, s, x, mid, hi)
    ensures compare(s[mid], x) > 0 ==> forall h | mid <= h <= hi :: Narrowed(compare, s, x, lo, h)
  {
  }

  /** A single candidate that is not the value splits the sequence. */
  lemma NarrowedToOne<T>(compare: (T, T) -> int, s: seq<T>, x: T, i: nat)
    requires Narrowed(compare, s, x, i, i + 1)
    ensures compare(s[i], x) < 0 ==> Splits(compare, s, x, i + 1)
    ensures compare(s[i], x) > 0 ==> Splits(compare, s, x, i)
  {
  }

  lemma FoundIsInserted<T(!new)>(compare: (T, T) -> int, s: seq<T>, x: T, i: nat)
    requires IsSearchable(compare, s) && i < |s| && compare(s[i], x) == 0
    ensures Inserted(compare, s, x) == s
  {
    InsertedWhenPresent(compare, s, x, i);
  }

  lemma PlacedIsInserted<T(!new)>(compare: (T, T) -> int, s: seq<T>, x: T, i: nat)
    requires Splits(compare, s, x, i)
    ensures Inserted(compare, s, x) == s[..i] + [x] + s[i..]
  {
    InsertedAt(compare, s, x, i);
  }
}
