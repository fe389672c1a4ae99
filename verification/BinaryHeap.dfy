/** `LLBC_BinaryHeap` of 3rd/llbc/llbc/include/llbc/core/timer/BinaryHeapInl.h, the queue
    behind the coroutine timeouts: a 1-based array heap under a caller's comparison.  */
module BinaryHeap {

  /** What a C++ comparison must be: a strict weak order. */
  ghost predicate StrictWeak<T(!new)>(less: (T, T) -> bool) {
    && (forall a, b :: less(a, b) ==> !less(b, a))
    && (forall a, b, c :: !less(b, a) && !less(c, b) ==> !less(c, a))
  }

  /** The elements, at positions 1..size. */
  ghost function Elems<T>(s: seq<T>, size: nat): multiset<T>
    requires size < |s|
  {
    multiset(s[1..size + 1])
  }

  /** No element at or below position `from` precedes its parent. */
  ghost predicate Ordered<T>(s: seq<T>, size: nat, less: (T, T) -> bool, from: nat)
    requires size < |s|
  {
    forall i :: 2 <= i <= size && from <= i / 2 ==> !less(s[i], s[i / 2])
  }

  /** As Ordered, except that the element at `hole` may belong further down. */
  ghost predicate SinkingAt<T>(s: seq<T>, size: nat, less: (T, T) -> bool, from: nat, hole: nat)
    requires size < |s|
  {
    && (forall i :: 2 <= i <= size && from <= i / 2 && i / 2 != hole ==> !less(s[i], s[i / 2]))
    && (forall i :: 2 <= i <= size && i / 2 == hole && from <= hole / 2 ==> !less(s[i], s[hole / 2]))
  }

  /** As Ordered from 1, except that the element at `hole` may belong further up. */
  ghost predicate RisingAt<T>(s: seq<T>, size: nat, less: (T, T) -> bool, hole: nat)
    requires size < |s|
  {
    && (forall i :: 2 <= i <= size && i != hole ==> !less(s[i], s[i / 2]))
    && (forall i :: 2 <= i <= size && i / 2 == hole && 2 <= hole ==> !less(s[i], s[hole / 2]))
  }

  function Swap<T>(s: seq<T>, i: nat, j: nat): seq<T>
    requires i < |s| && j < |s|
  {
    s[i := s[j]][j := s[i]]
  }

  lemma SwapElems<T>(s: seq<T>, size: nat, i: nat, j: nat)
    requires size < |s| && 1 <= i <= size && 1 <= j <= size
    ensures Elems(Swap(s, i, j), size) == Elems(s, size)
  {
    var w := s[1..size + 1];
    assert Swap(s, i, j)[1..size + 1] == w[i - 1 := w[j - 1]][j - 1 := w[i - 1]];
  }

  lemma AppendElems<T>(s: seq<T>, size: nat, t: seq<T>, elem: T)
    requires size < |s| && size + 1 < |t| && t[size + 1] == elem
    requires forall i :: 1 <= i <= size ==> t[i] == s[i]
    ensures Elems(t, size + 1) == Elems(s, size) + multiset{elem}
  {
    assert t[1..size + 2] == s[1..size + 1] + [elem];
  }

  /** Moving the last element over the first one and dropping the last position. */
  lemma RemoveElems<T>(s: seq<T>, size: nat, t: seq<T>)
    requires 1 <= size < |s| == |t| && (size > 1 ==> t[1] == s[size])
    requires forall i :: 2 <= i < size ==> t[i] == s[i]
    ensures Elems(t, size - 1) == Elems(s, size) - multiset{s[1]}
  {
    var w := s[1..size + 1];
    assert w == w[..size - 1] + [s[size]];
    if size > 1 {
      assert t[1..size] == w[..size - 1][0 := s[size]];
    } else {
      assert t[1..size] == [];
    }
  }

  lemma RemoveOrdered<T>(s: seq<T>, size: nat, less: (T, T) -> bool, t: seq<T>)
    requires 1 <= size < |s| == |t| && Ordered(s, size, less, 1)
    requires forall i :: 2 <= i < size ==> t[i] == s[i]
    ensures Ordered(t, size - 1, less, 2)
  {
  }

  /** What DeleteTop leaves for PercolateDown. */
  lemma TopRemoved<T>(s: seq<T>, size: nat, less: (T, T) -> bool, blank: T)
    requires 1 <= size < |s| && Ordered(s, size, less, 1)
    ensures var t := (if size != 1 then s[1 := s[size]] else s)[size := blank];
      Elems(t, size - 1) == Elems(s, size) - multiset{s[1]} && Ordered(t, size - 1, less, 2)
  {
    hide Elems, Ordered;
    var t := (if size != 1 then s[1 := s[size]] else s)[size := blank];
    RemoveElems(s, size, t);
    RemoveOrdered(s, size, less, t);
  }

  lemma SinkStep<T(!new)>(s: seq<T>, size: nat, less: (T, T) -> bool, from: nat, hole: nat, child: nat)
    requires StrictWeak(less) && size < |s| && 1 <= from <= hole && SinkingAt(s, size, less, from, hole)
    requires child <= size && child / 2 == hole && less(s[child], s[hole])
    requires forall i :: 2 <= i <= size && i / 2 == hole ==> !less(s[i], s[child])
    ensures SinkingAt(Swap(s, hole, child), size, less, from, child)
  {
    var t := Swap(s, hole, child);
    forall i | 2 <= i <= size && from <= i / 2 && i / 2 != child ensures !less(t[i], t[i / 2]) {
      if i == child {
      } else if i / 2 == hole {
      } else if i == hole {
        assert !less(s[child], s[hole / 2]);
      }
    }
  }

  lemma SinkStop<T>(s: seq<T>, size: nat, less: (T, T) -> bool, from: nat, hole: nat)
    requires size < |s| && SinkingAt(s, size, less, from, hole)
    requires forall i :: 2 <= i <= size && i / 2 == hole ==> !less(s[i], s[hole])
    ensures Ordered(s, size, less, from)
  {
  }

  lemma SinkStart<T>(s: seq<T>, size: nat, less: (T, T) -> bool, from: nat)
    requires size < |s| && 1 <= from && Ordered(s, size, less, from + 1)
    ensures SinkingAt(s, size, less, from, from)
  {
  }

  /** The child picked is the lesser of the two. */
  lemma LesserChild<T(!new)>(s: seq<T>, size: nat, less: (T, T) -> bool, hole: nat, child: nat)
    requires StrictWeak(less) && size < |s| && 1 <= hole && hole * 2 <= size
    requires child == if hole * 2 != size && less(s[hole * 2 + 1], s[hole * 2]) then hole * 2 + 1 else hole * 2
    ensures child <= size && child / 2 == hole
    ensures forall i :: 2 <= i <= size && i / 2 == hole ==> !less(s[i], s[child])
  {
    forall i | 2 <= i <= size && i / 2 == hole ensures !less(s[i], s[child]) {
      assert i == hole * 2 || i == hole * 2 + 1;
    }
  }

  /** Nothing to sink into: no child, or the lesser child does not precede the element. */
  lemma NoLesserChild<T(!new)>(s: seq<T>, size: nat, less: (T, T) -> bool, hole: nat, child: nat)
    requires StrictWeak(less) && size < |s| && 1 <= hole < |s| && child <= size && !less(s[child], s[hole])
    requires forall i :: 2 <= i <= size && i / 2 == hole ==> !less(s[i], s[child])
    ensures forall i :: 2 <= i <= size && i / 2 == hole ==> !less(s[i], s[hole])
  {
  }

  lemma RiseStart<T>(s: seq<T>, size: nat, less: (T, T) -> bool, t: seq<T>)
    requires size < |s| && Ordered(s, size, less, 1) && size + 1 < |t|
    requires forall i :: 1 <= i <= size ==> t[i] == s[i]
    ensures RisingAt(t, size + 1, less, size + 1)
  {
  }

  lemma RiseStop<T>(s: seq<T>, size: nat, less: (T, T) -> bool, hole: nat)
    requires size < |s| && 1 <= hole <= size && RisingAt(s, size, less, hole)
    requires (hole > 1 ==> !less(s[hole], s[hole / 2]))
    ensures Ordered(s, size, less, 1)
  {
  }

  lemma RiseStep<T(!new)>(s: seq<T>, size: nat, less: (T, T) -> bool, hole: nat)
    requires StrictWeak(less) && size < |s| && 2 <= hole <= size && RisingAt(s, size, less, hole)
    requires less(s[hole], s[hole / 2])
    ensures RisingAt(Swap(s, hole, hole / 2), size, less, hole / 2)
  {
    var t := Swap(s, hole, hole / 2);
    forall i | 2 <= i <= size && i != hole / 2 ensures !less(t[i], t[i / 2]) {
      if i / 2 == hole / 2 && i != hole { assert !less(s[i], s[hole / 2]); }
    }
    forall i | 2 <= i <= size && i / 2 == hole / 2 && 2 <= hole / 2 ensures !less(t[i], t[hole / 2 / 2]) {
      assert !less(s[hole / 2], s[hole / 2 / 2]);
      if i != hole { assert !less(s[i], s[hole / 2]); }
    }
  }

  /** The top precedes or ties with every element. */
  lemma {:induction false} TopLeast<T(!new)>(s: seq<T>, size: nat, less: (T, T) -> bool, i: nat)
    requires StrictWeak(less) && size < |s| && Ordered(s, size, less, 1) && 1 <= i <= size
    ensures !less(s[i], s[1])
    decreases i
  {
    if i > 1 {
      TopLeast(s, size, less, i / 2);
    }
  }

  class Heap<T(!new)> {
    const less: (T, T) -> bool
    /** T() */
    const blank: T
    var elems: seq<T>
    var size: nat

    ghost predicate Valid()
      reads this
    {
      StrictWeak(less) && size < |elems| && Ordered(elems, size, less, 1)
    }

    ghost function Elements(): multiset<T>
      reads this
      requires size < |elems|
    {
      Elems(elems, size)
    }

    constructor (less: (T, T) -> bool, blank: T, capacity: nat)
      requires StrictWeak(less)
      ensures Valid() && Elements() == multiset{} && this.less == less
    {
      this.less, this.blank := less, blank;
      size := 0;
      elems := seq(if capacity > 1 then capacity else 1, _ => blank);
    }

    /** The constructor from a container, which calls BuildHeap. */
    constructor FromElements(less: (T, T) -> bool, blank: T, given: seq<T>)
      requires StrictWeak(less)
      ensures Valid() && Elements() == multiset(given) && this.less == less
    {
      this.less, this.blank := less, blank;
      size := |given|;
      elems := [blank] + given;
      new;
      assert elems[1..size + 1] == given;
      var i: nat := size / 2;
      while i > 0
        invariant size == |given| < |elems| && this.less == less
        invariant i <= size / 2 && Ordered(elems, size, less, i + 1) && Elements() == multiset(given)
      {
        PercolateDown(i);
        i := i - 1;
      }
    }

    predicate IsEmpty()
      reads this
    {
      size == 0
    }

    method Top() returns (top: T)
      requires Valid() && !IsEmpty()
      ensures top == elems[1] && top in Elements()
      ensures forall x :: x in Elements() ==> !less(x, top)
    {
      top := elems[1];
      assert top == elems[1..size + 1][0];
      forall x | x in Elements() ensures !less(x, top) {
        var k :| 0 <= k < size && elems[1..size + 1][k] == x;
        TopLeast(elems, size, less, k + 1);
      }
    }

    method Insert(elem: T)
      requires Valid()
      modifies this
      ensures Valid() && Elements() == old(Elements()) + multiset{elem}
    {
      hide Ordered, RisingAt, StrictWeak, Elems;
      if size == |elems| - 1 {
        elems := elems + seq(|elems|, _ => blank);
      }
      size := size + 1;
      var pos := size;
      ghost var t := elems[pos := elem];
      AppendElems(old(elems), old(size), t, elem);
      RiseStart(old(elems), old(size), less, t);
      while pos > 1 && less(elem, elems[pos / 2])
        invariant 1 <= pos <= size < |elems| && size == old(size) + 1 && t == elems[pos := elem]
        invariant RisingAt(t, size, less, pos) && Elems(t, size) == old(Elements()) + multiset{elem}
      {
        RiseStep(t, size, less, pos);
        SwapElems(t, size, pos, pos / 2);
        elems := elems[pos := elems[pos / 2]];
        t := Swap(t, pos, pos / 2);
        pos := pos / 2;
      }
      RiseStop(t, size, less, pos);
      elems := elems[pos := elem];
    }

    /** Returns false on an empty heap. */
    method DeleteTop() returns (ok: bool)
      requires Valid()
      modifies this
      ensures Valid() && ok == (old(size) > 0)
      ensures ok ==> Elements() == old(Elements()) - multiset{old(elems[1])}
      ensures !ok ==> elems == old(elems) && size == old(size)
    {
      hide Ordered, StrictWeak, Elems;
      if IsEmpty() { return false; }
      TopRemoved(elems, size, less, blank);
      if size != 1 {
        elems := elems[1 := elems[size]];
      }
      elems := elems[size := blank];
      size := size - 1;
      PercolateDown(1);
      ok := true;
    }

    method PercolateDown(index: nat)
      requires StrictWeak(less) && 1 <= index < |elems| && size < |elems| && (size > 0 ==> index <= size)
      requires Ordered(elems, size, less, index + 1)
      modifies this`elems
      ensures |elems| == old(|elems|) && Ordered(elems, size, less, index)
      ensures Elems(elems, size) == old(Elems(elems, size))
    {
      hide Ordered, SinkingAt, StrictWeak, Elems;
      var elem := elems[index];
      var hole := index;
      ghost var t := elems;
      SinkStart(t, size, less, index);
      while hole * 2 <= size
        invariant index <= hole < |elems| == |t| == old(|elems|) && (size > 0 ==> hole <= size)
        invariant t == elems[hole := elem]
        invariant SinkingAt(t, size, less, index, hole) && Elems(t, size) == old(Elems(elems, size))
      {
        var child := hole * 2;
        if child != size && less(elems[child + 1], elems[child]) {
          child := child + 1;
        }
        LesserChild(t, size, less, hole, child);
        if !less(elems[child], elem) {
          NoLesserChild(t, size, less, hole, child);
          break;
        }
        SinkStep(t, size, less, index, hole, child);
        SwapElems(t, size, hole, child);
        elems := elems[hole := elems[child]];
        t := Swap(t, hole, child);
        hole := child;
      }
      SinkStop(t, size, less, index, hole);
      elems := elems[hole := elem];
    }
  }
}
