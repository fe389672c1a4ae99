/** The chunked double-ended queue of include/deque.h: a map of chunk pointers, an iterator
    to the first element and one past the last, growth at both ends with re-centring of the
    map, and release of a chunk as soon as a pop leaves it.  */
module Deque {
  import opened Wrappers
  import opened Arithmetic

  // ---------------------------------------------------------------------
  // Iterators
  // ---------------------------------------------------------------------

  /** A `DequeIterator`: a map node and an offset into the chunk it points to. */
  datatype Cursor = Cursor(node: nat, off: nat)

  function Inc(c: nat, it: Cursor): Cursor {
    if it.off + 1 == c then Cursor(it.node + 1, 0) else Cursor(it.node, it.off + 1)
  }

  function Dec(c: nat, it: Cursor): Cursor
    requires c > 0 && (it.off == 0 ==> it.node > 0)
  {
    if it.off == 0 then Cursor(it.node - 1, c - 1) else Cursor(it.node, it.off - 1)
  }

  /** operator+=, forwards: it jumps over whole chunks. */
  function Plus(c: nat, it: Cursor, n: nat): Cursor
    requires c > 0
  {
    var offset := n + it.off;
    if offset < c then Cursor(it.node, it.off + n)
    else
      DivMod(c, offset);
      Cursor(it.node + offset / c, offset - offset / c * c)
  }

  function IncTimes(c: nat, it: Cursor, n: nat): Cursor {
    if n == 0 then it else Inc(c, IncTimes(c, it, n - 1))
  }

  lemma PlusDivMod(c: nat, it: Cursor, n: nat)
    requires c > 0
    ensures Plus(c, it, n) == Cursor(it.node + (n + it.off) / c, (n + it.off) % c)
  {
    var offset := n + it.off;
    DivMod(c, offset);
    if offset < c { DivModUnique(c, 0, offset); }
    assert offset / c * c == c * (offset / c);
  }

  /** Jumping n elements lands where n single steps do. */
  lemma {:induction false} PlusIsIncTimes(c: nat, it: Cursor, n: nat)
    requires it.off < c
    ensures Plus(c, it, n) == IncTimes(c, it, n)
  {
    if n > 0 {
      PlusIsIncTimes(c, it, n - 1);
      PlusDivMod(c, it, n - 1);
      PlusDivMod(c, it, n);
      DivModNext(c, n - 1 + it.off);
    }
  }

  lemma DecUndoesInc(c: nat, it: Cursor)
    requires it.off < c
    ensures Dec(c, Inc(c, it)) == it && (it.node > 0 || it.off > 0 ==> Inc(c, Dec(c, it)) == it)
  {
  }

  // ---------------------------------------------------------------------
  // Layout
  // ---------------------------------------------------------------------

  /** The number of slots in q chunks. */
  function Slots(c: nat, q: nat): nat { c * q }

  lemma SlotsStep(c: nat, q: nat)
    ensures Slots(c, 0) == 0 && Slots(c, q + 1) == Slots(c, q) + c
  {
  }

  lemma SlotsIsProduct(c: nat, q: nat)
    ensures Slots(c, q) == c * q
  {
  }

  lemma SlotsGrow(c: nat, q: nat, r: nat)
    requires q < r
    ensures Slots(c, q) + c <= Slots(c, r)
  {
    MulGrows(c, q, r);
  }

  /** What slot number k, counted from the first element, must hold. */
  function Cell<T>(contents: seq<T>, k: int): Option<T> {
    if 0 <= k < |contents| then Some(contents[k]) else None
  }

  function Raw<T>(c: nat): seq<Option<T>> { seq(c, _ => None) }

  /** The chunks, read in order, hold exactly `contents` from offset `so` of the first one,
      and no object anywhere else.  */
  ghost predicate Cells<T>(grid: seq<seq<Option<T>>>, c: nat, so: nat, contents: seq<T>) {
    && (forall q :: 0 <= q < |grid| ==> |grid[q]| == c)
    && forall q: nat, o: nat :: q < |grid| && o < c ==> grid[q][o] == Cell(contents, Slots(c, q) + o - so)
  }

  function Put<T>(grid: seq<seq<Option<T>>>, q: nat, o: nat, x: Option<T>): seq<seq<Option<T>>>
    requires q < |grid| && o < |grid[q]|
  {
    grid[q := grid[q][o := x]]
  }

  /** Different (chunk, offset) pairs are different slot numbers. */
  lemma SlotNumbers(c: nat, q: nat, o: nat, r: nat, p: nat)
    requires o < c && p < c && Slots(c, q) + o == Slots(c, r) + p
    ensures q == r && o == p
  {
    hide Slots;
    if q < r { SlotsGrow(c, q, r); }
    if r < q { SlotsGrow(c, r, q); }
  }

  /** Writing one slot where the new contents differ from the old ones only there. */
  lemma PutCells<T>(grid: seq<seq<Option<T>>>, c: nat, so: nat, so': nat, old_: seq<T>, new_: seq<T>, q: nat, o: nat,
      x: Option<T>)
    requires Cells(grid, c, so, old_) && q < |grid| && o < c && x == Cell(new_, Slots(c, q) + o - so')
    requires forall k: int :: k != Slots(c, q) + o - so ==> Cell(new_, k + so - so') == Cell(old_, k)
    ensures Cells(Put(grid, q, o, x), c, so', new_)
  {
    hide Slots;
    var grid' := Put(grid, q, o, x);
    forall r: nat, p: nat | r < |grid| && p < c ensures grid'[r][p] == Cell(new_, Slots(c, r) + p - so') {
      if (r, p) != (q, o) {
        if Slots(c, r) + p == Slots(c, q) + o { SlotNumbers(c, r, p, q, o); }
        assert grid[r][p] == Cell(old_, Slots(c, r) + p - so);
      }
    }
  }

  lemma AppendRaw<T>(grid: seq<seq<Option<T>>>, c: nat, so: nat, contents: seq<T>)
    requires Cells(grid, c, so, contents) && |contents| + so <= Slots(c, |grid|)
    ensures Cells(grid + [Raw(c)], c, so, contents)
  {
    hide Slots;
    var grid' := grid + [Raw(c)];
    forall q: nat, o: nat | q < |grid'| && o < c ensures grid'[q][o] == Cell(contents, Slots(c, q) + o - so) {
      if q < |grid| { assert grid'[q] == grid[q]; }
    }
  }

  lemma PrependRaw<T>(grid: seq<seq<Option<T>>>, c: nat, contents: seq<T>)
    requires Cells(grid, c, 0, contents)
    ensures Cells([Raw(c)] + grid, c, c, contents)
  {
    hide Slots;
    var grid' := [Raw<T>(c)] + grid;
    forall q: nat, o: nat | q < |grid'| && o < c ensures grid'[q][o] == Cell(contents, Slots(c, q) + o - c) {
      SlotsStep(c, if q > 0 then q - 1 else 0);
      if q > 0 { assert grid'[q] == grid[q - 1]; }
    }
  }

  lemma DropLast<T>(grid: seq<seq<Option<T>>>, c: nat, so: nat, contents: seq<T>)
    requires Cells(grid, c, so, contents) && |grid| > 0
    ensures Cells(grid[..|grid| - 1], c, so, contents)
  {
  }

  lemma DropFirst<T>(grid: seq<seq<Option<T>>>, c: nat, contents: seq<T>)
    requires Cells(grid, c, c, contents) && |grid| > 0
    ensures Cells(grid[1..], c, 0, contents)
  {
    hide Slots;
    forall q: nat, o: nat | q < |grid| - 1 && o < c ensures grid[1..][q][o] == Cell(contents, Slots(c, q) + o) {
      SlotsStep(c, q);
      assert grid[q + 1][o] == Cell(contents, Slots(c, q + 1) + o - c);
    }
  }

  lemma BackPut<T>(grid: seq<seq<Option<T>>>, c: nat, so: nat, contents: seq<T>, q: nat, o: nat, v: T)
    requires Cells(grid, c, so, contents) && q < |grid| && o < c && Slots(c, q) + o - so == |contents|
    ensures Cells(Put(grid, q, o, Some(v)), c, so, contents + [v])
  {
    PutCells(grid, c, so, so, contents, contents + [v], q, o, Some(v));
  }

  lemma FrontPut<T>(grid: seq<seq<Option<T>>>, c: nat, so: nat, contents: seq<T>, v: T)
    requires Cells(grid, c, so, contents) && 0 < |grid| && 0 < so <= c
    ensures Cells(Put(grid, 0, so - 1, Some(v)), c, so - 1, [v] + contents)
  {
    hide Slots;
    SlotsStep(c, 0);
    PutCells(grid, c, so, so - 1, contents, [v] + contents, 0, so - 1, Some(v));
  }

  lemma BackTake<T>(grid: seq<seq<Option<T>>>, c: nat, so: nat, contents: seq<T>, q: nat, o: nat)
    requires Cells(grid, c, so, contents) && q < |grid| && o < c && contents != []
    requires Slots(c, q) + o - so == |contents| - 1
    ensures Cells(Put(grid, q, o, None), c, so, contents[..|contents| - 1])
  {
    PutCells(grid, c, so, so, contents, contents[..|contents| - 1], q, o, None);
  }

  lemma FrontTake<T>(grid: seq<seq<Option<T>>>, c: nat, so: nat, contents: seq<T>)
    requires Cells(grid, c, so, contents) && 0 < |grid| && so < c && contents != []
    ensures Cells(Put(grid, 0, so, None), c, so + 1, contents[1..])
  {
    hide Slots;
    SlotsStep(c, 0);
    PutCells(grid, c, so, so + 1, contents, contents[1..], 0, so, None);
  }

  /** Chunks before the first element, or after the last, hold no object. */
  lemma FirstRaw<T>(grid: seq<seq<Option<T>>>, c: nat, contents: seq<T>)
    requires Cells(grid, c, c, contents) && |grid| > 0
    ensures grid[0] == Raw(c)
  {
    assert forall o: nat :: o < c ==> grid[0][o] == Cell(contents, Slots(c, 0) + o - c);
  }

  lemma LastRaw<T>(grid: seq<seq<Option<T>>>, c: nat, so: nat, contents: seq<T>)
    requires Cells(grid, c, so, contents) && |grid| > 0 && Slots(c, |grid| - 1) - so >= |contents|
    ensures grid[|grid| - 1] == Raw(c)
  {
    var last := grid[|grid| - 1];
    assert forall o: nat :: o < c ==> last[o] == None;
  }

  /** Chunk i holds no object before the first element or from finish on. */
  lemma OutsideRaw<T>(grid: seq<seq<Option<T>>>, c: nat, so: nat, fo: nat, contents: seq<T>, i: nat)
    requires Cells(grid, c, so, contents) && i < |grid| && fo < c && Slots(c, |grid| - 1) + fo - so == |contents|
    ensures forall o :: 0 <= o < c && ((i == 0 && o < so) || (i == |grid| - 1 && o >= fo)) ==> grid[i][o] == None
    ensures |grid| == 1 ==> so <= fo
  {
    SlotsStep(c, 0);
  }

  /** A chunk whose first k slots hold val. */
  function Copies<T>(c: nat, k: nat, val: T): seq<Option<T>> {
    seq(c, o => if o < k then Some(val) else None)
  }

  lemma FilledCells<T>(grid: seq<seq<Option<T>>>, c: nat, n: nat, val: T)
    requires c > 0 && |grid| == n / c + 1
    requires forall q :: 0 <= q < |grid| ==> grid[q] == Copies(c, if q < n / c then c else n % c, val)
    ensures Cells(grid, c, 0, seq(n, _ => val)) && Slots(c, n / c) + n % c == n
  {
    hide Slots;
    DivMod(c, n);
    SlotsIsProduct(c, n / c);
    forall q: nat, o: nat | q < |grid| && o < c ensures grid[q][o] == Cell(seq(n, _ => val), Slots(c, q) + o - 0) {
      if q < n / c { SlotsGrow(c, q, n / c); }
    }
  }

  /** The elements of every chunk. */
  ghost function Grid<T>(chunks: seq<array<Option<T>>>): (grid: seq<seq<Option<T>>>)
    reads chunks
    ensures |grid| == |chunks|
  {
    seq(|chunks|, q requires 0 <= q < |chunks| reads chunks => chunks[q][..])
  }

  lemma GridAppend<T>(chunks: seq<array<Option<T>>>, a: array<Option<T>>)
    ensures Grid(chunks + [a]) == Grid(chunks) + [a[..]]
  {
  }

  lemma GridPrepend<T>(chunks: seq<array<Option<T>>>, a: array<Option<T>>)
    ensures Grid([a] + chunks) == [a[..]] + Grid(chunks)
  {
  }

  lemma GridDrop<T>(chunks: seq<array<Option<T>>>)
    requires chunks != []
    ensures Grid(chunks[..|chunks| - 1]) == Grid(chunks)[..|chunks| - 1]
    ensures Grid(chunks[1..]) == Grid(chunks)[1..]
  {
  }

  // ---------------------------------------------------------------------
  // The container
  // ---------------------------------------------------------------------

  class Deque<T> {
    /** CHUNK_SIZE */
    const c: nat
    /** map_, whose length is map_size_ */
    var nodes: array<array?<Option<T>>>
    var start: Cursor
    var finish: Cursor
    /** The chunks of the map nodes from start to finish. */
    ghost var chunks: seq<array<Option<T>>>
    /** The chunks allocated and not yet freed. */
    ghost var live: set<array<Option<T>>>
    ghost var contents: seq<T>

    ghost predicate Distinct()
      reads this`chunks
    {
      && (forall q :: 0 <= q < |chunks| ==> chunks[q].Length == c)
      && (forall q, r :: 0 <= q < r < |chunks| ==> chunks[q] != chunks[r])
    }

    /** The map is well formed: what it says about nodes and chunks, not about elements. */
    ghost predicate Structure()
      reads this`nodes, this`start, this`finish, this`chunks, nodes
    {
      && c > 0 && nodes.Length >= 3
      && start.node <= finish.node < nodes.Length && start.off < c && finish.off < c
      && |chunks| == finish.node - start.node + 1
      && (forall q :: 0 <= q < |chunks| ==> nodes[start.node + q] == chunks[q])
      && Distinct()
    }

    /** The chunks allocated and not freed are exactly those from start to finish. */
    ghost predicate Owned()
      reads this`live, this`chunks
    {
      live == (set a | a in chunks)
    }

    ghost predicate Valid()
      reads this, nodes, chunks
    {
      && Structure() && Owned()
      && Slots(c, |chunks| - 1) + finish.off - start.off == |contents|
      && Cells(Grid(chunks), c, start.off, contents)
    }

    /** n copies of val. */
    constructor (c: nat, n: nat, val: T)
      requires c > 0
      ensures Valid() && this.c == c && contents == seq(n, _ => val) && fresh(nodes) && fresh(live)
      ensures nodes.Length == n / c + 3 && start == Cursor(1, 0) && finish == Cursor(1 + n / c, n % c)
    {
      hide Cells, Grid, Slots;
      DivMod(c, n);
      var cs := FilledChunks(c, n, val);
      var s := (n / c + 3 - (n / c + 1)) / 2;
      var map_ := MakeMap(n / c + 3, s, cs);
      nodes := map_;
      this.c := c;
      start, finish := Cursor(s, 0), Cursor(s + n / c, n % c);
      chunks, live := cs, set a | a in cs;
      contents := seq(n, _ => val);
      new;
    }

    /** A map of the given size whose nodes from `first` on hold the chunks. */
    static method MakeMap(size: nat, first: nat, cs: seq<array<Option<T>>>) returns (nodes: array<array?<Option<T>>>)
      requires first + |cs| <= size
      ensures fresh(nodes) && nodes.Length == size && forall q :: 0 <= q < |cs| ==> nodes[first + q] == cs[q]
    {
      nodes := new array?<Option<T>>[size]((i: nat) => if first <= i < first + |cs| then cs[i - first] else null);
    }

    static method FilledChunks(c: nat, n: nat, val: T) returns (cs: seq<array<Option<T>>>)
      requires c > 0
      ensures |cs| == n / c + 1 && Cells(Grid(cs), c, 0, seq(n, _ => val)) && Slots(c, n / c) + n % c == n
      ensures forall q :: 0 <= q < |cs| ==> fresh(cs[q]) && cs[q].Length == c
      ensures forall q, r :: 0 <= q < r < |cs| ==> cs[q] != cs[r]
    {
      hide Cells, Grid, Slots;
      DivMod(c, n);
      cs := [];
      for i := 0 to n / c + 1
        invariant |cs| == i
        invariant forall q :: 0 <= q < i ==> Grid(cs)[q] == Copies(c, if q < n / c then c else n % c, val)
        invariant forall q :: 0 <= q < i ==> fresh(cs[q]) && cs[q].Length == c
        invariant forall q, r :: 0 <= q < r < i ==> cs[q] != cs[r]
      {
        var a := FilledChunk(c, if i < n / c then c else n % c, val);
        GridAppend(cs, a);
        cs := cs + [a];
      }
      FilledCells(Grid(cs), c, n, val);
    }

    /** The copy constructor: the same layout in chunks of its own. */
    constructor CopyFrom(other: Deque<T>)
      requires other.Valid()
      ensures Valid() && contents == other.contents && fresh(nodes) && fresh(live)
      ensures c == other.c && start == other.start && finish == other.finish && live !! other.live
    {
      hide Cells, Grid, Slots;
      var cs := CloneChunks(other);
      var s := other.start.node;
      var map_ := MakeMap(other.nodes.Length, s, cs);
      nodes := map_;
      c := other.c;
      start, finish := other.start, other.finish;
      chunks, live := cs, set a | a in cs;
      contents := other.contents;
      new;
    }

    /** A chunk of its own for every chunk of `other`, with the same elements. */
    static method CloneChunks(other: Deque<T>) returns (cs: seq<array<Option<T>>>)
      requires other.Valid()
      ensures |cs| == |other.chunks| && Grid(cs) == Grid(other.chunks)
      ensures forall q :: 0 <= q < |cs| ==> fresh(cs[q]) && cs[q].Length == other.c
      ensures forall q, r :: 0 <= q < r < |cs| ==> cs[q] != cs[r]
    {
      hide Cells, Grid, Slots;
      cs := [];
      var count := other.finish.node - other.start.node + 1;
      for i := 0 to count
        invariant |cs| == i && Grid(cs) == Grid(other.chunks)[..i]
        invariant forall q :: 0 <= q < i ==> fresh(cs[q]) && cs[q].Length == other.c
        invariant forall q, r :: 0 <= q < r < i ==> cs[q] != cs[r]
      {
        var a := CloneChunk(other, i);
        GridAppend(cs, a);
        cs := cs + [a];
      }
    }

    static method CloneChunk(other: Deque<T>, i: nat) returns (a: array<Option<T>>)
      requires other.Valid() && i < |other.chunks|
      ensures fresh(a) && a.Length == other.c && a[..] == Grid(other.chunks)[i]
    {
      var from := other.nodes[other.start.node + i];
      var lo := if i == 0 then other.start.off else 0;
      var hi := if other.start.node + i == other.finish.node then other.finish.off else other.c;
      OutsideRaw(Grid(other.chunks), other.c, other.start.off, other.finish.off, other.contents, i);
      assert Grid(other.chunks)[i] == other.chunks[i][..];
      a := CopyRange(from, lo, if lo <= hi then hi else lo);
    }

    static method CopyRange(from: array<Option<T>>, lo: nat, hi: nat) returns (a: array<Option<T>>)
      requires lo <= hi <= from.Length
      requires forall o :: 0 <= o < from.Length && !(lo <= o < hi) ==> from[o] == None
      ensures fresh(a) && a.Length == from.Length && a[..] == from[..]
    {
      a := new Option<T>[from.Length](_ => None);
      for o := lo to hi
        invariant forall p :: 0 <= p < a.Length ==> a[p] == if lo <= p < o then from[p] else None
      {
        a[o] := from[o];
      }
    }

    static method FilledChunk(c: nat, k: nat, val: T) returns (a: array<Option<T>>)
      requires k <= c
      ensures fresh(a) && a.Length == c && a[..] == Copies(c, k, val)
    {
      a := new Option<T>[c](_ => None);
      for o := 0 to k
        invariant forall p :: 0 <= p < c ==> a[p] == if p < o then Some(val) else None
      {
        a[o] := Some(val);
      }
    }

    /** The nodes start and finish stand on. */
    lemma Ends()
      requires Structure() && Owned()
      ensures start.node < nodes.Length && finish.node < nodes.Length && chunks != []
      ensures nodes[start.node] == chunks[0] && chunks[0] in live
      ensures nodes[finish.node] == chunks[|chunks| - 1] && chunks[|chunks| - 1] in live
      ensures start.off < c && finish.off < c && finish.node - start.node == |chunks| - 1
    {
      assert nodes[start.node + (|chunks| - 1)] == chunks[|chunks| - 1];
      assert nodes[start.node + 0] == chunks[0];
    }

    method Poke(ghost q: nat, a: array<Option<T>>, o: nat, x: Option<T>)
      requires Structure() && Owned() && q < |chunks| && chunks[q] == a && o < c
      modifies a
      ensures Structure() && Owned()
      ensures o < |old(Grid(chunks))[q]| && Grid(chunks) == Put(old(Grid(chunks)), q, o, x)
    {
      a[o] := x;
      assert forall r :: 0 <= r < |chunks| ==> Grid(chunks)[r] == Put(old(Grid(chunks)), q, o, x)[r];
    }

    method Allocate() returns (a: array<Option<T>>)
      modifies this`live
      ensures fresh(a) && a.Length == c && a[..] == Raw(c) && live == old(live) + {a}
    {
      a := new Option<T>[c](_ => None);
      live := live + {a};
    }

    /** Only a chunk that is allocated and holds no object may be freed. */
    method Free(a: array<Option<T>>)
      requires a in live && a[..] == Raw(a.Length)
      modifies this`live
      ensures live == old(live) - {a}
    {
      live := live - {a};
    }

    /** A map twice as large with the same chunks centred in it: both ends get a free node. */
    method ReallocateMap(newSize: nat)
      requires Structure() && newSize == 2 * nodes.Length
      modifies this`nodes, this`start, this`finish
      ensures Structure() && fresh(nodes) && nodes.Length == newSize
      ensures start.off == old(start.off) && finish.off == old(finish.off)
      ensures 0 < start.node && finish.node + 1 < nodes.Length
      ensures start.node == (newSize - (old(finish.node) - old(start.node))) / 2
    {
      var newMap := new array?<Option<T>>[newSize](_ => null);
      var newStart := (newSize - (finish.node - start.node)) / 2;
      var n := finish.node - start.node + 1;
      for i := 0 to n
        invariant forall q :: 0 <= q < i ==> newMap[newStart + q] == chunks[q]
        modifies newMap
      {
        newMap[newStart + i] := nodes[start.node + i];
      }
      start, finish := start.(node := newStart), finish.(node := newStart + (finish.node - start.node));
      nodes := newMap;
    }

    method AddBackCapacity() returns (a: array<Option<T>>)
      requires Structure()
      modifies this`nodes, this`start, this`finish, this`live, nodes
      ensures Structure() && (nodes == old(nodes) || fresh(nodes))
      ensures start.off == old(start.off) && finish.off == old(finish.off)
      ensures finish.node + 1 < nodes.Length && nodes[finish.node + 1] == a
      ensures if old(finish.node) + 1 == old(nodes.Length) then fresh(nodes) && nodes.Length == 2 * old(nodes.Length)
        else nodes == old(nodes) && start == old(start) && finish == old(finish)
      ensures fresh(a) && a.Length == c && a[..] == Raw(c) && live == old(live) + {a}
    {
      if finish.node + 1 == nodes.Length {
        ReallocateMap(nodes.Length * 2);
      }
      a := Allocate();
      nodes[finish.node + 1] := a;
    }

    method AddFrontCapacity() returns (a: array<Option<T>>)
      requires Structure()
      modifies this`nodes, this`start, this`finish, this`live, nodes
      ensures Structure() && (nodes == old(nodes) || fresh(nodes))
      ensures start.off == old(start.off) && finish.off == old(finish.off)
      ensures 0 < start.node && nodes[start.node - 1] == a
      ensures if old(start.node) == 0 then fresh(nodes) && nodes.Length == 2 * old(nodes.Length)
        else nodes == old(nodes) && start == old(start) && finish == old(finish)
      ensures fresh(a) && a.Length == c && a[..] == Raw(c) && live == old(live) + {a}
    {
      if start.node == 0 {
        ReallocateMap(nodes.Length * 2);
      }
      a := Allocate();
      nodes[start.node - 1] := a;
    }

    /** ++finish_ after add_back_capacity() if the chunk is full. */
    method AdvanceFinish()
      requires Structure() && Owned()
      modifies this`nodes, this`start, this`finish, this`live, this`chunks, nodes
      ensures Structure() && Owned() && (nodes == old(nodes) || fresh(nodes)) && fresh(live - old(live))
      ensures start.off == old(start.off)
      ensures if old(finish.off) + 1 == c
              then |chunks| == |old(chunks)| + 1 && finish.off == 0 && Grid(chunks) == old(Grid(chunks)) + [Raw(c)]
              else chunks == old(chunks) && finish.off == old(finish.off) + 1 && Grid(chunks) == old(Grid(chunks))
    {
      if finish.off + 1 == c {
        var a := AddBackCapacity();
        GridAppend(chunks, a);
        chunks := chunks + [a];
      }
      finish := Inc(c, finish);
    }

    /** --start_ after add_front_capacity() if start is at the chunk's beginning. */
    method RetreatStart()
      requires Structure() && Owned()
      modifies this`nodes, this`start, this`finish, this`live, this`chunks, nodes
      ensures Structure() && Owned() && (nodes == old(nodes) || fresh(nodes)) && fresh(live - old(live))
      ensures finish.off == old(finish.off)
      ensures if old(start.off) == 0
              then |chunks| == |old(chunks)| + 1 && start.off == c - 1 && Grid(chunks) == [Raw(c)] + old(Grid(chunks))
              else chunks == old(chunks) && start.off == old(start.off) - 1 && Grid(chunks) == old(Grid(chunks))
    {
      if start.off == 0 {
        var a := AddFrontCapacity();
        GridPrepend(chunks, a);
        chunks := [a] + chunks;
      }
      start := Dec(c, start);
    }

    /** --finish_ after deallocating the chunk it stands at the beginning of. */
    method RetreatFinish()
      requires Structure() && Owned()
      requires finish.off == 0 ==> |chunks| > 1 && Grid(chunks)[|chunks| - 1] == Raw(c)
      modifies this`finish, this`live, this`chunks
      ensures Structure() && Owned() && live <= old(live)
      ensures if old(finish.off) == 0
              then |chunks| == |old(chunks)| - 1 && finish.off == c - 1 && Grid(chunks) == old(Grid(chunks))[..|chunks|]
              else chunks == old(chunks) && finish.off == old(finish.off) - 1 && Grid(chunks) == old(Grid(chunks))
    {
      Ends();
      if finish.off == 0 {
        GridDrop(chunks);
        Free(nodes[finish.node]);
        chunks := chunks[..|chunks| - 1];
      }
      finish := Dec(c, finish);
    }

    /** ++start_ after deallocating the chunk it leaves. */
    method AdvanceStart()
      requires Structure() && Owned()
      requires start.off + 1 == c ==> |chunks| > 1 && Grid(chunks)[0] == Raw(c)
      requires |chunks| == 1 ==> start.off < finish.off
      modifies this`start, this`live, this`chunks
      ensures Structure() && Owned() && live <= old(live)
      ensures if old(start.off) + 1 == c
              then |chunks| == |old(chunks)| - 1 && start.off == 0 && Grid(chunks) == old(Grid(chunks))[1..]
              else chunks == old(chunks) && start.off == old(start.off) + 1 && Grid(chunks) == old(Grid(chunks))
    {
      Ends();
      if start.off + 1 == c {
        GridDrop(chunks);
        Free(nodes[start.node]);
        chunks := chunks[1..];
      }
      start := Inc(c, start);
    }

    method PushBack(v: T)
      requires Valid()
      modifies this, nodes, live
      ensures Valid() && contents == old(contents) + [v]
      ensures (nodes == old(nodes) || fresh(nodes)) && fresh(live - old(live))
    {
      hide Cells, Grid, Slots, Structure, Owned;
      Ends();
      ghost var last := |chunks| - 1;
      SlotsStep(c, last);
      BackPut(Grid(chunks), c, start.off, contents, last, finish.off, v);
      Poke(last, nodes[finish.node], finish.off, Some(v));
      contents := contents + [v];
      if finish.off + 1 == c { AppendRaw(Grid(chunks), c, start.off, contents); }
      AdvanceFinish();
    }

    method PushFront(v: T)
      requires Valid()
      modifies this, nodes, live
      ensures Valid() && contents == [v] + old(contents)
      ensures (nodes == old(nodes) || fresh(nodes)) && fresh(live - old(live))
    {
      hide Cells, Grid, Slots, Structure, Owned;
      Ends();
      SlotsStep(c, |chunks| - 1);
      ghost var so := if start.off == 0 then c else start.off;
      if start.off == 0 { PrependRaw(Grid(chunks), c, contents); }
      RetreatStart();
      Ends();
      FrontPut(Grid(chunks), c, so, contents, v);
      Poke(0, nodes[start.node], start.off, Some(v));
      contents := [v] + contents;
    }

    method PopBack()
      requires Valid() && contents != []
      modifies this, nodes, live
      ensures Valid() && contents == old(contents)[..|old(contents)| - 1]
      ensures nodes == old(nodes) && live <= old(live)
    {
      hide Cells, Grid, Slots, Structure, Owned;
      Ends();
      if finish.off == 0 {
        SlotsStep(c, if |chunks| > 1 then |chunks| - 2 else 0);
        LastRaw(Grid(chunks), c, start.off, contents);
        DropLast(Grid(chunks), c, start.off, contents);
      }
      RetreatFinish();
      Ends();
      BackTake(Grid(chunks), c, start.off, contents, |chunks| - 1, finish.off);
      Poke(|chunks| - 1, nodes[finish.node], finish.off, None);
      contents := contents[..|contents| - 1];
    }

    method PopFront()
      requires Valid() && contents != []
      modifies this, nodes, live
      ensures Valid() && contents == old(contents)[1..]
      ensures nodes == old(nodes) && live <= old(live)
    {
      hide Cells, Grid, Slots, Structure, Owned;
      Ends();
      SlotsStep(c, if |chunks| > 1 then |chunks| - 2 else 0);
      FrontTake(Grid(chunks), c, start.off, contents);
      Poke(0, nodes[start.node], start.off, None);
      contents := contents[1..];
      if start.off + 1 == c {
        FirstRaw(Grid(chunks), c, contents);
        DropFirst(Grid(chunks), c, contents);
      }
      AdvanceStart();
    }

    method Size() returns (n: nat)
      requires Valid()
      ensures n == |contents|
    {
      Ends();
      n := c * (finish.node - start.node) + finish.off - start.off;
    }

    /** operator[] through the iterator's forward jump; None where the source throws. */
    method At(n: nat) returns (r: Option<T>)
      requires Valid()
      ensures r == if n < |contents| then Some(contents[n]) else None
    {
      var size := Size();
      if size <= n { return None; }
      var it := Plus(c, start, n);
      ghost var q := (n + start.off) / c;
      PlusDivMod(c, start, n);
      DivMod(c, n + start.off);
      InRange(n);
      r := nodes[it.node][it.off];
    }

    /** Where the jump lands is a node of the deque, and the slot there is element n. */
    lemma InRange(n: nat)
      requires Valid() && n < |contents|
      ensures var q := (n + start.off) / c;
        && 0 <= q < |chunks| && start.node + q < nodes.Length && nodes[start.node + q] == chunks[q]
        && chunks[q].Length == c && 0 <= (n + start.off) % c < c
        && chunks[q][(n + start.off) % c] == Some(contents[n])
    {
      hide Slots;
      var q, o := (n + start.off) / c, (n + start.off) % c;
      DivMod(c, n + start.off);
      SlotsIsProduct(c, q);
      if |chunks| - 1 < q { SlotsGrow(c, |chunks| - 1, q); }
      assert Grid(chunks)[q][o] == Cell(contents, Slots(c, q) + o - start.off);
    }

    /** Destroy the objects of a chunk of the deque and deallocate it. */
    method Release(a: array<Option<T>>, lo: nat, hi: nat)
      requires a in live && hi <= a.Length
      requires forall o :: 0 <= o < a.Length && !(lo <= o < hi) ==> a[o] == None
      modifies this`live, a
      ensures live == old(live) - {a} && a[..] == Raw(a.Length)
    {
      for o := lo to if lo <= hi then hi else lo
        invariant forall p :: 0 <= p < a.Length && (p < o || hi <= p) ==> a[p] == None
        modifies a
      {
        a[o] := None;
      }
      Free(a);
    }

    /** The destructor's loop over the chunks strictly between the ends. */
    method ReleaseInner()
      requires Structure() && Owned() && start.node < finish.node
      modifies this`live, live
      ensures live == {chunks[0], chunks[|chunks| - 1]}
      ensures forall q :: 0 < q < |chunks| - 1 ==> chunks[q][..] == Raw(c)
      ensures chunks[0][..] == old(chunks[0][..]) && chunks[|chunks| - 1][..] == old(chunks[|chunks| - 1][..])
    {
      ghost var last := |chunks| - 1;
      for p := start.node + 1 to finish.node
        modifies this`live, live
        invariant live <= old(live)
        invariant forall q :: 0 <= q <= last ==> (chunks[q] in live <==> q == 0 || q == last || start.node + q >= p)
        invariant forall q :: 0 < q < last && start.node + q < p ==> chunks[q][..] == Raw(c)
        invariant chunks[0][..] == old(chunks[0][..]) && chunks[last][..] == old(chunks[last][..])
      {
        assert nodes[start.node + (p - start.node)] == chunks[p - start.node];
        Release(nodes[p], 0, c);
      }
    }

    /** Outside start..finish the end chunks hold no object. */
    lemma EndsRaw()
      requires Valid()
      ensures forall o :: 0 <= o < start.off ==> chunks[0][o] == None
      ensures var a := chunks[|chunks| - 1]; forall o :: finish.off <= o < c ==> a[o] == None
      ensures |chunks| == 1 ==> start.off <= finish.off
    {
      hide Cells, Slots;
      var last := |chunks| - 1;
      OutsideRaw(Grid(chunks), c, start.off, finish.off, contents, 0);
      OutsideRaw(Grid(chunks), c, start.off, finish.off, contents, last);
      assert forall o :: 0 <= o < c ==> chunks[0][o] == Grid(chunks)[0][o] && chunks[last][o] == Grid(chunks)[last][o];
    }

    /** The destructor: inner chunks first, then the ends.  Each chunk is deallocated once,
        when no object is left in it, and nothing stays allocated.  */
    method Destroy()
      requires Valid()
      modifies this`live, live
      ensures live == {}
      ensures forall q :: 0 <= q < |chunks| ==> chunks[q][..] == Raw(c)
    {
      hide Cells, Slots, Grid;
      ghost var last := |chunks| - 1;
      EndsRaw();
      Ends();
      if start.node == finish.node {
        Release(nodes[start.node], start.off, finish.off);
      } else {
        label inner:
        ReleaseInner();
        assert forall o :: 0 <= o < c ==> chunks[0][..][o] == old@inner(chunks[0][..])[o];
        assert forall o :: 0 <= o < c ==> chunks[last][..][o] == old@inner(chunks[last][..])[o];
        Release(nodes[start.node], start.off, c);
        Release(nodes[finish.node], 0, finish.off);
      }
    }
  }

  // ---------------------------------------------------------------------
  // Whole runs
  // ---------------------------------------------------------------------

  datatype Op<T> = PushBack(value: T) | PushFront(value: T) | PopBack | PopFront | Get(index: nat) | Size

  datatype Seen<T> = Done | Element(value: T) | OutOfRange | Sized(size: nat)

  function Effect<T>(s: seq<T>, op: Op<T>): seq<T> {
    match op
    case PushBack(v) => s + [v]
    case PushFront(v) => [v] + s
    case PopBack => if s == [] then s else s[..|s| - 1]
    case PopFront => if s == [] then s else s[1..]
    case Get(_) => s
    case Size => s
  }

  function Shows<T>(s: seq<T>, op: Op<T>): Seen<T> {
    match op
    case Get(n) => if n < |s| then Element(s[n]) else OutOfRange
    case Size => Sized(|s|)
    case _ => Done
  }

  function Effects<T>(ops: seq<Op<T>>): seq<T> {
    if ops == [] then [] else Effect(Effects(ops[..|ops| - 1]), ops[|ops| - 1])
  }

  function AllShown<T>(ops: seq<Op<T>>): seq<Seen<T>> {
    if ops == [] then []
    else AllShown(ops[..|ops| - 1]) + [Shows(Effects(ops[..|ops| - 1]), ops[|ops| - 1])]
  }

  method Perform<T>(d: Deque<T>, op: Op<T>) returns (seen: Seen<T>)
    requires d.Valid() && (op.PopBack? || op.PopFront? ==> d.contents != [])
    modifies d, d.nodes, d.live
    ensures d.Valid() && (d.nodes == old(d.nodes) || fresh(d.nodes)) && fresh(d.live - old(d.live))
    ensures d.contents == Effect(old(d.contents), op) && seen == Shows(old(d.contents), op)
  {
    hide Cells;
    seen := Done;
    match op {
      case PushBack(v) => d.PushBack(v);
      case PushFront(v) => d.PushFront(v);
      case PopBack => d.PopBack();
      case PopFront => d.PopFront();
      case Get(n) =>
        var r := d.At(n);
        seen := if r.Some? then Element(r.value) else OutOfRange;
      case Size =>
        var n := d.Size();
        seen := Sized(n);
    }
  }

  /** Every run of pushes and pops at either end, indexed reads and size calls, over any
      chunk size and across any number of map reallocations, shows exactly what the sequence
      shows; a pop is not called on an empty deque.  When the deque is then destroyed, no
      chunk remains allocated.  */
  method Run<T>(c: nat, ops: seq<Op<T>>, fill: T) returns (seen: seq<Seen<T>>, ghost leaked: set<array<Option<T>>>)
    requires c > 0
    requires forall n :: 0 <= n < |ops| && (ops[n].PopBack? || ops[n].PopFront?) ==> Effects(ops[..n]) != []
    ensures seen == AllShown(ops) && leaked == {}
  {
    var d := new Deque<T>(c, 0, fill);
    seen := [];
    for n := 0 to |ops|
      invariant fresh(d) && fresh(d.nodes) && fresh(d.live) && d.Valid()
      invariant d.contents == Effects(ops[..n]) && seen == AllShown(ops[..n])
    {
      hide Cells, Effect, Shows;
      var one := Perform(d, ops[n]);
      seen := seen + [one];
      assert ops[..n + 1][..n] == ops[..n];
    }
    assert ops[..|ops|] == ops;
    d.Destroy();
    leaked := d.live;
  }
}
