/** The open-addressing hash map of include/hashmap.h: linear probing, removal that only
    clears the occupied flag and keeps the key in place, and doubling rehash.

    It refines a mathematical map for any hash function, and for any keys that happen to
    sit in unoccupied slots (a fresh table's keys are uninitialised storage).  */
module HashMap {
  import opened Wrappers
  import opened Arithmetic

  datatype Entry<K, V> = Entry(key: K, value: V, occupied: bool)

  // ---------------------------------------------------------------------
  // Tables as sequences
  // ---------------------------------------------------------------------

  /** How many probe steps lead from slot h to slot i in a table of c slots. */
  function Dist(c: nat, h: nat, i: nat): (d: nat)
    requires h < c && i < c
    ensures d < c
  {
    if h <= i then i - h else i + c - h
  }

  function Home<K>(c: nat, hash: K -> nat, k: K): (h: nat)
    requires c > 0
    ensures h < c
  {
    hash(k) % c
  }

  function Succ(c: nat, i: nat): (j: nat)
    requires i < c
    ensures j < c
  {
    ModIsWrap(c, i + 1);
    (i + 1) % c
  }

  /** Slot i is probed before slot j when looking for k. */
  predicate Before<K>(c: nat, hash: K -> nat, k: K, i: nat, j: nat)
    requires c > 0
  {
    i < c && j < c && Dist(c, Home(c, hash, k), i) < Dist(c, Home(c, hash, k), j)
  }

  /** The slot that probing for k visits after d steps. */
  function Visited<K>(c: nat, hash: K -> nat, k: K, d: nat): (i: nat)
    requires c > 0
    ensures i < c
  {
    (hash(k) + d) % c
  }

  /** Probing for k visits slots hash(k), hash(k) + 1, ... modulo the table size, in that order. */
  lemma ProbeOrder<K>(c: nat, hash: K -> nat, k: K, d: nat)
    requires d < c
    ensures Visited(c, hash, k, d) == (hash(k) + d) % c && Dist(c, Home(c, hash, k), Visited(c, hash, k, d)) == d
  {
    var h := hash(k) % c;
    DivMod(c, hash(k));
    var q, x := hash(k) / c, h + d;
    ModIsWrap(c, x);
    if x < c {
      DivModIs(c, hash(k) + d, q, x);
    } else {
      MulNext(c, q);
      DivModIs(c, hash(k) + d, q + 1, x - c);
    }
  }

  lemma SameDist(c: nat, h: nat, i: nat, j: nat)
    requires h < c && i < c && j < c && Dist(c, h, i) == Dist(c, h, j)
    ensures i == j
  {
  }

  /** So an insertion stops at the d-th slot of this sequence exactly when it is the first one
      that is not occupied.  */
  lemma FirstFreeMeans<K, V>(t: seq<Entry<K, V>>, hash: K -> nat, k: K, d: nat)
    requires d < |t|
    ensures FirstFree(t, hash, k, Visited(|t|, hash, k, d)) <==>
      !t[Visited(|t|, hash, k, d)].occupied && forall e: nat :: e < d ==> t[Visited(|t|, hash, k, e)].occupied
  {
    var c, idx := |t|, Visited(|t|, hash, k, d);
    hide Visited, Home, Dist;
    ProbeOrder(c, hash, k, d);
    if FirstFree(t, hash, k, idx) {
      forall e: nat | e < d ensures t[Visited(c, hash, k, e)].occupied { ProbeOrder(c, hash, k, e); }
    }
    if forall e: nat :: e < d ==> t[Visited(c, hash, k, e)].occupied {
      forall j: nat | j < c && Before(c, hash, k, j, idx) ensures t[j].occupied {
        var e := Dist(c, Home(c, hash, k), j);
        ProbeOrder(c, hash, k, e);
        SameDist(c, Home(c, hash, k), j, Visited(c, hash, k, e));
      }
    }
  }

  /** No slot probed before an occupied slot stores that slot's key, occupied or not. */
  ghost predicate Probing<K, V>(t: seq<Entry<K, V>>, hash: K -> nat)
    requires |t| > 0
  {
    forall i: nat, j: nat :: j < |t| && t[j].occupied && Before(|t|, hash, t[j].key, i, j) ==> t[i].key != t[j].key
  }

  ghost predicate Holds<K, V>(t: seq<Entry<K, V>>, k: K, v: V) {
    exists i: nat :: i < |t| && t[i] == Entry(k, v, true)
  }

  /** The occupied slots of t are exactly the bindings of m. */
  ghost predicate Represents<K, V>(t: seq<Entry<K, V>>, m: map<K, V>) {
    && (forall i: nat :: i < |t| && t[i].occupied ==> t[i].key in m && m[t[i].key] == t[i].value)
    && (forall k :: k in m ==> Holds(t, k, m[k]))
  }

  ghost function Count<K, V>(t: seq<Entry<K, V>>): nat {
    if t == [] then 0 else Count(t[..|t| - 1]) + if t[|t| - 1].occupied then 1 else 0
  }

  ghost predicate TableOk<K, V>(t: seq<Entry<K, V>>, hash: K -> nat, m: map<K, V>, size: nat) {
    |t| > 0 && Probing(t, hash) && Represents(t, m) && size == |m| == Count(t)
  }

  /** Every slot probed before an occupied slot is occupied: no removal has left a hole. */
  ghost predicate Compact<K, V>(t: seq<Entry<K, V>>, hash: K -> nat) {
    |t| > 0 && forall i: nat, j: nat :: j < |t| && t[j].occupied && Before(|t|, hash, t[j].key, i, j) ==> t[i].occupied
  }

  /** The unoccupied slot at which probing for k stops. */
  ghost predicate FirstFree<K, V>(t: seq<Entry<K, V>>, hash: K -> nat, k: K, i: nat) {
    i < |t| && !t[i].occupied && forall j: nat :: j < |t| && Before(|t|, hash, k, j, i) ==> t[j].occupied
  }

  /** An occupied slot holds k beyond an unoccupied slot of k's probe path. */
  ghost predicate HoleBefore<K, V>(t: seq<Entry<K, V>>, hash: K -> nat, k: K) {
    |t| > 0 && exists i: nat, j: nat ::
      j < |t| && t[j].occupied && t[j].key == k && Before(|t|, hash, k, i, j) && !t[i].occupied
  }

  lemma {:induction false} CountUpdate<K, V>(t: seq<Entry<K, V>>, i: nat, e: Entry<K, V>)
    requires i < |t|
    ensures Count(t[i := e]) == Count(t) - (if t[i].occupied then 1 else 0) + (if e.occupied then 1 else 0)
    decreases |t|
  {
    var n := |t| - 1;
    if i == n {
      assert t[i := e][..n] == t[..n];
    } else {
      assert t[i := e][..n] == t[..n][i := e];
      CountUpdate(t[..n], i, e);
    }
  }

  lemma {:induction false} FreeSlotExists<K, V>(t: seq<Entry<K, V>>) returns (i: nat)
    requires Count(t) < |t|
    ensures i < |t| && !t[i].occupied
    decreases |t|
  {
    var n := |t| - 1;
    if !t[n].occupied {
      i := n;
    } else {
      i := FreeSlotExists(t[..n]);
    }
  }

  lemma {:induction false} CountFull<K, V>(t: seq<Entry<K, V>>)
    ensures Count(t) <= |t|
    ensures Count(t) == |t| ==> forall i :: 0 <= i < |t| ==> t[i].occupied
    decreases |t|
  {
    if t != [] { CountFull(t[..|t| - 1]); }
  }

  lemma {:induction false} CountEmpty<K, V>(t: seq<Entry<K, V>>)
    requires forall i :: 0 <= i < |t| ==> !t[i].occupied
    ensures Count(t) == 0
    decreases |t|
  {
    if t != [] { CountEmpty(t[..|t| - 1]); }
  }

  lemma EmptyTableOk<K, V>(t: seq<Entry<K, V>>, hash: K -> nat)
    requires |t| > 0 && forall i :: 0 <= i < |t| ==> !t[i].occupied
    ensures TableOk(t, hash, map[], 0) && Compact(t, hash)
  {
    CountEmpty(t);
  }

  /** A table's keys are unique. */
  lemma UniqueKeys<K, V>(t: seq<Entry<K, V>>, hash: K -> nat, i: nat, j: nat)
    requires |t| > 0 && Probing(t, hash) && i < |t| && j < |t|
    requires t[i].occupied && t[j].occupied && t[i].key == t[j].key
    ensures i == j
  {
    assert Before(|t|, hash, t[j].key, i, j) || Before(|t|, hash, t[i].key, j, i) || i == j;
  }

  /** Which slots hold which bindings determines the map. */
  lemma RepresentsUnique<K, V>(t: seq<Entry<K, V>>, m: map<K, V>, n: map<K, V>)
    requires Represents(t, m) && Represents(t, n)
    ensures m == n
  {
    forall k | k in m ensures k in n && n[k] == m[k] { assert Holds(t, k, m[k]); }
    forall k | k in n ensures k in m { assert Holds(t, k, n[k]); }
  }

  /** Storing a new key at the slot its probe stops at. */
  lemma InsertFresh<K, V>(t: seq<Entry<K, V>>, hash: K -> nat, m: map<K, V>, size: nat, i: nat, k: K, v: V)
    requires TableOk(t, hash, m, size) && k !in m && FirstFree(t, hash, k, i)
    ensures TableOk(t[i := Entry(k, v, true)], hash, m[k := v], size + 1)
    ensures Compact(t, hash) ==> Compact(t[i := Entry(k, v, true)], hash)
  {
    var t' := t[i := Entry(k, v, true)];
    CountUpdate(t, i, Entry(k, v, true));
    InsertProbing(t, hash, m, i, k, v);
    StoreRepresents(t, m, i, k, v);
  }

  lemma InsertProbing<K, V>(t: seq<Entry<K, V>>, hash: K -> nat, m: map<K, V>, i: nat, k: K, v: V)
    requires |t| > 0 && Probing(t, hash) && Represents(t, m) && k !in m && FirstFree(t, hash, k, i)
    ensures Probing(t[i := Entry(k, v, true)], hash)
  {
  }

  lemma StoreRepresents<K, V>(t: seq<Entry<K, V>>, m: map<K, V>, i: nat, k: K, v: V)
    requires Represents(t, m) && i < |t| && k !in m && !t[i].occupied
    ensures Represents(t[i := Entry(k, v, true)], m[k := v])
  {
    var t', m' := t[i := Entry(k, v, true)], m[k := v];
    assert t'[i] == Entry(k, v, true);
    forall x | x in m' ensures Holds(t', x, m'[x]) {
      if x != k {
        assert Holds(t, x, m[x]);
        var j: nat :| j < |t| && t[j] == Entry(x, m[x], true);
        assert t'[j] == t[j];
      }
    }
  }

  /** Overwriting the value stored with an occupied key. */
  lemma OverwriteValue<K, V>(t: seq<Entry<K, V>>, hash: K -> nat, m: map<K, V>, size: nat, i: nat, v: V)
    requires TableOk(t, hash, m, size) && i < |t| && t[i].occupied
    ensures TableOk(t[i := t[i].(value := v)], hash, m[t[i].key := v], size)
    ensures Compact(t, hash) ==> Compact(t[i := t[i].(value := v)], hash)
  {
    var t', m' := t[i := t[i].(value := v)], m[t[i].key := v];
    CountUpdate(t, i, t[i].(value := v));
    assert m'.Keys == m.Keys;
    assert |m'| == |m'.Keys|;
    OverwriteRepresents(t, hash, m, i, v);
  }

  lemma OverwriteRepresents<K, V>(t: seq<Entry<K, V>>, hash: K -> nat, m: map<K, V>, i: nat, v: V)
    requires |t| > 0 && Probing(t, hash) && Represents(t, m) && i < |t| && t[i].occupied
    ensures Represents(t[i := t[i].(value := v)], m[t[i].key := v])
  {
    var t', m' := t[i := t[i].(value := v)], m[t[i].key := v];
    forall j: nat | j < |t| && t'[j].occupied ensures t'[j].key in m' && m'[t'[j].key] == t'[j].value {
      if j != i && t[j].key == t[i].key { UniqueKeys(t, hash, i, j); }
    }
    forall x | x in m' ensures Holds(t', x, m'[x]) {
      if x == t[i].key {
        assert t'[i] == Entry(x, v, true);
      } else {
        assert Holds(t, x, m[x]);
        var j: nat :| j < |t| && t[j] == Entry(x, m[x], true);
        assert t'[j] == t[j];
      }
    }
  }

  lemma ClearRepresents<K, V>(t: seq<Entry<K, V>>, hash: K -> nat, m: map<K, V>, i: nat)
    requires |t| > 0 && Probing(t, hash) && Represents(t, m) && i < |t| && t[i].occupied
    ensures Represents(t[i := t[i].(occupied := false)], m - {t[i].key})
  {
    var t', m' := t[i := t[i].(occupied := false)], m - {t[i].key};
    forall j: nat | j < |t| && t'[j].occupied ensures t'[j].key in m' && m'[t'[j].key] == t'[j].value {
      if t[j].key == t[i].key { UniqueKeys(t, hash, i, j); }
    }
    forall x | x in m' ensures Holds(t', x, m'[x]) {
      assert Holds(t, x, m[x]);
      var j: nat :| j < |t| && t[j] == Entry(x, m[x], true);
      assert t'[j] == t[j];
    }
  }

  /** Clearing the occupied flag of a key's slot. */
  lemma ClearSlot<K, V>(t: seq<Entry<K, V>>, hash: K -> nat, m: map<K, V>, size: nat, i: nat)
    requires TableOk(t, hash, m, size) && i < |t| && t[i].occupied
    ensures size > 0 && TableOk(t[i := t[i].(occupied := false)], hash, m - {t[i].key}, size - 1)
  {
    var t', m' := t[i := t[i].(occupied := false)], m - {t[i].key};
    CountUpdate(t, i, t[i].(occupied := false));
    ClearRepresents(t, hash, m, i);
    assert m.Keys == m'.Keys + {t[i].key};
    assert |m'| == |m'.Keys| && |m| == |m.Keys|;
  }

  lemma NextSlot(c: nat, h: nat, i: nat)
    requires h < c && i < c
    ensures if Succ(c, i) == h then Dist(c, h, i) == c - 1 else Dist(c, h, Succ(c, i)) == Dist(c, h, i) + 1
  {
    ModIsWrap(c, i + 1);
  }

  /** No slot probed for `key` before slot idx stores it. */
  ghost predicate NotBefore<K, V>(t: seq<Entry<K, V>>, hash: K -> nat, key: K, idx: nat) {
    |t| > 0 && forall i: nat :: i < |t| && Before(|t|, hash, key, i, idx) ==> t[i].key != key
  }

  lemma LookStep<K, V>(t: seq<Entry<K, V>>, hash: K -> nat, key: K, idx: nat)
    requires idx < |t| && NotBefore(t, hash, key, idx) && t[idx].key != key
    ensures var h := Home(|t|, hash, key);
      var next := Succ(|t|, idx);
      (if next == h then forall i :: 0 <= i < |t| ==> t[i].key != key
       else NotBefore(t, hash, key, next) && Dist(|t|, h, next) == Dist(|t|, h, idx) + 1)
  {
    var h := Home(|t|, hash, key);
    NextSlot(|t|, h, idx);
    forall i: nat | i < |t| && Dist(|t|, h, i) <= Dist(|t|, h, idx) ensures t[i].key != key {
      assert i == idx || Before(|t|, hash, key, i, idx);
    }
  }

  lemma Absent<K, V>(t: seq<Entry<K, V>>, m: map<K, V>, key: K)
    requires Represents(t, m) && forall i :: 0 <= i < |t| && t[i].occupied ==> t[i].key != key
    ensures key !in m
  {
  }

  lemma Compare<K>(c: nat, hash: K -> nat, k: K, i: nat, j: nat)
    requires i < c && j < c
    ensures i == j || Before(c, hash, k, i, j) || Before(c, hash, k, j, i)
  {
  }

  /** The first slot storing the key decides: if it is unoccupied, no later one counts. */
  lemma FoundUnoccupied<K, V>(t: seq<Entry<K, V>>, hash: K -> nat, m: map<K, V>, key: K, idx: nat)
    requires idx < |t| && Probing(t, hash) && Represents(t, m)
    requires NotBefore(t, hash, key, idx) && t[idx].key == key && !t[idx].occupied
    ensures key !in m
  {
    forall j: nat | j < |t| && t[j].occupied ensures t[j].key != key {
      Compare(|t|, hash, key, idx, j);
    }
    Absent(t, m, key);
  }

  /** Every slot probed for `key` before slot idx is occupied. */
  ghost predicate FullBefore<K, V>(t: seq<Entry<K, V>>, hash: K -> nat, key: K, idx: nat) {
    |t| > 0 && forall i: nat :: i < |t| && Before(|t|, hash, key, i, idx) ==> t[i].occupied
  }

  /** One probe step past an occupied slot, short of a slot where probing must stop. */
  lemma PassOccupied<K, V>(t: seq<Entry<K, V>>, hash: K -> nat, key: K, idx: nat, stop: nat)
    requires idx < |t| && stop < |t| && idx != stop && FullBefore(t, hash, key, idx) && t[idx].occupied
    requires Dist(|t|, Home(|t|, hash, key), idx) <= Dist(|t|, Home(|t|, hash, key), stop)
    ensures var h := Home(|t|, hash, key);
      var next := Succ(|t|, idx);
      && FullBefore(t, hash, key, next)
      && (NotBefore(t, hash, key, idx) && t[idx].key != key ==> NotBefore(t, hash, key, next))
      && Dist(|t|, h, next) == Dist(|t|, h, idx) + 1 <= Dist(|t|, h, stop)
  {
    var h := Home(|t|, hash, key);
    NextSlot(|t|, h, idx);
    forall i: nat | i < |t| && Dist(|t|, h, i) <= Dist(|t|, h, idx)
      ensures t[i].occupied && (NotBefore(t, hash, key, idx) && t[idx].key != key ==> t[i].key != key)
    {
      assert i == idx || Before(|t|, hash, key, i, idx);
    }
  }

  /** A table whose size has reached its capacity stops no insertion probe. */
  lemma {:induction false} FullTableHasNoStop<K, V>(t: seq<Entry<K, V>>, hash: K -> nat, m: map<K, V>, size: nat)
    requires TableOk(t, hash, m, size)
    ensures size < |t| <==> exists i :: 0 <= i < |t| && !t[i].occupied
  {
    CountFull(t);
    if size < |t| { var i := FreeSlotExists(t); }
  }

  lemma EmptyRepresents<K, V>()
    ensures Represents<K, V>([], map[])
  {
  }

  lemma AppendRepresents<K, V>(p: seq<Entry<K, V>>, m: map<K, V>, e: Entry<K, V>)
    requires Represents(p, m) && (e.occupied ==> e.key !in m)
    ensures Represents(p + [e], if e.occupied then m[e.key := e.value] else m)
  {
    var p', m' := p + [e], if e.occupied then m[e.key := e.value] else m;
    assert p'[|p|] == e;
    forall x | x in m' ensures Holds(p', x, m'[x]) {
      if x in m && (e.occupied ==> x != e.key) {
        var j: nat :| j < |p| && p[j] == Entry(x, m[x], true);
        assert p'[j] == p[j];
      } else {
        assert p'[|p|] == Entry(x, m'[x], true);
      }
    }
  }

  /** Re-inserting the slots of a table in order: the next one brings a new key. */
  lemma PrefixStep<K, V>(t: seq<Entry<K, V>>, hash: K -> nat, m: map<K, V>, i: nat)
    requires |t| > 0 && Probing(t, hash) && i < |t| && Represents(t[..i], m)
    ensures t[i].occupied ==> t[i].key !in m
    ensures Represents(t[..i + 1], if t[i].occupied then m[t[i].key := t[i].value] else m)
  {
    if t[i].occupied {
      forall j | 0 <= j < i && t[j].occupied ensures t[j].key != t[i].key {
        if t[j].key == t[i].key { UniqueKeys(t, hash, i, j); }
      }
      Absent(t[..i], m, t[i].key);
    }
    AppendRepresents(t[..i], m, t[i]);
    assert t[..i + 1] == t[..i] + [t[i]];
  }

  /** Probing for a stored key, or in a table with room, has a slot to stop at. */
  lemma StopExists<K, V>(t: seq<Entry<K, V>>, hash: K -> nat, m: map<K, V>, size: nat, key: K) returns (stop: nat)
    requires TableOk(t, hash, m, size) && (key in m || size < |t|)
    ensures stop < |t| && (!t[stop].occupied || t[stop].key == key)
  {
    if key in m {
      assert Holds(t, key, m[key]);
      stop :| stop < |t| && t[stop] == Entry(key, m[key], true);
    } else {
      stop := FreeSlotExists(t);
    }
  }

  lemma NoHoleBeforeFound<K, V>(t: seq<Entry<K, V>>, hash: K -> nat, m: map<K, V>, key: K, idx: nat)
    requires idx < |t| && Probing(t, hash) && Represents(t, m) && FullBefore(t, hash, key, idx)
    requires t[idx].occupied && t[idx].key == key
    ensures !HoleBefore(t, hash, key) && key in m
  {
    forall j: nat | j < |t| && t[j].occupied && t[j].key == key ensures j == idx {
      UniqueKeys(t, hash, idx, j);
    }
  }

  /** The hole at which insertion stops is the right slot exactly when no slot beyond it
      holds the key.  */
  /** The key is in two occupied slots. */
  ghost predicate StoredTwice<K, V>(t: seq<Entry<K, V>>, key: K) {
    exists i, j :: 0 <= i < j < |t| && t[i].occupied && t[j].occupied && t[i].key == key && t[j].key == key
  }

  lemma InsertAtHole<K, V>(t: seq<Entry<K, V>>, hash: K -> nat, m: map<K, V>, size: nat, idx: nat, key: K, value: V)
    requires TableOk(t, hash, m, size) && FirstFree(t, hash, key, idx) && NotBefore(t, hash, key, idx)
    ensures HoleBefore(t, hash, key) <==> key in m
    ensures key !in m ==> TableOk(t[idx := Entry(key, value, true)], hash, m[key := value], size + 1)
    ensures key in m ==> !Probing(t[idx := Entry(key, value, true)], hash) && |m[key := value]| == size
    ensures key in m ==> StoredTwice(t[idx := Entry(key, value, true)], key)
    ensures Compact(t, hash) ==> key !in m && Compact(t[idx := Entry(key, value, true)], hash)
  {
    if key !in m {
      forall j: nat | j < |t| && t[j].occupied ensures t[j].key != key { assert t[j].key in m; }
      InsertFresh(t, hash, m, size, idx, key, value);
    } else {
      assert Holds(t, key, m[key]);
      var j: nat :| j < |t| && t[j] == Entry(key, m[key], true);
      Compare(|t|, hash, key, idx, j);
      var t' := t[idx := Entry(key, value, true)];
      assert t'[idx].key == key && t'[j].key == key && (idx < j || j < idx);
      assert m[key := value].Keys == m.Keys;
      assert |m[key := value]| == |m[key := value].Keys|;
      assert t'[j].occupied && Before(|t'|, hash, t'[j].key, idx, j) && t'[idx].key == t'[j].key;
      CompactOrHole(t, hash, key);
    }
  }

  lemma CompactOrHole<K, V>(t: seq<Entry<K, V>>, hash: K -> nat, key: K)
    ensures Compact(t, hash) ==> !HoleBefore(t, hash, key)
  {
  }

  // ---------------------------------------------------------------------
  // The container
  // ---------------------------------------------------------------------

  predicate Overloaded(size: nat, capacity: nat, loadFactor: real) {
    size as real >= capacity as real * loadFactor
  }

  /** An insertion finds room at every size the table can have exactly when the load factor
      is at most 1; above it a full table is never rehashed and the probe never ends.  */
  /** A table is due for a rehash exactly when its fill ratio has reached the load factor; a
      table of capacity 0 always is.  */
  lemma OverloadedMeans(size: nat, capacity: nat, loadFactor: real)
    ensures capacity > 0 ==> (Overloaded(size, capacity, loadFactor) <==> size as real / capacity as real >= loadFactor)
    ensures capacity == 0 ==> Overloaded(size, capacity, loadFactor)
  {
    if capacity > 0 {
      var ratio, c := size as real / capacity as real, capacity as real;
      assert ratio * c == size as real;
      if ratio >= loadFactor { assert (ratio - loadFactor) * c >= 0.0; } else { assert (loadFactor - ratio) * c > 0.0; }
    }
  }

  lemma RoomIffLoadFactor(capacity: nat, loadFactor: real)
    requires capacity > 0
    ensures (forall size: nat :: size <= capacity ==> Overloaded(size, capacity, loadFactor) || size < capacity) <==>
      loadFactor <= 1.0
  {
    var c := capacity as real;
    if loadFactor <= 1.0 {
      assert c * (1.0 - loadFactor) >= 0.0;
    } else {
      assert c * (loadFactor - 1.0) > 0.0;
      assert !Overloaded(capacity, capacity, loadFactor);
    }
  }

  /** The next table size. */
  function GrownCapacity(capacity: nat): (r: nat)
    ensures capacity > 0 ==> r == 2 * capacity
    ensures capacity == 0 ==> r == 16
  {
    if capacity == 0 then 16 else 2 * capacity
  }

  class Map<K(==), V> {
    var table: array?<Entry<K, V>>
    var size: nat
    var capacity: nat
    var loadFactor: real
    const hash: K -> nat
    /** Value{} */
    const default: V
    /** The map this table stands for. */
    ghost var contents: map<K, V>

    ghost predicate Valid()
      reads this, table
    {
      if table == null then capacity == 0 && size == 0 && contents == map[]
      else table.Length == capacity && TableOk(table[..], hash, contents, size)
    }

    predicate NeedsRehash()
      reads this
    {
      Overloaded(size, capacity, loadFactor)
    }

    /** There is a slot to insert into, before or after the rehash an insertion makes. */
    predicate Room()
      reads this
    {
      NeedsRehash() || size < capacity
    }

    ghost predicate NoHoles()
      reads this, table
    {
      table != null ==> Compact(table[..], hash)
    }

    /** `junk` is whatever keys the new table's storage happens to hold. */
    constructor (capacity: nat, loadFactor: real, hash: K -> nat, default: V, junk: nat -> K)
      requires capacity > 0
      ensures Valid() && contents == map[] && size == 0 && NoHoles() && table != null && fresh(table)
      ensures this.capacity == capacity && this.loadFactor == loadFactor && this.hash == hash && this.default == default
      ensures forall i :: 0 <= i < capacity ==> table[i] == Entry(junk(i), default, false)
    {
      this.capacity, this.loadFactor, this.hash, this.default := capacity, loadFactor, hash, default;
      size := 0;
      contents := map[];
      var t := new Entry<K, V>[capacity]((i: nat) => Entry(junk(i), default, false));
      table := t;
      new;
      EmptyTableOk(table[..], hash);
    }

    /** The move constructor: the source keeps no table and capacity 0. */
    constructor MoveFrom(other: Map<K, V>)
      requires other.Valid()
      modifies other
      ensures Valid() && contents == old(other.contents) && size == old(other.size) && capacity == old(other.capacity)
      ensures table == old(other.table) && hash == other.hash && default == other.default
      ensures loadFactor == other.loadFactor
      ensures other.Valid() && other.table == null && other.contents == map[]
      ensures other.loadFactor == old(other.loadFactor)
    {
      table, size, capacity, loadFactor := other.table, other.size, other.capacity, other.loadFactor;
      hash, default, contents := other.hash, other.default, other.contents;
      new;
      other.table, other.size, other.capacity, other.contents := null, 0, 0, map[];
    }

    method FindIndex(key: K) returns (r: Option<nat>)
      requires Valid()
      ensures r.Some? <==> key in contents
      ensures r.Some? ==> table != null && r.value < table.Length && table[r.value] == Entry(key, contents[key], true)
    {
      if table == null { return None; }
      var idx: nat := Home(capacity, hash, key);
      var start := idx;
      while table[idx].key != key
        invariant idx < capacity && NotBefore(table[..], hash, key, idx)
        decreases capacity - Dist(capacity, start, idx)
      {
        LookStep(table[..], hash, key, idx);
        idx := Succ(capacity, idx);
        if idx == start {
          Absent(table[..], contents, key);
          return None;
        }
      }
      if table[idx].occupied { return Some(idx); }
      FoundUnoccupied(table[..], hash, contents, key, idx);
      return None;
    }

    lemma HasRoom()
      requires Valid() && loadFactor <= 1.0
      ensures Room()
    {
      if table != null {
        CountFull(table[..]);
        RoomIffLoadFactor(capacity, loadFactor);
      }
    }

    /** An occupied key is in its slot only. */
    lemma KeyIn(i: nat)
      requires Valid() && table != null && i < table.Length && table[i].occupied
      ensures table[i].key in contents
      ensures forall j: nat :: j < table.Length && table[j].occupied && table[j].key == table[i].key ==> j == i
    {
      forall j: nat | j < table.Length && table[j].occupied && table[j].key == table[i].key ensures j == i {
        UniqueKeys(table[..], hash, i, j);
      }
    }

    lemma SizeIsCount()
      requires Valid()
      ensures size == |contents|
    {
    }

    method Contains(key: K) returns (found: bool)
      requires Valid()
      ensures found <==> key in contents
    {
      var r := FindIndex(key);
      found := r.Some?;
    }

    static method Store(t: array<Entry<K, V>>, idx: nat, e: Entry<K, V>)
      requires idx < t.Length
      modifies t
      ensures t[..] == old(t[..])[idx := e]
    {
      t[idx] := e;
    }

    /** The insertion probe: it ends because some slot is free. */
    static method ProbeFree(t: array<Entry<K, V>>, hash: K -> nat, key: K) returns (idx: nat)
      requires exists i :: 0 <= i < t.Length && !t[i].occupied
      ensures FirstFree(t[..], hash, key, idx)
    {
      ghost var stop: nat :| stop < t.Length && !t[stop].occupied;
      idx := Home(t.Length, hash, key);
      while t[idx].occupied
        invariant idx < t.Length && FullBefore(t[..], hash, key, idx)
        invariant Dist(t.Length, Home(t.Length, hash, key), idx) <= Dist(t.Length, Home(t.Length, hash, key), stop)
        decreases Dist(t.Length, Home(t.Length, hash, key), stop) - Dist(t.Length, Home(t.Length, hash, key), idx)
      {
        PassOccupied(t[..], hash, key, idx, stop);
        idx := Succ(t.Length, idx);
      }
    }

    method Rehash(junk: nat -> K)
      requires Valid()
      modifies this
      ensures Valid() && contents == old(contents) && size == old(size) && loadFactor == old(loadFactor)
      ensures capacity == GrownCapacity(old(capacity)) && size < capacity
      ensures table != null && fresh(table) && NoHoles()
    {
      hide Probing, Represents, Compact, Count;
      var newCapacity: nat := if capacity != 0 then capacity * 2 else 16;
      var default' := default;
      var newTable := new Entry<K, V>[newCapacity]((i: nat) => Entry(junk(i), default', false));
      EmptyTableOk(newTable[..], hash);
      if table != null { CountFull(table[..]); }
      ghost var m: map<K, V>, n: nat := map[], 0;
      EmptyRepresents<K, V>();
      for i := 0 to capacity
        modifies newTable
        invariant newTable.Length == newCapacity && TableOk(newTable[..], hash, m, n) && Compact(newTable[..], hash)
        invariant n <= i && (table != null ==> Represents(table[..i], m)) && (table == null ==> m == map[])
      {
        assert table[..][..i] == table[..i] && table[..][..i + 1] == table[..i + 1];
        PrefixStep(table[..], hash, m, i);
        if table[i].occupied {
          FullTableHasNoStop(newTable[..], hash, m, n);
          assert exists j :: 0 <= j < newTable.Length && !newTable[j].occupied by {
            var j :| 0 <= j < newTable.Length && !newTable[..][j].occupied;
          }
          var index := ProbeFree(newTable, hash, table[i].key);
          InsertFresh(newTable[..], hash, m, n, index, table[i].key, table[i].value);
          Store(newTable, index, table[i]);
          m, n := m[table[i].key := table[i].value], n + 1;
        }
      }
      if table != null {
        assert table[..capacity] == table[..];
        RepresentsUnique(table[..], m, contents);
      }
      table, capacity := newTable, newCapacity;
    }

    lemma FreeSlot()
      requires Valid() && table != null && size < capacity
      ensures exists j :: 0 <= j < table.Length && !table[j].occupied
    {
      FullTableHasNoStop(table[..], hash, contents, size);
      hide TableOk;
      var j :| 0 <= j < table.Length && !table[..][j].occupied;
      assert !table[j].occupied;
    }

    /** operator[]: the slot whose value the returned reference designates. */
    method Index(key: K, junk: nat -> K) returns (idx: nat)
      requires Valid() && (key in contents || Room())
      modifies this, table
      ensures Valid() && loadFactor == old(loadFactor)
      ensures contents == if key in old(contents) then old(contents) else old(contents)[key := default]
      ensures table != null && idx < table.Length && table[idx] == Entry(key, contents[key], true)
      ensures table == old(table) || fresh(table)
      ensures old(NoHoles()) ==> NoHoles()
      ensures capacity ==
        if key !in old(contents) && old(NeedsRehash()) then GrownCapacity(old(capacity)) else old(capacity)
    {
      hide Probing, Represents, Count;
      var r := FindIndex(key);
      if r.Some? { return r.value; }
      if NeedsRehash() { Rehash(junk); }
      FreeSlot();
      idx := ProbeFree(table, hash, key);
      InsertFresh(table[..], hash, contents, size, idx, key, default);
      Store(table, idx, Entry(key, default, true));
      size := size + 1;
      contents := contents[key := default];
    }

    /** map[key] = value, through the reference operator[] returns. */
    method Assign(key: K, value: V, junk: nat -> K)
      requires Valid() && (key in contents || Room())
      modifies this, table
      ensures Valid() && loadFactor == old(loadFactor) && contents == old(contents)[key := value]
      ensures table == old(table) || fresh(table)
      ensures old(NoHoles()) ==> NoHoles()
    {
      hide Probing, Represents, Compact, Count;
      var idx := Index(key, junk);
      assert contents[key := value] == old(contents)[key := value];
      OverwriteValue(table[..], hash, contents, size, idx, value);
      Store(table, idx, table[idx].(value := value));
      contents := contents[key := value];
    }

    /** Returns false where the source throws out_of_range. */
    method Erase(key: K) returns (found: bool, ghost at: nat)
      requires Valid()
      modifies this, table
      ensures Valid() && loadFactor == old(loadFactor) && table == old(table)
      ensures found <==> key in old(contents)
      ensures contents == old(contents) - {key} && capacity == old(capacity)
      ensures found ==> table != null && at < table.Length
      ensures found ==> old(table[at]).key == key && old(table[at]).occupied
      ensures found ==> table[..] == old(table[..])[at := old(table[at]).(occupied := false)]
    {
      hide Probing, Represents, Count;
      var r := FindIndex(key);
      found, at := r.Some?, 0;
      if found {
        var idx := r.value;
        at := idx;
        ClearSlot(table[..], hash, contents, size, idx);
        Store(table, idx, table[idx].(occupied := false));
        size := size - 1;
        contents := contents - {key};
      } else {
        assert contents - {key} == contents;
      }
    }

    /** The probe-and-store part of insert(Key&&, Value&&), after any rehash. */
    method InsertProbe(key: K, value: V) returns (ghost at: nat)
      requires Valid() && table != null && (key in contents || size < capacity)
      modifies this, table
      ensures contents == old(contents)[key := value] && loadFactor == old(loadFactor)
      ensures table == old(table) && capacity == old(capacity) && table.Length == capacity
      ensures Valid() <==> !HoleBefore(old(table[..]), hash, key)
      ensures !Valid() ==> key in old(contents) && size == |contents| + 1 && StoredTwice(table[..], key)
      ensures Compact(old(table[..]), hash) ==> Compact(table[..], hash)
      ensures key !in old(contents) ==>
        FirstFree(old(table[..]), hash, key, at) && table[..] == old(table[..])[at := Entry(key, value, true)]
    {
      hide Probing, Represents, Compact, Count, HoleBefore, StoredTwice;
      ghost var t := table[..];
      ghost var stop := StopExists(t, hash, contents, size, key);
      var idx: nat := Home(capacity, hash, key);
      while table[idx].occupied && table[idx].key != key
        modifies {}
        invariant idx < capacity && FullBefore(t, hash, key, idx) && NotBefore(t, hash, key, idx)
        invariant Dist(capacity, Home(capacity, hash, key), idx) <= Dist(capacity, Home(capacity, hash, key), stop)
        decreases Dist(capacity, Home(capacity, hash, key), stop) - Dist(capacity, Home(capacity, hash, key), idx)
      {
        PassOccupied(t, hash, key, idx, stop);
        idx := Succ(capacity, idx);
      }
      if table[idx].occupied {
        OverwriteValue(t, hash, contents, size, idx, value);
        NoHoleBeforeFound(t, hash, contents, key, idx);
        Store(table, idx, table[idx].(value := value));
        assert table[..] == t[idx := t[idx].(value := value)];
      } else {
        InsertAtHole(t, hash, contents, size, idx, key, value);
        Store(table, idx, Entry(key, value, true));
        assert table[..] == t[idx := Entry(key, value, true)];
        size := size + 1;
      }
      at := idx;
      contents := contents[key := value];
    }

    /** insert(Key&&, Value&&).  It stops at the first hole of the probe path, so it keeps
        the map exactly when the key is not stored beyond one; otherwise the key ends up in
        two slots and is counted twice.  */
    method Insert(key: K, value: V, junk: nat -> K) returns (ghost at: nat)
      requires Valid() && (key in contents || Room())
      modifies this, table
      ensures contents == old(contents)[key := value] && loadFactor == old(loadFactor)
      ensures Valid() <==> old(NeedsRehash() || table == null || !HoleBefore(table[..], hash, key))
      ensures !Valid() ==> key in old(contents) && size == |contents| + 1
      ensures table != null && (table == old(table) || fresh(table)) && table.Length == capacity
      ensures !Valid() ==> StoredTwice(table[..], key)
      ensures old(NoHoles()) ==> Valid() && NoHoles()
      ensures old(table != null && !NeedsRehash()) ==> table == old(table) && capacity == old(capacity)
      ensures old(NeedsRehash()) ==> capacity == GrownCapacity(old(capacity)) && fresh(table)
      ensures old(table != null && !NeedsRehash()) && key !in old(contents) ==>
        FirstFree(old(table[..]), hash, key, at) && table[..] == old(table[..])[at := Entry(key, value, true)]
    {
      hide TableOk, Compact, HoleBefore, StoredTwice;
      if table != null { CompactOrHole(table[..], hash, key); }
      if NeedsRehash() {
        Rehash(junk);
        CompactOrHole(table[..], hash, key);
      }
      at := InsertProbe(key, value);
    }
  }

  /** The constructor with its check; None stands for the invalid_argument exception. */
  method Create<K(==), V>(capacity: nat, loadFactor: real, hash: K -> nat, default: V, junk: nat -> K)
      returns (r: Option<Map<K, V>>)
    ensures r.Some? <==> capacity > 0
    ensures r.Some? ==> fresh(r.value) && r.value.Valid() && r.value.contents == map[] && r.value.capacity == capacity
  {
    if capacity == 0 { return None; }
    var h := new Map(capacity, loadFactor, hash, default, junk);
    r := Some(h);
  }

  // ---------------------------------------------------------------------
  // Whole runs
  // ---------------------------------------------------------------------

  datatype Op<K, V> =
    | Get(key: K)
    | Put(key: K, value: V)
    | Insert(key: K, value: V)
    | Erase(key: K)
    | Contains(key: K)
    | Size

  /** What the caller sees: a value, success, the out_of_range exception, an answer, a size. */
  datatype Seen<V> = Value(value: V) | Done | OutOfRange | Answer(yes: bool) | Sized(size: nat)

  /** The mathematical map after an operation, and what the operation shows. */
  function Effect<K, V>(m: map<K, V>, default: V, op: Op<K, V>): map<K, V> {
    match op
    case Get(k) => if k in m then m else m[k := default]
    case Put(k, v) => m[k := v]
    case Insert(k, v) => m[k := v]
    case Erase(k) => m - {k}
    case Contains(_) => m
    case Size => m
  }

  function Shows<K, V>(m: map<K, V>, default: V, op: Op<K, V>): Seen<V> {
    match op
    case Get(k) => Value(if k in m then m[k] else default)
    case Put(_, _) => Done
    case Insert(_, _) => Done
    case Erase(k) => if k in m then Done else OutOfRange
    case Contains(k) => Answer(k in m)
    case Size => Sized(|m|)
  }

  function Effects<K, V>(default: V, ops: seq<Op<K, V>>): map<K, V> {
    if ops == [] then map[] else Effect(Effects(default, ops[..|ops| - 1]), default, ops[|ops| - 1])
  }

  function AllShown<K(==), V>(default: V, ops: seq<Op<K, V>>): seq<Seen<V>> {
    if ops == [] then []
    else AllShown(default, ops[..|ops| - 1]) + [Shows(Effects(default, ops[..|ops| - 1]), default, ops[|ops| - 1])]
  }

  /** One operation of a run on the container. */
  method Perform<K(==), V>(h: Map<K, V>, op: Op<K, V>, junk: nat -> K) returns (seen: Seen<V>)
    requires h.Valid() && h.loadFactor <= 1.0 && (op.Insert? ==> h.NoHoles())
    modifies h, h.table
    ensures h.Valid() && h.loadFactor == old(h.loadFactor) && (h.table == old(h.table) || fresh(h.table))
    ensures h.contents == Effect(old(h.contents), h.default, op)
    ensures seen == Shows(old(h.contents), h.default, op)
    ensures old(h.NoHoles()) && !op.Erase? ==> h.NoHoles()
  {
    hide TableOk, Compact, HoleBefore;
    h.HasRoom();
    match op {
      case Get(k) =>
        var i := h.Index(k, junk);
        seen := Value(h.table[i].value);
      case Put(k, v) =>
        h.Assign(k, v, junk);
        seen := Done;
      case Insert(k, v) =>
        var _ := h.Insert(k, v, junk);
        seen := Done;
      case Erase(k) =>
        var found, _ := h.Erase(k);
        seen := if found then Done else OutOfRange;
      case Contains(k) =>
        var found := h.Contains(k);
        seen := Answer(found);
      case Size =>
        h.SizeIsCount();
        seen := Sized(h.size);
    }
  }

  /** Every run of operator[], erase, contains and size, and every erase-free run that also
      uses insert, shows exactly what the mathematical map shows.  `junk(n, i)` is the key
      that happens to lie in slot i of a table allocated by operation n.  */
  method Run<K(==),
      V>(capacity: nat, loadFactor: real, hash: K -> nat, default: V, ops: seq<Op<K, V>>, junk: (nat, nat) -> K)
      returns (seen: seq<Seen<V>>)
    requires capacity > 0 && loadFactor <= 1.0
    requires (forall n :: 0 <= n < |ops| ==> !ops[n].Insert?) || (forall n :: 0 <= n < |ops| ==> !ops[n].Erase?)
    ensures seen == AllShown(default, ops)
  {
    var h := new Map(capacity, loadFactor, hash, default, (i: nat) => junk(0, i));
    seen := [];
    for n := 0 to |ops|
      invariant fresh(h) && (h.table == null || fresh(h.table)) && h.Valid()
      invariant h.loadFactor <= 1.0 && h.default == default
      invariant h.contents == Effects(default, ops[..n]) && seen == AllShown(default, ops[..n])
      invariant (forall i :: 0 <= i < |ops| ==> !ops[i].Erase?) ==> h.NoHoles()
    {
      hide TableOk, Compact, HoleBefore, Effect, Shows;
      var one := Perform(h, ops[n], (i: nat) => junk(n, i));
      seen := seen + [one];
      assert ops[..n + 1][..n] == ops[..n];
    }
    assert ops[..|ops|] == ops;
  }

  /** Keys 1 and 2 collide: 1 takes the home slot and 2 a later one. */
  method Collide() returns (h: Map<int, int>, ghost second: nat)
    ensures fresh(h) && h.table != null && fresh(h.table) && h.Valid() && h.contents == map[1 := 10, 2 := 20]
    ensures h.capacity == 4 == h.table.Length && h.loadFactor == 0.75 && h.hash(2) == 0
    ensures h.table[0] == Entry(1, 10, true) && 0 < second < 4 && h.table[second] == Entry(2, 20, true)
  {
    hide TableOk, Compact, HoleBefore;
    h := new Map<int, int>(4, 0.75, _ => 0, 0, _ => 7);
    var first := h.Insert(1, 10, _ => 7);
    h.SizeIsCount();
    Compare(4, h.hash, 1, 0, first);
    second := h.Insert(2, 20, _ => 7);
  }

  /** Erasing 1 leaves a hole before key 2. */
  method CollideAndErase() returns (h: Map<int, int>)
    ensures fresh(h) && h.table != null && fresh(h.table) && h.Valid() && h.contents == map[2 := 20]
    ensures h.size == 1 && h.capacity == 4 && h.loadFactor == 0.75
    ensures HoleBefore(h.table[..], h.hash, 2)
  {
    hide TableOk, Compact;
    ghost var second;
    h, second := Collide();
    h.KeyIn(0);
    var found, at := h.Erase(1);
    h.SizeIsCount();
    assert Before(4, h.hash, 2, 0, second);
  }

  /** Inserting after an erase can break the map: the key is then stored in two slots, and the
      size is 2 although the map holds one binding.  */
  method InsertAfterEraseWitness() returns (h: Map<int, int>)
    ensures h.table != null && StoredTwice(h.table[..], 2) && h.size == 2 && h.contents == map[2 := 21]
  {
    hide StoredTwice;
    h := CollideAndErase();
    var _ := h.Insert(2, 21, _ => 7);
  }
}
