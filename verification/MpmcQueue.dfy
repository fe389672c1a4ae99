/** The multi-producer multi-consumer ring of include/mpmc_queue.h.

    Threads interleave at the granularity of the source's atomic accesses: the
    fetch_add, one evaluation of the spin test, the slot access, and the release
    store.  Memory is sequentially consistent and the counters do not wrap.  */
module MpmcQueue {
  import opened Wrappers
  import opened Arithmetic

  /** Where a thread is inside `emplace` or `pop`; `num` is what its fetch_add returned. */
  datatype Phase<T> =
    | Idle
    | EmplaceSpin(num: nat, value: T)
    | EmplaceOwn(num: nat, value: T)
    | EmplaceBuilt(num: nat, value: T)
    | PopSpin(num: nat)
    | PopOwn(num: nat)
    | PopTaken(num: nat, result: Option<T>)
  {
    predicate Emplace() { EmplaceSpin? || EmplaceOwn? || EmplaceBuilt? }
    predicate Pop() { PopSpin? || PopOwn? || PopTaken? }
    /** Between passing the spin test and the release store. */
    predicate Critical() { EmplaceOwn? || EmplaceBuilt? || PopOwn? || PopTaken? }
  }

  /** `given` and `got` are history: the value handed to the emplace that claimed a
      number, and the result delivered by the pop that claimed it.
      A slot is None while it holds no object or a moved-from one.  */
  datatype State<T> = State(
    capacity: nat,
    head: nat,
    tail: nat,
    ticket: seq<nat>,
    data: seq<Option<T>>,
    threads: seq<Phase<T>>,
    given: seq<T>,
    got: map<nat, Option<T>>)

  /** What a scheduled thread does: an idle one may start a call, a busy one goes on. */
  datatype Move<T> = StartEmplace(value: T) | StartPop | Continue

  function Idx(capacity: nat, n: nat): nat requires capacity > 0 { n % capacity }
  function Turn(capacity: nat, n: nat): nat requires capacity > 0 { n / capacity }

  ghost predicate Shape<T>(s: State<T>) {
    s.capacity > 0 && |s.ticket| == s.capacity && |s.data| == s.capacity
  }

  function Init<T>(capacity: nat, threads: nat): State<T> {
    State(capacity, 0, 0, seq(capacity, _ => 0), seq(capacity, _ => None), seq(threads, _ => Idle), [], map[])
  }

  /** One atomic step of thread `t`; there is none if no such thread exists. */
  function Next<T>(s: State<T>, t: nat, move: Move<T>): (s': State<T>)
    requires s.capacity > 0 && |s.ticket| == s.capacity && |s.data| == s.capacity
    ensures s'.capacity == s.capacity && |s'.ticket| == |s.ticket| && |s'.data| == |s.data|
    ensures |s'.threads| == |s.threads|
  {
    if t >= |s.threads| then s else
    match s.threads[t]
    case Idle =>
      (match move
       case StartEmplace(v) =>
         s.(tail := s.tail + 1, given := s.given + [v], threads := s.threads[t := EmplaceSpin(s.tail, v)])
       case StartPop =>
         s.(head := s.head + 1, threads := s.threads[t := PopSpin(s.head)])
       case Continue => s)
    case EmplaceSpin(n, v) =>
      if Turn(s.capacity, n) * 2 != s.ticket[Idx(s.capacity, n)] then s
      else s.(threads := s.threads[t := EmplaceOwn(n, v)])
    case EmplaceOwn(n, v) =>
      s.(data := s.data[Idx(s.capacity, n) := Some(v)], threads := s.threads[t := EmplaceBuilt(n, v)])
    case EmplaceBuilt(n, v) =>
      s.(ticket := s.ticket[Idx(s.capacity, n) := Turn(s.capacity, n) * 2 + 1], threads := s.threads[t := Idle])
    case PopSpin(n) =>
      if Turn(s.capacity, n) * 2 + 1 != s.ticket[Idx(s.capacity, n)] then s
      else s.(threads := s.threads[t := PopOwn(n)])
    case PopOwn(n) =>
      s.(data := s.data[Idx(s.capacity, n) := None],
         threads := s.threads[t := PopTaken(n, s.data[Idx(s.capacity, n)])])
    case PopTaken(n, r) =>
      s.(ticket := s.ticket[Idx(s.capacity, n) := Turn(s.capacity, n) * 2 + 2],
         got := s.got[n := r], threads := s.threads[t := Idle])
  }

  /** A schedule names, step by step, the thread that runs and what it does. */
  datatype Tick<T> = Tick(thread: nat, move: Move<T>)

  /** The state a schedule leads to.  Every interleaving of any calls is some schedule. */
  function Exec<T>(s: State<T>, schedule: seq<Tick<T>>): (z: State<T>)
    requires s.capacity > 0 && |s.ticket| == s.capacity && |s.data| == s.capacity
    ensures z.capacity == s.capacity && |z.ticket| == |s.ticket| && |z.data| == |s.data|
    ensures |z.threads| == |s.threads|
  {
    if schedule == [] then s
    else
      var last := schedule[|schedule| - 1];
      Next(Exec(s, schedule[..|schedule| - 1]), last.thread, last.move)
  }

  function Reached<T>(capacity: nat, threads: nat, schedule: seq<Tick<T>>): (z: State<T>)
    requires capacity > 0
    ensures z.capacity == capacity && |z.ticket| == capacity && |z.data| == capacity && |z.threads| == threads
  {
    Exec(Init(capacity, threads), schedule)
  }

  // ---------------------------------------------------------------------
  // Invariant
  // ---------------------------------------------------------------------

  /** The ticket of number n's slot has moved past the emplace (the pop) numbered n. */
  ghost predicate EmplaceDone(capacity: nat, ticket: seq<nat>, n: nat) requires capacity == |ticket| > 0 {
    ticket[Idx(capacity, n)] > 2 * Turn(capacity, n)
  }

  ghost predicate PopDone(capacity: nat, ticket: seq<nat>, n: nat) requires capacity == |ticket| > 0 {
    ticket[Idx(capacity, n)] > 2 * Turn(capacity, n) + 1
  }

  ghost predicate Emplaces<T>(threads: seq<Phase<T>>, t: int, n: nat) {
    0 <= t < |threads| && threads[t].Emplace() && threads[t].num == n
  }

  ghost predicate Pops<T>(threads: seq<Phase<T>>, t: int, n: nat) {
    0 <= t < |threads| && threads[t].Pop() && threads[t].num == n
  }

  ghost predicate Taken<T>(threads: seq<Phase<T>>, n: nat) {
    exists t :: 0 <= t < |threads| && threads[t].PopTaken? && threads[t].num == n
  }

  /** What the phase of one thread says about the shared state. */
  ghost predicate PhaseOk<T>(s: State<T>, p: Phase<T>) requires Shape(s) && |s.given| == s.tail {
    match p
    case Idle => true
    case EmplaceSpin(n, v) => n < s.tail && !EmplaceDone(s.capacity, s.ticket, n) && v == s.given[n]
    case EmplaceOwn(n, v) =>
      n < s.tail && v == s.given[n] && s.ticket[Idx(s.capacity, n)] == 2 * Turn(s.capacity, n)
    case EmplaceBuilt(n, v) =>
      n < s.tail && v == s.given[n] && s.ticket[Idx(s.capacity, n)] == 2 * Turn(s.capacity, n)
      && s.data[Idx(s.capacity, n)] == Some(v)
    case PopSpin(n) => n < s.head && !PopDone(s.capacity, s.ticket, n)
    case PopOwn(n) => n < s.head && s.ticket[Idx(s.capacity, n)] == 2 * Turn(s.capacity, n) + 1
    case PopTaken(n, r) =>
      n < s.head && s.ticket[Idx(s.capacity, n)] == 2 * Turn(s.capacity, n) + 1
      && n < s.tail && r == Some(s.given[n])
  }

  ghost predicate Phases<T>(s: State<T>) requires Shape(s) && |s.given| == s.tail {
    forall t :: 0 <= t < |s.threads| ==> PhaseOk(s, s.threads[t])
  }

  /** No number is claimed by two threads. */
  ghost predicate Distinct<T>(threads: seq<Phase<T>>) {
    forall t, u :: 0 <= t < u < |threads| ==>
      && (threads[t].Emplace() && threads[u].Emplace() ==> threads[t].num != threads[u].num)
      && (threads[t].Pop() && threads[u].Pop() ==> threads[t].num != threads[u].num)
  }

  /** A claimed number whose release store is still to come is held by some thread. */
  ghost predicate Held<T>(s: State<T>) requires Shape(s) {
    && (forall n: nat :: n < s.tail && !EmplaceDone(s.capacity, s.ticket, n) ==> exists t :: Emplaces(s.threads, t, n))
    && (forall n: nat :: n < s.head && !PopDone(s.capacity, s.ticket, n) ==> exists t :: Pops(s.threads, t, n))
  }

  /** Tickets never run ahead of the counters. */
  ghost predicate Bounds<T>(s: State<T>) requires Shape(s) {
    && (forall n: nat :: EmplaceDone(s.capacity, s.ticket, n) ==> n < s.tail)
    && (forall n: nat :: PopDone(s.capacity, s.ticket, n) ==> n < s.head)
  }

  /** A published number sits in its slot until a pop takes it; a popped one is recorded. */
  ghost predicate Values<T>(s: State<T>) requires Shape(s) && |s.given| == s.tail && Bounds(s) {
    && (forall n: nat ::
          EmplaceDone(s.capacity, s.ticket, n) && !PopDone(s.capacity, s.ticket, n) && !Taken(s.threads, n) ==>
            s.data[Idx(s.capacity, n)] == Some(s.given[n]))
    && (forall n: nat :: n in s.got <==> PopDone(s.capacity, s.ticket, n))
    && (forall n: nat :: PopDone(s.capacity, s.ticket, n) ==>
          EmplaceDone(s.capacity, s.ticket, n) && s.got[n] == Some(s.given[n]))
  }

  ghost predicate Inv<T>(s: State<T>) {
    && Shape(s) && |s.given| == s.tail
    && Phases(s) && Distinct(s.threads) && Held(s) && Bounds(s) && Values(s)
  }

  // ---------------------------------------------------------------------
  // Arithmetic of claimed numbers
  // ---------------------------------------------------------------------

  lemma SameNumber(capacity: nat, m: nat, n: nat)
    requires capacity > 0 && Idx(capacity, m) == Idx(capacity, n) && Turn(capacity, m) == Turn(capacity, n)
    ensures m == n
  {
    DivMod(capacity, m);
    DivMod(capacity, n);
  }

  lemma NumberAt(capacity: nat, turn: nat, i: nat) returns (n: nat)
    requires i < capacity
    ensures Idx(capacity, n) == i && Turn(capacity, n) == turn
  {
    n := capacity * turn + i;
    DivModUnique(capacity, turn, i);
  }

  lemma EarlierTurn(capacity: nat, m: nat, n: nat)
    requires capacity > 0 && Idx(capacity, m) == Idx(capacity, n) && Turn(capacity, m) < Turn(capacity, n)
    ensures m + capacity <= n
  {
    DivMod(capacity, m);
    DivMod(capacity, n);
    MulGrows(capacity, Turn(capacity, m), Turn(capacity, n));
  }

  lemma PreviousTurn(capacity: nat, n: nat)
    requires 0 < capacity <= n
    ensures Idx(capacity, n - capacity) == Idx(capacity, n) && Turn(capacity, n - capacity) == Turn(capacity, n) - 1
  {
    DivMod(capacity, n - capacity);
    DivModUnique(capacity, Turn(capacity, n - capacity) + 1, Idx(capacity, n - capacity));
  }

  // ---------------------------------------------------------------------
  // Preservation, one atomic step at a time
  // ---------------------------------------------------------------------

  lemma InitInv<T>(capacity: nat, threads: nat)
    requires capacity > 0
    ensures Inv(Init<T>(capacity, threads))
  {
  }

  /** Replacing thread t's phase keeps the other threads' claims and takings. */
  lemma OthersKept<T>(threads: seq<Phase<T>>, t: nat, p: Phase<T>)
    requires t < |threads|
    ensures forall u, n: nat :: u != t && Emplaces(threads, u, n) ==> Emplaces(threads[t := p], u, n)
    ensures forall u, n: nat :: u != t && Pops(threads, u, n) ==> Pops(threads[t := p], u, n)
    ensures p.Emplace() ==> Emplaces(threads[t := p], t, p.num)
    ensures p.Pop() ==> Pops(threads[t := p], t, p.num)
    ensures forall n: nat :: Taken(threads, n) && !(threads[t].PopTaken? && threads[t].num == n) ==>
      Taken(threads[t := p], n)
    ensures forall n: nat :: Taken(threads[t := p], n) && !(p.PopTaken? && p.num == n) ==> Taken(threads, n)
  {
    var threads' := threads[t := p];
    forall n: nat | Taken(threads, n) && !(threads[t].PopTaken? && threads[t].num == n) ensures Taken(threads', n) {
      var u :| 0 <= u < |threads| && threads[u].PopTaken? && threads[u].num == n;
      assert threads'[u] == threads[u];
    }
    forall n: nat | Taken(threads', n) && !(p.PopTaken? && p.num == n) ensures Taken(threads, n) {
      var u :| 0 <= u < |threads| && threads'[u].PopTaken? && threads'[u].num == n;
      assert threads'[u] == threads[u];
    }
  }

  lemma StartEmplaceClaims<T>(s: State<T>, t: nat, v: T)
    requires Inv(s) && t < |s.threads| && s.threads[t].Idle?
    ensures var s' := Next(s, t, StartEmplace(v)); Phases(s') && Distinct(s'.threads) && Held(s') && Bounds(s')
  {
    hide Values;
    var s' := Next(s, t, StartEmplace(v));
    OthersKept(s.threads, t, EmplaceSpin(s.tail, v));
    forall u | 0 <= u < |s.threads| ensures PhaseOk(s', s'.threads[u]) {
      assert PhaseOk(s, s.threads[u]);
    }
  }

  lemma StartEmplaceInv<T>(s: State<T>, t: nat, v: T)
    requires Inv(s) && t < |s.threads| && s.threads[t].Idle?
    ensures Inv(Next(s, t, StartEmplace(v)))
  {
    hide Phases, Distinct, Held;
    StartEmplaceClaims(s, t, v);
    OthersKept(s.threads, t, EmplaceSpin(s.tail, v));
  }

  lemma StartPopClaims<T>(s: State<T>, t: nat)
    requires Inv(s) && t < |s.threads| && s.threads[t].Idle?
    ensures var s' := Next(s, t, StartPop); Phases(s') && Distinct(s'.threads) && Held(s') && Bounds(s')
  {
    hide Values;
    var s' := Next(s, t, StartPop);
    OthersKept(s.threads, t, PopSpin(s.head));
    forall u | 0 <= u < |s.threads| ensures PhaseOk(s', s'.threads[u]) {
      assert PhaseOk(s, s.threads[u]);
    }
  }

  lemma StartPopInv<T>(s: State<T>, t: nat)
    requires Inv(s) && t < |s.threads| && s.threads[t].Idle?
    ensures Inv(Next(s, t, StartPop))
  {
    hide Phases, Distinct, Held;
    StartPopClaims(s, t);
    OthersKept(s.threads, t, PopSpin(s.head));
  }

  /** A step that moves thread t along without storing to a ticket. */
  ghost predicate Quiet<T>(s: State<T>, s': State<T>, t: nat) {
    && t < |s.threads|
    && s'.(threads := s.threads, data := s.data) == s
    && |s'.threads| == |s.threads| && s'.threads == s.threads[t := s'.threads[t]]
    && (s.threads[t].Emplace() ==> s'.threads[t].Emplace() && s'.threads[t].num == s.threads[t].num)
    && (s.threads[t].Pop() ==> s'.threads[t].Pop() && s'.threads[t].num == s.threads[t].num)
    && (s.threads[t].Idle? ==> s'.threads[t].Idle?)
  }

  lemma QuietClaims<T>(s: State<T>, s': State<T>, t: nat)
    requires Inv(s) && Quiet(s, s', t) && Shape(s')
    ensures Distinct(s'.threads) && Held(s') && Bounds(s')
  {
    OthersKept(s.threads, t, s'.threads[t]);
  }

  lemma SpinPhases<T>(s: State<T>, t: nat)
    requires Inv(s) && t < |s.threads| && (s.threads[t].EmplaceSpin? || s.threads[t].PopSpin?)
    ensures Phases(Next(s, t, Continue))
  {
    hide Distinct, Held, Bounds, Values;
    var s' := Next(s, t, Continue);
    forall u | 0 <= u < |s.threads| ensures PhaseOk(s', s'.threads[u]) {
      assert PhaseOk(s, s.threads[u]);
    }
  }

  lemma SpinInv<T>(s: State<T>, t: nat, m: Move<T>)
    requires Inv(s) && t < |s.threads| && (s.threads[t].EmplaceSpin? || s.threads[t].PopSpin?)
    ensures Inv(Next(s, t, m))
  {
    hide Phases, Distinct, Held, Bounds;
    var s' := Next(s, t, m);
    QuietClaims(s, s', t);
    SpinPhases(s, t);
    OthersKept(s.threads, t, s'.threads[t]);
  }

  /** Two threads past their spin tests are in different slots. */
  lemma Exclusion<T>(s: State<T>, t: nat, u: nat)
    requires Inv(s) && t < |s.threads| && u < |s.threads| && t != u
    requires s.threads[t].Critical() && s.threads[u].Critical()
    ensures Idx(s.capacity, s.threads[t].num) != Idx(s.capacity, s.threads[u].num)
  {
    var p, q := s.threads[t], s.threads[u];
    assert PhaseOk(s, p) && PhaseOk(s, q);
    if Idx(s.capacity, p.num) == Idx(s.capacity, q.num) && Turn(s.capacity, p.num) == Turn(s.capacity, q.num) {
      SameNumber(s.capacity, p.num, q.num);
    }
  }

  lemma ConstructPhases<T>(s: State<T>, t: nat)
    requires Inv(s) && t < |s.threads| && s.threads[t].EmplaceOwn?
    ensures Phases(Next(s, t, Continue))
  {
    hide Distinct, Held, Bounds, Values;
    var s' := Next(s, t, Continue);
    assert PhaseOk(s, s.threads[t]);
    forall u | 0 <= u < |s.threads| && u != t ensures PhaseOk(s', s'.threads[u]) {
      assert PhaseOk(s, s.threads[u]);
      if s.threads[u].EmplaceBuilt? { Exclusion(s, t, u); }
    }
  }

  /** The slot under construction belongs to no published, unpopped number. */
  lemma ConstructValues<T>(s: State<T>, t: nat)
    requires Inv(s) && t < |s.threads| && s.threads[t].EmplaceOwn?
    ensures Values(Next(s, t, Continue))
  {
    hide Distinct, Held;
    var s' := Next(s, t, Continue);
    assert PhaseOk(s, s.threads[t]);
    OthersKept(s.threads, t, s'.threads[t]);
    var i := Idx(s.capacity, s.threads[t].num);
    forall k: nat | EmplaceDone(s.capacity, s.ticket, k) && !PopDone(s.capacity, s.ticket, k)
      ensures Idx(s.capacity, k) != i
    {
    }
  }

  lemma ConstructInv<T>(s: State<T>, t: nat, m: Move<T>)
    requires Inv(s) && t < |s.threads| && s.threads[t].EmplaceOwn?
    ensures Inv(Next(s, t, m))
  {
    hide Phases, Distinct, Held, Bounds, Values;
    QuietClaims(s, Next(s, t, m), t);
    ConstructPhases(s, t);
    ConstructValues(s, t);
  }

  /** The value a pop is about to take is the one its number was given. */
  lemma OwnedValue<T>(s: State<T>, t: nat)
    requires Inv(s) && t < |s.threads| && s.threads[t].PopOwn?
    ensures var n := s.threads[t].num;
      n < s.tail && s.data[Idx(s.capacity, n)] == Some(s.given[n])
  {
    assert !Taken(s.threads, s.threads[t].num);
    assert EmplaceDone(s.capacity, s.ticket, s.threads[t].num);
  }

  lemma TakenValues<T>(s: State<T>, t: nat)
    requires Inv(s) && t < |s.threads| && s.threads[t].PopOwn?
    ensures Values(Next(s, t, Continue))
  {
    var s' := Next(s, t, Continue);
    OthersKept(s.threads, t, s'.threads[t]);
    var n := s.threads[t].num;
    assert Taken(s'.threads, n) by { assert s'.threads[t].PopTaken?; }
    forall k: nat | EmplaceDone(s.capacity, s.ticket, k) && !PopDone(s.capacity, s.ticket, k) && k != n
      ensures Idx(s.capacity, k) != Idx(s.capacity, n)
    {
      if Idx(s.capacity, k) == Idx(s.capacity, n) { SameNumber(s.capacity, k, n); }
    }
  }

  lemma TakePhases<T>(s: State<T>, t: nat)
    requires Inv(s) && t < |s.threads| && s.threads[t].PopOwn?
    ensures Phases(Next(s, t, Continue))
  {
    hide Distinct, Held, Bounds, Values;
    var s' := Next(s, t, Continue);
    OwnedValue(s, t);
    forall u | 0 <= u < |s.threads| ensures PhaseOk(s', s'.threads[u]) {
      assert PhaseOk(s, s.threads[u]);
      if s.threads[u].EmplaceBuilt? { Exclusion(s, t, u); }
    }
  }

  lemma TakeInv<T>(s: State<T>, t: nat, m: Move<T>)
    requires Inv(s) && t < |s.threads| && s.threads[t].PopOwn?
    ensures Inv(Next(s, t, m))
  {
    hide Phases, Distinct, Held, Bounds, Values;
    QuietClaims(s, Next(s, t, m), t);
    TakePhases(s, t);
    TakenValues(s, t);
  }

  // The two release stores.

  /** Publishing number n moves its slot's ticket by one and finishes only that call. */
  lemma EmplaceReleaseDone(capacity: nat, ticket: seq<nat>, n: nat)
    requires capacity == |ticket| > 0 && ticket[Idx(capacity, n)] == 2 * Turn(capacity, n)
    ensures var ticket' := ticket[Idx(capacity, n) := Turn(capacity, n) * 2 + 1];
      && (forall k: nat :: EmplaceDone(capacity, ticket', k) <==> EmplaceDone(capacity, ticket, k) || k == n)
      && (forall k: nat :: PopDone(capacity, ticket', k) <==> PopDone(capacity, ticket, k))
      && !EmplaceDone(capacity, ticket, n)
  {
    var ticket' := ticket[Idx(capacity, n) := Turn(capacity, n) * 2 + 1];
    forall k: nat ensures EmplaceDone(capacity, ticket', k) <==> EmplaceDone(capacity, ticket, k) || k == n {
      if Idx(capacity, k) == Idx(capacity, n) && Turn(capacity, k) == Turn(capacity, n) {
        SameNumber(capacity, k, n);
      }
    }
  }

  lemma PopReleaseDone(capacity: nat, ticket: seq<nat>, n: nat)
    requires capacity == |ticket| > 0 && ticket[Idx(capacity, n)] == 2 * Turn(capacity, n) + 1
    ensures var ticket' := ticket[Idx(capacity, n) := Turn(capacity, n) * 2 + 2];
      && (forall k: nat :: PopDone(capacity, ticket', k) <==> PopDone(capacity, ticket, k) || k == n)
      && (forall k: nat :: EmplaceDone(capacity, ticket', k) <==> EmplaceDone(capacity, ticket, k))
      && EmplaceDone(capacity, ticket, n) && !PopDone(capacity, ticket, n)
  {
    var ticket' := ticket[Idx(capacity, n) := Turn(capacity, n) * 2 + 2];
    forall k: nat ensures PopDone(capacity, ticket', k) <==> PopDone(capacity, ticket, k) || k == n {
      if Idx(capacity, k) == Idx(capacity, n) && Turn(capacity, k) == Turn(capacity, n) {
        SameNumber(capacity, k, n);
      }
    }
  }

  lemma ReleasePhases<T>(s: State<T>, t: nat)
    requires Inv(s) && t < |s.threads| && (s.threads[t].EmplaceBuilt? || s.threads[t].PopTaken?)
    ensures Phases(Next(s, t, Continue))
  {
    var s' := Next(s, t, Continue);
    var n := s.threads[t].num;
    if s.threads[t].EmplaceBuilt? {
      EmplaceReleaseDone(s.capacity, s.ticket, n);
    } else {
      PopReleaseDone(s.capacity, s.ticket, n);
    }
    forall u | 0 <= u < |s.threads| && u != t ensures PhaseOk(s', s'.threads[u]) {
      assert PhaseOk(s, s.threads[u]);
      if s.threads[u].Critical() { Exclusion(s, t, u); }
    }
  }

  lemma ReleaseHeld<T>(s: State<T>, t: nat)
    requires Inv(s) && t < |s.threads| && (s.threads[t].EmplaceBuilt? || s.threads[t].PopTaken?)
    ensures var s' := Next(s, t, Continue); Held(s') && Bounds(s') && Distinct(s'.threads)
  {
    hide Values;
    assert PhaseOk(s, s.threads[t]);
    if s.threads[t].EmplaceBuilt? {
      EmplaceReleaseDone(s.capacity, s.ticket, s.threads[t].num);
    } else {
      PopReleaseDone(s.capacity, s.ticket, s.threads[t].num);
    }
    OthersKept(s.threads, t, Idle);
  }

  lemma EmplaceReleaseValues<T>(s: State<T>, t: nat)
    requires Inv(s) && t < |s.threads| && s.threads[t].EmplaceBuilt?
    ensures Bounds(Next(s, t, Continue)) && Values(Next(s, t, Continue))
  {
    hide Distinct, Held;
    assert PhaseOk(s, s.threads[t]);
    EmplaceReleaseDone(s.capacity, s.ticket, s.threads[t].num);
    OthersKept(s.threads, t, Idle);
  }

  lemma PopReleaseValues<T>(s: State<T>, t: nat)
    requires Inv(s) && t < |s.threads| && s.threads[t].PopTaken?
    ensures Bounds(Next(s, t, Continue)) && Values(Next(s, t, Continue))
  {
    hide Distinct, Held;
    assert PhaseOk(s, s.threads[t]);
    PopReleaseDone(s.capacity, s.ticket, s.threads[t].num);
    OthersKept(s.threads, t, Idle);
  }

  lemma EmplaceReleaseInv<T>(s: State<T>, t: nat, m: Move<T>)
    requires Inv(s) && t < |s.threads| && s.threads[t].EmplaceBuilt?
    ensures Inv(Next(s, t, m))
  {
    hide Phases, Distinct, Held, Bounds, Values;
    ReleasePhases(s, t);
    ReleaseHeld(s, t);
    EmplaceReleaseValues(s, t);
  }

  lemma PopReleaseInv<T>(s: State<T>, t: nat, m: Move<T>)
    requires Inv(s) && t < |s.threads| && s.threads[t].PopTaken?
    ensures Inv(Next(s, t, m))
  {
    hide Phases, Distinct, Held, Bounds, Values;
    ReleasePhases(s, t);
    ReleaseHeld(s, t);
    PopReleaseValues(s, t);
  }

  lemma {:induction false} NextInv<T>(s: State<T>, t: nat, m: Move<T>)
    requires Inv(s)
    ensures Inv(Next(s, t, m))
  {
    if t < |s.threads| {
      match s.threads[t]
      case Idle =>
        match m {
          case StartEmplace(v) => StartEmplaceInv(s, t, v);
          case StartPop => StartPopInv(s, t);
          case Continue =>
        }
      case EmplaceSpin(_, _) => SpinInv(s, t, m);
      case EmplaceOwn(_, _) => ConstructInv(s, t, m);
      case EmplaceBuilt(_, _) => EmplaceReleaseInv(s, t, m);
      case PopSpin(_) => SpinInv(s, t, m);
      case PopOwn(_) => TakeInv(s, t, m);
      case PopTaken(_, _) => PopReleaseInv(s, t, m);
    }
  }

  lemma {:induction false} ExecInv<T>(s: State<T>, schedule: seq<Tick<T>>)
    requires Inv(s)
    ensures Inv(Exec(s, schedule))
    decreases |schedule|
  {
    if schedule != [] {
      var front, last := schedule[..|schedule| - 1], schedule[|schedule| - 1];
      ExecInv(s, front);
      NextInv(Exec(s, front), last.thread, last.move);
    }
  }

  lemma ReachedInv<T>(capacity: nat, threads: nat, schedule: seq<Tick<T>>)
    requires capacity > 0
    ensures Inv(Reached(capacity, threads, schedule))
  {
    InitInv<T>(capacity, threads);
    ExecInv(Init(capacity, threads), schedule);
  }

  // ---------------------------------------------------------------------
  // Safety of every interleaving
  // ---------------------------------------------------------------------

  /** The pop that claimed number n delivers exactly the value given to the emplace that
      claimed number n, and has delivered it once its thread is through.  */
  lemma TicketOrderFifo<T>(capacity: nat, threads: nat, schedule: seq<Tick<T>>, n: nat)
    requires capacity > 0
    ensures var s := Reached(capacity, threads, schedule);
      && |s.given| == s.tail
      && (n in s.got ==> n < s.head && n < s.tail && s.got[n] == Some(s.given[n]))
      && (n in s.got <==> n < s.head && forall t :: !Pops(s.threads, t, n))
  {
    ReachedInv(capacity, threads, schedule);
    var s := Reached(capacity, threads, schedule);
    if n < s.head && forall t :: !Pops(s.threads, t, n) {
      assert PopDone(s.capacity, s.ticket, n);
    }
    forall t | Pops(s.threads, t, n) ensures !PopDone(s.capacity, s.ticket, n) {
      assert PhaseOk(s, s.threads[t]);
    }
  }

  /** Once every thread is idle the numbers below head are exactly the delivered ones, and
      every later given value is still in its slot: nothing is lost.  */
  lemma QuiescentAccounting<T>(capacity: nat, threads: nat, schedule: seq<Tick<T>>)
    requires capacity > 0
    requires var s := Reached(capacity, threads, schedule); forall t :: 0 <= t < threads ==> s.threads[t].Idle?
    ensures var s := Reached(capacity, threads, schedule);
      && s.head <= s.tail == |s.given|
      && s.got == (map n: nat | n < s.head :: Some(s.given[n]))
      && forall n: nat :: s.head <= n < s.tail ==> s.data[Idx(capacity, n)] == Some(s.given[n])
  {
    ReachedInv(capacity, threads, schedule);
    var s := Reached(capacity, threads, schedule);
    forall n: nat | n < s.head ensures PopDone(capacity, s.ticket, n) && n < s.tail {
      assert EmplaceDone(capacity, s.ticket, n);
    }
    assert s.head > 0 ==> s.head - 1 < s.tail by {
      if s.head > 0 { assert PopDone(capacity, s.ticket, s.head - 1); }
    }
    assert forall n: nat :: n < s.tail ==> EmplaceDone(capacity, s.ticket, n);
  }

  /** Between its spin test and its release store a thread is alone in its slot. */
  lemma SlotExclusion<T>(capacity: nat, threads: nat, schedule: seq<Tick<T>>, t: nat, u: nat)
    requires capacity > 0 && t < threads && u < threads && t != u
    requires var s := Reached(capacity, threads, schedule); s.threads[t].Critical() && s.threads[u].Critical()
    ensures var s := Reached(capacity, threads, schedule);
      Idx(capacity, s.threads[t].num) != Idx(capacity, s.threads[u].num)
  {
    ReachedInv(capacity, threads, schedule);
    Exclusion(Reached(capacity, threads, schedule), t, u);
  }

  lemma TicketByOne<T>(s: State<T>, t: nat, m: Move<T>, slot: nat)
    requires Inv(s) && slot < s.capacity
    ensures s.ticket[slot] <= Next(s, t, m).ticket[slot] <= s.ticket[slot] + 1
  {
    if t < |s.threads| { assert PhaseOk(s, s.threads[t]); }
  }

  ghost function TicketAfter<T>(capacity: nat, threads: nat, schedule: seq<Tick<T>>, slot: nat, steps: nat): nat
    requires slot < capacity && steps <= |schedule|
  {
    Reached(capacity, threads, schedule[..steps]).ticket[slot]
  }

  /** Each slot's ticket passes through 0, 1, 2, ... and each value is stored exactly once:
      step `at` is the only one that takes it from k to k + 1.  */
  lemma {:induction false} TicketStoredOnce<T>(capacity: nat, threads: nat, schedule: seq<Tick<T>>, slot: nat, k: nat,
      steps: nat)
      returns (at: nat)
    requires slot < capacity && steps <= |schedule| && k < TicketAfter(capacity, threads, schedule, slot, steps)
    ensures at < steps
    ensures TicketAfter(capacity, threads, schedule, slot, at) == k
    ensures TicketAfter(capacity, threads, schedule, slot, at + 1) == k + 1
    ensures forall j: nat :: j <= at ==> TicketAfter(capacity, threads, schedule, slot, j) <= k
    ensures forall j: nat :: at < j <= steps ==> TicketAfter(capacity, threads, schedule, slot, j) > k
    decreases steps
  {
    if steps > 0 {
      TicketMonotone(capacity, threads, schedule, slot, steps);
      if TicketAfter(capacity, threads, schedule, slot, steps - 1) > k {
        at := TicketStoredOnce(capacity, threads, schedule, slot, k, steps - 1);
      } else {
        TicketMonotone(capacity, threads, schedule, slot, steps - 1);
        at := steps - 1;
      }
    }
  }

  lemma {:induction false} TicketMonotone<T>(capacity: nat, threads: nat, schedule: seq<Tick<T>>, slot: nat, steps: nat)
    requires slot < capacity && steps <= |schedule|
    ensures forall j: nat :: j <= steps ==>
      TicketAfter(capacity, threads, schedule, slot, j) <= TicketAfter(capacity, threads, schedule, slot, steps)
    ensures steps > 0 ==>
      TicketAfter(capacity, threads, schedule, slot, steps) <=
        TicketAfter(capacity, threads, schedule, slot, steps - 1) + 1
    decreases steps
  {
    if steps > 0 {
      TicketMonotone(capacity, threads, schedule, slot, steps - 1);
      ReachedInv(capacity, threads, schedule[..steps - 1]);
      assert schedule[..steps][..steps - 1] == schedule[..steps - 1];
      TicketByOne(Reached(capacity, threads, schedule[..steps - 1]), schedule[steps - 1].thread,
        schedule[steps - 1].move, slot);
    }
  }

  /** Published numbers that no pop has released yet. */
  ghost function Live<T>(s: State<T>): set<nat> requires Shape(s) {
    set n: nat | n < s.tail && EmplaceDone(s.capacity, s.ticket, n) && !PopDone(s.capacity, s.ticket, n)
  }

  ghost function Slots(capacity: nat): set<nat> {
    if capacity == 0 then {} else Slots(capacity - 1) + {capacity - 1}
  }

  lemma {:induction false} SlotsCount(capacity: nat)
    ensures |Slots(capacity)| == capacity && forall i :: i in Slots(capacity) <==> 0 <= i < capacity
  {
    if capacity > 0 { SlotsCount(capacity - 1); }
  }

  lemma {:induction false} OnePerSlot(numbers: set<nat>, capacity: nat, slots: set<nat>)
    requires capacity > 0
    requires forall n :: n in numbers ==> Idx(capacity, n) in slots
    requires forall m, n :: m in numbers && n in numbers && Idx(capacity, m) == Idx(capacity, n) ==> m == n
    ensures |numbers| <= |slots|
    decreases |numbers|
  {
    if numbers != {} {
      var n :| n in numbers;
      OnePerSlot(numbers - {n}, capacity, slots - {Idx(capacity, n)});
    }
  }

  /** At most `capacity` values are live at any time. */
  lemma LiveBounded<T>(capacity: nat, threads: nat, schedule: seq<Tick<T>>)
    requires capacity > 0
    ensures |Live(Reached(capacity, threads, schedule))| <= capacity
  {
    ReachedInv(capacity, threads, schedule);
    var s := Reached(capacity, threads, schedule);
    forall m, n | m in Live(s) && n in Live(s) && Idx(capacity, m) == Idx(capacity, n) ensures m == n {
      SameNumber(capacity, m, n);
    }
    SlotsCount(capacity);
    OnePerSlot(Live(s), capacity, Slots(capacity));
  }

  // ---------------------------------------------------------------------
  // Progress
  // ---------------------------------------------------------------------

  /** Thread t has passed its spin test or would pass it now. */
  ghost predicate CanMove<T>(s: State<T>, t: int) requires Shape(s) {
    0 <= t < |s.threads| && !s.threads[t].Idle? &&
    var p := s.threads[t];
    s.ticket[Idx(s.capacity, p.num)] ==
      if p.Emplace() then 2 * Turn(s.capacity, p.num) else 2 * Turn(s.capacity, p.num) + 1
  }

  /** Whatever a slot's ticket reads, the call it waits for is held by a thread that can
      move, as soon as that call's number has been claimed at all.  */
  lemma SlotHolder<T>(s: State<T>, n: nat, pop: bool) returns (t: nat)
    requires Inv(s)
    requires if pop then n < s.head && n < s.tail && !PopDone(s.capacity, s.ticket, n)
             else n < s.tail && n < s.head + s.capacity && !EmplaceDone(s.capacity, s.ticket, n)
    ensures CanMove(s, t) && Idx(s.capacity, s.threads[t].num) == Idx(s.capacity, n)
  {
    var i := Idx(s.capacity, n);
    var k := s.ticket[i];
    var m := NumberAt(s.capacity, k / 2, i);
    if k / 2 < Turn(s.capacity, n) {
      EarlierTurn(s.capacity, m, n);
    } else {
      SameNumber(s.capacity, m, n);
    }
    if k % 2 == 0 {
      assert !EmplaceDone(s.capacity, s.ticket, m);
      t :| Emplaces(s.threads, t, m);
    } else {
      assert !PopDone(s.capacity, s.ticket, m);
      t :| Pops(s.threads, t, m);
    }
  }

  /** No deadlock: a claimed pop below tail, or a claimed emplace below head + capacity,
      means that some thread can move.  */
  lemma NoDeadlock<T>(capacity: nat, threads: nat, schedule: seq<Tick<T>>, t: nat)
    requires capacity > 0 && t < threads
    requires var s := Reached(capacity, threads, schedule);
      || (s.threads[t].Pop() && s.threads[t].num < s.tail)
      || (s.threads[t].Emplace() && s.threads[t].num < s.head + capacity)
    ensures exists u :: CanMove(Reached(capacity, threads, schedule), u)
  {
    ReachedInv(capacity, threads, schedule);
    var s := Reached(capacity, threads, schedule);
    assert PhaseOk(s, s.threads[t]);
    var u := SlotHolder(s, s.threads[t].num, s.threads[t].Pop());
  }

  /** Let the listed threads take one step each, none of them starting a call. */
  function Settle<T>(s: State<T>, order: seq<nat>): (z: State<T>)
    requires s.capacity > 0 && |s.ticket| == s.capacity && |s.data| == s.capacity
    ensures z.capacity == s.capacity && |z.ticket| == |s.ticket| && |z.data| == |s.data|
    ensures |z.threads| == |s.threads|
    decreases |order|
  {
    if order == [] then s else Settle(Next(s, order[0], Continue), order[1..])
  }

  lemma {:induction false} SettleInv<T>(s: State<T>, order: seq<nat>)
    requires Inv(s)
    ensures Inv(Settle(s, order)) && Settle(s, order).head == s.head && Settle(s, order).tail == s.tail
    decreases |order|
  {
    if order != [] {
      NextInv(s, order[0], Continue);
      SettleInv(Next(s, order[0], Continue), order[1..]);
    }
  }

  lemma {:induction false} SettleConcat<T>(s: State<T>, a: seq<nat>, b: seq<nat>)
    requires Shape(s)
    ensures Settle(s, a + b) == Settle(Settle(s, a), b)
    decreases |a|
  {
    if a == [] {
      assert a + b == b;
    } else {
      assert (a + b)[1..] == a[1..] + b;
      SettleConcat(Next(s, a[0], Continue), a[1..], b);
    }
  }

  /** Running thread t alone until its release store takes its slot's ticket up by one. */
  lemma {:induction false} FinishCall<T>(s: State<T>, t: nat) returns (order: seq<nat>)
    requires Inv(s) && CanMove(s, t)
    ensures Settle(s, order).ticket ==
      s.ticket[Idx(s.capacity, s.threads[t].num) := s.ticket[Idx(s.capacity, s.threads[t].num)] + 1]
    decreases if s.threads[t].EmplaceSpin? || s.threads[t].PopSpin? then 2
              else if s.threads[t].EmplaceOwn? || s.threads[t].PopOwn? then 1 else 0
  {
    hide Distinct, Held, Bounds, Values;
    var s' := Next(s, t, Continue);
    NextInv(s, t, Continue);
    assert PhaseOk(s, s.threads[t]);
    if s'.threads[t].Idle? {
      order := [t];
      assert Settle(s', order[1..]) == s';
    } else {
      var rest := FinishCall(s', t);
      order := [t] + rest;
      assert order[1..] == rest;
    }
  }

  /** A claimed call whose number the other side has caught up with can be driven to its end
      without starting any new call.  */
  lemma {:induction false} Completes<T>(s: State<T>, n: nat, pop: bool) returns (order: seq<nat>)
    requires Inv(s)
    requires if pop then n < s.head && n < s.tail else n < s.tail && n < s.head + s.capacity
    ensures var z := Settle(s, order);
      if pop then PopDone(s.capacity, z.ticket, n) else EmplaceDone(s.capacity, z.ticket, n)
    decreases 2 * Turn(s.capacity, n) + 2 - s.ticket[Idx(s.capacity, n)]
  {
    if if pop then PopDone(s.capacity, s.ticket, n) else EmplaceDone(s.capacity, s.ticket, n) {
      order := [];
    } else {
      var t := SlotHolder(s, n, pop);
      var first := FinishCall(s, t);
      SettleInv(s, first);
      var rest := Completes(Settle(s, first), n, pop);
      SettleConcat(s, first, rest);
      order := first + rest;
    }
  }

  /** Exactly when a claimed pop can finish with no further call: its number is below tail. */
  lemma PopProgress<T>(capacity: nat, threads: nat, schedule: seq<Tick<T>>, n: nat)
    requires capacity > 0 && n < Reached(capacity, threads, schedule).head
    ensures var s := Reached(capacity, threads, schedule);
      n < s.tail <==> exists order: seq<nat> :: PopDone(capacity, Settle(s, order).ticket, n)
  {
    var s := Reached(capacity, threads, schedule);
    ReachedInv(capacity, threads, schedule);
    if n < s.tail {
      var order := Completes(s, n, true);
    }
    forall order: seq<nat> | PopDone(capacity, Settle(s, order).ticket, n) ensures n < s.tail {
      SettleInv(s, order);
      assert EmplaceDone(capacity, Settle(s, order).ticket, n);
    }
  }

  /** Exactly when a claimed emplace can finish with no further call: its number is below
      head + capacity.  */
  lemma EmplaceProgress<T>(capacity: nat, threads: nat, schedule: seq<Tick<T>>, n: nat)
    requires capacity > 0 && n < Reached(capacity, threads, schedule).tail
    ensures var s := Reached(capacity, threads, schedule);
      n < s.head + capacity <==> exists order: seq<nat> :: EmplaceDone(capacity, Settle(s, order).ticket, n)
  {
    var s := Reached(capacity, threads, schedule);
    ReachedInv(capacity, threads, schedule);
    if n < s.head + capacity {
      var order := Completes(s, n, false);
    }
    forall order: seq<nat> | EmplaceDone(capacity, Settle(s, order).ticket, n) ensures n < s.head + capacity {
      SettleInv(s, order);
      PreviousTurnPopped(Settle(s, order), n);
    }
  }

  lemma PreviousTurnPopped<T>(s: State<T>, n: nat)
    requires Inv(s) && EmplaceDone(s.capacity, s.ticket, n)
    ensures n < s.head + s.capacity
  {
    if n >= s.capacity {
      PreviousTurn(s.capacity, n);
      assert PopDone(s.capacity, s.ticket, n - s.capacity);
    }
  }
}
