/** The single-producer single-consumer ring of include/spsc_queue.h, which carries every
    packet between the main thread and the network thread (src/rpc_conn_comp.cpp).

    One producer and one consumer interleave at the granularity of index loads, slot
    accesses and index stores, so either side may act on an index the other side has
    moved since.  */
module SpscQueue {
  import opened Wrappers
  import opened Arithmetic

  /** Storage of one element: raw, a live object, or a live object that was moved from. */
  datatype Slot<T> = Raw | Live(value: T) | MovedFrom

  /** Where the producer is inside `emplace`; `t` is its loaded copy of tail_. */
  datatype Producer<T> = PIdle | PLoaded(t: nat, value: T) | PFree(t: nat, value: T) | PBuilt(t: nat, value: T)

  /** Where the consumer is inside `pop`; `h` is its loaded copy of head_. */
  datatype Consumer<T> =
    | CIdle
    | CLoaded(h: nat)
    | CFull(h: nat)
    | CMoved(h: nat, got: Slot<T>)
    | CDestroyed(h: nat, got: Slot<T>)

  /** `pushes` records every finished emplace with what it returned; `delivered` is what
      successful pops handed out, in order; `emptied` counts the pops that returned false.  */
  datatype State<T> = State(
    capacity: nat,
    head: nat,
    tail: nat,
    slots: seq<Slot<T>>,
    producer: Producer<T>,
    consumer: Consumer<T>,
    pushes: seq<(T, bool)>,
    delivered: seq<T>,
    emptied: nat)

  datatype Tick<T> = Push(value: T) | ProducerGoes | ConsumerGoes

  function Accepted<T>(pushes: seq<(T, bool)>): seq<T> {
    if pushes == [] then []
    else
      var last := pushes[|pushes| - 1];
      Accepted(pushes[..|pushes| - 1]) + if last.1 then [last.0] else []
  }

  ghost predicate Shape<T>(s: State<T>) {
    s.capacity > 0 && |s.slots| == s.capacity && s.head < s.capacity && s.tail < s.capacity
    && (!s.producer.PIdle? ==> s.producer.t < s.capacity)
    && (!s.consumer.CIdle? ==> s.consumer.h < s.capacity)
  }

  function Init<T>(capacity: nat): State<T> {
    State(capacity, 0, 0, seq(capacity, _ => Raw), PIdle, CIdle, [], [], 0)
  }

  function ProducerStep<T>(s: State<T>): (s': State<T>)
    requires s.capacity > 0 && |s.slots| == s.capacity && (!s.producer.PIdle? ==> s.producer.t < s.capacity)
  {
    match s.producer
    case PIdle => s
    case PLoaded(t, v) =>
      if (t + 1) % s.capacity == s.head then s.(producer := PIdle, pushes := s.pushes + [(v, false)])
      else s.(producer := PFree(t, v))
    case PFree(t, v) => s.(slots := s.slots[t := Live(v)], producer := PBuilt(t, v))
    case PBuilt(t, v) =>
      s.(tail := (t + 1) % s.capacity, producer := PIdle, pushes := s.pushes + [(v, true)])
  }

  function ConsumerStep<T>(s: State<T>): (s': State<T>)
    requires s.capacity > 0 && |s.slots| == s.capacity && (!s.consumer.CIdle? ==> s.consumer.h < s.capacity)
  {
    match s.consumer
    case CIdle => s.(consumer := CLoaded(s.head))
    case CLoaded(h) =>
      if h == s.tail then s.(consumer := CIdle, emptied := s.emptied + 1) else s.(consumer := CFull(h))
    case CFull(h) => s.(slots := s.slots[h := MovedFrom], consumer := CMoved(h, s.slots[h]))
    case CMoved(h, r) => s.(slots := s.slots[h := Raw], consumer := CDestroyed(h, r))
    case CDestroyed(h, r) =>
      s.(head := (h + 1) % s.capacity, consumer := CIdle,
         delivered := s.delivered + if r.Live? then [r.value] else [])
  }

  function Next<T>(s: State<T>, k: Tick<T>): (s': State<T>)
    requires s.capacity > 0 && |s.slots| == s.capacity
    requires !s.producer.PIdle? ==> s.producer.t < s.capacity
    requires !s.consumer.CIdle? ==> s.consumer.h < s.capacity
  {
    match k
    case Push(v) => if s.producer.PIdle? then s.(producer := PLoaded(s.tail, v)) else s
    case ProducerGoes => ProducerStep(s)
    case ConsumerGoes => ConsumerStep(s)
  }

  // ---------------------------------------------------------------------
  // The abstract bounded FIFO
  // ---------------------------------------------------------------------

  /** What has been accepted and not yet delivered, oldest first. */
  function Queue<T>(s: State<T>): seq<T>
    requires |s.delivered| <= |Accepted(s.pushes)|
  {
    Accepted(s.pushes)[|s.delivered|..]
  }

  /** The slot `i` places after head. */
  function At(capacity: nat, head: nat, i: nat): nat
    requires head < capacity && i < capacity
  {
    Wrap(capacity, head + i)
  }

  /** What the slot `i` places after head must hold. */
  ghost function Expected<T>(s: State<T>, i: nat): Slot<T>
    requires |s.delivered| <= |Accepted(s.pushes)|
  {
    var q := Queue(s);
    if i < |q| then
      if i == 0 && s.consumer.CMoved? then MovedFrom
      else if i == 0 && s.consumer.CDestroyed? then Raw
      else Live(q[i])
    else if i == |q| && s.producer.PBuilt? then Live(s.producer.value)
    else Raw
  }

  ghost predicate Inv<T>(s: State<T>) {
    && Shape(s)
    && s.delivered <= Accepted(s.pushes)
    && |Queue(s)| < s.capacity
    && s.tail == At(s.capacity, s.head, |Queue(s)|)
    && (forall i: nat :: i < s.capacity ==> s.slots[At(s.capacity, s.head, i)] == Expected(s, i))
    && (!s.producer.PIdle? ==> s.producer.t == s.tail)
    && (s.producer.PFree? || s.producer.PBuilt? ==> |Queue(s)| + 1 < s.capacity)
    && (!s.consumer.CIdle? ==> s.consumer.h == s.head)
    && (s.consumer.CFull? || s.consumer.CMoved? || s.consumer.CDestroyed? ==> |Queue(s)| > 0)
    && (s.consumer.CMoved? || s.consumer.CDestroyed? ==> s.consumer.got == Live(Queue(s)[0]))
  }

  lemma AcceptedPush<T>(pushes: seq<(T, bool)>, v: T, ok: bool)
    ensures Accepted(pushes + [(v, ok)]) == Accepted(pushes) + if ok then [v] else []
  {
    assert (pushes + [(v, ok)])[..|pushes|] == pushes;
  }

  /** Distinct offsets from head are distinct slots. */
  lemma AtInjective(capacity: nat, head: nat)
    requires head < capacity
    ensures forall i: nat, j: nat :: i < capacity && j < capacity && At(capacity, head, i) == At(capacity, head, j) ==>
      i == j
  {
  }

  lemma AtNext(capacity: nat, head: nat, d: nat)
    requires head < capacity && d + 1 < capacity
    ensures (At(capacity, head, d) + 1) % capacity == At(capacity, head, d + 1)
  {
    ModIsWrap(capacity, At(capacity, head, d) + 1);
  }

  lemma PushInv<T>(s: State<T>, v: T)
    requires Inv(s)
    ensures Inv(Next(s, Push(v)))
  {
    var s' := Next(s, Push(v));
    forall i: nat | i < s.capacity ensures s'.slots[At(s.capacity, s.head, i)] == Expected(s', i) {
      assert s.slots[At(s.capacity, s.head, i)] == Expected(s, i);
    }
  }

  /** The slot part of the invariant survives a step that leaves head and the queue alone. */
  lemma SlotsKept<T>(s: State<T>, s': State<T>)
    requires Inv(s) && Shape(s') && s'.capacity == s.capacity && s'.head == s.head
    requires s'.delivered == s.delivered && Accepted(s'.pushes) == Accepted(s.pushes)
    requires forall i: nat :: i < s.capacity && Expected(s, i) != Expected(s', i) ==>
      s'.slots[At(s.capacity, s.head, i)] == Expected(s', i)
    requires forall i: nat :: i < s.capacity && Expected(s, i) == Expected(s', i) ==>
      s'.slots[At(s.capacity, s.head, i)] == s.slots[At(s.capacity, s.head, i)]
    ensures forall i: nat :: i < s.capacity ==> s'.slots[At(s.capacity, s'.head, i)] == Expected(s', i)
  {
  }

  lemma TestFreeInv<T>(s: State<T>)
    requires Inv(s) && s.producer.PLoaded?
    ensures Inv(ProducerStep(s))
    ensures ProducerStep(s).producer.PIdle? <==> |Queue(s)| == s.capacity - 1
  {
    var s' := ProducerStep(s);
    ModIsWrap(s.capacity, s.producer.t + 1);
    AcceptedPush(s.pushes, s.producer.value, false);
    SlotsKept(s, s');
  }

  lemma BuildInv<T>(s: State<T>)
    requires Inv(s) && s.producer.PFree?
    ensures Inv(ProducerStep(s))
  {
    var s' := ProducerStep(s);
    AtInjective(s.capacity, s.head);
    SlotsKept(s, s');
  }

  lemma PublishInv<T>(s: State<T>)
    requires Inv(s) && s.producer.PBuilt?
    ensures Inv(ProducerStep(s))
  {
    var s' := ProducerStep(s);
    ModIsWrap(s.capacity, s.producer.t + 1);
    AcceptedPush(s.pushes, s.producer.value, true);
    assert Queue(s') == Queue(s) + [s.producer.value];
    forall i: nat | i < s.capacity ensures s'.slots[At(s.capacity, s.head, i)] == Expected(s', i) {
      assert s.slots[At(s.capacity, s.head, i)] == Expected(s, i);
    }
  }

  lemma ProducerInv<T>(s: State<T>)
    requires Inv(s)
    ensures Inv(ProducerStep(s))
  {
    match s.producer
    case PIdle =>
    case PLoaded(_, _) => TestFreeInv(s);
    case PFree(_, _) => BuildInv(s);
    case PBuilt(_, _) => PublishInv(s);
  }

  lemma TestFullInv<T>(s: State<T>)
    requires Inv(s) && (s.consumer.CIdle? || s.consumer.CLoaded?)
    ensures Inv(ConsumerStep(s))
    ensures s.consumer.CLoaded? ==> (ConsumerStep(s).consumer.CIdle? <==> Queue(s) == [])
  {
    SlotsKept(s, ConsumerStep(s));
  }

  lemma MoveOutInv<T>(s: State<T>)
    requires Inv(s) && (s.consumer.CFull? || s.consumer.CMoved?)
    ensures Inv(ConsumerStep(s))
  {
    assert s.slots[At(s.capacity, s.head, 0)] == Expected(s, 0);
    AtInjective(s.capacity, s.head);
    SlotsKept(s, ConsumerStep(s));
  }

  lemma AdvanceInv<T>(s: State<T>)
    requires Inv(s) && s.consumer.CDestroyed?
    ensures Inv(ConsumerStep(s))
  {
    var s' := ConsumerStep(s);
    ModIsWrap(s.capacity, s.head + 1);
    assert Queue(s') == Queue(s)[1..];
    forall i: nat | i < s.capacity ensures s'.slots[At(s.capacity, s'.head, i)] == Expected(s', i) {
      var j := if i + 1 < s.capacity then i + 1 else 0;
      assert At(s.capacity, s'.head, i) == At(s.capacity, s.head, j);
      assert s.slots[At(s.capacity, s.head, j)] == Expected(s, j);
    }
  }

  lemma ConsumerInv<T>(s: State<T>)
    requires Inv(s)
    ensures Inv(ConsumerStep(s))
  {
    match s.consumer
    case CIdle => TestFullInv(s);
    case CLoaded(_) => TestFullInv(s);
    case CFull(_) => MoveOutInv(s);
    case CMoved(_, _) => MoveOutInv(s);
    case CDestroyed(_, _) => AdvanceInv(s);
  }

  lemma NextInv<T>(s: State<T>, k: Tick<T>)
    requires Inv(s)
    ensures Inv(Next(s, k))
  {
    match k
    case Push(v) => PushInv(s, v);
    case ProducerGoes => ProducerInv(s);
    case ConsumerGoes => ConsumerInv(s);
  }

  /** The state after a schedule; it is always one the invariant holds of, which is also
      what keeps every index in range.  */
  ghost function Reached<T>(capacity: nat, schedule: seq<Tick<T>>): (s: State<T>)
    requires capacity > 0
    ensures Inv(s) && s.capacity == capacity
  {
    if schedule == [] then Init(capacity)
    else
      var s := Reached(capacity, schedule[..|schedule| - 1]);
      NextInv(s, schedule[|schedule| - 1]);
      Next(s, schedule[|schedule| - 1])
  }

  // ---------------------------------------------------------------------
  // Theorems about every interleaving
  // ---------------------------------------------------------------------

  /** Packets for which the push returned true reach the other side in order, each at most
      once, and never more than capacity - 1 of them are outstanding.  */
  lemma {:induction false} DeliveredInOrder<T>(capacity: nat, schedule: seq<Tick<T>>)
    requires capacity > 0
    ensures var s := Reached(capacity, schedule);
      && |Accepted(s.pushes)| - |s.delivered| <= capacity - 1
      && |s.delivered| <= |Accepted(s.pushes)|
      && s.delivered == Accepted(s.pushes)[..|s.delivered|]
  {
    var s := Reached(capacity, schedule);
    assert Inv(s);
  }

  /** One step of a FIFO bounded by capacity - 1: append the value of a push that returns
      true, remove the front for a pop that returns true, or change nothing.  */
  ghost predicate FifoStep<T>(s: State<T>, s': State<T>)
    requires |s.delivered| <= |Accepted(s.pushes)| && |s'.delivered| <= |Accepted(s'.pushes)|
  {
    || (Queue(s') == Queue(s) && s'.delivered == s.delivered && Accepted(s'.pushes) == Accepted(s.pushes))
    || (s.producer.PBuilt? && s'.pushes == s.pushes + [(s.producer.value, true)]
        && |Queue(s)| < s.capacity - 1 && Queue(s') == Queue(s) + [s.producer.value] && s'.delivered == s.delivered)
    || (s.consumer.CDestroyed? && s'.pushes == s.pushes
        && Queue(s) != [] && Queue(s') == Queue(s)[1..] && s'.delivered == s.delivered + [Queue(s)[0]])
  }

  lemma ProducerRefines<T>(s: State<T>)
    requires Inv(s) && Inv(ProducerStep(s))
    ensures FifoStep(s, ProducerStep(s))
  {
    if !s.producer.PIdle? {
      AcceptedPush(s.pushes, s.producer.value, true);
      AcceptedPush(s.pushes, s.producer.value, false);
    }
  }

  lemma ConsumerRefines<T>(s: State<T>)
    requires Inv(s) && Inv(ConsumerStep(s))
    ensures FifoStep(s, ConsumerStep(s))
  {
    if s.consumer.CDestroyed? {
      assert Queue(ConsumerStep(s)) == Queue(s)[1..];
    }
  }

  lemma NextRefines<T>(s: State<T>, k: Tick<T>)
    requires Inv(s) && Inv(Next(s, k))
    ensures FifoStep(s, Next(s, k))
  {
    match k
    case Push(_) =>
    case ProducerGoes => ProducerRefines(s);
    case ConsumerGoes => ConsumerRefines(s);
  }

  lemma ReachedStep<T>(capacity: nat, schedule: seq<Tick<T>>, k: Tick<T>)
    requires capacity > 0
    ensures Reached(capacity, schedule + [k]) == Next(Reached(capacity, schedule), k)
  {
    assert (schedule + [k])[..|schedule|] == schedule;
  }

  /** Every step of every interleaving is a step of the bounded FIFO, whatever stale index
      its thread works from.  */
  lemma {:induction false} RefinesBoundedFifo<T>(capacity: nat, schedule: seq<Tick<T>>, k: Tick<T>)
    requires capacity > 0
    ensures FifoStep(Reached(capacity, schedule), Reached(capacity, schedule + [k]))
  {
    ReachedStep(capacity, schedule, k);
    NextRefines(Reached(capacity, schedule), k);
  }

  /** A push is refused exactly when the FIFO is full at the moment it reads head_, and a pop
      comes back empty exactly when the FIFO is empty at the moment it reads tail_.  So when
      the drain loop of OnUpdate stops, everything accepted by then has been delivered.  */
  lemma {:induction false} RefusalsAreExact<T>(capacity: nat, schedule: seq<Tick<T>>)
    requires capacity > 0
    ensures var s := Reached(capacity, schedule);
      && (s.producer.PLoaded? ==>
            (Next(s, ProducerGoes).pushes == s.pushes + [(s.producer.value, false)] <==> |Queue(s)| == capacity - 1))
      && (s.consumer.CLoaded? ==>
            (Next(s, ConsumerGoes).emptied == s.emptied + 1 <==> s.delivered == Accepted(s.pushes)))
  {
    var s := Reached(capacity, schedule);
    if s.producer.PLoaded? {
      TestFreeInv(s);
      assert |Next(s, ProducerGoes).pushes| == |s.pushes| <==> Next(s, ProducerGoes).producer.PFree?;
    }
    if s.consumer.CLoaded? {
      TestFullInv(s);
      assert Queue(s) == [] <==> s.delivered == Accepted(s.pushes);
    }
  }

  // ---------------------------------------------------------------------
  // Calls run to their end
  // ---------------------------------------------------------------------

  ghost function RunFrom<T>(s: State<T>, schedule: seq<Tick<T>>): (z: State<T>)
    requires Inv(s)
    ensures Inv(z)
    decreases |schedule|
  {
    if schedule == [] then s
    else
      NextInv(s, schedule[0]);
      RunFrom(Next(s, schedule[0]), schedule[1..])
  }

  function ConsumerTicks<T>(schedule: seq<Tick<T>>): nat {
    if schedule == [] then 0 else (if schedule[0].ConsumerGoes? then 1 else 0) + ConsumerTicks(schedule[1..])
  }

  function ProducerTicks<T>(schedule: seq<Tick<T>>): nat {
    if schedule == [] then 0 else (if schedule[0].ProducerGoes? then 1 else 0) + ProducerTicks(schedule[1..])
  }

  /** How many accesses a pop past its test still has to make. */
  function PopLeft<T>(c: Consumer<T>): nat {
    match c
    case CIdle => 0
    case CLoaded(_) => 0
    case CFull(_) => 3
    case CMoved(_, _) => 2
    case CDestroyed(_, _) => 1
  }

  /** A producer step leaves the consumer alone and at most appends to the FIFO. */
  lemma ProducerAppends<T>(s: State<T>, k: Tick<T>)
    requires Inv(s) && Inv(Next(s, k)) && !k.ConsumerGoes?
    ensures var z := Next(s, k); z.consumer == s.consumer && z.delivered == s.delivered && Queue(s) <= Queue(z)
  {
    if k.ProducerGoes? && !s.producer.PIdle? {
      AcceptedPush(s.pushes, s.producer.value, true);
      AcceptedPush(s.pushes, s.producer.value, false);
    }
  }

  /** One access of a pop past its test. */
  lemma PopAdvances<T>(s: State<T>)
    requires Inv(s) && Inv(ConsumerStep(s)) && PopLeft(s.consumer) > 0
    ensures var z := ConsumerStep(s);
      && PopLeft(z.consumer) == PopLeft(s.consumer) - 1 && z.pushes == s.pushes && Queue(s) != []
      && (z.consumer.CIdle? <==> s.consumer.CDestroyed?)
      && z.delivered == s.delivered + (if s.consumer.CDestroyed? then [Queue(s)[0]] else [])
      && Queue(z) == if s.consumer.CDestroyed? then Queue(s)[1..] else Queue(s)
  {
    hide Accepted;
    assert s.slots[At(s.capacity, s.head, 0)] == Expected(s, 0);
  }

  /** A pop that has found an element delivers exactly the front of the FIFO and takes it off,
      in the consumer's remaining accesses, whatever the producer does in between.  */
  lemma {:induction false} PopCompletes<T>(s: State<T>, schedule: seq<Tick<T>>)
    requires Inv(s) && PopLeft(s.consumer) > 0 && ConsumerTicks(schedule) == PopLeft(s.consumer)
    ensures var z := RunFrom(s, schedule);
      && z.consumer.CIdle? && Queue(s) != [] && z.delivered == s.delivered + [Queue(s)[0]]
      && Queue(s)[1..] <= Queue(z)
    decreases |schedule|
  {
    var k := schedule[0];
    NextInv(s, k);
    var t := Next(s, k);
    assert k.ConsumerGoes? ==> t == ConsumerStep(s);
    hide Next, ConsumerStep, Accepted, Expected, At;
    if k.ConsumerGoes? {
      PopAdvances(s);
      if s.consumer.CDestroyed? {
        IdleConsumer(t, schedule[1..]);
      } else {
        PopCompletes(t, schedule[1..]);
      }
    } else {
      ProducerAppends(s, k);
      PopCompletes(t, schedule[1..]);
    }
  }

  lemma {:induction false} IdleConsumer<T>(s: State<T>, schedule: seq<Tick<T>>)
    requires Inv(s) && s.consumer.CIdle? && ConsumerTicks(schedule) == 0
    ensures var z := RunFrom(s, schedule); z.consumer.CIdle? && z.delivered == s.delivered && Queue(s) <= Queue(z)
    decreases |schedule|
  {
    if schedule != [] {
      NextInv(s, schedule[0]);
      ProducerAppends(s, schedule[0]);
      IdleConsumer(Next(s, schedule[0]), schedule[1..]);
    }
  }

  /** How many accesses an emplace past its test still has to make. */
  function EmplaceLeft<T>(p: Producer<T>): nat {
    match p
    case PIdle => 0
    case PLoaded(_, _) => 0
    case PFree(_, _) => 2
    case PBuilt(_, _) => 1
  }

  lemma EmplaceAdvances<T>(s: State<T>, k: Tick<T>)
    requires Inv(s) && EmplaceLeft(s.producer) > 0 && !k.Push?
    ensures var z := Next(s, k);
      if k.ConsumerGoes? then z.producer == s.producer && z.pushes == s.pushes
      else
        && EmplaceLeft(z.producer) == EmplaceLeft(s.producer) - 1
        && (z.producer.PIdle? <==> s.producer.PBuilt?) && (s.producer.PFree? ==> z.producer.value == s.producer.value)
        && z.pushes == s.pushes + if s.producer.PBuilt? then [(s.producer.value, true)] else []
    ensures Accepted(s.pushes + [(s.producer.value, true)]) == Accepted(s.pushes) + [s.producer.value]
  {
    AcceptedPush(s.pushes, s.producer.value, true);
    hide Inv;
  }

  /** An emplace that has found room returns true, with its value behind all that was accepted
      before, in the producer's remaining accesses, whatever the consumer does in between.  */
  lemma {:induction false} EmplaceCompletes<T>(s: State<T>, schedule: seq<Tick<T>>)
    requires Inv(s) && EmplaceLeft(s.producer) > 0 && ProducerTicks(schedule) == EmplaceLeft(s.producer)
    requires forall i :: 0 <= i < |schedule| ==> !schedule[i].Push?
    ensures var z := RunFrom(s, schedule);
      && z.producer.PIdle? && z.pushes == s.pushes + [(s.producer.value, true)]
      && Accepted(z.pushes) == Accepted(s.pushes) + [s.producer.value]
    decreases |schedule|
  {
    var k, rest := schedule[0], schedule[1..];
    NextInv(s, k);
    EmplaceAdvances(s, k);
    hide Inv, Next, Accepted;
    var t := Next(s, k);
    if k.ProducerGoes? && s.producer.PBuilt? {
      IdleProducer(t, rest);
    } else {
      EmplaceCompletes(t, rest);
    }
  }

  lemma {:induction false} IdleProducer<T>(s: State<T>, schedule: seq<Tick<T>>)
    requires Inv(s) && s.producer.PIdle? && ProducerTicks(schedule) == 0
    requires forall i :: 0 <= i < |schedule| ==> !schedule[i].Push?
    ensures var z := RunFrom(s, schedule); z.producer.PIdle? && z.pushes == s.pushes
    decreases |schedule|
  {
    if schedule != [] {
      NextInv(s, schedule[0]);
      IdleProducer(Next(s, schedule[0]), schedule[1..]);
    }
  }

  /** How a call starts and what its test decides: every call either is refused, exactly when
      the FIFO is full or empty, or goes on to the accesses that complete it.  */
  lemma CallsProceed<T>(s: State<T>, v: T)
    requires Inv(s)
    ensures s.producer.PIdle? ==> Next(s, Push(v)) == s.(producer := PLoaded(s.tail, v))
    ensures s.producer.PLoaded? && |Queue(s)| < s.capacity - 1 ==>
      Next(s, ProducerGoes) == s.(producer := PFree(s.tail, s.producer.value))
    ensures s.producer.PLoaded? && |Queue(s)| >= s.capacity - 1 ==>
      Next(s, ProducerGoes) == s.(producer := PIdle, pushes := s.pushes + [(s.producer.value, false)])
    ensures s.consumer.CIdle? ==> Next(s, ConsumerGoes) == s.(consumer := CLoaded(s.head))
    ensures s.consumer.CLoaded? && Queue(s) != [] ==> Next(s, ConsumerGoes) == s.(consumer := CFull(s.head))
    ensures s.consumer.CLoaded? && Queue(s) == [] ==>
      Next(s, ConsumerGoes) == s.(consumer := CIdle, emptied := s.emptied + 1)
  {
    if s.producer.PLoaded? { TestFreeInv(s); }
    if s.consumer.CLoaded? { TestFullInv(s); }
  }

  /** With both sides outside a call the live objects are exactly the cyclic range from head
      to tail, holding the FIFO's elements in order.  */
  lemma {:induction false} LiveRange<T>(capacity: nat, schedule: seq<Tick<T>>)
    requires capacity > 0
    requires var s := Reached(capacity, schedule); s.producer.PIdle? && s.consumer.CIdle?
    ensures var s := Reached(capacity, schedule);
      forall i: nat :: i < capacity ==>
        s.slots[At(capacity, s.head, i)] == if i < |Queue(s)| then Live(Queue(s)[i]) else Raw
  {
    var s := Reached(capacity, schedule);
    forall i: nat | i < capacity
      ensures s.slots[At(capacity, s.head, i)] == if i < |Queue(s)| then Live(Queue(s)[i]) else Raw
    {
      assert s.slots[At(s.capacity, s.head, i)] == Expected(s, i);
    }
  }

  /** The first d elements of q, which started at head, have been destroyed. */
  ghost predicate Drained<T>(slots: seq<Slot<T>>, head: nat, q: seq<T>, d: nat) {
    head < |slots| && forall k: nat :: k < |slots| ==>
      slots[At(|slots|, head, k)] == if d <= k < |q| then Live(q[k]) else Raw
  }

  lemma DrainOne<T>(slots: seq<Slot<T>>, head: nat, q: seq<T>, d: nat)
    requires Drained(slots, head, q, d) && d < |q| < |slots|
    ensures slots[At(|slots|, head, d)] == Live(q[d])
    ensures Drained(slots[At(|slots|, head, d) := Raw], head, q, d + 1)
  {
  }

  lemma DrainEnd<T>(slots: seq<Slot<T>>, head: nat, q: seq<T>)
    requires Drained(slots, head, q, |q|)
    ensures forall j: nat :: j < |slots| ==> slots[j].Raw?
  {
    forall j: nat | j < |slots| ensures slots[j].Raw? {
      var k := if j >= head then j - head else j + |slots| - head;
      assert slots[At(|slots|, head, k)] == Raw;
    }
  }

  lemma NothingDrained<T>(s: State<T>)
    requires Inv(s) && s.producer.PIdle? && s.consumer.CIdle?
    ensures Drained(s.slots, s.head, Queue(s), 0)
  {
    forall k: nat | k < s.capacity
      ensures s.slots[At(s.capacity, s.head, k)] == if k < |Queue(s)| then Live(Queue(s)[k]) else Raw
    {
      assert s.slots[At(s.capacity, s.head, k)] == Expected(s, k);
    }
  }

  /** The tail store of emplace. */
  lemma Published<T>(s: State<T>)
    requires Inv(s) && s.producer.PBuilt? && Inv(Next(s, ProducerGoes))
    ensures var z := Next(s, ProducerGoes);
      && z == s.(tail := (s.tail + 1) % s.capacity, producer := PIdle, pushes := s.pushes + [(s.producer.value, true)])
      && Queue(z) == Queue(s) + [s.producer.value]
  {
    AcceptedPush(s.pushes, s.producer.value, true);
    hide Expected, At, Accepted;
  }

  /** The head store of pop. */
  lemma HeadAdvanced<T>(s: State<T>)
    requires Inv(s) && s.consumer.CDestroyed? && Inv(Next(s, ConsumerGoes))
    ensures Queue(s) != []
    ensures var z := Next(s, ConsumerGoes);
      && z == s.(head := (s.head + 1) % s.capacity, consumer := CIdle, delivered := s.delivered + [Queue(s)[0]])
      && Queue(z) == Queue(s)[1..]
  {
    hide Expected, At, Accepted;
  }

  // ---------------------------------------------------------------------
  // The object, changed in place
  // ---------------------------------------------------------------------

  /** `SPSCQueue` itself.  Each method up to Advance is one access of `emplace` or `pop` and
      is proved to be the machine's step; Destroy is the destructor.  */
  class Ring<T> {
    const capacity: nat
    const slots: array<Slot<T>>
    var head: nat
    var tail: nat
    ghost var model: State<T>

    ghost predicate Valid()
      reads this, slots
    {
      && slots.Length == capacity == model.capacity && slots[..] == model.slots
      && head == model.head && tail == model.tail && Inv(model)
    }

    constructor (capacity: nat)
      requires capacity > 0
      ensures Valid() && fresh(slots) && model == Init(capacity)
    {
      this.capacity := capacity;
      slots := new Slot<T>[capacity](_ => Raw);
      head, tail := 0, 0;
      model := Init(capacity);
      new;
      assert slots[..] == model.slots;
    }

    method LoadTail(ghost v: T) returns (t: nat)
      requires Valid() && model.producer.PIdle?
      modifies this`model
      ensures Valid() && model == Next(old(model), Push(v)) && model == old(model).(producer := PLoaded(t, v))
      ensures t == tail
    {
      t := tail;
      NextInv(model, Push(v));
      model := Next(model, Push(v));
    }

    method TestFree(t: nat) returns (free: bool)
      requires Valid() && model.producer.PLoaded? && model.producer.t == t
      modifies this`model
      ensures Valid() && model == Next(old(model), ProducerGoes)
      ensures free <==> |Queue(old(model))| < capacity - 1
      ensures var v := old(model).producer.value;
        model == if free then old(model).(producer := PFree(t, v))
                 else old(model).(producer := PIdle, pushes := old(model).pushes + [(v, false)])
    {
      free := (t + 1) % capacity != head;
      TestFreeInv(model);
      model := Next(model, ProducerGoes);
    }

    method Construct(t: nat, v: T)
      requires Valid() && model.producer == PFree(t, v)
      modifies this`model, slots
      ensures Valid() && model == Next(old(model), ProducerGoes) && slots[..] == old(slots[..])[t := Live(v)]
      ensures model.producer == PBuilt(t, v) && model.pushes == old(model).pushes && Queue(model) == Queue(old(model))
      ensures model.consumer == old(model).consumer && model.delivered == old(model).delivered
    {
      slots[t] := Live(v);
      NextInv(model, ProducerGoes);
      model := Next(model, ProducerGoes);
    }

    method PublishTail(t: nat)
      requires Valid() && model.producer.PBuilt? && model.producer.t == t
      modifies this`model, this`tail
      ensures Valid() && model == Next(old(model), ProducerGoes) && tail == (t + 1) % capacity
      ensures model.producer.PIdle? && model.pushes == old(model).pushes + [(old(model).producer.value, true)]
      ensures Queue(model) == Queue(old(model)) + [old(model).producer.value]
      ensures model.consumer == old(model).consumer && model.delivered == old(model).delivered
    {
      hide Expected, At, Accepted, Next;
      tail := (t + 1) % capacity;
      NextInv(model, ProducerGoes);
      Published(model);
      model := Next(model, ProducerGoes);
    }

    method LoadHead() returns (h: nat)
      requires Valid() && model.consumer.CIdle?
      modifies this`model
      ensures Valid() && model == Next(old(model), ConsumerGoes) && model == old(model).(consumer := CLoaded(h))
      ensures h == head
    {
      h := head;
      NextInv(model, ConsumerGoes);
      model := Next(model, ConsumerGoes);
    }

    method TestFull(h: nat) returns (full: bool)
      requires Valid() && model.consumer == CLoaded(h)
      modifies this`model
      ensures Valid() && model == Next(old(model), ConsumerGoes)
      ensures full <==> Queue(old(model)) != []
      ensures model == if full then old(model).(consumer := CFull(h))
                       else old(model).(consumer := CIdle, emptied := old(model).emptied + 1)
    {
      full := h != tail;
      TestFullInv(model);
      model := Next(model, ConsumerGoes);
    }

    method MoveOut(h: nat) returns (result: T)
      requires Valid() && model.consumer == CFull(h)
      modifies this`model, slots
      ensures Valid() && model == Next(old(model), ConsumerGoes) && slots[..] == old(slots[..])[h := MovedFrom]
      ensures Queue(old(model)) != [] && result == Queue(old(model))[0]
      ensures model.consumer == CMoved(h, Live(result)) && Queue(model) == Queue(old(model))
      ensures model.delivered == old(model).delivered && model.pushes == old(model).pushes
      ensures model.producer == old(model).producer
    {
      assert model.slots[At(capacity, model.head, 0)] == Expected(model, 0);
      result := slots[h].value;
      slots[h] := MovedFrom;
      NextInv(model, ConsumerGoes);
      model := Next(model, ConsumerGoes);
    }

    method DestroyMoved(h: nat)
      requires Valid() && model.consumer.CMoved? && model.consumer.h == h
      modifies this`model, slots
      ensures Valid() && model == Next(old(model), ConsumerGoes) && slots[..] == old(slots[..])[h := Raw]
      ensures model.consumer == CDestroyed(h, old(model).consumer.got) && Queue(model) == Queue(old(model))
      ensures model.delivered == old(model).delivered && model.pushes == old(model).pushes
      ensures model.producer == old(model).producer
    {
      slots[h] := Raw;
      NextInv(model, ConsumerGoes);
      model := Next(model, ConsumerGoes);
    }

    method Advance(h: nat)
      requires Valid() && model.consumer.CDestroyed? && model.consumer.h == h
      modifies this`model, this`head
      ensures Valid() && model == Next(old(model), ConsumerGoes) && head == (h + 1) % capacity
      ensures model.consumer.CIdle? && model.pushes == old(model).pushes && Queue(old(model)) != []
      ensures model.delivered == old(model).delivered + [Queue(old(model))[0]]
      ensures Queue(model) == Queue(old(model))[1..] && model.producer == old(model).producer
    {
      hide Expected, At, Accepted, Next;
      head := (h + 1) % capacity;
      NextInv(model, ConsumerGoes);
      HeadAdvanced(model);
      model := Next(model, ConsumerGoes);
    }

    /** emplace with the consumer between two of its accesses: refused exactly when the FIFO is
        full, and otherwise the value is last.  */
    method Emplace(v: T) returns (ok: bool)
      requires Valid() && model.producer.PIdle?
      modifies this, slots
      ensures Valid() && model.producer.PIdle? && model.consumer == old(model).consumer
      ensures ok <==> |Queue(old(model))| < capacity - 1
      ensures model.pushes == old(model).pushes + [(v, ok)]
      ensures Queue(model) == Queue(old(model)) + if ok then [v] else []
    {
      hide Expected, Next, Accepted, At;
      var t := LoadTail(v);
      ok := TestFree(t);
      if !ok {
        AcceptedPush(old(model).pushes, v, false);
        return;
      }
      Construct(t, v);
      PublishTail(t);
    }

    /** pop with the producer between two of its accesses: empty-handed exactly when the FIFO
        is empty, and otherwise the front is returned and gone.  */
    method Pop() returns (r: Option<T>)
      requires Valid() && model.consumer.CIdle?
      modifies this, slots
      ensures Valid() && model.consumer.CIdle? && model.producer == old(model).producer
      ensures model.pushes == old(model).pushes
      ensures Queue(old(model)) == [] ==> r == None && Queue(model) == [] && model.delivered == old(model).delivered
      ensures Queue(old(model)) != [] ==>
        var front := Queue(old(model))[0];
        && r == Some(front) && Queue(model) == Queue(old(model))[1..]
        && model.delivered == old(model).delivered + [front]
    {
      hide Expected, Next, Accepted, At;
      var h := LoadHead();
      var full := TestFull(h);
      if !full { return None; }
      var result := MoveOut(h);
      DestroyMoved(h);
      Advance(h);
      r := Some(result);
    }

    /** The loop of OnUpdate: pops until the queue is empty.  It ends, and has handed on all
        that was accepted, in order.  */
    method Drain() returns (sent: seq<T>)
      requires Valid() && model.consumer.CIdle?
      modifies this, slots
      ensures Valid() && model.consumer.CIdle? && Queue(model) == []
      ensures sent == Queue(old(model)) && model.delivered == old(model).delivered + sent
    {
      hide Expected, Next, Accepted, At;
      sent := [];
      while true
        invariant Valid() && model.consumer.CIdle? && sent + Queue(model) == Queue(old(model))
        invariant model.delivered == old(model).delivered + sent
        decreases |Queue(model)|
      {
        var r := Pop();
        if r.None? { break; }
        sent := sent + [r.value];
      }
    }

    /** The destructor: with both sides gone it destroys each remaining element once, in
        order, and leaves no object alive.  */
    method Destroy() returns (destroyed: seq<T>)
      requires Valid() && model.producer.PIdle? && model.consumer.CIdle?
      modifies slots
      ensures destroyed == Queue(model)
      ensures forall i :: 0 <= i < capacity ==> slots[i].Raw?
    {
      hide Drained, Expected, Accepted;
      ghost var q := Queue(model);
      NothingDrained(model);
      var i := head;
      destroyed := [];
      while i != tail
        invariant |destroyed| <= |q| && destroyed == q[..|destroyed|]
        invariant i == At(capacity, head, |destroyed|)
        invariant Drained(slots[..], head, q, |destroyed|)
        decreases |q| - |destroyed|
      {
        DrainOne(slots[..], head, q, |destroyed|);
        ghost var was := slots[..];
        destroyed := destroyed + [slots[i].value];
        slots[i] := Raw;
        assert slots[..] == was[i := Raw];
        AtNext(capacity, head, |destroyed| - 1);
        i := (i + 1) % capacity;
      }
      AtInjective(capacity, head);
      DrainEnd(slots[..], head, q);
    }
  }
}
