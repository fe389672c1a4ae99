/** `MPMCQueue` as the object of include/mpmc_queue.h: two counters, a ticket array and a
    slot array, changed in place one atomic access at a time.  Each method is the access a
    thread makes at one point of `emplace` or `pop` and is proved to be the matching step of
    the interleaving machine.  The object carries the schedule it has gone through and is
    always in the state that schedule leads to, so all that is proved of schedules holds of it. */
module MpmcObject {
  import opened Wrappers
  import opened MpmcQueue

  class Queue<T> {
    const capacity: nat
    const ticket: array<nat>
    const data: array<Option<T>>
    var head: nat
    var tail: nat
    ghost const threads: nat
    /** The steps taken so far, and the machine state they lead to. */
    ghost var schedule: seq<Tick<T>>
    ghost var model: State<T>

    ghost predicate Valid()
      reads this, ticket, data
    {
      && ticket.Length == data.Length == capacity == model.capacity > 0
      && head == model.head && tail == model.tail
      && ticket[..] == model.ticket && data[..] == model.data
      && model == Reached(capacity, threads, schedule)
    }

    /** One more step of thread t. */
    ghost method Happens(t: nat, m: Move<T>)
      requires capacity > 0 && model == Reached(capacity, threads, schedule)
      modifies this`schedule, this`model
      ensures model == Reached(capacity, threads, schedule) && model == Next(old(model), t, m)
      ensures schedule == old(schedule) + [Tick(t, m)]
    {
      var all := schedule + [Tick(t, m)];
      assert all[..|all| - 1] == schedule;
      model, schedule := Next(model, t, m), all;
    }

    constructor (capacity: nat, ghost threads: nat)
      requires capacity > 0
      ensures Valid() && fresh(ticket) && fresh(data) && model == Init(capacity, threads)
    {
      this.capacity, this.threads, schedule := capacity, threads, [];
      head, tail := 0, 0;
      data := new Option<T>[capacity](_ => None);
      ticket := new nat[capacity];
      model := Init(capacity, threads);
      new;
      for i := 0 to capacity
        invariant ticket.Length == data.Length == capacity == this.capacity
        invariant head == tail == 0 && model == Init(capacity, threads) && schedule == [] && this.threads == threads
        invariant fresh(ticket) && fresh(data)
        invariant forall j :: 0 <= j < i ==> ticket[j] == 0
        invariant forall j :: 0 <= j < capacity ==> data[j] == None
        modifies ticket
      {
        ticket[i] := 0;
      }
      assert ticket[..] == model.ticket;
      assert data[..] == model.data;
    }

    /** tail_.fetch_add(1) of an emplace of `v`. */
    method ClaimTail(ghost t: nat, ghost v: T) returns (num: nat)
      requires Valid() && t < |model.threads| && model.threads[t].Idle?
      modifies this
      ensures Valid() && model == Next(old(model), t, StartEmplace(v))
      ensures model.threads[t] == EmplaceSpin(num, v) && model.given == old(model).given + [v]
      ensures num == old(tail) && tail == old(tail) + 1 && head == old(head)
    {
      num := tail;
      tail := tail + 1;
      Happens(t, StartEmplace(v));
    }

    /** One evaluation of the emplace spin test. */
    method TestEmplace(ghost t: nat, num: nat) returns (free: bool)
      requires Valid() && t < |model.threads| && model.threads[t].EmplaceSpin? && model.threads[t].num == num
      modifies this`model, this`schedule
      ensures Valid() && model == Next(old(model), t, Continue)
      ensures free <==> model.threads[t].EmplaceOwn?
      ensures free <==> ticket[num % capacity] == 2 * (num / capacity)
    {
      free := num / capacity * 2 == ticket[num % capacity];
      Happens(t, Continue);
    }

    method Construct(ghost t: nat, num: nat, v: T)
      requires Valid() && t < |model.threads| && model.threads[t] == EmplaceOwn(num, v)
      modifies this`model, this`schedule, data
      ensures Valid() && model == Next(old(model), t, Continue)
      ensures data[..] == old(data[..])[num % capacity := Some(v)] && model.threads[t] == EmplaceBuilt(num, v)
    {
      data[num % capacity] := Some(v);
      Happens(t, Continue);
    }

    method PublishEmplace(ghost t: nat, num: nat)
      requires Valid() && t < |model.threads| && model.threads[t].EmplaceBuilt? && model.threads[t].num == num
      modifies this`model, this`schedule, ticket
      ensures Valid() && model == Next(old(model), t, Continue) && model.threads[t] == Idle
      ensures ticket[..] == old(ticket[..])[num % capacity := 2 * (num / capacity) + 1]
    {
      ticket[num % capacity] := num / capacity * 2 + 1;
      Happens(t, Continue);
    }

    /** head_.fetch_add(1) of a pop. */
    method ClaimHead(ghost t: nat) returns (num: nat)
      requires Valid() && t < |model.threads| && model.threads[t].Idle?
      modifies this
      ensures Valid() && model == Next(old(model), t, StartPop)
      ensures model.threads[t] == PopSpin(num) && num == old(head) && head == old(head) + 1 && tail == old(tail)
    {
      num := head;
      head := head + 1;
      Happens(t, StartPop);
    }

    method TestPop(ghost t: nat, num: nat) returns (full: bool)
      requires Valid() && t < |model.threads| && model.threads[t] == PopSpin(num)
      modifies this`model, this`schedule
      ensures Valid() && model == Next(old(model), t, Continue)
      ensures full <==> model.threads[t].PopOwn?
      ensures full <==> ticket[num % capacity] == 2 * (num / capacity) + 1
    {
      full := num / capacity * 2 + 1 == ticket[num % capacity];
      Happens(t, Continue);
    }

    /** The value taken is the one given to the emplace that claimed the same number. */
    method MoveOut(ghost t: nat, num: nat) returns (result: Option<T>)
      requires Valid() && t < |model.threads| && model.threads[t] == PopOwn(num)
      modifies this`model, this`schedule, data
      ensures Valid() && model == Next(old(model), t, Continue)
      ensures model.threads[t] == PopTaken(num, result)
      ensures num < |model.given| && result == Some(model.given[num])
      ensures data[..] == old(data[..])[num % capacity := None]
    {
      ReachedInv(capacity, threads, schedule);
      OwnedValue(model, t);
      hide Inv, Reached;
      result := data[num % capacity];
      data[num % capacity] := None;
      Happens(t, Continue);
    }

    method PublishPop(ghost t: nat, num: nat)
      requires Valid() && t < |model.threads| && model.threads[t].PopTaken? && model.threads[t].num == num
      modifies this`model, this`schedule, ticket
      ensures Valid() && model == Next(old(model), t, Continue) && model.threads[t] == Idle
      ensures ticket[..] == old(ticket[..])[num % capacity := 2 * (num / capacity) + 2]
      ensures model.got == old(model).got[num := old(model).threads[t].result]
    {
      ticket[num % capacity] := num / capacity * 2 + 2;
      Happens(t, Continue);
    }
  }
}
