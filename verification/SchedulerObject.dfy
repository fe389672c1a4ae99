/** The schedulers of include/scheduler.h as objects: a container, an id map and a stop flag
    that each critical section changes in place.  Every method is proved to be a step of the
    pool machine; Work is a worker's loop run to its end.  */
module SchedulerObject {
  import opened Scheduler

  /** What the critical section of execute decides. */
  datatype Verdict = Got(job: Job) | Wait | Quit

  /** The order in which one worker empties the container. */
  function InTurn(d: Discipline, pending: seq<Job>): (r: seq<Job>)
    ensures |r| == |pending|
  {
    if pending == [] then []
    else [pending[Front(d, pending)]] + InTurn(d, RemoveAt(pending, Front(d, pending)))
  }

  lemma TurnTail(d: Discipline, pending: seq<Job>, k: nat)
    requires 0 < k < |pending|
    ensures var rest := RemoveAt(pending, Front(d, pending));
      && |rest| == |pending| - 1
      && rest[if d.Lifo? then |rest| - k else k - 1] == pending[if d.Lifo? then |pending| - 1 - k else k]
  {
  }

  /** A stack is emptied from its newest task to its oldest, the others from the front. */
  lemma {:induction false} InTurnAt(d: Discipline, pending: seq<Job>, k: nat)
    requires k < |pending|
    ensures InTurn(d, pending)[k] == pending[if d.Lifo? then |pending| - 1 - k else k]
    decreases |pending|
  {
    hide RemoveAt;
    if k > 0 {
      TurnTail(d, pending, k);
      InTurnAt(d, RemoveAt(pending, Front(d, pending)), k - 1);
    }
  }

  lemma PositionUnique(pending: seq<Job>, due: int, i: nat)
    requires i <= |pending| && (forall k :: 0 <= k < i ==> pending[k].due < due)
    requires i < |pending| ==> pending[i].due >= due
    ensures Position(pending, due) == i
  {
  }

  class TaskScheduler {
    const d: Discipline
    var tasks: seq<Job>
    var idMap: map<nat, Job>
    var stopped: bool
    /** ID_ */
    var nextId: nat
    /** Numbers the accepted tasks. */
    var count: nat
    ghost const workers: nat
    ghost var steps: seq<Step>
    ghost var pool: Pool

    ghost predicate Valid()
      reads this
    {
      && pool == Exec(d, Fresh(workers), steps)
      && tasks == pool.pending && idMap == pool.ids && stopped == pool.stop && nextId == pool.drawn
      && count == |pool.accepted|
    }

    constructor (d: Discipline, workers: nat)
      ensures Valid() && this.d == d && pool == Fresh(workers)
    {
      this.d, this.workers := d, workers;
      tasks, idMap, stopped, nextId, count := [], map[], false, 0, 0;
      steps, pool := [], Fresh(workers);
    }

    ghost method Happens(s: Step)
      requires pool == Exec(d, Fresh(workers), steps)
      modifies this`steps, this`pool
      ensures pool == Exec(d, Fresh(workers), steps) && pool == Next(d, old(pool), s) && steps == old(steps) + [s]
    {
      pool := Next(d, pool, s);
      assert (steps + [s])[..|steps + [s]| - 1] == steps;
      steps := steps + [s];
    }

    method DrawId() returns (id: nat)
      requires Valid()
      modifies this
      ensures Valid() && pool == Next(d, old(pool), Draw) && id == old(nextId) && id < nextId
    {
      id := nextId;
      nextId := nextId + 1;
      Happens(Draw);
    }

    /** The critical section of add; false stands for a thrown exception.  A timer event goes
        into the ordered set, which refuses a second event with the same trigger time.  */
    method Insert(id: nat, due: int) returns (accepted: bool)
      requires Valid() && (d.Timer? ==> id < nextId && id !in pool.used)
      modifies this
      ensures Valid() && pool == Next(d, old(pool), Add(id, due)) && stopped == old(stopped)
      ensures accepted <==> !old(stopped) && (d.Timer? ==> forall x :: x in old(tasks) ==> x.due != due)
      ensures accepted ==>
        var job := Job(old(count), id, due);
        && multiset(tasks) == multiset(old(tasks)) + multiset{job} && count == old(count) + 1
        && idMap == if d.Timer? then old(idMap)[id := job] else old(idMap)
      ensures !accepted ==> tasks == old(tasks) && count == old(count) && idMap == old(idMap)
    {
      hide Exec, Next, SameDue, Slot, InsertAt;
      AddMeans(d, pool, id, due);
      AddExact(d, pool, id, due);
      var i: nat;
      accepted, i := FindSlot(due);
      AddDecided(d, pool, id, due);
      if accepted {
        var job := Job(count, id, due);
        tasks := InsertAt(tasks, i, job);
        count := count + 1;
        if d.Timer? { idMap := idMap[id := job]; }
      }
      Happens(Add(id, due));
    }

    /** Whether the task can be inserted, and where. */
    method FindSlot(due: int) returns (fine: bool, i: nat)
      requires Valid()
      ensures fine <==> !stopped && (d.Timer? ==> !SameDue(tasks, due))
      ensures fine ==> i == Slot(d, tasks, due)
    {
      hide Exec, SameDue;
      i, fine := |tasks|, !stopped;
      if d.Timer? && fine {
        i := 0;
        while i < |tasks| && tasks[i].due < due
          invariant i <= |tasks| && forall k :: 0 <= k < i ==> tasks[k].due < due
        {
          i := i + 1;
        }
        fine := !(i < |tasks| && tasks[i].due == due);
        TimerSlot(due, i);
      }
    }

    lemma TimerSlot(due: int, i: nat)
      requires Valid() && d.Timer? && i <= |tasks| && (forall k :: 0 <= k < i ==> tasks[k].due < due)
      requires i < |tasks| ==> tasks[i].due >= due
      ensures Slot(d, pool.pending, due) == i && (SameDue(pool.pending, due) <==> i < |tasks| && tasks[i].due == due)
    {
      ReachedInv(d, workers, steps);
      hide Exec, Conserved, Woken, Numbered, Indexed, AllUsed;
      PositionUnique(tasks, due, i);
    }

    /** The critical section of execute, once it holds the lock. */
    method Enter(w: nat) returns (v: Verdict)
      requires Valid() && w < |pool.workers| && pool.workers[w].Ready?
      modifies this
      ensures Valid() && pool == Next(d, old(pool), Scheduler.Enter(w))
      ensures v ==
        if old(tasks) != [] then Got(old(tasks)[Front(d, old(tasks))]) else if old(stopped) then Quit else Wait
      ensures v.Got? ==> multiset(old(tasks)) == multiset(tasks) + multiset{v.job}
      ensures v.Got? && d.Timer? ==> idMap == old(idMap) - {v.job.id}
      ensures !v.Got? ==> tasks == old(tasks) && idMap == old(idMap)
      ensures pool.workers == old(pool.workers)[w :=
        match v case Got(j) => Running(j) case Wait => Sleeping case Quit => Exited]
      ensures stopped == old(stopped) && count == old(count)
    {
      hide Exec;
      if tasks != [] { RemoveMultiset(tasks, Front(d, tasks)); }
      if !stopped && tasks == [] {
        v := Wait;
      } else if stopped && tasks == [] {
        v := Quit;
      } else {
        var i := if d.Lifo? then |tasks| - 1 else 0;
        var job := tasks[i];
        tasks := RemoveAt(tasks, i);
        if d.Timer? { idMap := idMap - {job.id}; }
        v := Got(job);
      }
      Happens(Scheduler.Enter(w));
    }

    /** cancel: an id that is not in the map is ignored. */
    method Cancel(id: nat)
      requires Valid() && d.Timer?
      modifies this
      ensures Valid() && pool == Next(d, old(pool), Scheduler.Cancel(id))
      ensures id in old(idMap) ==>
        multiset(tasks) + multiset{old(idMap)[id]} == multiset(old(tasks)) && idMap == old(idMap) - {id}
      ensures id !in old(idMap) ==> tasks == old(tasks) && idMap == old(idMap)
    {
      ReachedInv(d, workers, steps);
      hide Exec, Conserved, InOrder, Woken, Numbered;
      if id in idMap {
        assert idMap[id] in tasks;
        RemoveMultiset(tasks, IndexOf(tasks, idMap[id]));
        tasks := RemoveAt(tasks, IndexOf(tasks, idMap[id]));
        idMap := idMap - {id};
      }
      Happens(Scheduler.Cancel(id));
    }

    method Stop()
      requires Valid()
      modifies this
      ensures Valid() && pool == Next(d, old(pool), Scheduler.Stop)
      ensures stopped && tasks == old(tasks) && idMap == old(idMap) && count == old(count)
    {
      hide Exec;
      stopped := true;
      Happens(Scheduler.Stop);
    }

    /** A worker's loop on a stopped scheduler that nobody else works on: it executes all that
        is left, in the discipline's order, and ends.  */
    method Work(w: nat) returns (done: seq<Job>)
      requires Valid() && stopped && w < |pool.workers| && pool.workers[w].Ready?
      modifies this
      ensures Valid() && tasks == [] && done == InTurn(d, old(tasks)) && pool.ran == old(pool.ran) + done
      ensures pool.workers == old(pool.workers)[w := Exited]
    {
      hide Exec, Next, InTurn;
      done := [];
      while true
        invariant Valid() && stopped && pool.workers == old(pool.workers)
        invariant done + InTurn(d, tasks) == InTurn(d, old(tasks)) && pool.ran == old(pool.ran) + done
        decreases |tasks|
      {
        Round(d, pool, w);
        var v := Enter(w);
        if v.Quit? { break; }
        Happens(Finish(w));
        done := done + [v.job];
      }
    }
  }

  /** One round of a worker's loop on a stopped pool. */
  lemma Round(d: Discipline, p: Pool, w: nat)
    requires p.stop && w < |p.workers| && p.workers[w].Ready?
    ensures p.pending == [] ==>
      Next(d, p, Scheduler.Enter(w)) == p.(workers := p.workers[w := Exited]) && InTurn(d, p.pending) == []
    ensures p.pending != [] ==>
      var j, q := p.pending[Front(d, p.pending)], Next(d, Next(d, p, Scheduler.Enter(w)), Finish(w));
      && q.workers == p.workers && q.stop && q.ran == p.ran + [j] && q.accepted == p.accepted && q.drawn == p.drawn
      && Next(d, p, Scheduler.Enter(w)).pending == q.pending && Next(d, p, Scheduler.Enter(w)).ids == q.ids
      && Next(d, p, Scheduler.Enter(w)).stop && |q.pending| < |p.pending|
      && InTurn(d, p.pending) == [j] + InTurn(d, q.pending)
      && Next(d, p, Scheduler.Enter(w)).drawn == p.drawn && Next(d, p, Scheduler.Enter(w)).accepted == p.accepted
  {
    if p.pending != [] {
      assert p.workers[w := Running(p.pending[Front(d, p.pending)])][w := Ready] == p.workers;
    }
  }

  /** The state after an add, as a record. */
  lemma AddExact(d: Discipline, p: Pool, id: nat, due: int)
    requires d.Timer? ==> id < p.drawn && id !in p.used
    ensures var q, j := Next(d, p, Add(id, due)), Job(|p.accepted|, id, due);
      && q.stop == p.stop && q.drawn == p.drawn
      && (Accepts(d, p, id, due) ==> q.pending == InsertAt(p.pending, Slot(d, p.pending, due), j))
      && (!Accepts(d, p, id, due) ==> q.pending == p.pending)
  {
    hide InsertAt, Slot, SameDue;
  }

  lemma AddDecided(d: Discipline, p: Pool, id: nat, due: int)
    requires d.Timer? ==> id < p.drawn && id !in p.used
    ensures Accepts(d, p, id, due) <==> !p.stop && (d.Timer? ==> !SameDue(p.pending, due))
    ensures SameDue(p.pending, due) <==> exists x :: x in p.pending && x.due == due
  {
    if SameDue(p.pending, due) {
      var i :| 0 <= i < |p.pending| && p.pending[i].due == due;
      assert p.pending[i] in p.pending;
    }
  }
}
