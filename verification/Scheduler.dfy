/** The thread pool's schedulers (include/scheduler.h) and worker loops
    (include/thread_pool.h), for any number of workers, adders, cancellers and stoppers.

    A critical section is one step, because a mutex guards it.  A worker whose wait
    predicate is false goes to sleep in the same step that tests it; a notification follows
    the critical section that called for it as a step of its own, so it can be late, and a
    sleeper may also wake for no reason.  A ThreadPool holds two such pools, one for the
    scheduler and one for the timer, that share nothing.  */
module Scheduler {

  datatype Discipline = Fifo | Lifo | Timer

  /** An accepted task: its number in the order of acceptance, its id and trigger time (the
      latter two for timer events).  */
  datatype Job = Job(no: nat, id: nat, due: int)

  /** A worker: outside execute or about to test the predicate, waiting on the condition
      variable, executing a task, or past the loop because execute returned false.  */
  datatype Phase = Ready | Sleeping | Running(job: Job) | Exited

  /** `pending` is tasks_: the queue from its front, the stack up to its top, or the set in
      increasing order; `ids` is id_it_map_.  `owed` and `owedAll` count the notify_one and
      notify_all calls still to come; `drawn` is ID_ and `used` the ids already passed on to
      an insertion.  The rest is history.  */
  datatype Pool = Pool(
    pending: seq<Job>,
    ids: map<nat, Job>,
    stop: bool,
    workers: seq<Phase>,
    owed: nat,
    owedAll: nat,
    drawn: nat,
    used: set<nat>,
    accepted: seq<Job>,
    taken: seq<Job>,
    cancelled: seq<Job>,
    ran: seq<Job>)

  datatype Step =
    | Draw
    | Add(id: nat, due: int)
    | NotifyOne(worker: nat)
    | NotifyAll
    | Enter(worker: nat)
    | Finish(worker: nat)
    | Spurious(worker: nat)
    | Cancel(id: nat)
    | Stop

  function Fresh(workers: nat): Pool {
    Pool([], map[], false, seq(workers, _ => Ready), 0, 0, 0, {}, [], [], [], [])
  }

  // ---------------------------------------------------------------------
  // The containers
  // ---------------------------------------------------------------------

  function InsertAt<T>(s: seq<T>, i: nat, x: T): seq<T>
    requires i <= |s|
  {
    s[..i] + [x] + s[i..]
  }

  function RemoveAt<T>(s: seq<T>, i: nat): seq<T>
    requires i < |s|
  {
    s[..i] + s[i + 1..]
  }

  /** How many leading jobs are due before the given time. */
  function Position(pending: seq<Job>, due: int): (p: nat)
    ensures p <= |pending| && (forall i :: 0 <= i < p ==> pending[i].due < due)
    ensures p < |pending| ==> pending[p].due >= due
  {
    if pending == [] || pending[0].due >= due then 0 else 1 + Position(pending[1..], due)
  }

  /** Where a new job goes. */
  function Slot(d: Discipline, pending: seq<Job>, due: int): (p: nat)
    ensures p <= |pending|
  {
    if d.Timer? then Position(pending, due) else |pending|
  }

  /** Which job execute takes. */
  function Front(d: Discipline, pending: seq<Job>): (p: nat)
    requires pending != []
    ensures p < |pending|
  {
    if d.Lifo? then |pending| - 1 else 0
  }

  function IndexOf(pending: seq<Job>, j: Job): (p: nat)
    ensures p <= |pending| && (p < |pending| ==> pending[p] == j)
    ensures p == |pending| ==> j !in pending
  {
    if pending == [] || pending[0] == j then 0 else 1 + IndexOf(pending[1..], j)
  }

  predicate SameDue(pending: seq<Job>, due: int) {
    exists i :: 0 <= i < |pending| && pending[i].due == due
  }

  lemma InsertMultiset<T>(s: seq<T>, i: nat, x: T)
    requires i <= |s|
    ensures multiset(InsertAt(s, i, x)) == multiset(s) + multiset{x}
  {
    assert s == s[..i] + s[i..];
  }

  lemma InsertMembers<T(!new)>(s: seq<T>, i: nat, x: T)
    requires i <= |s|
    ensures forall y :: y in InsertAt(s, i, x) <==> y in s || y == x
  {
    forall y | y in s ensures y in InsertAt(s, i, x) {
      var k :| 0 <= k < |s| && s[k] == y;
      assert InsertAt(s, i, x)[if k < i then k else k + 1] == y;
    }
    assert InsertAt(s, i, x)[i] == x;
  }

  lemma RemoveMembers<T(!new)>(s: seq<T>, i: nat)
    requires i < |s| && forall k :: 0 <= k < |s| && k != i ==> s[k] != s[i]
    ensures forall y :: y in RemoveAt(s, i) <==> y in s && y != s[i]
  {
    forall y | y in s && y != s[i] ensures y in RemoveAt(s, i) {
      var k :| 0 <= k < |s| && s[k] == y;
      assert RemoveAt(s, i)[if k < i then k else k - 1] == y;
    }
  }

  lemma RemoveMultiset<T>(s: seq<T>, i: nat)
    requires i < |s|
    ensures multiset(s) == multiset(RemoveAt(s, i)) + multiset{s[i]}
  {
    assert s == s[..i] + [s[i]] + s[i + 1..];
  }

  // ---------------------------------------------------------------------
  // Steps
  // ---------------------------------------------------------------------

  function WakeAll(ws: seq<Phase>): (r: seq<Phase>)
    ensures |r| == |ws|
  {
    if ws == [] then [] else WakeAll(ws[..|ws| - 1]) + [if ws[|ws| - 1].Sleeping? then Ready else ws[|ws| - 1]]
  }

  predicate NoneSleeps(ws: seq<Phase>) {
    forall i :: 0 <= i < |ws| ==> !ws[i].Sleeping?
  }

  /** Whether add is accepted; it throws otherwise. */
  predicate Accepts(d: Discipline, p: Pool, id: nat, due: int) {
    !p.stop && (d.Timer? ==> id < p.drawn && id !in p.used && !SameDue(p.pending, due))
  }

  /** The critical section of add; a timer id that was drawn is used once. */
  function AddStep(d: Discipline, p: Pool, id: nat, due: int): Pool {
    if !Accepts(d, p, id, due) then (if d.Timer? && id < p.drawn then p.(used := p.used + {id}) else p)
    else
      var j := Job(|p.accepted|, id, due);
      p.(pending := InsertAt(p.pending, Slot(d, p.pending, due), j), accepted := p.accepted + [j], owed := p.owed + 1,
         ids := if d.Timer? then p.ids[id := j] else p.ids, used := if d.Timer? then p.used + {id} else p.used)
  }

  /** One sleeper wakes, whichever; with no sleeper the notification is lost. */
  function NotifyOneStep(p: Pool, w: nat): Pool {
    if p.owed == 0 then p
    else if NoneSleeps(p.workers) then p.(owed := p.owed - 1)
    else if w < |p.workers| && p.workers[w].Sleeping? then p.(owed := p.owed - 1, workers := p.workers[w := Ready])
    else p
  }

  function NotifyAllStep(p: Pool): Pool {
    if p.owedAll == 0 then p else p.(owedAll := p.owedAll - 1, workers := WakeAll(p.workers))
  }

  /** The critical section of execute. */
  function EnterStep(d: Discipline, p: Pool, w: nat): Pool {
    if w >= |p.workers| || !p.workers[w].Ready? then p
    else if p.pending == [] then p.(workers := p.workers[w := if p.stop then Exited else Sleeping])
    else
      var i := Front(d, p.pending);
      var j := p.pending[i];
      p.(workers := p.workers[w := Running(j)], pending := RemoveAt(p.pending, i), taken := p.taken + [j],
         ids := if d.Timer? then p.ids - {j.id} else p.ids)
  }

  /** The task ends and the worker loop calls execute again. */
  function FinishStep(p: Pool, w: nat): Pool {
    if w < |p.workers| && p.workers[w].Running?
    then p.(workers := p.workers[w := Ready], ran := p.ran + [p.workers[w].job])
    else p
  }

  function SpuriousStep(p: Pool, w: nat): Pool {
    if w < |p.workers| && p.workers[w].Sleeping? then p.(workers := p.workers[w := Ready]) else p
  }

  function CancelStep(d: Discipline, p: Pool, id: nat): Pool {
    if !d.Timer? || id !in p.ids || IndexOf(p.pending, p.ids[id]) == |p.pending| then p
    else
      p.(pending := RemoveAt(p.pending, IndexOf(p.pending, p.ids[id])), ids := p.ids - {id},
        cancelled := p.cancelled + [p.ids[id]])
  }

  function Next(d: Discipline, p: Pool, s: Step): Pool {
    match s
    case Draw => p.(drawn := p.drawn + 1)
    case Add(id, due) => AddStep(d, p, id, due)
    case NotifyOne(w) => NotifyOneStep(p, w)
    case NotifyAll => NotifyAllStep(p)
    case Enter(w) => EnterStep(d, p, w)
    case Finish(w) => FinishStep(p, w)
    case Spurious(w) => SpuriousStep(p, w)
    case Cancel(id) => CancelStep(d, p, id)
    case Stop => p.(stop := true, owedAll := p.owedAll + 1)
  }

  function Exec(d: Discipline, p: Pool, steps: seq<Step>): Pool {
    if steps == [] then p else Next(d, Exec(d, p, steps[..|steps| - 1]), steps[|steps| - 1])
  }

  // ---------------------------------------------------------------------
  // Counting workers
  // ---------------------------------------------------------------------

  datatype Kind = Awake | Asleep | Work

  /** Work is what a stopped pool's worker still has to go through to exit. */
  function Weight(k: Kind, p: Phase): nat {
    match k
    case Awake => if p.Ready? then 1 else 0
    case Asleep => if p.Sleeping? then 1 else 0
    case Work => match p case Exited => 0 case Ready => 1 case Running(_) => 2 case Sleeping => 2
  }

  function Sum(k: Kind, ws: seq<Phase>): nat {
    if ws == [] then 0 else Sum(k, ws[..|ws| - 1]) + Weight(k, ws[|ws| - 1])
  }

  /** The tasks that workers are executing. */
  function InHand(ws: seq<Phase>): multiset<Job> {
    if ws == [] then multiset{} else InHand(ws[..|ws| - 1]) + Held(ws[|ws| - 1])
  }

  function Held(p: Phase): multiset<Job> {
    if p.Running? then multiset{p.job} else multiset{}
  }

  lemma {:induction false} SumUpdate(k: Kind, ws: seq<Phase>, i: nat, p: Phase)
    requires i < |ws|
    ensures Sum(k, ws[i := p]) + Weight(k, ws[i]) == Sum(k, ws) + Weight(k, p)
  {
    hide Weight;
    var n := |ws| - 1;
    if i == n {
      assert ws[i := p][..n] == ws[..n];
    } else {
      assert ws[i := p][..n] == ws[..n][i := p];
      SumUpdate(k, ws[..n], i, p);
    }
  }

  lemma {:induction false} InHandUpdate(ws: seq<Phase>, i: nat, p: Phase)
    requires i < |ws|
    ensures InHand(ws[i := p]) + Held(ws[i]) == InHand(ws) + Held(p)
  {
    hide Held;
    var n := |ws| - 1;
    if i == n {
      assert ws[i := p][..n] == ws[..n];
    } else {
      assert ws[i := p][..n] == ws[..n][i := p];
      InHandUpdate(ws[..n], i, p);
      var rest, rest' := InHand(ws[..n]), InHand(ws[..n][i := p]);
      assert InHand(ws[i := p]) + Held(ws[i]) == (rest' + Held(ws[i])) + Held(ws[n]);
      assert InHand(ws) + Held(p) == (rest + Held(p)) + Held(ws[n]);
    }
  }

  lemma {:induction false} WakeAllAt(ws: seq<Phase>)
    ensures forall i :: 0 <= i < |ws| ==> WakeAll(ws)[i] == if ws[i].Sleeping? then Ready else ws[i]
    decreases |ws|
  {
    if ws != [] {
      var n := |ws| - 1;
      WakeAllAt(ws[..n]);
      forall i | 0 <= i < n ensures ws[..n][i] == ws[i] {}
    }
  }

  lemma {:induction false} WakeAllSums(ws: seq<Phase>)
    ensures Sum(Asleep, WakeAll(ws)) == 0
    ensures Sum(Work, WakeAll(ws)) <= Sum(Work, ws)
    decreases |ws|
  {
    if ws != [] {
      var n := |ws| - 1;
      WakeAllSums(ws[..n]);
      assert WakeAll(ws)[..n] == WakeAll(ws[..n]);
    }
  }

  lemma {:induction false} WakeAllInHand(ws: seq<Phase>)
    ensures InHand(WakeAll(ws)) == InHand(ws)
    decreases |ws|
  {
    if ws != [] {
      var n := |ws| - 1;
      WakeAllInHand(ws[..n]);
      assert WakeAll(ws)[..n] == WakeAll(ws[..n]);
    }
  }

  lemma {:induction false} SumZero(k: Kind, ws: seq<Phase>)
    ensures Sum(k, ws) == 0 <==> forall i :: 0 <= i < |ws| ==> Weight(k, ws[i]) == 0
    decreases |ws|
  {
    hide Weight;
    if ws != [] {
      var n := |ws| - 1;
      SumZero(k, ws[..n]);
      forall i | 0 <= i < n ensures ws[..n][i] == ws[i] {}
    }
  }

  // ---------------------------------------------------------------------
  // Invariant
  // ---------------------------------------------------------------------

  ghost predicate Numbered(accepted: seq<Job>) {
    forall k :: 0 <= k < |accepted| ==> accepted[k].no == k
  }

  /** Every accepted task is in exactly one place, once. */
  ghost predicate Conserved(p: Pool) {
    && multiset(p.accepted) == multiset(p.pending) + multiset(p.taken) + multiset(p.cancelled)
    && multiset(p.taken) == multiset(p.ran) + InHand(p.workers)
  }

  /** The container's own order. */
  ghost predicate InOrder(d: Discipline, p: Pool) {
    match d
    case Fifo => p.accepted == p.taken + p.pending
    case Lifo => p.cancelled == [] && forall i, k :: 0 <= i < k < |p.pending| ==> p.pending[i].no < p.pending[k].no
    case Timer => forall i, k :: 0 <= i < k < |p.pending| ==> p.pending[i].due < p.pending[k].due
  }

  /** tasks_ and id_it_map_ are in bijection. */
  ghost predicate Indexed(pending: seq<Job>, ids: map<nat, Job>) {
    && (forall id :: id in ids ==> ids[id] in pending && ids[id].id == id)
    && (forall j :: j in pending ==> j.id in ids && ids[j.id] == j)
  }

  /** Every accepted id went through an insertion. */
  ghost predicate AllUsed(accepted: seq<Job>, used: set<nat>) {
    forall k :: 0 <= k < |accepted| ==> accepted[k].id in used
  }

  /** While a worker sleeps, every queued task has a notification still owed or a worker that
      is about to look; a sleeper of a stopped pool is owed a notify_all; a worker exits only
      from a stopped and empty pool.  */
  ghost predicate Woken(queued: nat, owed: nat, owedAll: nat, stop: bool, workers: seq<Phase>) {
    && (Sum(Asleep, workers) > 0 ==> queued <= owed + Sum(Awake, workers))
    && (stop && Sum(Asleep, workers) > 0 ==> owedAll > 0)
    && (forall i :: 0 <= i < |workers| && workers[i].Exited? ==> stop && queued == 0)
  }

  ghost predicate Inv(d: Discipline, p: Pool) {
    && Numbered(p.accepted) && Conserved(p) && InOrder(d, p)
    && (d.Timer? ==> Indexed(p.pending, p.ids) && AllUsed(p.accepted, p.used))
    && Woken(|p.pending|, p.owed, p.owedAll, p.stop, p.workers)
  }

  lemma FreshInv(d: Discipline, workers: nat)
    ensures Inv(d, Fresh(workers))
  {
    var ws := Fresh(workers).workers;
    SumZero(Asleep, ws);
    FreshInHand(ws);
  }

  lemma {:induction false} FreshInHand(ws: seq<Phase>)
    requires forall i :: 0 <= i < |ws| ==> ws[i].Ready?
    ensures InHand(ws) == multiset{}
    decreases |ws|
  {
    if ws != [] { FreshInHand(ws[..|ws| - 1]); }
  }

  // add

  lemma AddConserved(d: Discipline, p: Pool, id: nat, due: int)
    requires Conserved(p) && Numbered(p.accepted) && Accepts(d, p, id, due)
    ensures Conserved(AddStep(d, p, id, due)) && Numbered(AddStep(d, p, id, due).accepted)
  {
    hide InHand, Slot, SameDue;
    InsertMultiset(p.pending, Slot(d, p.pending, due), Job(|p.accepted|, id, due));
  }

  lemma PendingAccepted(p: Pool, j: Job)
    requires Conserved(p) && Numbered(p.accepted) && j in p.pending
    ensures j.no < |p.accepted| && p.accepted[j.no] == j
  {
    assert j in multiset(p.pending);
    assert j in multiset(p.accepted);
    assert j in p.accepted;
  }

  lemma AddFifo(accepted: seq<Job>, taken: seq<Job>, pending: seq<Job>, j: Job)
    requires accepted == taken + pending
    ensures accepted + [j] == taken + InsertAt(pending, |pending|, j)
  {
  }

  lemma AddLifo(pending: seq<Job>, j: Job)
    requires forall i, k :: 0 <= i < k < |pending| ==> pending[i].no < pending[k].no
    requires forall x :: x in pending ==> x.no < j.no
    ensures var s := InsertAt(pending, |pending|, j); forall i, k :: 0 <= i < k < |s| ==> s[i].no < s[k].no
  {
    assert InsertAt(pending, |pending|, j) == pending + [j];
    hide InsertAt;
  }

  lemma AddTimer(pending: seq<Job>, i: nat, j: Job)
    requires forall i, k :: 0 <= i < k < |pending| ==> pending[i].due < pending[k].due
    requires i == Position(pending, j.due) && !SameDue(pending, j.due)
    ensures var s := InsertAt(pending, i, j); forall i, k :: 0 <= i < k < |s| ==> s[i].due < s[k].due
  {
    assert i < |pending| ==> pending[i].due != j.due;
    hide Position, SameDue;
  }

  lemma AddInOrder(d: Discipline, p: Pool, id: nat, due: int)
    requires Conserved(p) && Numbered(p.accepted) && InOrder(d, p) && Accepts(d, p, id, due)
    ensures InOrder(d, AddStep(d, p, id, due))
  {
    hide Conserved, Numbered, InsertAt, Position, SameDue;
    var j := Job(|p.accepted|, id, due);
    match d
    case Fifo => AddFifo(p.accepted, p.taken, p.pending, j);
    case Lifo =>
      forall x | x in p.pending ensures x.no < j.no { PendingAccepted(p, x); }
      AddLifo(p.pending, j);
    case Timer => AddTimer(p.pending, Slot(d, p.pending, due), j);
  }

  lemma AddIndexed(pending: seq<Job>, ids: map<nat, Job>, i: nat, j: Job)
    requires Indexed(pending, ids) && i <= |pending| && forall x :: x in pending ==> x.id != j.id
    ensures Indexed(InsertAt(pending, i, j), ids[j.id := j])
  {
    InsertMembers(pending, i, j);
    hide InsertAt;
  }

  lemma AddTimerIndexed(p: Pool, id: nat, due: int)
    requires Conserved(p) && Numbered(p.accepted) && Accepts(Timer, p, id, due)
    requires Indexed(p.pending, p.ids) && AllUsed(p.accepted, p.used)
    ensures var p' := AddStep(Timer, p, id, due); Indexed(p'.pending, p'.ids) && AllUsed(p'.accepted, p'.used)
  {
    forall x | x in p.pending ensures x.id != id { PendingAccepted(p, x); }
    hide Conserved, Numbered, Indexed, SameDue;
    AddIndexed(p.pending, p.ids, Slot(Timer, p.pending, due), Job(|p.accepted|, id, due));
    hide InsertAt;
  }

  lemma AddInv(d: Discipline, p: Pool, id: nat, due: int)
    requires Inv(d, p)
    ensures Inv(d, AddStep(d, p, id, due))
  {
    if Accepts(d, p, id, due) {
      hide Numbered, Conserved, InOrder, Indexed, AllUsed, Slot, Sum, SameDue;
      AddConserved(d, p, id, due);
      AddInOrder(d, p, id, due);
      if d.Timer? { AddTimerIndexed(p, id, due); }
      assert |AddStep(d, p, id, due).pending| == |p.pending| + 1;
      hide InsertAt;
    } else {
      SameJobs(d, p, AddStep(d, p, id, due));
    }
  }

  /** Nothing but flags, counters and ids in use changes. */
  lemma SameJobs(d: Discipline, p: Pool, p': Pool)
    requires Inv(d, p) && p.used <= p'.used && p'.owedAll >= p.owedAll && (p.stop ==> p'.stop)
    requires p'.stop && !p.stop ==> p'.owedAll > 0
    requires p' == p.(used := p'.used, drawn := p'.drawn, stop := p'.stop, owedAll := p'.owedAll)
    ensures Inv(d, p')
  {
    hide Indexed, Numbered, Sum, InHand;
  }

  // execute

  lemma EnterWoken(queued: nat, owed: nat, owedAll: nat, stop: bool, workers: seq<Phase>, w: nat, ph: Phase)
    requires Woken(queued, owed, owedAll, stop, workers) && w < |workers| && workers[w].Ready?
    requires if queued > 0 then ph.Running? else ph == if stop then Exited else Sleeping
    ensures Woken(if queued > 0 then queued - 1 else 0, owed, owedAll, stop, workers[w := ph])
  {
    SumUpdate(Awake, workers, w, ph);
    SumUpdate(Asleep, workers, w, ph);
    hide Sum;
  }

  lemma EnterConserved(d: Discipline, p: Pool, w: nat)
    requires Conserved(p)
    ensures Conserved(EnterStep(d, p, w))
  {
    if w < |p.workers| && p.workers[w].Ready? {
      var p' := EnterStep(d, p, w);
      InHandUpdate(p.workers, w, p'.workers[w]);
      assert InHand(p'.workers) == InHand(p.workers) + Held(p'.workers[w]);
      hide InHand, Front;
      if p.pending == [] {
        assert InHand(p'.workers) == InHand(p.workers);
      } else {
        TakeConserved(p, p', Front(d, p.pending));
      }
    }
  }

  lemma TakeConserved(p: Pool, p': Pool, i: nat)
    requires Conserved(p) && i < |p.pending| && p'.accepted == p.accepted && p'.cancelled == p.cancelled
    requires p'.ran == p.ran
    requires p'.pending == RemoveAt(p.pending, i) && p'.taken == p.taken + [p.pending[i]]
    requires InHand(p'.workers) == InHand(p.workers) + multiset{p.pending[i]}
    ensures Conserved(p')
  {
    hide InHand;
    RemoveMultiset(p.pending, i);
    hide RemoveAt;
    assert multiset(p'.taken) == multiset(p.taken) + multiset{p.pending[i]};
  }

  lemma EnterInOrder(d: Discipline, p: Pool, w: nat)
    requires InOrder(d, p)
    ensures InOrder(d, EnterStep(d, p, w))
  {
    if p.pending != [] {
      var i := Front(d, p.pending);
      if d.Fifo? {
        assert p.taken + [p.pending[i]] + RemoveAt(p.pending, i) == p.taken + p.pending;
      }
    }
  }

  /** Taking one job out of the set and its id out of the map. */
  lemma RemoveIndexed(pending: seq<Job>, ids: map<nat, Job>, i: nat)
    requires Indexed(pending, ids) && i < |pending|
    requires forall i, k :: 0 <= i < k < |pending| ==> pending[i].due < pending[k].due
    ensures Indexed(RemoveAt(pending, i), ids - {pending[i].id})
  {
    RemoveMembers(pending, i);
    hide RemoveAt;
  }

  lemma EnterInv(d: Discipline, p: Pool, w: nat)
    requires Inv(d, p)
    ensures Inv(d, EnterStep(d, p, w))
  {
    if w < |p.workers| && p.workers[w].Ready? {
      EnterWoken(|p.pending|, p.owed, p.owedAll, p.stop, p.workers, w, EnterStep(d, p, w).workers[w]);
      EnterConserved(d, p, w);
      EnterInOrder(d, p, w);
      if d.Timer? && p.pending != [] { RemoveIndexed(p.pending, p.ids, 0); }
      hide Numbered, Conserved, InOrder, Indexed, AllUsed, Woken;
    }
  }

  // cancel

  lemma CancelConserved(p: Pool, p': Pool, i: nat)
    requires Conserved(p) && i < |p.pending| && p'.accepted == p.accepted && p'.taken == p.taken && p'.ran == p.ran
    requires p'.pending == RemoveAt(p.pending, i) && p'.cancelled == p.cancelled + [p.pending[i]]
    requires p'.workers == p.workers
    ensures Conserved(p')
  {
    hide InHand;
    RemoveMultiset(p.pending, i);
    hide RemoveAt;
    assert multiset(p'.cancelled) == multiset(p.cancelled) + multiset{p.pending[i]};
  }

  lemma RemoveInOrder(pending: seq<Job>, i: nat)
    requires i < |pending| && forall i, k :: 0 <= i < k < |pending| ==> pending[i].due < pending[k].due
    ensures var s := RemoveAt(pending, i); forall i, k :: 0 <= i < k < |s| ==> s[i].due < s[k].due
  {
  }

  lemma CancelInv(d: Discipline, p: Pool, id: nat)
    requires Inv(d, p)
    ensures Inv(d, CancelStep(d, p, id))
  {
    hide Conserved, Numbered, Sum, AllUsed;
    if d.Timer? && id in p.ids {
      var i := IndexOf(p.pending, p.ids[id]);
      assert p.ids[id].id == id && p.ids[id] in p.pending && p.pending[i] == p.ids[id];
      hide Indexed, IndexOf;
      RemoveIndexed(p.pending, p.ids, i);
      RemoveInOrder(p.pending, i);
      CancelConserved(p, CancelStep(d, p, id), i);
      assert |RemoveAt(p.pending, i)| == |p.pending| - 1;
      hide RemoveAt;
    }
  }

  // worker and notification steps, which touch no task

  lemma WorkerWoken(queued: nat, owed: nat, owed': nat, owedAll: nat, stop: bool, workers: seq<Phase>, w: nat)
    requires Woken(queued, owed, owedAll, stop, workers) && w < |workers|
    requires (workers[w].Sleeping? || workers[w].Running?)
    requires owed' + (if workers[w].Sleeping? then 1 else 0) >= owed
    ensures Woken(queued, owed', owedAll, stop, workers[w := Ready])
  {
    SumUpdate(Awake, workers, w, Ready);
    SumUpdate(Asleep, workers, w, Ready);
    hide Sum;
  }

  lemma WorkerConserved(p: Pool, w: nat, p': Pool)
    requires Conserved(p) && w < |p.workers| && p'.workers == p.workers[w := Ready]
    requires p'.accepted == p.accepted && p'.pending == p.pending && p'.taken == p.taken && p'.cancelled == p.cancelled
    requires p'.ran == if p.workers[w].Running? then p.ran + [p.workers[w].job] else p.ran
    ensures Conserved(p')
  {
    InHandUpdate(p.workers, w, Ready);
    assert InHand(p'.workers) + Held(p.workers[w]) == InHand(p.workers);
    hide InHand;
    assert multiset(p'.ran) == multiset(p.ran) + Held(p.workers[w]);
  }

  /** Worker w becomes ready, and p' has the task it held, if any, in its history. */
  lemma WorkerInv(d: Discipline, p: Pool, w: nat, p': Pool)
    requires Inv(d, p) && w < |p.workers| && (p.workers[w].Sleeping? || p.workers[w].Running?)
    requires p' == p.(workers := p.workers[w := Ready], owed := p'.owed, ran := p'.ran)
    requires p'.owed + (if p.workers[w].Sleeping? then 1 else 0) >= p.owed
    requires p'.ran == if p.workers[w].Running? then p.ran + [p.workers[w].job] else p.ran
    ensures Inv(d, p')
  {
    WorkerWoken(|p.pending|, p.owed, p'.owed, p.owedAll, p.stop, p.workers, w);
    WorkerConserved(p, w, p');
    hide Woken, Conserved, Indexed, Numbered, AllUsed;
  }

  lemma NotifyOneInv(d: Discipline, p: Pool, w: nat)
    requires Inv(d, p)
    ensures Inv(d, NotifyOneStep(p, w))
  {
    var p' := NotifyOneStep(p, w);
    if p.owed > 0 && NoneSleeps(p.workers) {
      SumZero(Asleep, p.workers);
      hide Indexed, Numbered, AllUsed, Sum, InHand;
    } else if p' != p {
      hide Inv;
      WorkerInv(d, p, w, p');
    }
  }

  lemma NotifyAllInv(d: Discipline, p: Pool)
    requires Inv(d, p)
    ensures Inv(d, NotifyAllStep(p))
  {
    WakeAllSums(p.workers);
    WakeAllInHand(p.workers);
    WakeAllAt(p.workers);
    hide WakeAll, Sum, InHand, Indexed, Numbered, AllUsed;
  }

  lemma FinishInv(d: Discipline, p: Pool, w: nat)
    requires Inv(d, p)
    ensures Inv(d, FinishStep(p, w))
  {
    hide Inv;
    if w < |p.workers| && p.workers[w].Running? { WorkerInv(d, p, w, FinishStep(p, w)); }
  }

  lemma SpuriousInv(d: Discipline, p: Pool, w: nat)
    requires Inv(d, p)
    ensures Inv(d, SpuriousStep(p, w))
  {
    hide Inv;
    if w < |p.workers| && p.workers[w].Sleeping? { WorkerInv(d, p, w, SpuriousStep(p, w)); }
  }

  lemma {:induction false} NextInv(d: Discipline, p: Pool, s: Step)
    requires Inv(d, p)
    ensures Inv(d, Next(d, p, s))
  {
    hide Inv, AddStep, NotifyOneStep, NotifyAllStep, EnterStep, FinishStep, SpuriousStep, CancelStep;
    match s
    case Draw => SameJobs(d, p, Next(d, p, s));
    case Add(id, due) => AddInv(d, p, id, due);
    case NotifyOne(w) => NotifyOneInv(d, p, w);
    case NotifyAll => NotifyAllInv(d, p);
    case Enter(w) => EnterInv(d, p, w);
    case Finish(w) => FinishInv(d, p, w);
    case Spurious(w) => SpuriousInv(d, p, w);
    case Cancel(id) => CancelInv(d, p, id);
    case Stop => SameJobs(d, p, Next(d, p, s));
  }

  lemma {:induction false} ExecInv(d: Discipline, p: Pool, steps: seq<Step>)
    requires Inv(d, p)
    ensures Inv(d, Exec(d, p, steps))
    decreases |steps|
  {
    hide Inv, Next;
    if steps != [] {
      ExecInv(d, p, steps[..|steps| - 1]);
      NextInv(d, Exec(d, p, steps[..|steps| - 1]), steps[|steps| - 1]);
    }
  }

  lemma ReachedInv(d: Discipline, workers: nat, steps: seq<Step>)
    ensures Inv(d, Exec(d, Fresh(workers), steps))
  {
    FreshInv(d, workers);
    ExecInv(d, Fresh(workers), steps);
  }

  // ---------------------------------------------------------------------
  // No lost wakeup
  // ---------------------------------------------------------------------

  ghost predicate SomeoneSleeps(p: Pool) {
    exists i :: 0 <= i < |p.workers| && p.workers[i].Sleeping?
  }

  ghost predicate EveryoneSleeps(p: Pool) {
    forall i :: 0 <= i < |p.workers| ==> p.workers[i].Sleeping?
  }

  /** In every reachable state: while some worker sleeps there are no more queued tasks than
      notifications still owed and workers about to look; if all sleep, a queued task means
      that a notify_one is still owed; and a sleeper of a stopped pool is owed a notify_all. */
  lemma {:induction false} NoLostWakeup(d: Discipline, workers: nat, steps: seq<Step>)
    ensures var p := Exec(d, Fresh(workers), steps);
      && (SomeoneSleeps(p) ==> |p.pending| <= p.owed + Sum(Awake, p.workers))
      && (workers > 0 && EveryoneSleeps(p) && p.pending != [] ==> p.owed > 0)
      && (p.stop && SomeoneSleeps(p) ==> p.owedAll > 0)
  {
    ReachedInv(d, workers, steps);
    SameWorkers(d, workers, steps);
    var p := Exec(d, Fresh(workers), steps);
    hide Exec, Numbered, Conserved, InOrder, Indexed;
    Wakeups(p.workers);
  }

  lemma Wakeups(ws: seq<Phase>)
    ensures (exists i :: 0 <= i < |ws| && ws[i].Sleeping?) <==> Sum(Asleep, ws) > 0
    ensures (forall i :: 0 <= i < |ws| ==> ws[i].Sleeping?) ==> Sum(Awake, ws) == 0
  {
    SumZero(Asleep, ws);
    SumZero(Awake, ws);
    hide Sum;
  }

  /** What no step changes. */
  lemma Kept(d: Discipline, p: Pool, s: Step)
    ensures |Next(d, p, s).workers| == |p.workers| && p.cancelled <= Next(d, p, s).cancelled
    ensures !d.Timer? ==> Next(d, p, s).cancelled == p.cancelled
    ensures p.stop ==> Next(d, p, s).stop && Next(d, p, s).accepted == p.accepted
  {
    hide InsertAt, RemoveAt, Slot, Front, IndexOf, NoneSleeps, WakeAll, SameDue;
  }

  lemma {:induction false} SameWorkers(d: Discipline, workers: nat, steps: seq<Step>)
    ensures |Exec(d, Fresh(workers), steps).workers| == workers
    decreases |steps|
  {
    hide Next;
    if steps != [] {
      SameWorkers(d, workers, steps[..|steps| - 1]);
      Kept(d, Exec(d, Fresh(workers), steps[..|steps| - 1]), steps[|steps| - 1]);
    }
  }

  /** A pool with a worker that has nothing left to do of its own has no task queued. */
  lemma {:induction false} StuckOnlyWhenEmpty(d: Discipline, workers: nat, steps: seq<Step>)
    requires workers > 0
    requires var p := Exec(d, Fresh(workers), steps);
      forall w: nat :: EnterStep(d, p, w) == p && FinishStep(p, w) == p && NotifyOneStep(p, w) == p
    ensures Exec(d, Fresh(workers), steps).pending == []
  {
    NoLostWakeup(d, workers, steps);
    ReachedInv(d, workers, steps);
    SameWorkers(d, workers, steps);
    var p := Exec(d, Fresh(workers), steps);
    hide Exec, Numbered, Conserved, InOrder, Indexed, Sum;
    assert NotifyOneStep(p, 0).owed == p.owed;
    if p.pending != [] {
      forall i: nat | i < |p.workers| ensures p.workers[i].Sleeping? {
        assert EnterStep(d, p, i).workers == p.workers;
        assert FinishStep(p, i).workers == p.workers;
      }
    }
  }

  // ---------------------------------------------------------------------
  // Every task once
  // ---------------------------------------------------------------------

  lemma {:induction false} NumberedOnce(accepted: seq<Job>, j: Job)
    requires Numbered(accepted)
    ensures multiset(accepted)[j] == if j in accepted then 1 else 0
    decreases |accepted|
  {
    if accepted != [] {
      var n := |accepted| - 1;
      NumberedOnce(accepted[..n], j);
      assert accepted == accepted[..n] + [accepted[n]];
      if j in accepted[..n] { assert j != accepted[n]; }
    }
  }

  function Times<T(==)>(x: T, s: seq<T>): nat {
    multiset(s)[x]
  }

  /** In every reachable state an accepted task is exactly one of queued, cancelled, in a
      worker's hands and executed, and it is so once.  */
  lemma {:induction false} EachTaskOnce(d: Discipline, workers: nat, steps: seq<Step>, j: Job)
    ensures var p := Exec(d, Fresh(workers), steps);
      Times(j, p.pending) + Times(j, p.cancelled) + Times(j, p.ran) + InHand(p.workers)[j] ==
        if j in p.accepted then 1 else 0
  {
    ReachedInv(d, workers, steps);
    var p := Exec(d, Fresh(workers), steps);
    hide Exec, InHand, InOrder, Indexed, Woken;
    NumberedOnce(p.accepted, j);
  }

  /** An add with a fresh id, while the pool is not stopped and, for the timer, no pending event
      has its trigger time, puts exactly one new task among the accepted and the pending ones
      and owes one notification; any other add changes none of these.  */
  lemma AddMeans(d: Discipline, p: Pool, id: nat, due: int)
    requires d.Timer? ==> id < p.drawn && id !in p.used
    ensures var q, j := Next(d, p, Add(id, due)), Job(|p.accepted|, id, due);
      var fine := !p.stop && (d.Timer? ==> forall x :: x in p.pending ==> x.due != due);
      && q.accepted == p.accepted + (if fine then [j] else [])
      && multiset(q.pending) == multiset(p.pending) + (if fine then multiset{j} else multiset{})
      && q.ids == (if fine && d.Timer? then p.ids[id := j] else p.ids)
      && q.owed == p.owed + (if fine then 1 else 0)
      && q.taken == p.taken && q.cancelled == p.cancelled && q.ran == p.ran
      && q.workers == p.workers && q.stop == p.stop
  {
    InsertMultiset(p.pending, Slot(d, p.pending, due), Job(|p.accepted|, id, due));
    assert (forall x :: x in p.pending ==> x.due != due) <==> !SameDue(p.pending, due) by {
      if forall x :: x in p.pending ==> x.due != due {
        forall i | 0 <= i < |p.pending| ensures p.pending[i].due != due { assert p.pending[i] in p.pending; }
      }
    }
    hide InsertAt, Slot;
  }

  /** A pool is stopped exactly when stop has been called on it. */
  lemma {:induction false} StoppedIff(d: Discipline, workers: nat, steps: seq<Step>)
    ensures Exec(d, Fresh(workers), steps).stop <==> Stop in steps
    decreases |steps|
  {
    if steps != [] {
      var n := |steps| - 1;
      StoppedIff(d, workers, steps[..n]);
      OnlyStopStops(d, Exec(d, Fresh(workers), steps[..n]), steps[n]);
      assert steps == steps[..n] + [steps[n]];
      hide Next;
    }
  }

  lemma OnlyStopStops(d: Discipline, p: Pool, s: Step)
    ensures Next(d, p, s).stop <==> p.stop || s == Stop
  {
    hide InsertAt, RemoveAt, Slot, Front, IndexOf, NoneSleeps, WakeAll, SameDue;
  }

  /** Once stop has been called, no run of any length accepts a task, and a worker that finds
      nothing pending leaves its loop.  */
  lemma {:induction false} AfterStop(d: Discipline, workers: nat, steps: seq<Step>, more: seq<Step>, w: nat)
    requires Stop in steps
    ensures var p := Exec(d, Fresh(workers), steps);
      var q := Exec(d, p, more);
      && q.accepted == p.accepted
      && (w < |q.workers| && q.workers[w].Ready? && q.pending == [] ==>
            Next(d, q, Enter(w)).workers == q.workers[w := Exited])
  {
    StoppedIff(d, workers, steps);
    NoneAfterStop(d, Exec(d, Fresh(workers), steps), more);
    hide Exec;
  }

  lemma {:induction false} NoneAfterStop(d: Discipline, p: Pool, more: seq<Step>)
    requires p.stop
    ensures Exec(d, p, more).stop && Exec(d, p, more).accepted == p.accepted
    decreases |more|
  {
    hide Next;
    if more != [] {
      NoneAfterStop(d, p, more[..|more| - 1]);
      Kept(d, Exec(d, p, more[..|more| - 1]), more[|more| - 1]);
    }
  }

  /** The drain guarantee: once execute has returned false for some worker, whatever was ever
      accepted has been dequeued exactly once unless it was cancelled, FIFO tasks in the
      order of their acceptance, and nothing is accepted any more.  */
  lemma {:induction false} Drained(d: Discipline, workers: nat, steps: seq<Step>, w: nat, more: seq<Step>)
    requires w < |Exec(d, Fresh(workers), steps).workers| && Exec(d, Fresh(workers), steps).workers[w].Exited?
    ensures var p := Exec(d, Fresh(workers), steps);
      && multiset(p.taken) + multiset(p.cancelled) == multiset(p.accepted)
      && (d.Fifo? ==> p.taken == p.accepted)
      && Exec(d, p, more).accepted == p.accepted
  {
    ReachedInv(d, workers, steps);
    var p := Exec(d, Fresh(workers), steps);
    assert p.stop && p.pending == [];
    NoneAfterStop(d, p, more);
    hide Exec, InHand, Indexed, Woken;
    assert p.taken + p.pending == p.taken;
  }

  lemma {:induction false} NoneInHand(ws: seq<Phase>)
    requires forall i :: 0 <= i < |ws| ==> ws[i].Exited?
    ensures InHand(ws) == multiset{}
    decreases |ws|
  {
    if ws != [] { NoneInHand(ws[..|ws| - 1]); }
  }

  /** After the destructor has joined all workers, of which there is one at least, every
      accepted task has run exactly once, save the cancelled timer events.  */
  lemma {:induction false} JoinedPool(d: Discipline, workers: nat, steps: seq<Step>)
    requires workers > 0
    requires var p := Exec(d, Fresh(workers), steps); forall i :: 0 <= i < |p.workers| ==> p.workers[i].Exited?
    ensures var p := Exec(d, Fresh(workers), steps);
      && multiset(p.ran) + multiset(p.cancelled) == multiset(p.accepted)
      && (!d.Timer? ==> multiset(p.ran) == multiset(p.accepted))
  {
    SameWorkers(d, workers, steps);
    Drained(d, workers, steps, 0, []);
    ReachedInv(d, workers, steps);
    var p := Exec(d, Fresh(workers), steps);
    NoneInHand(p.workers);
    if d.Fifo? { NeverCancelled(d, workers, steps); }
    hide Exec, InHand, Indexed, Woken, Numbered;
    assert multiset(p.taken) == multiset(p.ran);
  }

  lemma {:induction false} NeverCancelled(d: Discipline, workers: nat, steps: seq<Step>)
    requires !d.Timer?
    ensures Exec(d, Fresh(workers), steps).cancelled == []
    decreases |steps|
  {
    hide Next;
    if steps != [] {
      NeverCancelled(d, workers, steps[..|steps| - 1]);
      Kept(d, Exec(d, Fresh(workers), steps[..|steps| - 1]), steps[|steps| - 1]);
    }
  }

  // ---------------------------------------------------------------------
  // The order of execution
  // ---------------------------------------------------------------------

  /** FIFO: tasks are dequeued in the order in which they were accepted. */
  lemma {:induction false} FifoOrder(workers: nat, steps: seq<Step>)
    ensures var p := Exec(Fifo, Fresh(workers), steps); p.accepted == p.taken + p.pending
  {
    ReachedInv(Fifo, workers, steps);
  }

  /** A worker dequeues job j in this step. */
  ghost predicate Takes(d: Discipline, p: Pool, w: nat, j: Job) {
    EnterStep(d, p, w).taken == p.taken + [j]
  }

  lemma TakesFront(d: Discipline, p: Pool, w: nat, j: Job)
    requires Takes(d, p, w, j)
    ensures p.pending != [] && j == p.pending[Front(d, p.pending)]
  {
    assert (p.taken + [j])[|p.taken|] == j;
    assert |p.taken + [j]| != |p.taken|;
  }

  /** LIFO: when a task is dequeued, every task accepted after it was dequeued before. */
  lemma {:induction false} LifoNewest(workers: nat, steps: seq<Step>, w: nat, j: Job, later: Job)
    requires var p := Exec(Lifo, Fresh(workers), steps); Takes(Lifo, p, w, j) && later in p.accepted && later.no > j.no
    ensures later in Exec(Lifo, Fresh(workers), steps).taken
  {
    ReachedInv(Lifo, workers, steps);
    var p := Exec(Lifo, Fresh(workers), steps);
    hide Exec;
    TakesFront(Lifo, p, w, j);
    hide Takes, InHand, Woken, Numbered;
    assert later in multiset(p.accepted);
    assert later !in p.pending;
    assert later in multiset(p.taken);
  }

  /** Timer: tasks_ and id_it_map_ are in bijection, and no two pending events have the same
      trigger time.  */
  lemma {:induction false} TimerBijection(workers: nat, steps: seq<Step>)
    ensures var p := Exec(Timer, Fresh(workers), steps);
      && (forall id :: id in p.ids ==> p.ids[id] in p.pending && p.ids[id].id == id)
      && (forall j :: j in p.pending ==> j.id in p.ids && p.ids[j.id] == j)
      && (forall i, k :: 0 <= i < k < |p.pending| ==> p.pending[i].due != p.pending[k].due)
  {
    ReachedInv(Timer, workers, steps);
  }

  /** Timer: the event dequeued triggers before every other pending event. */
  lemma {:induction false} TimerEarliest(workers: nat, steps: seq<Step>, w: nat, j: Job, other: Job)
    requires var p := Exec(Timer, Fresh(workers), steps); Takes(Timer, p, w, j) && other in p.pending && other != j
    ensures j.due < other.due
  {
    ReachedInv(Timer, workers, steps);
    var p := Exec(Timer, Fresh(workers), steps);
    hide Exec;
    TakesFront(Timer, p, w, j);
    hide Takes, InHand, Woken, Numbered, Indexed;
  }

  lemma {:induction false} StaysCancelled(d: Discipline, p: Pool, more: seq<Step>, j: Job)
    requires j in p.cancelled
    ensures j in Exec(d, p, more).cancelled
    decreases |more|
  {
    hide Next;
    if more != [] {
      StaysCancelled(d, p, more[..|more| - 1], j);
      Kept(d, Exec(d, p, more[..|more| - 1]), more[|more| - 1]);
    }
  }

  lemma {:induction false} ExecAppend(d: Discipline, p: Pool, steps: seq<Step>, more: seq<Step>)
    ensures Exec(d, p, steps + more) == Exec(d, Exec(d, p, steps), more)
    decreases |more|
  {
    hide Next;
    if more == [] {
      assert steps + more == steps;
    } else {
      var n := |more| - 1;
      assert (steps + more)[..|steps + more| - 1] == steps + more[..n];
      ExecAppend(d, p, steps, more[..n]);
    }
  }

  ghost predicate DistinctIds(jobs: seq<Job>) {
    forall i, k :: 0 <= i < k < |jobs| ==> jobs[i].id != jobs[k].id
  }

  lemma AddDistinct(p: Pool, s: Step)
    requires DistinctIds(p.accepted) && AllUsed(p.accepted, p.used)
    ensures DistinctIds(Next(Timer, p, s).accepted)
  {
    hide InsertAt, RemoveAt, Slot, Front, IndexOf, NoneSleeps, WakeAll, SameDue;
  }

  /** Timer: no id is accepted twice. */
  lemma {:induction false} AcceptedIdsDistinct(workers: nat, steps: seq<Step>)
    ensures DistinctIds(Exec(Timer, Fresh(workers), steps).accepted)
    decreases |steps|
  {
    hide Next;
    if steps != [] {
      var front := steps[..|steps| - 1];
      AcceptedIdsDistinct(workers, front);
      ReachedInv(Timer, workers, front);
      AddDistinct(Exec(Timer, Fresh(workers), front), steps[|steps| - 1]);
    }
  }

  /** Some job of the sequence has this id. */
  ghost predicate Among(jobs: seq<Job>, id: nat) {
    exists j :: j in jobs && j.id == id
  }

  /** Two jobs accepted under one id are one job. */
  lemma SameJob(accepted: seq<Job>, x: Job, y: Job)
    requires DistinctIds(accepted) && x in accepted && y in accepted && x.id == y.id
    ensures x == y
  {
    var i :| 0 <= i < |accepted| && accepted[i] == x;
    var k :| 0 <= k < |accepted| && accepted[k] == y;
    assert i == k;
  }

  /** The three containers do not share an id. */
  lemma IdsApart(p: Pool, x: Job, y: Job)
    requires Conserved(p) && Numbered(p.accepted) && DistinctIds(p.accepted) && x.id == y.id
    ensures !(x in p.pending && y in p.taken) && !(x in p.pending && y in p.cancelled)
    ensures !(x in p.taken && y in p.cancelled)
  {
    hide DistinctIds, InHand;
    assert x in p.pending ==> x in multiset(p.pending);
    assert x in p.taken ==> x in multiset(p.taken);
    assert y in p.taken ==> y in multiset(p.taken);
    assert y in p.cancelled ==> y in multiset(p.cancelled);
    assert forall z :: z in p.accepted <==> z in multiset(p.accepted);
    if x in p.accepted && y in p.accepted {
      SameJob(p.accepted, x, y);
      NumberedOnce(p.accepted, x);
    }
  }

  lemma AmongAccepted(p: Pool, id: nat)
    requires Conserved(p)
    ensures Among(p.accepted, id) <==> Among(p.pending, id) || Among(p.cancelled, id) || Among(p.taken, id)
  {
    hide InHand;
    forall z ensures z in p.accepted <==> z in p.pending || z in p.cancelled || z in p.taken {
      assert z in p.accepted <==> z in multiset(p.accepted);
      assert z in p.pending <==> z in multiset(p.pending);
      assert z in p.cancelled <==> z in multiset(p.cancelled);
      assert z in p.taken <==> z in multiset(p.taken);
    }
    hide Conserved;
  }

  /** Timer: in every reachable state an accepted id is exactly one of pending, cancelled and
      taken, an id that was not accepted is none of them, and id_it_map_ knows the pending. */
  lemma {:induction false} EachIdOnce(workers: nat, steps: seq<Step>, id: nat)
    ensures var p := Exec(Timer, Fresh(workers), steps);
      && (Among(p.accepted, id) <==> Among(p.pending, id) || Among(p.cancelled, id) || Among(p.taken, id))
      && !(Among(p.pending, id) && Among(p.cancelled, id))
      && !(Among(p.pending, id) && Among(p.taken, id))
      && !(Among(p.cancelled, id) && Among(p.taken, id))
      && (id in p.ids <==> Among(p.pending, id))
  {
    ReachedInv(Timer, workers, steps);
    AcceptedIdsDistinct(workers, steps);
    var p := Exec(Timer, Fresh(workers), steps);
    hide Exec, InHand, InOrder, Woken, Conserved, Numbered, DistinctIds;
    AmongAccepted(p, id);
    forall x: Job, y: Job | x.id == y.id
      ensures !(x in p.pending && y in p.taken) && !(x in p.pending && y in p.cancelled)
      ensures !(x in p.taken && y in p.cancelled)
    {
      IdsApart(p, x, y);
    }
  }

  /** Timer: cancelling a pending id takes its event out of the pool for good: in every
      continuation no event with that id is pending, dequeued or executed.  */
  lemma {:induction false} CancelledNeverRuns(workers: nat, steps: seq<Step>, id: nat, more: seq<Step>)
    requires id in Exec(Timer, Fresh(workers), steps).ids
    ensures var q := Exec(Timer, CancelStep(Timer, Exec(Timer, Fresh(workers), steps), id), more);
      forall j :: j in q.taken || j in q.ran || j in q.pending ==> j.id != id
  {
    var p := Exec(Timer, Fresh(workers), steps);
    var all := steps + [Cancel(id)];
    var c := CancelStep(Timer, p, id);
    var q := Exec(Timer, c, more);
    ReachedInv(Timer, workers, steps);
    assert p.ids[id] in p.pending && p.ids[id].id == id;
    assert p.ids[id] in c.cancelled;
    assert all[..|all| - 1] == steps;
    assert Exec(Timer, Fresh(workers), all) == c;
    hide Exec, CancelStep, Inv, Next;
    StaysCancelled(Timer, c, more, p.ids[id]);
    ExecAppend(Timer, Fresh(workers), all, more);
    EachIdOnce(workers, all + more, id);
    assert Among(q.cancelled, id);
    RanTaken(workers, all + more);
    forall j | j in q.taken || j in q.ran || j in q.pending ensures j.id != id {
      assert j.id == id ==> Among(q.taken, id) || Among(q.pending, id);
    }
  }

  lemma RanTaken(workers: nat, steps: seq<Step>)
    ensures var p := Exec(Timer, Fresh(workers), steps); forall j :: j in p.ran ==> j in p.taken
  {
    ReachedInv(Timer, workers, steps);
    var p := Exec(Timer, Fresh(workers), steps);
    hide Exec, InHand, InOrder, Indexed, Woken, Numbered;
    forall j | j in p.ran ensures j in p.taken {
      assert j in multiset(p.ran);
      assert j in multiset(p.taken);
    }
  }

  // ---------------------------------------------------------------------
  // Stopping ends
  // ---------------------------------------------------------------------

  /** What a stopped pool can still go through. */
  function Measure(p: Pool): nat {
    3 * |p.pending| + Sum(Work, p.workers) + p.owed + p.owedAll
  }

  /** A step that is neither a further stop nor the drawing or rejection of a timer id. */
  predicate OfPool(s: Step) {
    !s.Stop? && !s.Draw? && !s.Add?
  }

  /** The work left after one worker has moved on. */
  lemma WorkLeft(ws: seq<Phase>, w: nat, ph: Phase)
    requires w < |ws|
    ensures Sum(Work, ws[w := ph]) == Sum(Work, ws) + Weight(Work, ph) - Weight(Work, ws[w])
  {
    hide Sum, Weight;
    SumUpdate(Work, ws, w, ph);
  }

  lemma DrainEnter(d: Discipline, p: Pool, w: nat)
    requires p.stop && EnterStep(d, p, w) != p
    ensures Measure(EnterStep(d, p, w)) < Measure(p)
  {
    hide Sum;
    var p' := EnterStep(d, p, w);
    WorkLeft(p.workers, w, p'.workers[w]);
    if p.pending != [] {
      assert |p'.pending| == |p.pending| - 1;
    }
  }

  lemma DrainWorker(p: Pool, w: nat, p': Pool)
    requires w < |p.workers| && (p.workers[w].Running? || p.workers[w].Sleeping?)
    requires p' == p.(workers := p.workers[w := Ready], owed := p'.owed, ran := p'.ran) && p'.owed <= p.owed
    ensures Measure(p') < Measure(p)
  {
    hide Sum;
    WorkLeft(p.workers, w, Ready);
  }

  lemma DrainStep(d: Discipline, p: Pool, s: Step)
    requires p.stop && OfPool(s) && Next(d, p, s) != p
    ensures Measure(Next(d, p, s)) < Measure(p)
  {
    hide Sum, WakeAll, EnterStep;
    match s
    case Enter(w) => DrainEnter(d, p, w);
    case Finish(w) => hide Measure; DrainWorker(p, w, FinishStep(p, w));
    case Spurious(w) => hide Measure; DrainWorker(p, w, SpuriousStep(p, w));
    case NotifyOne(w) => if !NoneSleeps(p.workers) { hide Measure, NoneSleeps; DrainWorker(p, w, NotifyOneStep(p, w)); }
    case NotifyAll => WakeAllSums(p.workers);
    case Cancel(id) => assert |CancelStep(d, p, id).pending| == |p.pending| - 1;
  }

  /** Every step of the run that p goes through changes the state. */
  ghost predicate Effective(d: Discipline, p: Pool, more: seq<Step>) {
    forall n :: 0 <= n < |more| ==> OfPool(more[n]) && Next(d, Exec(d, p, more[..n]), more[n]) != Exec(d, p, more[..n])
  }

  /** However the workers, notifiers and cancellers of a stopped pool are scheduled, and
      however often sleepers wake for no reason, they can do only so much.  */
  lemma {:induction false} DrainBound(d: Discipline, p: Pool, more: seq<Step>)
    requires p.stop && Effective(d, p, more)
    ensures |more| + Measure(Exec(d, p, more)) <= Measure(p)
    decreases |more|
  {
    hide Next, Measure;
    if more != [] {
      var n := |more| - 1;
      var front := more[..n];
      forall m | 0 <= m < n
        ensures OfPool(front[m]) && Next(d, Exec(d, p, front[..m]), front[m]) != Exec(d, p, front[..m])
      {
        assert front[..m] == more[..m];
      }
      DrainBound(d, p, front);
      NoneAfterStop(d, p, front);
      DrainStep(d, Exec(d, p, front), more[n]);
    }
  }

  /** While a worker of a stopped pool has not exited, the pool has an effective step.  */
  lemma {:induction false} DrainGoesOn(d: Discipline, workers: nat, steps: seq<Step>, w: nat) returns (s: Step)
    requires Exec(d, Fresh(workers), steps).stop && w < |Exec(d, Fresh(workers), steps).workers|
    requires !Exec(d, Fresh(workers), steps).workers[w].Exited?
    ensures OfPool(s) && Next(d, Exec(d, Fresh(workers), steps), s) != Exec(d, Fresh(workers), steps)
  {
    var p := Exec(d, Fresh(workers), steps);
    NoLostWakeup(d, workers, steps);
    hide Exec, Sum;
    match p.workers[w]
    case Ready => s := Enter(w); assert EnterStep(d, p, w).workers[w] != Ready;
    case Running(j) => s := Finish(w); assert FinishStep(p, w).workers[w] == Ready;
    case Sleeping => s := NotifyAll; assert NotifyAllStep(p).owedAll == p.owedAll - 1;
  }

  /** Nothing that workers, notifiers, spurious wakeups or cancellers do changes p. */
  ghost predicate AtRest(d: Discipline, p: Pool) {
    forall s :: OfPool(s) ==> Next(d, p, s) == p
  }

  /** The joins return: after a call of stop a pool comes to rest in boundedly many effective
      steps, whatever the schedule, and at rest every worker has exited; if there was one, every
      accepted task has then run exactly once unless it was cancelled.  */
  lemma {:induction false} DrainEnds(d: Discipline, workers: nat, steps: seq<Step>, more: seq<Step>)
    requires Stop in steps
    requires var p := Exec(d, Fresh(workers), steps); Effective(d, p, more) && AtRest(d, Exec(d, p, more))
    ensures var p := Exec(d, Fresh(workers), steps);
      var q := Exec(d, p, more);
      && |more| <= Measure(p)
      && (forall w :: 0 <= w < |q.workers| ==> q.workers[w].Exited?)
      && (workers > 0 ==> multiset(q.ran) + multiset(q.cancelled) == multiset(q.accepted))
  {
    var p := Exec(d, Fresh(workers), steps);
    var all := steps + more;
    StoppedIff(d, workers, steps);
    DrainBound(d, p, more);
    NoneAfterStop(d, p, more);
    ExecAppend(d, Fresh(workers), steps, more);
    hide Exec, Next, Effective, OfPool, Measure;
    var q := Exec(d, Fresh(workers), all);
    forall w: nat | w < |q.workers| ensures q.workers[w].Exited? {
      if !q.workers[w].Exited? { var s := DrainGoesOn(d, workers, all, w); }
    }
    if workers > 0 { JoinedPool(d, workers, all); }
  }
}
