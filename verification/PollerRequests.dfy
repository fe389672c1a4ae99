/** What becomes of the send, close and control requests that application threads push to the
    pollers: which of them find their session.  */
module PollerRequests {
  import opened Wrappers
  import opened Poller

  predicate Tabled(p: Place) {
    p.Connecting? || p.Established?
  }

  /** The poller has the session: established, connecting, or on its way in the queue. */
  ghost predicate Placed(s: Shard, id: nat) {
    id in s.sessions || id in s.connecting.Values || Arrives(s.queue, id)
  }

  // ---------------------------------------------------------------------
  // The history of the queues
  // ---------------------------------------------------------------------

  function Marked(mark: seq<bool>, before: nat, after: nat, placed: bool): seq<bool> {
    if after > before then mark + [placed] else if after < before && mark != [] then mark[1..] else mark
  }

  ghost function MarkStep(s: Net, marks: seq<seq<bool>>, step: Step): seq<seq<bool>> {
    var s' := Next(s, step);
    seq(|s'.pollers|, q requires 0 <= q < |s'.pollers| =>
      if q >= |s.pollers| || q >= |marks| then []
      else
        var placed := step.Push? && Placed(s.pollers[q], step.id);
        Marked(marks[q], |s.pollers[q].queue|, |s'.pollers[q].queue|, placed))
  }

  /** Beside every queue of the run, for each event in it, whether it is a request that was
      pushed when its poller had the session.  */
  ghost function Marks(steps: seq<Step>): seq<seq<bool>> {
    if steps == [] then []
    else
      var front := steps[..|steps| - 1];
      MarkStep(Exec(front), Marks(front), steps[|steps| - 1])
  }

  ghost predicate ArrivesBefore(queue: seq<Event>, id: nat, k: nat) {
    exists m :: 0 <= m < k && m < |queue| && Arrival(queue[m]) && queue[m].id == id
  }

  /** A marked request whose session is still live comes after the session's arrival. */
  ghost predicate Behind(queue: seq<Event>, k: nat, nextId: nat, ledger: map<nat, Place>)
    requires k < |queue|
  {
    var id := queue[k].id;
    id < nextId && (id in ledger ==> Tabled(ledger[id]) || ArrivesBefore(queue, id, k))
  }

  ghost predicate RequestsOk(queue: seq<Event>, mark: seq<bool>, nextId: nat, ledger: map<nat, Place>) {
    && |mark| == |queue|
    && (forall k :: 0 <= k < |queue| && mark[k] ==> queue[k].Request? && Behind(queue, k, nextId, ledger))
  }

  ghost predicate MarksOk(s: Net, marks: seq<seq<bool>>) {
    && |marks| == |s.pollers|
    && (forall q :: 0 <= q < |marks| ==> RequestsOk(s.pollers[q].queue, marks[q], s.nextId, s.ledger))
  }

  // ---------------------------------------------------------------------
  // What a step does to places and queues
  // ---------------------------------------------------------------------

  /** A session at a poller stays where it is, reaches a table or ends; ids are not reused. */
  ghost predicate Forward(s: Net, s': Net) {
    && s.nextId <= s'.nextId
    && (forall id :: id in s'.ledger && id < s.nextId ==> id in s.ledger)
    && (forall id :: id in s'.ledger && id in s.ledger && AtPoller(s.ledger[id]) ==>
          s'.ledger[id] == s.ledger[id] || Tabled(s'.ledger[id]))
  }

  /** What a step makes of the place of a session that is at a poller. */
  ghost predicate PlaceMoves(p: Place, ledger': map<nat, Place>, id: nat) {
    AtPoller(p) && id in ledger' ==> ledger'[id] == p || Tabled(ledger'[id])
  }

  lemma PutPlace(s: Net, x: nat, id: nat)
    requires Inv(s) && id in s.ledger
    ensures PlaceMoves(s.ledger[id], PutStep(s, x).ledger, id)
  {
    hide Inv, ShardOf, Pushed, AddSession, Insert;
    MapsPlace(s, x);
  }

  lemma FlushPlace(s: Net, x: nat, id: nat)
    requires Inv(s) && id in s.ledger
    ensures PlaceMoves(s.ledger[id], FlushStep(s, x).ledger, id)
  {
    hide Inv, ShardOf, Pushed;
    MapsPlace(s, x);
  }

  lemma HandledPlace(s: Net, q: nat, answer: Answer, id: nat)
    requires id in s.ledger
    ensures PlaceMoves(s.ledger[id], HandleStep(s, q, answer).ledger, id)
  {
    hide AddSession, RemoveSession, Insert, FreeFor;
  }

  lemma StepPlace(s: Net, step: Step, id: nat)
    requires Inv(s) && id in s.ledger && (step.Alloc? ==> id != s.nextId)
    ensures PlaceMoves(s.ledger[id], Next(s, step).ledger, id)
  {
    hide Inv, PutStep, FlushStep, HandleStep, AddSession, RemoveSession, FreeFor;
    match step
    case Put(x) => PutPlace(s, x, id);
    case Flush(x) => FlushPlace(s, x, id);
    case Handle(q, answer) => HandledPlace(s, q, answer, id);
    case _ =>
  }

  lemma StepForward(s: Net, step: Step)
    requires Inv(s)
    ensures Forward(s, Next(s, step))
  {
    var s' := Next(s, step);
    InvParts(s);
    assert s.nextId <= s'.nextId by { IdsGrow(s, step); }
    hide Inv, Next, EndsBy, ShardOk, MapsOk, LedgerOk;
    forall id | id in s'.ledger && id < s.nextId ensures id in s.ledger { EndingStep(s, step, id); }
    forall id | id in s'.ledger && id in s.ledger && AtPoller(s.ledger[id])
      ensures s'.ledger[id] == s.ledger[id] || Tabled(s'.ledger[id])
    {
      StepPlace(s, step, id);
    }
  }

  lemma IdsGrow(s: Net, step: Step)
    ensures s.nextId <= Next(s, step).nextId
  {
    hide FreeFor, AddSession, RemoveSession, Insert, Pushed, ShardOf;
  }

  /** What a step can do to one queue. */
  ghost predicate QueueMoves(queue: seq<Event>, queue': seq<Event>, step: Step, ledger': map<nat, Place>) {
    || queue' == queue
    || (|queue'| == |queue| + 1 && queue' == queue + [queue'[|queue|]] &&
        (if step.Push? then queue'[|queue|] == Request(step.id, step.ask) else Arrival(queue'[|queue|])))
    || (queue != [] && queue' == queue[1..] && !step.Push? &&
        (Arrival(queue[0]) && queue[0].id in ledger' ==> Tabled(ledger'[queue[0].id])))
  }

  lemma Appends(queue: seq<Event>, e: Event, step: Step, ledger': map<nat, Place>)
    requires if step.Push? then e == Request(step.id, step.ask) else Arrival(e)
    ensures QueueMoves(queue, queue + [e], step, ledger')
  {
    assert (queue + [e])[|queue|] == e;
  }

  lemma Stays(queue: seq<Event>, step: Step, ledger': map<nat, Place>)
    ensures QueueMoves(queue, queue, step, ledger')
  {
  }

  lemma Pops(queue: seq<Event>, step: Step, ledger': map<nat, Place>)
    requires queue != [] && !step.Push?
    requires (Arrival(queue[0]) && queue[0].id in ledger' ==> Tabled(ledger'[queue[0].id]))
    ensures QueueMoves(queue, queue[1..], step, ledger')
  {
  }

  lemma PutQueue(s: Net, x: nat, q: nat)
    requires q < |s.pollers|
    ensures |PutStep(s, x).pollers| == |s.pollers|
    ensures QueueMoves(s.pollers[q].queue, PutStep(s, x).pollers[q].queue, Put(x), PutStep(s, x).ledger)
  {
    hide ShardOf, Insert, QueueMoves;
    var queue, ledger' := s.pollers[q].queue, PutStep(s, x).ledger;
    Stays(queue, Put(x), ledger');
    if x in s.hand && s.hand[x].FromApi? {
      Appends(queue, AddSock(x, s.hand[x].handle), Put(x), ledger');
    } else if x in s.hand && s.hand[x].FromAsync? {
      Appends(queue, AsyncConn(x), Put(x), ledger');
    } else if x in s.hand {
      Appends(queue, TakeOver(x, s.hand[x].handle), Put(x), ledger');
    }
  }

  lemma FlushQueue(s: Net, x: nat, q: nat)
    requires q < |s.pollers|
    ensures |FlushStep(s, x).pollers| == |s.pollers|
    ensures QueueMoves(s.pollers[q].queue, FlushStep(s, x).pollers[q].queue, Flush(x), FlushStep(s, x).ledger)
  {
    hide ShardOf, QueueMoves;
    var queue, ledger' := s.pollers[q].queue, FlushStep(s, x).ledger;
    Stays(queue, Flush(x), ledger');
    if x in s.pendingSocks {
      Appends(queue, AddSock(x, s.pendingSocks[x]), Flush(x), ledger');
    } else {
      Appends(queue, AsyncConn(x), Flush(x), ledger');
    }
  }

  /** Poller r takes the first event off its own queue, or none. */
  lemma HandledShard(s: Net, r: nat, answer: Answer)
    requires r < |s.pollers| && s.pollers[r].queue != []
    ensures var s' := HandleStep(s, r, answer);
      && |s'.pollers| == |s.pollers| && s'.pollers == s.pollers[r := s'.pollers[r]]
      && (s'.pollers[r].queue == s.pollers[r].queue || s'.pollers[r].queue == s.pollers[r].queue[1..])
  {
    hide FreeFor, Insert;
  }

  lemma HandledHead(s: Net, r: nat, answer: Answer)
    requires r < |s.pollers| && s.pollers[r].queue != []
    ensures var e, ledger' := s.pollers[r].queue[0], HandleStep(s, r, answer).ledger;
      HandleStep(s, r, answer) == s || (Arrival(e) && e.id in ledger' ==> Tabled(ledger'[e.id]))
  {
    hide FreeFor, Insert, AddSession, RemoveSession;
  }

  lemma HandledQueue(s: Net, r: nat, answer: Answer, q: nat)
    requires q < |s.pollers|
    ensures |HandleStep(s, r, answer).pollers| == |s.pollers|
    ensures QueueMoves(s.pollers[q].queue, HandleStep(s, r, answer).pollers[q].queue, Handle(r, answer),
      HandleStep(s, r, answer).ledger)
  {
    hide QueueMoves;
    var queue, s' := s.pollers[q].queue, HandleStep(s, r, answer);
    Stays(queue, Handle(r, answer), s'.ledger);
    if r < |s.pollers| && s.pollers[r].queue != [] {
      hide HandleStep;
      HandledShard(s, r, answer);
      HandledHead(s, r, answer);
      if r == q && s' != s { Pops(queue, Handle(r, answer), s'.ledger); }
    }
  }

  lemma StepQueue(s: Net, step: Step, q: nat)
    requires q < |s.pollers|
    ensures |Next(s, step).pollers| == |s.pollers|
    ensures QueueMoves(s.pollers[q].queue, Next(s, step).pollers[q].queue, step, Next(s, step).ledger)
  {
    hide ShardOf, FreeFor, Insert, PutStep, FlushStep, HandleStep;
    match step
    case Put(x) => PutQueue(s, x, q);
    case Flush(x) => FlushQueue(s, x, q);
    case Handle(r, answer) => HandledQueue(s, r, answer, q);
    case _ =>
  }

  // ---------------------------------------------------------------------
  // Preservation
  // ---------------------------------------------------------------------

  /** The arrival that comes before a marked request is still in the queue, or is through. */
  lemma StillBehind(s: Net, s': Net, q: nat, k: nat, queue': seq<Event>, k': nat)
    requires Forward(s, s') && q < |s.pollers| && k < |s.pollers[q].queue| && k' < |queue'|
    requires QueueOk(s.pollers[q].queue, q, |s.pollers|, s.ledger) && Behind(s.pollers[q].queue, k, s.nextId, s.ledger)
    requires queue'[k'] == s.pollers[q].queue[k]
    requires forall m :: 0 <= m < k && Arrival(s.pollers[q].queue[m]) ==>
      || ArrivesBefore(queue', s.pollers[q].queue[m].id, k')
      || s.pollers[q].queue[m].id !in s'.ledger || Tabled(s'.ledger[s.pollers[q].queue[m].id])
    ensures Behind(queue', k', s'.nextId, s'.ledger)
  {
    var queue := s.pollers[q].queue;
    var id := queue[k].id;
    if id in s'.ledger && !Tabled(s.ledger[id]) {
      var m :| 0 <= m < k && m < |queue| && Arrival(queue[m]) && queue[m].id == id;
    }
  }

  lemma KeptBehind(s: Net, s': Net, q: nat, k: nat, queue': seq<Event>)
    requires Forward(s, s') && q < |s.pollers| && k < |s.pollers[q].queue| && s.pollers[q].queue <= queue'
    requires QueueOk(s.pollers[q].queue, q, |s.pollers|, s.ledger) && Behind(s.pollers[q].queue, k, s.nextId, s.ledger)
    ensures Behind(queue', k, s'.nextId, s'.ledger)
  {
    var queue := s.pollers[q].queue;
    forall m | 0 <= m < k && Arrival(queue[m]) ensures ArrivesBefore(queue', queue[m].id, k) {
      assert queue'[m] == queue[m];
    }
    hide QueueOk, Forward, Behind, ArrivesBefore;
    StillBehind(s, s', q, k, queue', k);
  }

  lemma PoppedBehind(s: Net, s': Net, q: nat, k: nat)
    requires Forward(s, s') && q < |s.pollers| && 1 <= k < |s.pollers[q].queue|
    requires QueueOk(s.pollers[q].queue, q, |s.pollers|, s.ledger) && Behind(s.pollers[q].queue, k, s.nextId, s.ledger)
    requires var e := s.pollers[q].queue[0]; Arrival(e) && e.id in s'.ledger ==> Tabled(s'.ledger[e.id])
    ensures Behind(s.pollers[q].queue[1..], k - 1, s'.nextId, s'.ledger)
  {
    var queue := s.pollers[q].queue;
    var queue' := queue[1..];
    forall m | 1 <= m < k && Arrival(queue[m]) ensures ArrivesBefore(queue', queue[m].id, k - 1) {
      assert queue'[m - 1] == queue[m];
    }
    hide QueueOk, Forward, Behind, ArrivesBefore;
    StillBehind(s, s', q, k, queue', k - 1);
  }

  /** A request pushed while its poller has the session comes after the session's arrival. */
  lemma PushedBehind(s: Net, q: nat, e: Event)
    requires Inv(s) && q < |s.pollers| && e.Request? && Placed(s.pollers[q], e.id)
    ensures Behind(s.pollers[q].queue + [e], |s.pollers[q].queue|, s.nextId, s.ledger)
  {
    InvParts(s);
    hide Inv, MapsOk, LedgerOk, ShardOf;
    var queue := s.pollers[q].queue;
    assert ShardOk(s.pollers[q], q, |s.pollers|, s.ledger);
    if Arrives(queue, e.id) {
      var m :| 0 <= m < |queue| && Arrival(queue[m]) && queue[m].id == e.id;
      assert (queue + [e])[m] == queue[m];
    }
  }

  lemma QueueStays(s: Net, s': Net, q: nat, mark: seq<bool>)
    requires Forward(s, s') && q < |s.pollers| && QueueOk(s.pollers[q].queue, q, |s.pollers|, s.ledger)
    requires RequestsOk(s.pollers[q].queue, mark, s.nextId, s.ledger)
    ensures RequestsOk(s.pollers[q].queue, mark, s'.nextId, s'.ledger)
  {
    hide QueueOk, Forward, Behind;
    forall k | 0 <= k < |mark| && mark[k] ensures Behind(s.pollers[q].queue, k, s'.nextId, s'.ledger) {
      KeptBehind(s, s', q, k, s.pollers[q].queue);
    }
  }

  lemma QueueGrows(s: Net, s': Net, q: nat, mark: seq<bool>, e: Event, placed: bool)
    requires Inv(s) && Forward(s, s') && q < |s.pollers| && QueueOk(s.pollers[q].queue, q, |s.pollers|, s.ledger)
    requires RequestsOk(s.pollers[q].queue, mark, s.nextId, s.ledger)
    requires placed ==> e.Request? && Placed(s.pollers[q], e.id) && s'.nextId == s.nextId && s'.ledger == s.ledger
    ensures RequestsOk(s.pollers[q].queue + [e], mark + [placed], s'.nextId, s'.ledger)
  {
    hide Inv, QueueOk, Forward, Behind, Placed;
    var queue := s.pollers[q].queue;
    forall k | 0 <= k < |mark| && mark[k] ensures Behind(queue + [e], k, s'.nextId, s'.ledger) {
      KeptBehind(s, s', q, k, queue + [e]);
    }
    if placed { PushedBehind(s, q, e); }
  }

  lemma QueueShrinks(s: Net, s': Net, q: nat, mark: seq<bool>)
    requires Forward(s, s') && q < |s.pollers| && QueueOk(s.pollers[q].queue, q, |s.pollers|, s.ledger)
    requires RequestsOk(s.pollers[q].queue, mark, s.nextId, s.ledger) && s.pollers[q].queue != []
    requires var e := s.pollers[q].queue[0]; Arrival(e) && e.id in s'.ledger ==> Tabled(s'.ledger[e.id])
    ensures RequestsOk(s.pollers[q].queue[1..], mark[1..], s'.nextId, s'.ledger)
  {
    hide QueueOk, Forward, Behind, Tabled;
    var queue := s.pollers[q].queue;
    forall k | 0 <= k < |mark| - 1 && mark[1..][k]
      ensures queue[1..][k].Request? && Behind(queue[1..], k, s'.nextId, s'.ledger)
    {
      assert mark[k + 1] && queue[1..][k] == queue[k + 1];
      PoppedBehind(s, s', q, k + 1);
    }
  }

  lemma MarkedShard(s: Net, step: Step, q: nat, mark: seq<bool>)
    requires Inv(s) && q < |s.pollers| && RequestsOk(s.pollers[q].queue, mark, s.nextId, s.ledger)
    ensures var s' := Next(s, step);
      && |s'.pollers| == |s.pollers|
      && var queue, queue' := s.pollers[q].queue, s'.pollers[q].queue;
      && var placed := step.Push? && Placed(s.pollers[q], step.id);
      RequestsOk(queue', Marked(mark, |queue|, |queue'|, placed), s'.nextId, s'.ledger)
  {
    InvParts(s);
    assert ShardOk(s.pollers[q], q, |s.pollers|, s.ledger);
    StepForward(s, step);
    StepQueue(s, step, q);
    hide Inv, QueueOk, TablesOk, Forward, RequestsOk, Placed, MapsOk, LedgerOk;
    var s' := Next(s, step);
    var queue, queue' := s.pollers[q].queue, s'.pollers[q].queue;
    assert step.Push? ==> s'.nextId == s.nextId && s'.ledger == s.ledger;
    hide Next;
    assert |mark| == |queue| by { MarkLength(queue, mark, s.nextId, s.ledger); }
    if |queue'| == |queue| {
      QueueStays(s, s', q, mark);
    } else if |queue'| > |queue| {
      QueueGrows(s, s', q, mark, queue'[|queue|], step.Push? && Placed(s.pollers[q], step.id));
    } else {
      QueueShrinks(s, s', q, mark);
    }
  }

  lemma MarkLength(queue: seq<Event>, mark: seq<bool>, nextId: nat, ledger: map<nat, Place>)
    requires RequestsOk(queue, mark, nextId, ledger)
    ensures |mark| == |queue|
  {
  }

  lemma MarkStepOk(s: Net, marks: seq<seq<bool>>, step: Step)
    requires Inv(s) && MarksOk(s, marks)
    ensures MarksOk(Next(s, step), MarkStep(s, marks, step))
  {
    hide Inv, Next, RequestsOk, Placed, Marked;
    var s' := Next(s, step);
    if |s.pollers| == 0 {
      NewQueues(s, step);
      EmptyMarks(s');
    } else {
      StepQueue(s, step, 0);
      forall q | 0 <= q < |s'.pollers|
        ensures RequestsOk(s'.pollers[q].queue, MarkStep(s, marks, step)[q], s'.nextId, s'.ledger)
      {
        MarkedShard(s, step, q, marks[q]);
      }
    }
  }

  lemma EmptyMarks(s: Net)
    requires forall q :: 0 <= q < |s.pollers| ==> s.pollers[q].queue == []
    ensures forall q :: 0 <= q < |s.pollers| ==> RequestsOk(s.pollers[q].queue, [], s.nextId, s.ledger)
  {
  }

  lemma NewQueues(s: Net, step: Step)
    requires |s.pollers| == 0
    ensures var s' := Next(s, step); forall q :: 0 <= q < |s'.pollers| ==> s'.pollers[q].queue == []
  {
  }

  lemma {:induction false} ReachedMarks(steps: seq<Step>)
    ensures MarksOk(Exec(steps), Marks(steps))
    decreases |steps|
  {
    if steps != [] {
      var front := steps[..|steps| - 1];
      hide Next, Inv, MarksOk, MarkStep;
      ReachedMarks(front);
      ReachedInv(front);
      MarkStepOk(Exec(front), Marks(front), steps[|steps| - 1]);
    }
  }

  // ---------------------------------------------------------------------
  // Results
  // ---------------------------------------------------------------------

  /** A request pushed when its poller had the session never overtakes the session's arrival:
      when it is handled it finds the session if and only if that has not ended meanwhile and
      is not an asynchronous connection still to be made.  */
  lemma {:induction false} RequestFinds(steps: seq<Step>, q: nat)
    requires q < |Exec(steps).pollers| && Exec(steps).pollers[q].queue != [] && q < |Marks(steps)|
    requires Marks(steps)[q] != []
    requires Marks(steps)[q][0]
    ensures var s := Exec(steps);
      var shard := s.pollers[q];
      var id := shard.queue[0].id;
      shard.queue[0].Request? && (id in shard.sessions <==> id in s.ledger && id !in shard.connecting.Values)
  {
    ReachedInv(steps);
    ReachedMarks(steps);
    var s := Exec(steps);
    hide Exec, Marks, Inv;
    InvParts(s);
    assert RequestsOk(s.pollers[q].queue, Marks(steps)[q], s.nextId, s.ledger);
    assert Behind(s.pollers[q].queue, 0, s.nextId, s.ledger);
    HeadFinds(s.pollers[q], q, |s.pollers|, s.nextId, s.ledger);
  }

  lemma HeadFinds(shard: Shard, q: nat, n: nat, nextId: nat, ledger: map<nat, Place>)
    requires ShardOk(shard, q, n, ledger) && shard.queue != [] && Behind(shard.queue, 0, nextId, ledger)
    ensures var id := shard.queue[0].id; id in shard.sessions <==> id in ledger && id !in shard.connecting.Values
  {
    hide ShardOf;
    var id := shard.queue[0].id;
    assert id in ledger && ledger[id].Connecting? ==> shard.connecting[ledger[id].handle] == id;
  }

  /** A request to a session that is still connecting is dropped, a close as well: but for its
      own queue nothing changes, and the connection goes on to succeed.  */
  lemma ConnectingIgnores(steps: seq<Step>, q: nat, answer: Answer, h: nat)
    requires q < |Exec(steps).pollers| && Exec(steps).pollers[q].queue != [] && Exec(steps).pollers[q].queue[0].Request?
    requires var shard := Exec(steps).pollers[q]; h in shard.connecting && shard.connecting[h] == shard.queue[0].id
    ensures var s := Exec(steps);
      var shard := s.pollers[q];
      var s' := Next(s, Handle(q, answer));
      && s' == s.(pollers := s.pollers[q := shard.(queue := shard.queue[1..])])
      && shard.queue[0].id in Next(s', Writable(q, h, true)).pollers[q].sessions
  {
    ReachedInv(steps);
    var s := Exec(steps);
    hide Exec;
    InvParts(s);
    hide Inv, MapsOk, LedgerOk, ShardOf;
    assert ShardOk(s.pollers[q], q, |s.pollers|, s.ledger);
  }

  // ---------------------------------------------------------------------
  // What handling an event does
  // ---------------------------------------------------------------------

  /** Only poller q has changed, by one event less in its queue and to these tables. */
  ghost predicate Became(s: Net, s': Net, q: nat,
      sessions: map<nat, nat>, sockets: map<nat, nat>, connecting: map<nat, nat>)
    requires q < |s.pollers| && s.pollers[q].queue != []
  {
    && |s'.pollers| == |s.pollers| && s'.nextId == s.nextId && s'.hand == s.hand
    && s'.pendingSocks == s.pendingSocks && s'.pendingConns == s.pendingConns
    && s'.pollers == s.pollers[q := Shard(s.pollers[q].queue[1..], sessions, sockets, connecting)]
  }

  /** In every reachable state a close request ends the session it finds, whatever the
      operating system answers; a send or control request leaves session and socket as they
      are, unless it fails, and then ends the session.  An ended session is nowhere.  */
  lemma RequestMeans(steps: seq<Step>, q: nat, answer: Answer)
    requires q < |Exec(steps).pollers| && Exec(steps).pollers[q].queue != [] && Exec(steps).pollers[q].queue[0].Request?
    ensures var s := Exec(steps);
      var s', shard, e := Next(s, Handle(q, answer)), s.pollers[q], s.pollers[q].queue[0];
      if e.id in shard.sessions && (e.ask == CloseSession || answer == Failure) then
        && Became(s, s', q, shard.sessions - {e.id}, shard.sockets - {shard.sessions[e.id]}, shard.connecting)
        && forall at :: !Holds(s', e.id, at)
      else Became(s, s', q, shard.sessions, shard.sockets, shard.connecting) && s'.ledger == s.ledger
  {
    ReachedInv(steps);
    var s := Exec(steps);
    hide Exec, Inv, Next, Became, Holds;
    RequestBecomes(s, q, answer);
    NextInv(s, Handle(q, answer));
    var s', e := Next(s, Handle(q, answer)), s.pollers[q].queue[0];
    if e.id !in s'.ledger { DeadNowhere(s', e.id); }
  }

  lemma RequestBecomes(s: Net, q: nat, answer: Answer)
    requires q < |s.pollers| && s.pollers[q].queue != [] && s.pollers[q].queue[0].Request?
    ensures var s', shard, e := Next(s, Handle(q, answer)), s.pollers[q], s.pollers[q].queue[0];
      if e.id in shard.sessions && (e.ask == CloseSession || answer == Failure) then
        && Became(s, s', q, shard.sessions - {e.id}, shard.sockets - {shard.sessions[e.id]}, shard.connecting)
        && e.id !in s'.ledger
      else Became(s, s', q, shard.sessions, shard.sockets, shard.connecting) && s'.ledger == s.ledger
  {
  }

  lemma DeadNowhere(s: Net, id: nat)
    requires Inv(s) && id !in s.ledger
    ensures forall at :: !Holds(s, id, at)
  {
    hide Inv, Holds;
    forall at ensures !Holds(s, id, at) {
      if Holds(s, id, at) { HeldStands(s, id, at); }
    }
  }

  /** The end of an asynchronous connection in every reachable state: the session enters both
      tables or is dropped, and its handle leaves the connecting table either way.  */
  lemma FinishMeans(steps: seq<Step>, q: nat, h: nat, connected: bool)
    requires q < |Exec(steps).pollers| && h in Exec(steps).pollers[q].connecting
    ensures var s := Exec(steps);
      var shard, t := s.pollers[q], Next(s, Writable(q, h, connected)).pollers[q];
      var id := shard.connecting[h];
      && id !in shard.sessions && h !in shard.sockets
      && t.queue == shard.queue && t.connecting == shard.connecting - {h}
      && t.sessions == (if connected then shard.sessions[id := h] else shard.sessions)
      && t.sockets == (if connected then shard.sockets[h := id] else shard.sockets)
  {
    ReachedInv(steps);
    var s := Exec(steps);
    hide Exec;
    InvParts(s);
    HandleApart(s.pollers[q], q, |s.pollers|, s.nextId, s.ledger, h);
    hide Inv, ShardOk, MapsOk, LedgerOk;
  }

  lemma HandleApart(shard: Shard, q: nat, n: nat, nextId: nat, ledger: map<nat, Place>, h: nat)
    requires ShardOk(shard, q, n, ledger) && LedgerOk(ledger, n, nextId) && h in shard.connecting
    ensures shard.connecting[h] !in shard.sessions && h !in shard.sockets
  {
    hide ShardOf, QueueOk;
    assert SocketOf(Established(h)) == SocketOf(Connecting(h));
  }

  /** In every reachable state an arriving session with its socket enters both tables; an
      asynchronous connection does so when the connect succeeds at once, waits in the
      connecting table when it would block, and is dropped when it fails.  */
  lemma ArrivalMeans(steps: seq<Step>, q: nat, answer: Answer)
    requires q < |Exec(steps).pollers| && Exec(steps).pollers[q].queue != []
    requires !Exec(steps).pollers[q].queue[0].Request?
    requires !answer.Failure? ==> FreeFor(Exec(steps).ledger, Established(answer.handle))
    ensures var s := Exec(steps);
      var s', shard, e := Next(s, Handle(q, answer)), s.pollers[q], s.pollers[q].queue[0];
      && e.id !in shard.sessions
      && (e.AddSock? || e.TakeOver? ==> Became(s, s', q, shard.sessions[e.id := e.handle],
            shard.sockets[e.handle := e.id], shard.connecting))
      && (e.AsyncConn? && answer.Success? ==> Became(s, s', q, shard.sessions[e.id := answer.handle],
            shard.sockets[answer.handle := e.id], shard.connecting))
      && (e.AsyncConn? && answer.WouldBlock? ==> Became(s, s', q, shard.sessions, shard.sockets,
            shard.connecting[answer.handle := e.id]))
      && (e.AsyncConn? && answer.Failure? ==> Became(s, s', q, shard.sessions, shard.sockets, shard.connecting))
  {
    ReachedInv(steps);
    var s := Exec(steps);
    hide Exec;
    InvParts(s);
    hide Inv;
    NewEntries(s.pollers[q], q, |s.pollers|, s.nextId, s.ledger, answer);
    hide ShardOk, FreeFor, LedgerOk, MapsOk;
  }

  lemma NewEntries(shard: Shard, q: nat, n: nat, nextId: nat, ledger: map<nat, Place>, answer: Answer)
    requires ShardOk(shard, q, n, ledger) && LedgerOk(ledger, n, nextId)
    requires shard.queue != [] && !shard.queue[0].Request?
    requires !answer.Failure? ==> FreeFor(ledger, Established(answer.handle))
    ensures var e := shard.queue[0];
      && e.id !in shard.sessions && (WithSocket(e) ==> e.handle !in shard.sockets)
      && (!answer.Failure? ==> answer.handle !in shard.sockets && answer.handle !in shard.connecting)
  {
    hide ShardOf;
    var e := shard.queue[0];
    assert e.id in ledger && ledger[e.id] == Queued(HandleOf(e));
    assert WithSocket(e) ==> SocketOf(ledger[e.id]) == Some(e.handle);
    if !answer.Failure? {
      assert SocketOf(Established(answer.handle)) == SocketOf(Connecting(answer.handle));
    }
  }
}
