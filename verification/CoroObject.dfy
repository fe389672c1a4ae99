/** `RpcCoroMgr` as the object of src/rpc_coro_mgr.cpp: a map of suspended contexts and a
    binary heap of timeouts changed in place, with the callers that drive it.

    Every method is proved to run the client machine: the object carries the events it has
    gone through, they form a run of that machine, and its fields are the machine's.  */
module CoroObject {
  import opened Wrappers
  import opened Bytes
  import opened CoroMgr
  import opened BinaryHeap

  /** contextCmp */
  predicate ByDeadline(a: Context, b: Context) {
    a.deadline < b.deadline
  }

  /** What resumed user code may do before it gives control back: let time pass, call, or kill
      a coroutine, whose own user code then runs first.  */
  datatype Act = Wait(ms: nat) | Invoke(controller: nat, hasRsp: bool) | Slay(uid: nat, reason: string, acts: seq<Act>)

  /** How many acts there are, nested ones included. */
  function Size(acts: seq<Act>): nat {
    if acts == [] then 0 else SizeOf(acts[0]) + Size(acts[1..])
  }

  function SizeOf(act: Act): nat {
    match act
    case Wait(_) => 1
    case Invoke(_, _) => 1
    case Slay(_, _, acts) => 1 + Size(acts)
  }

  /** The kills among them. */
  function Kills(acts: seq<Act>): set<(nat, string)> {
    if acts == [] then {} else KillsOf(acts[0]) + Kills(acts[1..])
  }

  function KillsOf(act: Act): set<(nat, string)> {
    match act
    case Wait(_) => {}
    case Invoke(_, _) => {}
    case Slay(uid, reason, acts) => {(uid, reason)} + Kills(acts)
  }

  /** The calls among them, and the time they wait, leaving out what killed coroutines do. */
  function Calls(acts: seq<Act>): nat {
    if acts == [] then 0 else (if acts[0].Invoke? then 1 else 0) + Calls(acts[1..])
  }

  function Delay(acts: seq<Act>): nat {
    if acts == [] then 0 else (if acts[0].Wait? then acts[0].ms else 0) + Delay(acts[1..])
  }

  class RpcCoroMgr {
    var gen: nat
    var suspended: map<nat, Context>
    const heap: Heap<Context>
    /** LLBC_GetMilliSeconds() */
    var now: int
    /** The controllers that have been failed. */
    var failed: set<nat>
    ghost const start: int
    ghost var events: seq<Event>
    ghost var model: Client

    ghost predicate Valid()
      reads this, heap
    {
      && heap.Valid() && heap.less == ByDeadline && heap.Elements() == multiset(model.heap)
      && gen == model.gen && suspended == model.suspended && now == model.now && failed == model.failed
      && Runs(start, events, model)
    }

    constructor (now: int)
      ensures Valid() && fresh(heap) && model == Fresh(now) && events == []
    {
      gen, suspended, failed := 0, map[], {};
      this.now, start := now, now;
      heap := new Heap(ByDeadline, Context(0, 0, 0, false, true), 256);
      events, model := [], Fresh(now);
    }

    /** One more event of the machine. */
    ghost method Happens(e: Event)
      requires Runs(start, events, model) && Polite(model, e)
      modifies this`events, this`model
      ensures Runs(start, events, model) && model == Next(old(model), e) && events == old(events) + [e]
    {
      hide Next;
      NextInv(model, e);
      PoliteExtend(Fresh(start), events, e);
      model := Next(model, e);
      events := events + [e];
    }

    /** The result says whether the uid was new to the map; the timeout is queued anyway. */
    method AddCoroContext(ctx: Context) returns (inserted: bool)
      requires heap.Valid()
      modifies this`suspended, heap
      ensures heap.Valid() && heap.Elements() == old(heap.Elements()) + multiset{ctx}
      ensures inserted == (ctx.uid !in old(suspended))
      ensures suspended == if inserted then old(suspended)[ctx.uid := ctx] else old(suspended)
    {
      hide Ordered, StrictWeak, Elems;
      heap.Insert(ctx);
      inserted := ctx.uid !in suspended;
      if inserted { suspended := suspended[ctx.uid := ctx]; }
    }

    /** The coroutine path of RpcChannel::CallMethod, up to sending the packet. */
    method CallMethod(controller: nat, hasRsp: bool) returns (uid: nat)
      requires Valid() && |model.seen| < UID_COUNT
      modifies this, heap
      ensures Valid() && model == Next(old(model), Call(controller, hasRsp, true)) && old(events) < events
      ensures uid == |model.seen| == |old(model).seen| + 1 && uid !in old(suspended)
      ensures suspended == old(suspended)[uid := Context(uid, now + 10000, controller, hasRsp, true)]
      ensures now == old(now) && failed == old(failed) && model.frames == old(model).frames
      ensures model.sweep == old(model).sweep && model.seen == old(model).seen + [[]]
    {
      hide Runs, Next, Ordered, StrictWeak, Elems, NextUid;
      Called(start, events, model, controller, hasRsp);
      uid := NextUid(gen);
      gen := uid;
      var ctx := Context(uid, now + CORO_TIME_OUT, controller, hasRsp, true);
      var _ := AddCoroContext(ctx);
      Happens(Call(controller, hasRsp, true));
    }

    /** The user code of a resumed coroutine.  `busy` are the coroutines being killed, which
        it does not kill again.  */
    method UserCode(acts: seq<Act>, busy: set<nat>)
      requires Valid() && |model.seen| + Size(acts) <= UID_COUNT && Busy(model, busy)
      modifies this, heap
      ensures Valid() && old(events) <= events && model.frames == old(model).frames
      ensures Later(old(model), model, Kills(acts), {}) && |model.seen| <= |old(model).seen| + Size(acts)
      ensures |model.seen| >= |old(model).seen| + Calls(acts) && now >= old(now) + Delay(acts)
      decreases Size(acts), 1
    {
      hide Runs, Next, Ordered, StrictWeak, Elems, NextUid, Later, Busy;
      if acts == [] {
        LaterSame(model);
        return;
      }
      ghost var before := model;
      Perform(acts[0], busy);
      ghost var between := model;
      SameBusy(before, model, busy);
      UserCode(acts[1..], busy);
      LaterTrans(start, events, before, between, model, KillsOf(acts[0]), Kills(acts[1..]), {});
    }

    method Perform(act: Act, busy: set<nat>)
      requires Valid() && |model.seen| + SizeOf(act) <= UID_COUNT && Busy(model, busy)
      modifies this, heap
      ensures Valid() && old(events) <= events && model.frames == old(model).frames
      ensures Later(old(model), model, KillsOf(act), {}) && |model.seen| <= |old(model).seen| + SizeOf(act)
      ensures |model.seen| >= |old(model).seen| && now >= old(now)
      ensures act.Wait? ==> model == old(model).(now := old(now) + act.ms)
      ensures act.Invoke? ==>
        var uid := |old(model).seen| + 1;
        && |model.seen| == uid
        && model.suspended ==
           old(model).suspended[uid := Context(uid, now + 10000, act.controller, act.hasRsp, true)]
      ensures act.Slay? && act.uid !in busy ==>
        && act.uid !in suspended
        && (act.uid in old(suspended) ==>
              1 <= act.uid <= |model.seen| && model.seen[act.uid - 1] == [Killed(act.reason)])
      decreases SizeOf(act), 0
    {
      hide Runs, Next, Ordered, StrictWeak, Elems, NextUid, Later, Busy;
      match act {
        case Wait(ms) =>
          Waited(model, ms);
          Elapse(ms);
        case Invoke(controller, hasRsp) =>
          Called(start, events, model, controller, hasRsp);
          var _ := CallMethod(controller, hasRsp);
        case Slay(uid, reason, acts) =>
          if uid !in busy {
            BusyKilling(model, busy, uid);
            KillCoro(uid, reason, acts, busy);
          } else {
            LaterSame(model);
            LaterMore(model, model, {}, KillsOf(act));
          }
      }
    }

    /** KillCoro(context &, reason), entered once the event that decided it has happened. */
    method KillContext(ctx: Context, acts: seq<Act>, busy: set<nat>)
      requires Valid() && |model.seen| + Size(acts) <= UID_COUNT && Busy(model, busy)
      requires model.frames != [] && model.frames[|model.frames| - 1] == Frame(ctx.uid, true)
      modifies this, heap
      ensures Valid() && old(events) < events && ctx.uid !in suspended
      ensures model.frames == old(model).frames[..|old(model).frames| - 1]
      ensures Later(old(model), model, Kills(acts), {ctx.uid}) && |model.seen| <= |old(model).seen| + Size(acts)
      ensures |model.seen| >= |old(model).seen| + Calls(acts) && now >= old(now) + Delay(acts)
      decreases Size(acts), 2
    {
      hide Runs, Next, Ordered, StrictWeak, Elems, Later, Busy;
      ghost var before := model;
      UserCode(acts, busy);
      ghost var after := model;
      suspended := suspended - {ctx.uid};
      Returned(model);
      Happens(Return);
      LaterErased(before, after, model, Kills(acts), ctx.uid);
    }

    /** KillCoro(uid, reason).  A call that is suspended is resumed for the only time. */
    method KillCoro(uid: nat, reason: string, acts: seq<Act>, busy: set<nat>)
      requires Valid() && |model.seen| + Size(acts) <= UID_COUNT && Busy(model, busy)
      requires Polite(model, Kill(uid, reason))
      modifies this, heap
      ensures Valid() && old(events) <= events && model.frames == old(model).frames && uid !in suspended
      ensures Later(old(model), model, {(uid, reason)} + Kills(acts), {})
      ensures |model.seen| <= |old(model).seen| + Size(acts)
      ensures uid !in old(suspended) ==> model == old(model)
      ensures uid in old(suspended) ==>
        1 <= uid <= |model.seen| && model.seen[uid - 1] == [Killed(reason)] && old(suspended)[uid].controller in failed
      ensures uid in old(suspended) ==>
        |model.seen| >= |old(model).seen| + Calls(acts) && now >= old(now) + Delay(acts)
      decreases Size(acts), 3
    {
      hide Runs, Next, Ordered, StrictWeak, Elems, Later, Busy;
      ghost var before := model;
      if uid in suspended {
        var ctx := suspended[uid];
        KillStarts(start, events, model, uid, reason, busy);
        failed := failed + {ctx.controller};
        Happens(Kill(uid, reason));
        ghost var killed := model;
        KillContext(ctx, acts, busy + {uid});
        KillEnds(start, events, before, killed, model, uid, reason, Kills(acts));
      } else {
        LaterSame(model);
        LaterMore(model, model, {}, {(uid, reason)} + Kills(acts));
      }
    }

    /** Erases the context from the map but not from the timeout heap. */
    method PopCoroContext(uid: nat) returns (r: Option<Context>)
      modifies this`suspended
      ensures r == if uid in old(suspended) then Some(old(suspended)[uid]) else None
      ensures suspended == old(suspended) - {uid}
    {
      if uid in suspended {
        r := Some(suspended[uid]);
        suspended := suspended - {uid};
      } else {
        r := None;
        assert suspended - {uid} == suspended;
      }
    }

    /** HandleCoroTimeout.  `plan` gives, for each coroutine the sweep resumes, what its user
        code does.  The loop ends although that code may issue calls; then no suspended
        context has a deadline at or before the time the sweep began.  Each call suspended at the
        start is either untouched, or was resumed exactly once: for its timeout if it had
        expired, or by a kill of user code.  */
    method HandleCoroTimeout(plan: seq<seq<Act>>)
      requires Valid() && model.frames == [] && model.sweep == None && |model.seen| + Total(plan) <= UID_COUNT
      modifies this, heap
      ensures Valid() && model.frames == [] && model.sweep == None && old(events) < events
      ensures forall u :: u in suspended ==> suspended[u].deadline > old(now)
      ensures Swept(old(model), model, old(now), AllKills(plan))
    {
      hide Runs, Next, Ordered, StrictWeak, Elems, Swept;
      ghost var kills := AllKills(plan);
      SweptNone(start, events, model, now, kills);
      var limit := now;
      var rest := plan;
      SweepStarted(model);
      Happens(SweepStart);
      while !heap.IsEmpty()
        invariant Valid() && Sweeping(limit) && old(events) < events
        invariant |model.seen| + Total(rest) <= UID_COUNT && Swept(old(model), model, limit, kills)
        invariant AllKills(rest) <= kills
        decreases Due(model, limit)
      {
        var expired, top := PopExpired(limit);
        if !expired { break; }
        if top.uid !in suspended {
          SkipStale(limit, top, old(model), kills);
        } else {
          var acts := if rest == [] then [] else rest[0];
          rest := if rest == [] then [] else rest[1..];
          TimeOut(limit, top, acts, old(model), kills);
        }
      }
      if heap.IsEmpty() { EmptyModel(); }
      SweepStopped(start, events, model, limit);
      ghost var before := model;
      Happens(SweepStop);
      SweptSame(old(model), before, model, limit, kills);
    }

    ghost predicate Sweeping(limit: int)
      reads this
    {
      model.frames == [] && model.sweep == Some(limit) && limit <= now
    }

    /** All of Valid but for the heap, whose top entry has just been taken. */
    ghost predicate Took(top: Context)
      reads this, heap
    {
      && heap.Valid() && heap.less == ByDeadline && heap.Elements() == multiset(model.heap - {top})
      && gen == model.gen && suspended == model.suspended && now == model.now && failed == model.failed
      && Runs(start, events, model)
    }

    /** The entry of a call that is not suspended any more is dropped. */
    ghost method SkipStale(limit: int, top: Context, c: Client, kills: set<(nat, string)>)
      requires Took(top) && Sweeping(limit) && TakesTop(model, limit, top) && top.uid !in suspended
      requires Swept(c, model, limit, kills)
      modifies this`events, this`model
      ensures Valid() && Sweeping(limit) && old(events) < events && |model.seen| == |old(model).seen|
      ensures Due(model, limit) < Due(old(model), limit) && Swept(c, model, limit, kills)
    {
      hide Runs, Next, Ordered, StrictWeak, Elems, Swept, Due;
      ghost var before := model;
      Shrinks(model, limit, top);
      Happens(SweepTop(top));
      SweptSame(c, before, model, limit, kills);
    }

    /** KillCoro(top, "coro timeout"): the suspended call of an expired entry is resumed. */
    method TimeOut(limit: int, top: Context, acts: seq<Act>, ghost c: Client, ghost kills: set<(nat, string)>)
      requires Took(top) && Sweeping(limit) && TakesTop(model, limit, top) && top.uid in suspended
      requires Swept(c, model, limit, kills)
      requires |model.seen| + Size(acts) <= UID_COUNT && Kills(acts) <= kills
      modifies this, heap
      ensures Valid() && Sweeping(limit) && old(events) < events && |model.seen| <= |old(model).seen| + Size(acts)
      ensures Due(model, limit) < Due(old(model), limit) && Swept(c, model, limit, kills)
    {
      hide Runs, Next, Ordered, StrictWeak, Elems, Swept, Later, Busy, Due;
      ghost var before, past := model, events;
      Shrinks(model, limit, top);
      failed := failed + {top.controller};
      Happens(SweepTop(top));
      ghost var killed := model;
      OneFrame(killed, top.uid);
      KillContext(top, acts, {top.uid});
      LaterFacts(killed, model, Kills(acts), {top.uid}, limit);
      SweptOne(c, start, past, before, killed, events, model, limit, top, Kills(acts), kills);
    }

    lemma EmptyModel()
      requires Valid() && heap.IsEmpty()
      ensures model.heap == {}
    {
      assert |model.heap| == |multiset(model.heap)|;
    }

    /** The head of the sweep loop: takes the top entry off the heap when it has expired. */
    method PopExpired(limit: int) returns (expired: bool, top: Context)
      requires Valid() && !heap.IsEmpty() && model.frames == [] && model.sweep == Some(limit)
      modifies heap
      ensures heap.Valid() && expired == (top.deadline <= limit)
      ensures !expired ==> heap.Elements() == multiset(model.heap) && Due(model, limit) == {}
      ensures expired ==> heap.Elements() == multiset(model.heap - {top}) && TakesTop(model, limit, top)
    {
      hide Runs, Next, Ordered, StrictWeak, Elems, Due;
      top := heap.Top();
      TopOfModel(model, heap.Elements(), top);
      expired := top.deadline <= limit;
      if expired {
        var _ := heap.DeleteTop();
        TopTaken(model, limit, top);
      } else {
        DueOrDone(model, limit);
      }
    }

    /** RpcServiceMgr::HandleRpcRsp, once the header has been read.  A suspended call is resumed
        once: on a non-zero status or an unreadable message with its controller failed, else
        with what its controller and response slot allow.  Any other response is dropped.  */
    method HandleRpcRsp(uid: nat, status: int, body: seq<byte>, parses: bool, acts: seq<Act>)
      requires Valid() && model.frames == [] && model.sweep == None && |model.seen| + Size(acts) <= UID_COUNT
      modifies this, heap
      ensures Valid() && model.frames == [] && model.sweep == None && old(events) <= events && uid !in suspended
      ensures uid !in old(suspended) ==> model == old(model)
      ensures uid in old(suspended) ==> 1 <= uid <= |model.seen|
      ensures uid in old(suspended) ==>
        |model.seen| >= |old(model).seen| + Calls(acts) && now >= old(now) + Delay(acts)
      ensures uid in old(suspended) && status != 0 ==>
        model.seen[uid - 1] == [Killed("rpc failed")] && old(suspended)[uid].controller in failed
      ensures uid in old(suspended) && status == 0 && old(suspended)[uid].controller in old(failed) ==>
        model.seen[uid - 1] == [AlreadyFailed]
      ensures uid in old(suspended) && status == 0 && old(suspended)[uid].controller !in old(failed) ==>
        && (!old(suspended)[uid].hasRsp ==> model.seen[uid - 1] == [NoResponse])
        && (old(suspended)[uid].hasRsp && parses ==> model.seen[uid - 1] == [Replied(body)])
        && (old(suspended)[uid].hasRsp && !parses ==>
              model.seen[uid - 1] == [Killed("read rsp failed")] && old(suspended)[uid].controller in failed)
      ensures uid in old(suspended) && status == 0 && Kills(acts) == {} ==>
        old(suspended)[uid].controller in old(failed) || !old(suspended)[uid].hasRsp || parses ==> failed == old(failed)
    {
      hide Runs, Next, Ordered, StrictWeak, Elems, Due, Later, Busy;
      var resumed, erase := BeginRsp(uid, status, body, parses);
      if !resumed { return; }
      ghost var begun := model;
      OneFrame(begun, uid);
      UserCode(acts, {uid});
      ghost var after := model;
      if erase { suspended := suspended - {uid}; }
      Returned(model);
      Happens(Return);
      LaterFacts(begun, after, Kills(acts), {}, now);
      ResponseEnds(start, events, begun, after, model, uid, Kills(acts));
    }

    /** HandleRpcRsp up to the point where user code runs; `erase` says that it went through
        KillCoro.  The controller is failed in two cases only.  */
    method BeginRsp(uid: nat, status: int, body: seq<byte>, parses: bool) returns (resumed: bool, erase: bool)
      requires Valid() && model.frames == [] && model.sweep == None
      modifies this`suspended, this`failed, this`events, this`model
      ensures Valid() && old(events) <= events && resumed == (uid in old(suspended))
      ensures !resumed ==> model == old(model)
      ensures resumed ==>
        && 1 <= uid <= |model.seen| && |model.seen| == |old(model).seen| && |model.seen[uid - 1]| == 1
        && model.frames == [Frame(uid, erase)] && model.sweep == None && suspended == old(suspended) - {uid}
      ensures resumed && status != 0 ==>
        && model.seen[uid - 1] == [Killed("rpc failed")] && !erase
        && failed == old(failed) + {old(suspended)[uid].controller}
      ensures resumed && status == 0 && old(suspended)[uid].controller in old(failed) ==>
        model.seen[uid - 1] == [AlreadyFailed] && failed == old(failed) && !erase
      ensures resumed && status == 0 && old(suspended)[uid].controller !in old(failed) ==>
        && (!old(suspended)[uid].hasRsp ==> model.seen[uid - 1] == [NoResponse] && failed == old(failed) && !erase)
        && (old(suspended)[uid].hasRsp && parses ==>
              model.seen[uid - 1] == [Replied(body)] && failed == old(failed) && !erase)
        && (old(suspended)[uid].hasRsp && !parses ==>
              && model.seen[uid - 1] == [Killed("read rsp failed")] && erase
              && failed == old(failed) + {old(suspended)[uid].controller})
    {
      hide Runs, Next, Ordered, StrictWeak, Elems;
      resumed, erase := uid in suspended, false;
      if resumed { ResponseMeans(start, events, model, uid, status, body, parses); }
      var r := PopCoroContext(uid);
      if r.None? {
        assert suspended == old(suspended);
        return;
      }
      var ctx := r.value;
      if status != 0 {
        failed := failed + {ctx.controller};
      } else if ctx.controller !in failed && ctx.hasRsp && !parses {
        failed, erase := failed + {ctx.controller}, true;
      }
      Happens(Response(uid, status, body, parses));
    }

    method Elapse(ms: nat)
      requires Valid()
      modifies this`now, this`events, this`model
      ensures Valid() && now == old(now) + ms && model == old(model).(now := now) && old(events) < events
    {
      hide Runs, Next;
      Waited(model, ms);
      now := now + ms;
      Happens(Event.Elapse(ms));
    }

    /** A call times out after ten seconds: a sweep leaves it alone if it begins sooner, and
        resumes it with the timeout failure if it begins then or later.  Other coroutines that
        the sweep resumes may wait and call, but kill nobody.  */
    method CallAndSweep(controller: nat, hasRsp: bool, wait: nat, plan: seq<seq<Act>>) returns (uid: nat)
      requires Valid() && model.frames == [] && model.sweep == None && |model.seen| + Total(plan) < UID_COUNT
      requires AllKills(plan) == {}
      modifies this, heap
      ensures Valid() && 1 <= uid <= |model.seen| && (uid in suspended <==> wait < 10000)
      ensures model.seen[uid - 1] == if wait < 10000 then [] else [Killed("coro timeout")]
    {
      hide Runs, Next, Ordered, StrictWeak, Elems, Due, Later, Busy;
      uid := CallMethod(controller, hasRsp);
      Elapse(wait);
      ghost var before := model;
      HandleCoroTimeout(plan);
      SweptAt(before, model, before.now, {}, uid);
    }
  }

  function Total(plan: seq<seq<Act>>): nat {
    if plan == [] then 0 else Size(plan[0]) + Total(plan[1..])
  }

  function AllKills(plan: seq<seq<Act>>): set<(nat, string)> {
    if plan == [] then {} else Kills(plan[0]) + AllKills(plan[1..])
  }

  /** c is what the events lead to. */
  ghost predicate Runs(start: int, events: seq<Event>, c: Client) {
    PoliteRun(Fresh(start), events) && c == Exec(Fresh(start), events) && Inv(c)
  }

  /** The coroutines being killed are among these. */
  ghost predicate Busy(c: Client, busy: set<nat>) {
    forall u: nat :: Killing(c, u) ==> u in busy
  }

  lemma BusyKilling(c: Client, busy: set<nat>, uid: nat)
    requires Busy(c, busy) && uid !in busy
    ensures !Killing(c, uid)
  {
  }

  lemma SameBusy(c: Client, d: Client, busy: set<nat>)
    requires Busy(c, busy) && d.frames == c.frames
    ensures Busy(d, busy)
  {
    SameFrames(c, d);
  }

  lemma OneFrame(c: Client, uid: nat)
    requires |c.frames| == 1 && c.frames[0].uid == uid
    ensures Busy(c, {uid})
  {
  }

  /** The call u has been resumed once, by one of these kills. */
  ghost predicate SlainBy(seen: seq<seq<Outcome>>, u: nat, kills: set<(nat, string)>) {
    1 <= u <= |seen| && exists reason :: (u, reason) in kills && seen[u - 1] == [Killed(reason)]
  }

  /** Nothing found so far is taken back. */
  ghost predicate Grown(seen: seq<seq<Outcome>>, seen': seq<seq<Outcome>>) {
    |seen| <= |seen'| && forall k :: 0 <= k < |seen| ==> seen[k] <= seen'[k]
  }

  /** What code that calls, waits and kills can make of c: a suspended call stays as it is,
      unless a kill resumed it, or it is one of those whose kill was in progress; calls that
      are new have new uids; and nothing becomes due that was not.  */
  ghost predicate Later(c: Client, d: Client, kills: set<(nat, string)>, gone: set<nat>) {
    && d.sweep == c.sweep && c.failed <= d.failed && d.now >= c.now && Grown(c.seen, d.seen)
    && (forall u :: u in d.suspended && u !in c.suspended ==> u > |c.seen|)
    && (forall u :: u in d.suspended && u in c.suspended ==> d.suspended[u] == c.suspended[u])
    && (forall u :: u in c.suspended && u !in d.suspended && u !in gone ==>
          !Killing(c, u) && SlainBy(d.seen, u, kills) && c.suspended[u].controller in d.failed)
    && (kills == {} ==> d.failed == c.failed)
    && (forall limit: int :: limit <= c.now ==> Due(d, limit) == Due(c, limit))
  }

  lemma LaterFacts(c: Client, d: Client, kills: set<(nat, string)>, gone: set<nat>, limit: int)
    requires Later(c, d, kills, gone)
    ensures d.sweep == c.sweep && d.now >= c.now && (limit <= c.now ==> Due(d, limit) == Due(c, limit))
    ensures c.failed <= d.failed && (kills == {} ==> d.failed == c.failed)
  {
  }

  lemma LaterSame(c: Client)
    ensures Later(c, c, {}, {})
  {
  }

  lemma SlainMore(seen: seq<seq<Outcome>>, u: nat, kills: set<(nat, string)>, kills': set<(nat, string)>)
    requires SlainBy(seen, u, kills) && kills <= kills'
    ensures SlainBy(seen, u, kills')
  {
  }

  lemma LaterMore(c: Client, d: Client, kills: set<(nat, string)>, kills': set<(nat, string)>)
    requires Later(c, d, kills, {}) && kills <= kills'
    ensures Later(c, d, kills', {})
  {
    forall u | u in c.suspended && u !in d.suspended
      ensures SlainBy(d.seen, u, kills')
    {
      SlainMore(d.seen, u, kills, kills');
    }
    hide Due, SlainBy, Killing;
  }

  /** A call that was resumed once stays so, and with what it found. */
  lemma SlainLater(start: int, events: seq<Event>, d: Client, e: Client, u: nat, kills: set<(nat, string)>)
    requires Runs(start, events, e) && Grown(d.seen, e.seen) && SlainBy(d.seen, u, kills)
    ensures SlainBy(e.seen, u, kills)
  {
    ResumedOnce(start, events, e, u);
    hide Runs;
    assert d.seen[u - 1] <= e.seen[u - 1];
  }

  lemma ResumedOnce(start: int, events: seq<Event>, e: Client, u: nat)
    requires Runs(start, events, e) && 1 <= u <= |e.seen|
    ensures |e.seen[u - 1]| <= 1
  {
    hide Exec, PoliteRun, Registered, Timed;
  }

  lemma LaterTrans(start: int, events: seq<Event>, c: Client, d: Client, e: Client,
      kills: set<(nat, string)>, kills': set<(nat, string)>, gone: set<nat>)
    requires Later(c, d, kills, {}) && Later(d, e, kills', gone) && d.frames == c.frames && Runs(start, events, e)
    ensures Later(c, e, kills + kills', gone)
  {
    SameFrames(c, d);
    hide Runs, Due, Killing;
    forall u | u in c.suspended && u !in e.suspended && u !in gone
      ensures !Killing(c, u) && SlainBy(e.seen, u, kills + kills') && c.suspended[u].controller in e.failed
    {
      if u in d.suspended {
        SlainMore(e.seen, u, kills', kills + kills');
      } else {
        SlainLater(start, events, d, e, u, kills);
        SlainMore(e.seen, u, kills, kills + kills');
      }
    }
    GrownTrans(c.seen, d.seen, e.seen);
    hide SlainBy, Grown;
  }

  lemma GrownTrans(a: seq<seq<Outcome>>, b: seq<seq<Outcome>>, c: seq<seq<Outcome>>)
    requires Grown(a, b) && Grown(b, c)
    ensures Grown(a, c)
  {
    forall k | 0 <= k < |a| ensures a[k] <= c[k] {
      assert a[k] <= b[k] <= c[k];
    }
  }

  /** Erasing the uid and giving control back, at the end of a kill. */
  lemma LaterErased(c: Client, d: Client, e: Client, kills: set<(nat, string)>, uid: nat)
    requires Later(c, d, kills, {}) && e == d.(frames := e.frames, suspended := d.suspended - {uid})
    ensures Later(c, e, kills, {uid})
  {
    assert forall limit: int :: Due(e, limit) == Due(d, limit);
    hide Due, SlainBy, Killing, Grown;
  }

  lemma KillStarts(start: int, events: seq<Event>, c: Client, uid: nat, reason: string, busy: set<nat>)
    requires Runs(start, events, c) && uid in c.suspended && Polite(c, Kill(uid, reason)) && Busy(c, busy)
    ensures 1 <= uid <= |c.seen| && c.seen[uid - 1] == [] && c.suspended[uid].uid == uid && !Killing(c, uid)
    ensures var d := Next(c, Kill(uid, reason));
      && d == c.(failed := c.failed + {c.suspended[uid].controller}, seen := c.seen[uid - 1 := [Killed(reason)]],
                 frames := c.frames + [Frame(uid, true)])
      && Busy(d, busy + {uid})
  {
    hide Exec, PoliteRun, Timed;
    var d := Next(c, Kill(uid, reason));
    assert c.seen[uid - 1] + [Killed(reason)] == [Killed(reason)];
    PushFrame(c, d, Frame(uid, true));
  }

  /** A whole kill: c was killed into d, which user code and the erasure turned into e. */
  lemma KillEnds(start: int, events: seq<Event>, c: Client, d: Client, e: Client, uid: nat, reason: string,
      kills: set<(nat, string)>)
    requires uid in c.suspended && !Killing(c, uid) && 1 <= uid <= |c.seen| && c.seen[uid - 1] == []
    requires d == c.(failed := d.failed, seen := c.seen[uid - 1 := [Killed(reason)]],
      frames := c.frames + [Frame(uid, true)])
    requires c.failed + {c.suspended[uid].controller} <= d.failed && Later(d, e, kills, {uid})
    requires uid !in e.suspended && Runs(start, events, e)
    ensures Later(c, e, {(uid, reason)} + kills, {}) && |e.seen| >= uid && e.seen[uid - 1] == [Killed(reason)]
    ensures c.suspended[uid].controller in e.failed
  {
    PushFrame(c, d, Frame(uid, true));
    assert d.seen[uid - 1] <= e.seen[uid - 1];
    ResumedOnce(start, events, e, uid);
    hide Runs, Killing;
    assert e.seen[uid - 1] == [Killed(reason)];
    assert Grown(c.seen, d.seen);
    GrownTrans(c.seen, d.seen, e.seen);
    forall u | u in c.suspended && u !in e.suspended
      ensures !Killing(c, u) && SlainBy(e.seen, u, {(uid, reason)} + kills) && c.suspended[u].controller in e.failed
    {
      if u != uid { SlainMore(e.seen, u, kills, {(uid, reason)} + kills); }
    }
    assert forall limit: int :: Due(c, limit) == Due(d, limit);
    hide SlainBy, Due, Grown;
  }

  /** The coroutine a response resumed finds what it found. */
  lemma ResponseEnds(start: int, events: seq<Event>, c: Client, d: Client, e: Client, uid: nat,
      kills: set<(nat, string)>)
    requires 1 <= uid <= |c.seen| && |c.seen[uid - 1]| == 1 && uid !in c.suspended
    requires Later(c, d, kills, {}) && e == d.(frames := e.frames, suspended := e.suspended) && Runs(start, events, e)
    requires e.suspended == d.suspended || e.suspended == d.suspended - {uid}
    ensures uid !in e.suspended && uid <= |e.seen| && e.seen[uid - 1] == c.seen[uid - 1]
  {
    ResumedOnce(start, events, e, uid);
    hide Runs, Due, SlainBy;
    assert c.seen[uid - 1] <= d.seen[uid - 1];
  }

  /** What a sweep has made of c: each call suspended in c is untouched, or was resumed exactly
      once and with its controller failed, for its timeout if it had expired or by one of these
      kills.  */
  ghost predicate Swept(c: Client, d: Client, limit: int, kills: set<(nat, string)>) {
    forall u :: u in c.suspended ==> 1 <= u <= |d.seen| && SweptCall(c.suspended[u], d, limit, u, kills)
  }

  ghost predicate SweptCall(ctx: Context, d: Client, limit: int, u: nat, kills: set<(nat, string)>)
    requires 1 <= u <= |d.seen|
  {
    if u in d.suspended then d.suspended[u] == ctx && d.seen[u - 1] == []
    else
      && ctx.controller in d.failed
      && (SlainBy(d.seen, u, kills) || (ctx.deadline <= limit && d.seen[u - 1] == [Killed("coro timeout")]))
  }

  lemma SweptAt(c: Client, d: Client, limit: int, kills: set<(nat, string)>, u: nat)
    requires Swept(c, d, limit, kills) && u in c.suspended
    ensures 1 <= u <= |d.seen| && SweptCall(c.suspended[u], d, limit, u, kills)
  {
  }

  lemma SweptNone(start: int, events: seq<Event>, c: Client, limit: int, kills: set<(nat, string)>)
    requires Runs(start, events, c) && c.frames == []
    ensures Swept(c, c.(sweep := Some(limit)), limit, kills)
  {
    forall u | u in c.suspended ensures 1 <= u <= |c.seen| && c.seen[u - 1] == [] { IdleContext(start, events, c, u); }
  }

  lemma SweptSame(c: Client, d: Client, d': Client, limit: int, kills: set<(nat, string)>)
    requires Swept(c, d, limit, kills) && d'.suspended == d.suspended && d'.seen == d.seen && d'.failed == d.failed
    ensures Swept(c, d', limit, kills)
  {
  }

  /** d resumed top's call for its timeout, which made it e, and user code made that f. */
  lemma SweptOne(c: Client, start: int, past: seq<Event>, d: Client, e: Client, events: seq<Event>, f: Client,
      limit: int, top: Context, done: set<(nat, string)>, kills: set<(nat, string)>)
    requires Swept(c, d, limit, kills) && Runs(start, past, d) && d.frames == [] && Runs(start, events, f)
    requires f.frames == []
    requires top in d.heap && top.deadline <= limit && top.uid in d.suspended && done <= kills
    requires e == d.(heap := e.heap, failed := e.failed, frames := e.frames,
      seen := Record(d.seen, top.uid, Killed("coro timeout")))
    requires Later(e, f, done, {top.uid}) && top.uid !in f.suspended && d.failed + {top.controller} <= e.failed
    ensures Swept(c, f, limit, kills)
  {
    IdleContext(start, past, d, top.uid);
    assert d.suspended[top.uid] == top;
    hide Due, Killing;
    forall u | u in c.suspended ensures 1 <= u <= |f.seen| && SweptCall(c.suspended[u], f, limit, u, kills) {
      assert 1 <= u <= |d.seen| && SweptCall(c.suspended[u], d, limit, u, kills);
      SweptAgain(c.suspended[u], start, past, d, e, events, f, limit, top, done, kills, u);
    }
  }

  lemma SweptAgain(ctx: Context, start: int, past: seq<Event>, d: Client, e: Client, events: seq<Event>, f: Client,
      limit: int, top: Context, done: set<(nat, string)>, kills: set<(nat, string)>, u: nat)
    requires 1 <= u <= |d.seen| && SweptCall(ctx, d, limit, u, kills) && Runs(start, events, f) && f.frames == []
    requires top.deadline <= limit && top.uid in d.suspended && d.suspended[top.uid] == top && done <= kills
    requires 1 <= top.uid <= |d.seen| && d.seen[top.uid - 1] == []
    requires e == d.(heap := e.heap, failed := e.failed, frames := e.frames,
      seen := Record(d.seen, top.uid, Killed("coro timeout")))
    requires Later(e, f, done, {top.uid}) && top.uid !in f.suspended && d.failed + {top.controller} <= e.failed
    ensures u <= |f.seen| && SweptCall(ctx, f, limit, u, kills)
  {
    hide Due, Killing;
    ResumedOnce(start, events, f, u);
    assert e.seen[u - 1] <= f.seen[u - 1];
    if u in f.suspended {
      IdleContext(start, events, f, u);
    } else if u == top.uid {
      assert e.seen[u - 1] == [Killed("coro timeout")];
    } else if u in d.suspended {
      SlainMore(f.seen, u, done, kills);
    }
    hide Runs;
  }

  lemma PoliteExtend(c: Client, events: seq<Event>, e: Event)
    requires PoliteRun(c, events) && Polite(Exec(c, events), e)
    ensures PoliteRun(c, events + [e]) && Exec(c, events + [e]) == Next(Exec(c, events), e)
  {
    var all := events + [e];
    assert all[..|events|] == events;
    forall n | 0 <= n < |all| ensures Polite(Exec(c, all[..n]), all[n]) {
      if n < |events| { assert all[..n] == events[..n]; }
    }
  }

  lemma Called(start: int, events: seq<Event>, c: Client, controller: nat, hasRsp: bool)
    requires Runs(start, events, c) && |c.seen| < UID_COUNT
    ensures var c' := Next(c, Call(controller, hasRsp, true));
      var uid := NextUid(c.gen);
      var ctx := Context(uid, c.now + CORO_TIME_OUT, controller, hasRsp, true);
      && uid == |c.seen| + 1 && uid !in c.suspended && Later(c, c', {}, {}) && c'.frames == c.frames
      && c' == c.(gen := uid, heap := c.heap + {ctx}, suspended := c.suspended[uid := ctx], seen := c.seen + [[]])
      && multiset(c'.heap) == multiset(c.heap) + multiset{ctx}
  {
    hide Exec, PoliteRun, ExactlyOnce, Timed;
    NextUidFormula(c.gen);
    hide NextUid;
    var uid := NextUid(c.gen);
    var ctx := Context(uid, c.now + CORO_TIME_OUT, controller, hasRsp, true);
    assert ctx !in c.heap;
  }

  lemma Waited(c: Client, ms: nat)
    ensures var c' := Next(c, Elapse(ms)); c' == c.(now := c.now + ms) && Later(c, c', {}, {})
  {
  }

  lemma Returned(c: Client)
    requires c.frames != []
    ensures var n := |c.frames| - 1;
      var f := c.frames[n];
      Next(c, Return) ==
        c.(frames := c.frames[..n], suspended := if f.erase then c.suspended - {f.uid} else c.suspended)
  {
  }

  lemma SweepStarted(c: Client)
    requires c.frames == [] && c.sweep == None
    ensures Next(c, SweepStart) == c.(sweep := Some(c.now))
  {
  }

  /** A suspended call, between updates. */
  lemma IdleContext(start: int, events: seq<Event>, c: Client, uid: nat)
    requires Runs(start, events, c) && c.frames == [] && uid in c.suspended
    ensures c.suspended[uid].uid == uid && c.suspended[uid].useCoro && !Killing(c, uid)
    ensures 1 <= uid <= |c.seen| && c.seen[uid - 1] == [] && c.suspended[uid] in c.heap
  {
    hide Exec, PoliteRun;
    IdleSuspended(c, uid);
  }

  /** The five ways a response resumes a suspended call. */
  lemma ResponseMeans(start: int, events: seq<Event>, c: Client, uid: nat, status: int, body: seq<byte>, parses: bool)
    requires Runs(start, events, c) && c.frames == [] && c.sweep == None && uid in c.suspended
    ensures 1 <= uid <= |c.seen| && c.seen[uid - 1] == []
    ensures var ctx, c' := c.suspended[uid], Next(c, Response(uid, status, body, parses));
      var popped := c.(suspended := c.suspended - {uid}, frames := [Frame(uid, false)]);
      var failing := c.failed + {ctx.controller};
      && (status != 0 ==> c' == popped.(failed := failing, seen := c.seen[uid - 1 := [Killed("rpc failed")]]))
      && (status == 0 && ctx.controller in c.failed ==> c' == popped.(seen := c.seen[uid - 1 := [AlreadyFailed]]))
      && (status == 0 && ctx.controller !in c.failed && !ctx.hasRsp ==>
            c' == popped.(seen := c.seen[uid - 1 := [NoResponse]]))
      && (status == 0 && ctx.controller !in c.failed && ctx.hasRsp && parses ==>
            c' == popped.(seen := c.seen[uid - 1 := [Replied(body)]]))
      && (status == 0 && ctx.controller !in c.failed && ctx.hasRsp && !parses ==>
            c' == popped.(frames := [Frame(uid, true)], failed := failing,
                          seen := c.seen[uid - 1 := [Killed("read rsp failed")]]))
  {
    IdleContext(start, events, c, uid);
    hide Runs;
    assert forall o: Outcome :: c.seen[uid - 1] + [o] == [o];
    assert forall f: Frame :: c.frames + [f] == [f];
  }

  /** Taking the expired top entry off the heap, as the sweep does. */
  ghost predicate TakesTop(c: Client, limit: int, top: Context) {
    && top in c.heap && top.deadline <= limit
    && Next(c, SweepTop(top)) ==
         if top.uid !in c.suspended then c.(heap := c.heap - {top})
         else c.(heap := c.heap - {top}, failed := c.failed + {top.controller},
                 seen := Record(c.seen, top.uid, Killed("coro timeout")), frames := [Frame(top.uid, true)])
  }

  lemma TopOfModel(c: Client, elements: multiset<Context>, top: Context)
    requires elements == multiset(c.heap) && top in elements
    requires forall x :: x in elements ==> !ByDeadline(x, top)
    ensures IsTop(c.heap, top) && multiset(c.heap) - multiset{top} == multiset(c.heap - {top})
  {
    assert top in c.heap;
    forall x | x in c.heap ensures top.deadline <= x.deadline { assert x in elements; }
  }

  lemma TopTaken(c: Client, limit: int, top: Context)
    requires c.frames == [] && c.sweep == Some(limit) && IsTop(c.heap, top) && top.deadline <= limit
    ensures TakesTop(c, limit, top)
  {
  }

  lemma Shrinks(c: Client, limit: int, top: Context)
    requires TakesTop(c, limit, top)
    ensures Due(Next(c, SweepTop(top)), limit) < Due(c, limit)
  {
    assert top in Due(c, limit);
  }

  lemma SweepStopped(start: int, events: seq<Event>, c: Client, limit: int)
    requires Runs(start, events, c) && c.frames == [] && c.sweep == Some(limit) && Due(c, limit) == {}
    ensures Next(c, SweepStop) == c.(sweep := None)
    ensures forall u :: u in c.suspended ==> c.suspended[u].deadline > limit
  {
    DueOrDone(c, limit);
    hide Runs;
    forall u | u in c.suspended ensures c.suspended[u].deadline > limit { IdleContext(start, events, c, u); }
  }
}
