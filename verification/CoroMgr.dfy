/** The client side of a coroutine RPC call: `RpcCoroMgr` (src/rpc_coro_mgr.cpp), the part of
    `RpcChannel::CallMethod` that registers a call, and `RpcServiceMgr::HandleRpcRsp`.

    One thread runs all of it.  `handle.resume()` hands control to user code, which may
    issue calls and kill coroutines before it gives control back, so a client state has a
    stack of resumptions in progress.  Every such behaviour is some sequence of events.  */
module CoroMgr {
  import opened Wrappers
  import opened Bytes
  import opened Arithmetic

  // ---------------------------------------------------------------------
  // Coroutine identifiers
  // ---------------------------------------------------------------------

  const UID_MODULUS: nat := 0x1_0000_0000_0000_0000
  /** How many identifiers there are: all 64-bit values but 0. */
  const UID_COUNT: nat := 0xFFFF_FFFF_FFFF_FFFF
  const CORO_TIME_OUT: int := 10000

  /** NewCoroUid: the value returned, which is also the generator's new value. */
  function NextUid(gen: nat): nat {
    var g := (gen + 1) % UID_MODULUS;
    if g == 0 then (g + 1) % UID_MODULUS else g
  }

  /** The k-th identifier drawn from generator value gen. */
  function UidAfter(gen: nat, k: nat): nat {
    if k == 0 then gen else NextUid(UidAfter(gen, k - 1))
  }

  lemma NextUidFormula(gen: nat)
    requires gen < UID_MODULUS
    ensures NextUid(gen) == gen % UID_COUNT + 1
  {
  }

  lemma {:induction false} UidFormula(gen: nat, k: nat)
    requires gen < UID_MODULUS && k > 0
    ensures UidAfter(gen, k) == (gen + k - 1) % UID_COUNT + 1
  {
    if k == 1 {
      NextUidFormula(gen);
    } else {
      UidFormula(gen, k - 1);
      hide NextUid;
      NextUidFormula(UidAfter(gen, k - 1));
      DivModNext(UID_COUNT, gen + k - 2);
    }
  }

  /** Identifiers are never 0, and two draws agree exactly when they are a multiple of
      2^64 - 1 draws apart: any 2^64 - 1 consecutive ones are pairwise distinct.  */
  lemma UidPeriod(gen: nat, i: nat, j: nat)
    requires gen < UID_MODULUS && 0 < i <= j
    ensures UidAfter(gen, i) != 0
    ensures UidAfter(gen, i) == UidAfter(gen, j) <==> (j - i) % UID_COUNT == 0
  {
    UidFormula(gen, i);
    UidFormula(gen, j);
    ModEqual(UID_COUNT, gen + i - 1, gen + j - 1);
  }

  // ---------------------------------------------------------------------
  // Client states and events
  // ---------------------------------------------------------------------

  /** A `context`; the controller is named by a number, the handle by the call's uid. */
  datatype Context = Context(uid: nat, deadline: int, controller: nat, hasRsp: bool, useCoro: bool)

  /** What the resumed coroutine finds: its controller failed now or earlier, or not. */
  datatype Outcome = Killed(reason: string) | AlreadyFailed | NoResponse | Replied(body: seq<byte>)

  /** A resumption in progress; `erase` says that KillCoro will erase the uid afterwards. */
  datatype Frame = Frame(uid: nat, erase: bool)

  /** `seen[k]` lists the outcomes with which the coroutine of call number k has been
      resumed; `failed` are the controllers on which SetFailed was called, which nothing
      undoes; `sweep` is the `now` of a HandleCoroTimeout in progress.  */
  datatype Client = Client(
    gen: nat,
    now: int,
    suspended: map<nat, Context>,
    heap: set<Context>,
    failed: set<nat>,
    frames: seq<Frame>,
    sweep: Option<int>,
    seen: seq<seq<Outcome>>)

  datatype Event =
    | Elapse(ms: nat)
    | Call(controller: nat, hasRsp: bool, useCoro: bool)
    | Kill(uid: nat, reason: string)
    | Return
    | SweepStart
    | SweepTop(top: Context)
    | SweepStop
    | Response(uid: nat, status: int, body: seq<byte>, parses: bool)

  function Fresh(now: int): Client {
    Client(0, now, map[], {}, {}, [], None, [])
  }

  function Record(seen: seq<seq<Outcome>>, uid: nat, o: Outcome): (seen': seq<seq<Outcome>>)
    ensures |seen'| == |seen|
  {
    if 1 <= uid <= |seen| then seen[uid - 1 := seen[uid - 1] + [o]] else seen
  }

  /** handle.resume() up to the point where user code runs. */
  function Resume(c: Client, uid: nat, o: Outcome, erase: bool): Client {
    c.(seen := Record(c.seen, uid, o), frames := c.frames + [Frame(uid, erase)])
  }

  /** KillCoro(context &). */
  function KillContext(c: Client, ctx: Context, reason: string): Client {
    Resume(c.(failed := c.failed + {ctx.controller}), ctx.uid, Killed(reason), true)
  }

  /** The coroutine path of CallMethod; at most 2^64 - 1 calls are made. */
  function CallStep(c: Client, controller: nat, hasRsp: bool, useCoro: bool): Client {
    if !useCoro || |c.seen| >= UID_COUNT then c
    else
      var uid := NextUid(c.gen);
      var ctx := Context(uid, c.now + CORO_TIME_OUT, controller, hasRsp, useCoro);
      c.(gen := uid, heap := c.heap + {ctx},
         suspended := if uid in c.suspended then c.suspended else c.suspended[uid := ctx],
         seen := c.seen + [[]])
  }

  function ReturnStep(c: Client): Client {
    if c.frames == [] then c
    else
      var f := c.frames[|c.frames| - 1];
      c.(frames := c.frames[..|c.frames| - 1], suspended := if f.erase then c.suspended - {f.uid} else c.suspended)
  }

  ghost predicate IsTop(heap: set<Context>, top: Context) {
    top in heap && forall x :: x in heap ==> top.deadline <= x.deadline
  }

  /** HandleRpcRsp, once the header has been read. */
  function ResponseStep(c: Client, uid: nat, status: int, body: seq<byte>, parses: bool): Client {
    if uid !in c.suspended then c
    else
      var ctx := c.suspended[uid];
      var popped := c.(suspended := c.suspended - {uid});
      if !ctx.useCoro then popped
      else if status != 0 then
        Resume(popped.(failed := popped.failed + {ctx.controller}), uid, Killed("rpc failed"), false)
      else if ctx.controller in popped.failed then Resume(popped, uid, AlreadyFailed, false)
      else if !ctx.hasRsp then Resume(popped, uid, NoResponse, false)
      else if !parses then KillContext(popped, ctx, "read rsp failed")
      else Resume(popped, uid, Replied(body), false)
  }

  /** One event.  Update is not re-entered from a coroutine: a sweep and the handling of a
      response start only when no resumption is in progress.  */
  ghost function Next(c: Client, e: Event): Client {
    match e
    case Elapse(ms) => c.(now := c.now + ms)
    case Call(controller, hasRsp, useCoro) => CallStep(c, controller, hasRsp, useCoro)
    case Kill(uid, reason) => if uid in c.suspended then KillContext(c, c.suspended[uid], reason) else c
    case Return => ReturnStep(c)
    case SweepStart => if c.frames == [] && c.sweep.None? then c.(sweep := Some(c.now)) else c
    case SweepTop(top) =>
      if c.frames == [] && c.sweep.Some? && IsTop(c.heap, top) && top.deadline <= c.sweep.value then
        var c' := c.(heap := c.heap - {top});
        if top.uid !in c.suspended then c' else KillContext(c', top, "coro timeout")
      else c
    case SweepStop =>
      if c.frames == [] && c.sweep.Some? && forall x :: x in c.heap ==> x.deadline > c.sweep.value
      then c.(sweep := None) else c
    case Response(uid, status, body, parses) =>
      if c.frames == [] && c.sweep.None? then ResponseStep(c, uid, status, body, parses) else c
  }

  ghost function Exec(c: Client, events: seq<Event>): Client {
    if events == [] then c else Next(Exec(c, events[..|events| - 1]), events[|events| - 1])
  }

  // ---------------------------------------------------------------------
  // Invariant
  // ---------------------------------------------------------------------

  /** uid is being resumed by a kill whose erase is still to come. */
  ghost predicate Killing(c: Client, uid: nat) {
    exists i :: 0 <= i < |c.frames| && c.frames[i].erase && c.frames[i].uid == uid
  }

  /** A coroutine that is being resumed by a kill or a timeout does not have itself killed
      again before it gives control back.  */
  ghost predicate Polite(c: Client, e: Event) {
    e.Kill? && e.uid in c.suspended ==> !Killing(c, e.uid)
  }

  ghost predicate PoliteRun(c: Client, events: seq<Event>) {
    forall n :: 0 <= n < |events| ==> Polite(Exec(c, events[..n]), events[n])
  }

  /** Issued calls split into the suspended ones, never resumed, and the rest, resumed once. */
  ghost predicate ExactlyOnce(c: Client) {
    forall k: nat :: k < |c.seen| ==>
      |c.seen[k]| == if k + 1 in c.suspended && !Killing(c, k + 1) then 0 else 1
  }

  ghost predicate Registered(c: Client) {
    && c.gen == |c.seen| <= UID_COUNT
    && (forall i :: 0 <= i < |c.frames| ==> c.frames[i].uid <= |c.seen|)
    && (forall u :: u in c.suspended ==> 1 <= u <= |c.seen| && c.suspended[u].uid == u && c.suspended[u].useCoro)
    && (forall x :: x in c.heap ==> 1 <= x.uid <= |c.seen| && (x.uid in c.suspended ==> c.suspended[x.uid] == x))
  }

  /** Every suspended call still has its timeout entry, unless it is being killed. */
  ghost predicate Timed(c: Client) {
    forall u :: u in c.suspended ==> c.suspended[u] in c.heap || Killing(c, u)
  }

  ghost predicate Inv(c: Client) {
    Registered(c) && Timed(c) && ExactlyOnce(c) && (c.sweep.Some? ==> c.sweep.value <= c.now)
  }

  lemma PushFrame(c: Client, c': Client, f: Frame)
    requires c'.frames == c.frames + [f]
    ensures forall u: nat :: Killing(c', u) <==> Killing(c, u) || (f.erase && f.uid == u)
  {
    forall u: nat | Killing(c, u) ensures Killing(c', u) {
      var i :| 0 <= i < |c.frames| && c.frames[i].erase && c.frames[i].uid == u;
      assert c'.frames[i] == c.frames[i];
    }
    if f.erase { assert c'.frames[|c.frames|] == f; }
  }

  lemma SameFrames(c: Client, c': Client)
    requires c'.frames == c.frames
    ensures forall u: nat :: Killing(c', u) <==> Killing(c, u)
  {
  }

  lemma CallInv(c: Client, controller: nat, hasRsp: bool, useCoro: bool)
    requires Inv(c)
    ensures Inv(CallStep(c, controller, hasRsp, useCoro))
  {
    SameFrames(c, CallStep(c, controller, hasRsp, useCoro));
  }

  lemma KillInv(c: Client, ctx: Context, reason: string)
    requires Registered(c) && ExactlyOnce(c) && (c.sweep.Some? ==> c.sweep.value <= c.now)
    requires forall u :: u in c.suspended && u != ctx.uid ==> c.suspended[u] in c.heap || Killing(c, u)
    requires ctx.uid in c.suspended && !Killing(c, ctx.uid)
    ensures Inv(KillContext(c, ctx, reason))
  {
    PushFrame(c, KillContext(c, ctx, reason), Frame(ctx.uid, true));
  }

  lemma ReturnInv(c: Client)
    requires Inv(c)
    ensures Inv(ReturnStep(c))
  {
    if c.frames != [] {
      var c' := ReturnStep(c);
      var f := c.frames[|c.frames| - 1];
      assert c.frames == c'.frames + [f];
      PushFrame(c', c, f);
    }
  }

  /** A response takes a suspended call off the map and resumes it. */
  lemma RespondedInv(c: Client, c': Client, uid: nat, o: Outcome, erase: bool)
    requires Inv(c) && c.frames == [] && uid in c.suspended
    requires c' == Resume(c.(suspended := c.suspended - {uid}, failed := c'.failed), uid, o, erase)
    ensures Inv(c')
  {
    PushFrame(c, c', Frame(uid, erase));
  }

  lemma ResponseInv(c: Client, uid: nat, status: int, body: seq<byte>, parses: bool)
    requires Inv(c) && c.frames == []
    ensures Inv(ResponseStep(c, uid, status, body, parses))
  {
    if uid in c.suspended {
      var c' := ResponseStep(c, uid, status, body, parses);
      var ctx := c.suspended[uid];
      assert ctx.useCoro && ctx.uid == uid;
      hide Inv;
      if status != 0 {
        RespondedInv(c, c', uid, Killed("rpc failed"), false);
      } else if ctx.controller in c.failed {
        RespondedInv(c, c', uid, AlreadyFailed, false);
      } else if !ctx.hasRsp {
        RespondedInv(c, c', uid, NoResponse, false);
      } else if !parses {
        RespondedInv(c, c', uid, Killed("read rsp failed"), true);
      } else {
        RespondedInv(c, c', uid, Replied(body), false);
      }
    }
  }

  lemma {:induction false} NextInv(c: Client, e: Event)
    requires Inv(c) && Polite(c, e)
    ensures Inv(Next(c, e))
  {
    match e
    case Elapse(ms) => SameFrames(c, Next(c, e));
    case Call(controller, hasRsp, useCoro) => CallInv(c, controller, hasRsp, useCoro);
    case Kill(uid, reason) => if uid in c.suspended { KillInv(c, c.suspended[uid], reason); }
    case Return => ReturnInv(c);
    case SweepStart => SameFrames(c, Next(c, e));
    case SweepTop(top) => SweepTopInv(c, top);
    case SweepStop => SameFrames(c, Next(c, e));
    case Response(uid, status, body, parses) =>
      if c.frames == [] && c.sweep.None? { ResponseInv(c, uid, status, body, parses); }
  }

  lemma SweepTopInv(c: Client, top: Context)
    requires Inv(c)
    ensures Inv(Next(c, SweepTop(top)))
  {
    if c.frames == [] && c.sweep.Some? && IsTop(c.heap, top) && top.deadline <= c.sweep.value {
      var c' := c.(heap := c.heap - {top});
      SameFrames(c, c');
      if top.uid in c.suspended { KillInv(c', top, "coro timeout"); }
    }
  }

  lemma {:induction false} ExecInv(c: Client, events: seq<Event>)
    requires Inv(c) && PoliteRun(c, events)
    ensures Inv(Exec(c, events))
    decreases |events|
  {
    if events != [] {
      var n := |events| - 1;
      var front := events[..n];
      forall m | 0 <= m < n ensures Polite(Exec(c, front[..m]), front[m]) {
        assert front[..m] == events[..m];
        assert Polite(Exec(c, events[..m]), events[m]);
      }
      ExecInv(c, front);
      assert Polite(Exec(c, events[..n]), events[n]);
      NextInv(Exec(c, front), events[n]);
    }
  }

  /** With no resumption in progress a suspended call is unresumed and has its timeout. */
  lemma IdleSuspended(c: Client, uid: nat)
    requires Inv(c) && c.frames == [] && uid in c.suspended
    ensures 1 <= uid <= |c.seen| && |c.seen[uid - 1]| == 0 && c.suspended[uid] in c.heap
  {
    assert !Killing(c, uid);
  }

  lemma ResumedIgnored(c: Client, uid: nat, status: int, body: seq<byte>, parses: bool)
    requires Inv(c) && (1 <= uid <= |c.seen| ==> |c.seen[uid - 1]| > 0)
    ensures Next(c, Response(uid, status, body, parses)) == c
  {
    hide Inv;
    if c.frames == [] && uid in c.suspended { IdleSuspended(c, uid); }
  }

  lemma ReachedInv(start: int, events: seq<Event>)
    requires PoliteRun(Fresh(start), events)
    ensures Inv(Exec(Fresh(start), events))
  {
    ExecInv(Fresh(start), events);
  }

  // ---------------------------------------------------------------------
  // Exactly one resumption
  // ---------------------------------------------------------------------

  /** In every run a call's coroutine has been resumed at most once: not at all while it is
      suspended and nobody is killing it, once after that.  */
  lemma {:induction false} ExactlyOnceResume(start: int, events: seq<Event>, k: nat)
    requires PoliteRun(Fresh(start), events)
    requires k < |Exec(Fresh(start), events).seen|
    ensures var c := Exec(Fresh(start), events);
      && |c.seen[k]| <= 1
      && (|c.seen[k]| == 0 <==> k + 1 in c.suspended && !Killing(c, k + 1))
      && (c.frames == [] ==> (|c.seen[k]| == 0 <==> k + 1 in c.suspended))
  {
    ReachedInv(start, events);
  }

  /** A response to a call already resumed, or to no call at all, changes nothing: it touches
      no controller and resumes nobody.  */
  lemma {:induction false} LateResponse(start: int, events: seq<Event>, uid: nat, status: int, body: seq<byte>,
      parses: bool)
    requires PoliteRun(Fresh(start), events)
    requires var c := Exec(Fresh(start), events); 1 <= uid <= |c.seen| ==> |c.seen[uid - 1]| > 0
    ensures var c := Exec(Fresh(start), events); Next(c, Response(uid, status, body, parses)) == c
  {
    ReachedInv(start, events);
    hide Exec, PoliteRun, Inv, Next;
    ResumedIgnored(Exec(Fresh(start), events), uid, status, body, parses);
  }

  /** HandleRpcRsp never meets the context of a blocking controller. */
  lemma {:induction false} OnlyCoroutineContexts(start: int, events: seq<Event>, uid: nat)
    requires PoliteRun(Fresh(start), events) && uid in Exec(Fresh(start), events).suspended
    ensures Exec(Fresh(start), events).suspended[uid].useCoro
  {
    ReachedInv(start, events);
  }

  /** KillCoro resumes before it erases, so killing a suspended coroutine keeps the
      one-resumption rule exactly when no kill of it is already in progress.  */
  lemma {:induction false} KillKeepsOnceIff(start: int, events: seq<Event>, uid: nat, reason: string)
    requires PoliteRun(Fresh(start), events) && uid in Exec(Fresh(start), events).suspended
    ensures var c := Exec(Fresh(start), events);
      !Killing(c, uid) <==> ExactlyOnce(Next(c, Kill(uid, reason)))
  {
    ReachedInv(start, events);
    var c := Exec(Fresh(start), events);
    var c' := Next(c, Kill(uid, reason));
    PushFrame(c, c', Frame(uid, true));
    if Killing(c, uid) {
      assert |c.seen[uid - 1]| == 1;
      assert |c'.seen[uid - 1]| == 2;
    } else {
      KillInv(c, c.suspended[uid], reason);
    }
  }

  /** A coroutine that has itself killed while a kill resumes it runs twice. */
  lemma KilledTwice()
    ensures var c := Exec(Fresh(0), [Call(0, true, true), Kill(1, "a"), Kill(1, "b")]);
      |c.seen| == 1 && c.seen[0] == [Killed("a"), Killed("b")]
  {
    var e0, e1, e2 := Call(0, true, true), Kill(1, "a"), Kill(1, "b");
    assert [e0, e1, e2][..2] == [e0, e1] && [e0, e1][..1] == [e0] && [e0][..0] == [];
    var c0 := Next(Fresh(0), e0);
    assert Exec(Fresh(0), [e0]) == c0;
    assert Exec(Fresh(0), [e0, e1]) == Next(c0, e1);
  }

  // ---------------------------------------------------------------------
  // The timeout sweep
  // ---------------------------------------------------------------------

  /** The timeout entries the sweep still has to take. */
  ghost function Due(c: Client, limit: int): set<Context> {
    set x | x in c.heap && x.deadline <= limit
  }

  lemma {:induction false} TopExists(heap: set<Context>) returns (top: Context)
    requires heap != {}
    ensures IsTop(heap, top)
    decreases |heap|
  {
    var x :| x in heap;
    if heap == {x} {
      top := x;
    } else {
      var rest := heap - {x};
      top := TopExists(rest);
      assert forall y :: y in heap ==> y == x || y in rest;
      if x.deadline < top.deadline { top := x; }
    }
  }

  /** While a sweep is in progress nothing adds to what it has to take, however many calls
      the resumed coroutines issue, and each entry it takes leaves strictly less: it ends.  */
  lemma {:induction false} SweepShrinks(start: int, events: seq<Event>, e: Event)
    requires PoliteRun(Fresh(start), events) && Exec(Fresh(start), events).sweep.Some?
    ensures var c := Exec(Fresh(start), events);
      var limit := c.sweep.value;
      && Due(Next(c, e), limit) <= Due(c, limit)
      && (e.SweepTop? && Next(c, e) != c ==> Due(Next(c, e), limit) < Due(c, limit))
  {
    ReachedInv(start, events);
    var c := Exec(Fresh(start), events);
    if e.SweepTop? && c.frames == [] && IsTop(c.heap, e.top) && e.top.deadline <= c.sweep.value {
      assert e.top in Due(c, c.sweep.value);
    }
  }

  lemma DueOrDone(c: Client, limit: int)
    ensures Due(c, limit) == {} <==> forall x :: x in c.heap ==> x.deadline > limit
  {
    if Due(c, limit) == {} {
      forall x | x in c.heap ensures x.deadline > limit { assert x !in Due(c, limit); }
    }
  }

  lemma DueHasTop(c: Client, limit: int) returns (top: Context)
    requires Due(c, limit) != {}
    ensures IsTop(c.heap, top) && top.deadline <= limit
  {
    var x :| x in Due(c, limit);
    top := TopExists(c.heap);
  }

  lemma TakesDue(c: Client, top: Context)
    requires c.sweep.Some? && c.frames == [] && IsTop(c.heap, top) && top.deadline <= c.sweep.value
    ensures Due(Next(c, SweepTop(top)), c.sweep.value) == Due(c, c.sweep.value) - {top} && top in Due(c, c.sweep.value)
  {
    hide Record;
  }

  /** Between resumptions a sweep can always go on: it takes the least entry, or it is done. */
  lemma {:induction false} SweepGoesOn(start: int, events: seq<Event>)
    requires PoliteRun(Fresh(start), events)
    requires var c := Exec(Fresh(start), events); c.sweep.Some? && c.frames == []
    ensures var c := Exec(Fresh(start), events);
      (Next(c, SweepStop).sweep == None <==> Due(c, c.sweep.value) == {}) &&
      (Due(c, c.sweep.value) != {} ==>
         exists top :: IsTop(c.heap, top) &&
           Due(Next(c, SweepTop(top)), c.sweep.value) == Due(c, c.sweep.value) - {top})
  {
    var c := Exec(Fresh(start), events);
    hide Exec, PoliteRun;
    DueOrDone(c, c.sweep.value);
    if Due(c, c.sweep.value) != {} {
      var top := DueHasTop(c, c.sweep.value);
      TakesDue(c, top);
    }
  }

  lemma StoppedSweep(c: Client, uid: nat)
    requires Inv(c) && c.sweep.Some? && Next(c, SweepStop).sweep == None && uid in c.suspended
    ensures uid in Next(c, SweepStop).suspended && c.suspended[uid].deadline > c.sweep.value
  {
    hide Inv;
    assert c.frames == [];
    IdleSuspended(c, uid);
  }

  /** A finished sweep leaves no suspended call whose deadline has passed. */
  lemma {:induction false} SweepLeavesNoneExpired(start: int, events: seq<Event>, uid: nat)
    requires PoliteRun(Fresh(start), events)
    requires var c := Exec(Fresh(start), events);
      c.sweep.Some? && Next(c, SweepStop).sweep == None && uid in c.suspended
    ensures var c := Exec(Fresh(start), events);
      uid in Next(c, SweepStop).suspended && c.suspended[uid].deadline > c.sweep.value
  {
    ReachedInv(start, events);
    hide Exec, PoliteRun, Inv, Next;
    StoppedSweep(Exec(Fresh(start), events), uid);
  }

  lemma SweptTop(c: Client, top: Context)
    requires Inv(c) && Next(c, SweepTop(top)).seen != c.seen
    ensures c.sweep.Some? && top.uid in c.suspended && c.suspended[top.uid] == top && top.deadline <= c.sweep.value
    ensures Next(c, SweepTop(top)).seen == Record(c.seen, top.uid, Killed("coro timeout"))
  {
    hide ExactlyOnce, Timed, Record;
  }

  /** The sweep itself resumes only a suspended call whose deadline has passed, and resumes
      it with the timeout failure.  */
  lemma {:induction false} SweepResumesExpiredOnly(start: int, events: seq<Event>, top: Context)
    requires PoliteRun(Fresh(start), events)
    requires var c := Exec(Fresh(start), events); Next(c, SweepTop(top)).seen != c.seen
    ensures var c := Exec(Fresh(start), events);
      && c.sweep.Some? && top.uid in c.suspended && c.suspended[top.uid] == top && top.deadline <= c.sweep.value
      && Next(c, SweepTop(top)).seen == Record(c.seen, top.uid, Killed("coro timeout"))
  {
    ReachedInv(start, events);
    hide Exec, PoliteRun, Inv, Next;
    SweptTop(Exec(Fresh(start), events), top);
  }
}
