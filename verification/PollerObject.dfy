/** `LLBC_PollerMgr` and `LLBC_BasePoller` as objects that change their queues and tables in
    place.  Every method is proved to run steps of the session machine.  */
module PollerObject {
  import opened Wrappers
  import opened Poller

  class BasePoller {
    var queue: seq<Event>
    var sessions: map<nat, nat>
    var sockets: map<nat, nat>
    var connecting: map<nat, nat>

    function View(): Shard
      reads this
    {
      Shard(queue, sessions, sockets, connecting)
    }

    constructor ()
      ensures View() == Shard([], map[], map[], map[])
    {
      queue, sessions, sockets, connecting := [], map[], map[], map[];
    }

    method Push(e: Event)
      modifies this
      ensures View() == Pushed(old(View()), e) && queue == old(queue) + [e]
    {
      queue := queue + [e];
    }

    method Pop() returns (e: Event)
      requires queue != []
      modifies this
      ensures e == old(queue)[0] && View() == old(View()).(queue := old(queue)[1..])
    {
      e := queue[0];
      queue := queue[1..];
    }

    method AddSession(id: nat, handle: nat)
      modifies this
      ensures View() == Poller.AddSession(old(View()), id, handle)
      ensures queue == old(queue) && connecting == old(connecting)
      ensures sessions == if id in old(sessions) then old(sessions) else old(sessions)[id := handle]
      ensures sockets == if handle in old(sockets) then old(sockets) else old(sockets)[handle := id]
    {
      if id !in sessions { sessions := sessions[id := handle]; }
      if handle !in sockets { sockets := sockets[handle := id]; }
    }

    method RemoveSession(id: nat)
      requires id in sessions
      modifies this
      ensures View() == Poller.RemoveSession(old(View()), id)
      ensures queue == old(queue) && connecting == old(connecting)
      ensures sessions == old(sessions) - {id} && sockets == old(sockets) - {old(sessions)[id]}
    {
      var handle := sessions[id];
      sessions := sessions - {id};
      sockets := sockets - {handle};
    }

    /** The handler of the first queued event.  A close always closes the session it finds; a
        send or a control request closes it on failure only.  */
    method HandleFirst(answer: Answer)
      requires queue != []
      modifies this
      ensures View() == Handled(old(View()), answer) && queue == old(queue)[1..]
      ensures var e := old(queue)[0];
        e.Request? && e.id in old(sessions) && (e.ask == CloseSession || answer.Failure?) ==>
          && sessions == old(sessions) - {e.id} && sockets == old(sockets) - {old(sessions)[e.id]}
          && connecting == old(connecting)
      ensures var e := old(queue)[0];
        e.Request? && (e.id !in old(sessions) || (e.ask != CloseSession && !answer.Failure?)) ==>
          sessions == old(sessions) && sockets == old(sockets) && connecting == old(connecting)
      ensures var e := old(queue)[0];
        (e.AddSock? || e.TakeOver?) && e.id !in old(sessions) && e.handle !in old(sockets) ==>
          && sessions == old(sessions)[e.id := e.handle] && sockets == old(sockets)[e.handle := e.id]
          && connecting == old(connecting)
      ensures var e := old(queue)[0];
        e.AsyncConn? && answer.Success? && e.id !in old(sessions) && answer.handle !in old(sockets) ==>
          && sessions == old(sessions)[e.id := answer.handle] && sockets == old(sockets)[answer.handle := e.id]
          && connecting == old(connecting)
      ensures var e := old(queue)[0];
        e.AsyncConn? && answer.WouldBlock? && answer.handle !in old(connecting) ==>
          && connecting == old(connecting)[answer.handle := e.id]
          && sessions == old(sessions) && sockets == old(sockets)
      ensures old(queue)[0].AsyncConn? && answer.Failure? ==>
        sessions == old(sessions) && sockets == old(sockets) && connecting == old(connecting)
    {
      hide Poller.AddSession, Poller.RemoveSession;
      var e := Pop();
      match e {
        case AddSock(id, h) => AddSession(id, h);
        case TakeOver(id, h) => AddSession(id, h);
        case AsyncConn(id) =>
          if answer.Success? {
            AddSession(id, answer.handle);
          } else if answer.WouldBlock? {
            Connect(id, answer.handle);
          }
        case Request(id, ask) =>
          if id in sessions && Closes(ask, answer) { RemoveSession(id); }
      }
    }

    /** HandleConnecting; the result says whether the handle was a connecting one. */
    method FinishConnecting(handle: nat, connected: bool) returns (found: bool)
      modifies this
      ensures found == (handle in old(connecting)) && View() == Finished(old(View()), handle, connected)
      ensures queue == old(queue) && connecting == old(connecting) - {handle}
      ensures !(found && connected) ==> sessions == old(sessions) && sockets == old(sockets)
      ensures found && connected && old(connecting)[handle] !in old(sessions) && handle !in old(sockets) ==>
        var id := old(connecting)[handle];
        sessions == old(sessions)[id := handle] && sockets == old(sockets)[handle := id]
    {
      found := handle in connecting;
      if found {
        var id := connecting[handle];
        if connected { AddSession(id, handle); }
        Disconnect(handle);
      } else {
        assert connecting - {handle} == connecting;
      }
    }

    method Connect(id: nat, handle: nat)
      modifies this
      ensures View() == old(View()).(connecting := Insert(old(connecting), handle, id))
    {
      if handle !in connecting { connecting := connecting[handle := id]; }
    }

    method Disconnect(handle: nat)
      modifies this
      ensures View() == old(View()).(connecting := old(connecting) - {handle})
    {
      connecting := connecting - {handle};
    }
  }

  class PollerMgr {
    var pollers: seq<BasePoller>
    var maxSessionId: nat
    var pendingAddSocks: map<nat, nat>
    var pendingAsyncConns: set<nat>
    ghost var steps: seq<Step>
    ghost var net: Net

    ghost predicate Distinct()
      reads this
    {
      forall i, j :: 0 <= i < j < |pollers| ==> pollers[i] != pollers[j]
    }

    ghost predicate Matches()
      reads this, pollers
    {
      && |net.pollers| == |pollers| && (forall i :: 0 <= i < |pollers| ==> net.pollers[i] == pollers[i].View())
      && maxSessionId == net.nextId && pendingAddSocks == net.pendingSocks && pendingAsyncConns == net.pendingConns
    }

    ghost predicate Valid()
      reads this, pollers
    {
      Distinct() && Matches() && net == Exec(steps)
    }

    constructor ()
      ensures Valid() && net == Fresh() && pollers == []
    {
      pollers, maxSessionId, pendingAddSocks, pendingAsyncConns := [], 1, map[], {};
      steps, net := [], Fresh();
    }

    ghost method Happens(step: Step)
      requires net == Exec(steps)
      modifies this`steps, this`net
      ensures net == Exec(steps) && net == Next(old(net), step) && steps == old(steps) + [step]
    {
      assert (steps + [step])[..|steps + [step]| - 1] == steps;
      net := Next(net, step);
      steps := steps + [step];
    }

    /** Fails when there are pollers already or none is asked for. */
    method Init(count: nat) returns (ok: bool)
      requires Valid()
      modifies this
      ensures Valid() && net == Next(old(net), Poller.Init(count)) && ok == (count > 0 && old(pollers) == [])
      ensures if ok then |pollers| == count && (forall p :: p in pollers ==> fresh(p)) else pollers == old(pollers)
    {
      hide Exec;
      ok := count > 0 && pollers == [];
      if ok { pollers := Create(count); }
      Happens(Poller.Init(count));
    }

    static method Create(count: nat) returns (made: seq<BasePoller>)
      ensures |made| == count
      ensures (forall i :: 0 <= i < count ==> fresh(made[i]) && made[i].View() == Shard([], map[], map[], map[]))
      ensures forall i, j :: 0 <= i < j < count ==> made[i] != made[j]
    {
      made := [];
      for k := 0 to count
        invariant |made| == k
        invariant (forall i :: 0 <= i < k ==> fresh(made[i]) && made[i].View() == Shard([], map[], map[], map[]))
        invariant forall i, j :: 0 <= i < j < k ==> made[i] != made[j]
      {
        var p := new BasePoller();
        made := made + [p];
      }
    }

    method AllocSessionId(origin: Origin) returns (id: nat)
      requires Valid() && FreeFor(net.ledger, InHand(origin)) && (origin.FromAccept? ==> origin.poller < |pollers|)
      modifies this
      ensures Valid() && net == Next(old(net), Alloc(origin)) && id == old(maxSessionId) && pollers == old(pollers)
      ensures maxSessionId == id + 1 && pendingAddSocks == old(pendingAddSocks)
      ensures pendingAsyncConns == old(pendingAsyncConns)
      ensures id in net.hand && net.hand[id] == origin
    {
      hide Exec;
      id := maxSessionId;
      maxSessionId := maxSessionId + 1;
      Happens(Alloc(origin));
    }

    /** Pushes an event to the poller that session id belongs to. */
    method PushTo(id: nat, e: Event)
      requires Distinct() && pollers != []
      modifies pollers
      ensures forall i :: 0 <= i < |pollers| ==>
        pollers[i].View() == if i == ShardOf(id, |pollers|) then Pushed(old(pollers[i].View()), e)
          else old(pollers[i].View())
      ensures forall i :: 0 <= i < |pollers| ==> pollers[i].View() == old(pollers[i].View()).(queue :=
        old(pollers[i].queue) + if i == id % |pollers| then [e] else [])
    {
      pollers[id % |pollers|].Push(e);
    }

    /** Listen and Connect, once they have a socket. */
    method Open(handle: nat) returns (id: nat)
      requires Valid() && FreeFor(net.ledger, Established(handle))
      modifies this, pollers
      ensures Valid() && pollers == old(pollers) && id == old(maxSessionId) && maxSessionId == id + 1
      ensures net == Next(Next(old(net), Alloc(FromApi(handle))), Put(id))
      ensures if pollers == [] then pendingAddSocks == old(pendingAddSocks)[id := handle]
        else pendingAddSocks == old(pendingAddSocks)
      ensures pendingAsyncConns == old(pendingAsyncConns)
      ensures forall i :: 0 <= i < |pollers| ==> pollers[i].View() == old(pollers[i].View()).(queue :=
        old(pollers[i].queue) + if i == id % |pollers| then [AddSock(id, handle)] else [])
    {
      hide Exec, FreeFor, ShardOf, Next, Pushed;
      FreeInHand(net.ledger, handle, 0);
      Unpending(steps, maxSessionId);
      id := AllocSessionId(FromApi(handle));
      PutEffect(net, id);
      if pollers != [] {
        PushTo(id, AddSock(id, handle));
      } else {
        pendingAddSocks := Insert(pendingAddSocks, id, handle);
      }
      Happens(Put(id));
    }

    method AsyncConn() returns (id: nat)
      requires Valid()
      modifies this, pollers
      ensures Valid() && pollers == old(pollers) && id == old(maxSessionId) && maxSessionId == id + 1
      ensures net == Next(Next(old(net), Alloc(FromAsync)), Put(id))
      ensures if pollers == [] then pendingAsyncConns == old(pendingAsyncConns) + {id}
        else pendingAsyncConns == old(pendingAsyncConns)
      ensures pendingAddSocks == old(pendingAddSocks)
      ensures forall i :: 0 <= i < |pollers| ==> pollers[i].View() == old(pollers[i].View()).(queue :=
        old(pollers[i].queue) + if i == id % |pollers| then [Event.AsyncConn(id)] else [])
    {
      hide Exec, FreeFor, ShardOf, Next, Pushed;
      FreeNoSocket(net.ledger);
      id := AllocSessionId(FromAsync);
      PutEffect(net, id);
      if pollers != [] {
        PushTo(id, Event.AsyncConn(id));
      } else {
        pendingAsyncConns := pendingAsyncConns + {id};
      }
      Happens(Put(id));
    }

    /** The new session stays if it belongs here and is passed on if not. */
    method AddToPoller(q: nat, id: nat, handle: nat)
      requires Distinct() && q < |pollers|
      modifies pollers
      ensures forall i :: 0 <= i < |pollers| ==>
        pollers[i].View() == if i != ShardOf(id, |pollers|) then old(pollers[i].View())
          else if i == q then Poller.AddSession(old(pollers[i].View()), id, handle)
          else Pushed(old(pollers[i].View()), TakeOver(id, handle))
    {
      var hash := id % |pollers|;
      if hash == q {
        pollers[q].AddSession(id, handle);
      } else {
        PushTo(id, TakeOver(id, handle));
      }
    }

    /** A poller's Accept. */
    method Accept(q: nat, handle: nat) returns (id: nat)
      requires Valid() && q < |pollers| && FreeFor(net.ledger, Established(handle))
      modifies this, pollers
      ensures Valid() && pollers == old(pollers) && id == old(maxSessionId)
      ensures net == Next(Next(old(net), Alloc(FromAccept(q, handle))), Put(id))
      ensures forall i :: 0 <= i < |pollers| ==>
        pollers[i].View() == if i != ShardOf(id, |pollers|) then old(pollers[i].View())
          else if i == q then Poller.AddSession(old(pollers[i].View()), id, handle)
          else Pushed(old(pollers[i].View()), TakeOver(id, handle))
    {
      hide Exec, FreeFor, ShardOf, Poller.AddSession, Pushed, Next;
      FreeInHand(net.ledger, handle, q);
      id := AllocSessionId(FromAccept(q, handle));
      AcceptedPut(net, id, q, handle);
      AddToPoller(q, id, handle);
      Happens(Put(id));
    }

    /** Start hands every pending session to its poller, once, and does nothing else: `flushed`
        are the ids in the order in which they go.  */
    method Start() returns (ok: bool, ghost flushed: seq<nat>)
      requires Valid()
      modifies this, pollers
      ensures Valid() && pollers == old(pollers) && ok == (pollers != []) && steps == old(steps) + Flushes(flushed)
      ensures if ok then pendingAddSocks == map[] && pendingAsyncConns == {} else flushed == []
      ensures ok ==> multiset(flushed) == multiset(old(pendingAddSocks).Keys) + multiset(old(pendingAsyncConns))
    {
      hide Exec, ShardOf, FlushStep;
      ok, flushed := pollers != [], [];
      if !ok { return; }
      ghost var socks := FlushSocks();
      ghost var conns := FlushConns();
      flushed := socks + conns;
      assert Flushes(flushed) == Flushes(socks) + Flushes(conns);
    }

    method FlushSocks() returns (ghost flushed: seq<nat>)
      requires Valid() && pollers != []
      modifies this, pollers
      ensures Valid() && pollers == old(pollers) && steps == old(steps) + Flushes(flushed)
      ensures pendingAddSocks == map[] && pendingAsyncConns == old(pendingAsyncConns)
      ensures multiset(flushed) == multiset(old(pendingAddSocks).Keys)
    {
      hide Exec, Matches, Distinct;
      flushed := [];
      while pendingAddSocks != map[]
        invariant Valid() && pollers == old(pollers) && pendingAsyncConns == old(pendingAsyncConns)
        invariant steps == old(steps) + Flushes(flushed)
        invariant multiset(flushed) + multiset(pendingAddSocks.Keys) == multiset(old(pendingAddSocks).Keys)
        decreases |pendingAddSocks|
      {
        var id :| id in pendingAddSocks;
        MoveOne(pendingAddSocks.Keys, id, flushed);
        FlushOne(id);
        flushed := flushed + [id];
      }
      assert pendingAddSocks.Keys == {};
    }

    method FlushConns() returns (ghost flushed: seq<nat>)
      requires Valid() && pollers != [] && pendingAddSocks == map[]
      modifies this, pollers
      ensures Valid() && pollers == old(pollers) && steps == old(steps) + Flushes(flushed)
      ensures pendingAddSocks == map[] && pendingAsyncConns == {}
      ensures multiset(flushed) == multiset(old(pendingAsyncConns))
    {
      hide Exec, Matches, Distinct;
      flushed := [];
      while pendingAsyncConns != {}
        invariant Valid() && pollers == old(pollers) && pendingAddSocks == map[]
        invariant steps == old(steps) + Flushes(flushed)
        invariant multiset(flushed) + multiset(pendingAsyncConns) == multiset(old(pendingAsyncConns))
        decreases |pendingAsyncConns|
      {
        var id :| id in pendingAsyncConns;
        MoveOne(pendingAsyncConns, id, flushed);
        FlushOne(id);
        flushed := flushed + [id];
      }
    }

    method FlushOne(id: nat)
      requires Valid() && pollers != [] && (id in pendingAddSocks || id in pendingAsyncConns)
      modifies this, pollers
      ensures Valid() && pollers == old(pollers) && steps == old(steps) + [Flush(id)]
      ensures pendingAddSocks == old(pendingAddSocks) - {id}
      ensures forall i :: 0 <= i < |pollers| ==> pollers[i].View() == old(pollers[i].View()).(queue :=
        old(pollers[i].queue) + if i != id % |pollers| then []
          else if id in old(pendingAddSocks) then [AddSock(id, old(pendingAddSocks)[id])] else [Event.AsyncConn(id)])
      ensures pendingAsyncConns == if id in old(pendingAddSocks) then old(pendingAsyncConns)
        else old(pendingAsyncConns) - {id}
    {
      hide Exec, ShardOf, Next, Pushed;
      FlushEffect(net, id);
      if id in pendingAddSocks {
        PushTo(id, AddSock(id, pendingAddSocks[id]));
        pendingAddSocks := pendingAddSocks - {id};
      } else {
        PushTo(id, Event.AsyncConn(id));
        pendingAsyncConns := pendingAsyncConns - {id};
        assert pendingAddSocks - {id} == pendingAddSocks;
      }
      Happens(Flush(id));
    }

    /** Send, Close and CtrlProtocolStack. */
    method Request(id: nat, ask: Ask)
      requires Valid() && pollers != []
      modifies this, pollers
      ensures Valid() && pollers == old(pollers) && net == Next(old(net), Poller.Push(id, ask))
      ensures forall i :: 0 <= i < |pollers| ==> pollers[i].View() == old(pollers[i].View()).(queue :=
        old(pollers[i].queue) + if i == id % |pollers| then [Event.Request(id, ask)] else [])
    {
      hide Exec, ShardOf, Next, Pushed;
      PushEffect(net, id, ask);
      PushTo(id, Event.Request(id, ask));
      Happens(Poller.Push(id, ask));
    }

    /** One iteration of poller q's HandleQueuedEvents. */
    method HandleEvent(q: nat, answer: Answer)
      requires Valid() && q < |pollers| && pollers[q].queue != []
      requires pollers[q].queue[0].AsyncConn? && !answer.Failure? ==> FreeFor(net.ledger, Established(answer.handle))
      modifies this, pollers
      ensures Valid() && pollers == old(pollers) && net == Next(old(net), Handle(q, answer))
    {
      hide Exec, FreeFor, Next, Handled;
      HandledEffect(net, q, answer);
      pollers[q].HandleFirst(answer);
      Happens(Handle(q, answer));
    }

    /** HandleConnecting; the result says whether the handle was a connecting one. */
    method HandleConnecting(q: nat, handle: nat, connected: bool) returns (found: bool)
      requires Valid() && q < |pollers|
      modifies this, pollers
      ensures Valid() && pollers == old(pollers) && net == Next(old(net), Writable(q, handle, connected))
      ensures found == (handle in old(net).pollers[q].connecting)
    {
      hide Exec, Next, Finished;
      FinishedEffect(net, q, handle, connected);
      found := pollers[q].FinishConnecting(handle, connected);
      Happens(Writable(q, handle, connected));
    }
  }

  function Flushes(ids: seq<nat>): seq<Step> {
    seq(|ids|, i requires 0 <= i < |ids| => Flush(ids[i]))
  }

  lemma MoveOne(pending: set<nat>, id: nat, flushed: seq<nat>)
    requires id in pending
    ensures multiset(flushed + [id]) + multiset(pending - {id}) == multiset(flushed) + multiset(pending)
    ensures Flushes(flushed + [id]) == Flushes(flushed) + [Flush(id)]
  {
    assert multiset(pending) == multiset(pending - {id}) + multiset{id};
  }

  lemma FreeInHand(ledger: map<nat, Place>, handle: nat, q: nat)
    requires FreeFor(ledger, Established(handle))
    ensures FreeFor(ledger, InHand(FromApi(handle))) && FreeFor(ledger, InHand(FromAccept(q, handle)))
  {
  }

  lemma FreeNoSocket(ledger: map<nat, Place>)
    ensures FreeFor(ledger, InHand(FromAsync))
  {
  }

  /** Event e has been pushed to poller q, and nothing else changed in the pollers. */
  ghost predicate PushedTo(s: Net, s': Net, q: nat, e: Event) {
    && |s'.pollers| == |s.pollers| && s'.nextId == s.nextId
    && (forall i :: 0 <= i < |s.pollers| ==> s'.pollers[i] == if i == q then Pushed(s.pollers[i], e) else s.pollers[i])
  }

  /** What putting a session of Listen, Connect or AsyncConn down changes. */
  lemma PutEffect(s: Net, id: nat)
    requires id in s.hand && !s.hand[id].FromAccept?
    ensures var s', o := Next(s, Put(id)), s.hand[id];
      if s.pollers == [] then
        && s'.pollers == [] && s'.nextId == s.nextId
        && s'.pendingSocks == (if o.FromApi? then Insert(s.pendingSocks, id, o.handle) else s.pendingSocks)
        && s'.pendingConns == (if o.FromApi? then s.pendingConns else s.pendingConns + {id})
      else
        && s'.pendingSocks == s.pendingSocks && s'.pendingConns == s.pendingConns
        && PushedTo(s, s', ShardOf(id, |s.pollers|), if o.FromApi? then AddSock(id, o.handle) else Event.AsyncConn(id))
  {
    hide ShardOf, Pushed, Insert;
  }

  lemma FlushEffect(s: Net, id: nat)
    requires s.pollers != [] && (id in s.pendingSocks || id in s.pendingConns)
    ensures var s' := Next(s, Flush(id));
      if id in s.pendingSocks then
        && PushedTo(s, s', ShardOf(id, |s.pollers|), AddSock(id, s.pendingSocks[id]))
        && s'.pendingSocks == s.pendingSocks - {id} && s'.pendingConns == s.pendingConns
      else
        && PushedTo(s, s', ShardOf(id, |s.pollers|), Event.AsyncConn(id))
        && s'.pendingSocks == s.pendingSocks && s'.pendingConns == s.pendingConns - {id}
  {
    hide ShardOf, Pushed;
  }

  lemma PushEffect(s: Net, id: nat, ask: Ask)
    requires s.pollers != []
    ensures var s' := Next(s, Poller.Push(id, ask));
      && PushedTo(s, s', ShardOf(id, |s.pollers|), Event.Request(id, ask))
      && s'.pendingSocks == s.pendingSocks && s'.pendingConns == s.pendingConns
  {
    hide ShardOf, Pushed;
  }

  /** What handling the first event makes of a poller. */
  function Handled(s: Shard, answer: Answer): Shard
    requires s.queue != []
  {
    var t := s.(queue := s.queue[1..]);
    match s.queue[0]
    case AddSock(id, h) => Poller.AddSession(t, id, h)
    case TakeOver(id, h) => Poller.AddSession(t, id, h)
    case AsyncConn(id) =>
      if answer.Success? then Poller.AddSession(t, id, answer.handle)
      else if answer.WouldBlock? then t.(connecting := Insert(t.connecting, answer.handle, id))
      else t
    case Request(id, ask) => if id in t.sessions && Closes(ask, answer) then Poller.RemoveSession(t, id) else t
  }

  /** Poller q has become shard, and the manager's maps are as they were. */
  ghost predicate Replaced(s: Net, s': Net, q: nat, shard: Shard) {
    && |s'.pollers| == |s.pollers| && s'.nextId == s.nextId
    && s'.pendingSocks == s.pendingSocks && s'.pendingConns == s.pendingConns
    && (forall i :: 0 <= i < |s.pollers| ==> s'.pollers[i] == if i == q then shard else s.pollers[i])
  }

  lemma HandledEffect(s: Net, q: nat, answer: Answer)
    requires q < |s.pollers| && s.pollers[q].queue != []
    requires s.pollers[q].queue[0].AsyncConn? && !answer.Failure? ==> FreeFor(s.ledger, Established(answer.handle))
    ensures Replaced(s, Next(s, Handle(q, answer)), q, Handled(s.pollers[q], answer))
  {
    hide FreeFor, Insert, Poller.AddSession, Poller.RemoveSession;
  }

  /** What the end of an asynchronous connection makes of a poller. */
  function Finished(s: Shard, handle: nat, connected: bool): Shard {
    if handle !in s.connecting then s
    else
      var t := s.(connecting := s.connecting - {handle});
      if connected then Poller.AddSession(t, s.connecting[handle], handle) else t
  }

  lemma FinishedEffect(s: Net, q: nat, handle: nat, connected: bool)
    requires q < |s.pollers|
    ensures Replaced(s, Next(s, Writable(q, handle, connected)), q, Finished(s.pollers[q], handle, connected))
  {
    hide Poller.AddSession;
  }

  /** What putting an accepted session down changes. */
  lemma AcceptedPut(s: Net, id: nat, q: nat, handle: nat)
    requires id in s.hand && s.hand[id] == FromAccept(q, handle) && q < |s.pollers|
    ensures var s' := Next(s, Put(id));
      && |s'.pollers| == |s.pollers| && s'.nextId == s.nextId && s'.pendingSocks == s.pendingSocks
      && s'.pendingConns == s.pendingConns
      && forall i :: 0 <= i < |s.pollers| ==>
           s'.pollers[i] == if i != ShardOf(id, |s.pollers|) then s.pollers[i]
             else if i == q then Poller.AddSession(s.pollers[i], id, handle)
             else Pushed(s.pollers[i], TakeOver(id, handle))
  {
    hide ShardOf, Poller.AddSession, Pushed;
  }

  /** The next id is in no map yet. */
  lemma Unpending(steps: seq<Step>, id: nat)
    requires id == Exec(steps).nextId
    ensures id !in Exec(steps).pendingSocks
  {
    ReachedInv(steps);
    var s := Exec(steps);
    hide Exec, ShardOk;
    MapsPlace(s, id);
  }
}
