/** Sessions sharded over pollers (3rd/llbc/llbc/src/comm/PollerMgr.cpp, BasePoller.cpp and
    the epoll poller's handlers).

    Application threads and pollers run concurrently.  Drawing a session id is atomic, a push
    to a poller's queue is atomic, and only a poller touches its own tables, so each queued
    event is handled in one step: the results are about moments when every poller is between
    two events.  What the operating system answers is part of a step.  */
module Poller {
  import opened Wrappers

  datatype Ask = SendPacket | CloseSession | CtrlStack

  /** Queued poller events. */
  datatype Event =
    | AddSock(id: nat, handle: nat)
    | TakeOver(id: nat, handle: nat)
    | AsyncConn(id: nat)
    | Request(id: nat, ask: Ask)

  /** One poller: its queue, _sessions (the handle stands for the session's socket),
      _sockets and _connecting.  */
  datatype Shard = Shard(
    queue: seq<Event>,
    sessions: map<nat, nat>,
    sockets: map<nat, nat>,
    connecting: map<nat, nat>)

  /** Who draws an id: Listen or Connect, with a socket; AsyncConn; a poller's Accept. */
  datatype Origin = FromApi(handle: nat) | FromAsync | FromAccept(poller: nat, handle: nat)

  /** Where a session is. */
  datatype Place =
    | InHand(origin: Origin)
    | PendingSock(handle: nat)
    | PendingConn
    | Queued(socket: Option<nat>)
    | Connecting(handle: nat)
    | Established(handle: nat)

  /** `hand` are the ids a thread has drawn and not yet passed on; `ledger` says where every
      live session should be, for the statements below.  No step consults the ledger but to
      ask whether a socket handle is free, which is the operating system's to know.  */
  datatype Net = Net(
    pollers: seq<Shard>,
    nextId: nat,
    pendingSocks: map<nat, nat>,
    pendingConns: set<nat>,
    hand: map<nat, Origin>,
    ledger: map<nat, Place>)

  /** What the operating system says of a connect or a send. */
  datatype Answer = Success(handle: nat) | WouldBlock(handle: nat) | Failure

  datatype Step =
    | Init(count: nat)
    | Alloc(origin: Origin)
    | Put(id: nat)
    | Flush(id: nat)
    | Push(id: nat, ask: Ask)
    | Handle(poller: nat, answer: Answer)
    | Writable(poller: nat, handle: nat, connected: bool)
    | HangUp(poller: nat, id: nat)

  function Fresh(): Net {
    Net([], 1, map[], {}, map[], map[])
  }

  function ShardOf(id: nat, n: nat): (q: nat)
    ensures n > 0 ==> q < n
  {
    if n == 0 then 0 else id % n
  }

  // ---------------------------------------------------------------------
  // One poller
  // ---------------------------------------------------------------------

  function Pushed(s: Shard, e: Event): Shard {
    s.(queue := s.queue + [e])
  }

  /** Map insertion that keeps an existing entry, as std::map::insert does. */
  function Insert(m: map<nat, nat>, k: nat, v: nat): map<nat, nat> {
    if k in m then m else m[k := v]
  }

  function AddSession(s: Shard, id: nat, handle: nat): Shard {
    s.(sessions := Insert(s.sessions, id, handle), sockets := Insert(s.sockets, handle, id))
  }

  function RemoveSession(s: Shard, id: nat): Shard
    requires id in s.sessions
  {
    s.(sessions := s.sessions - {id}, sockets := s.sockets - {s.sessions[id]})
  }

  predicate WithSocket(e: Event) {
    e.AddSock? || e.TakeOver?
  }

  predicate Arrival(e: Event) {
    !e.Request?
  }

  function HandleOf(e: Event): Option<nat> {
    if WithSocket(e) then Some(e.handle) else None
  }

  // ---------------------------------------------------------------------
  // Steps
  // ---------------------------------------------------------------------

  function SocketOf(p: Place): Option<nat> {
    match p
    case InHand(FromApi(h)) => Some(h)
    case InHand(FromAsync) => None
    case InHand(FromAccept(_, h)) => Some(h)
    case PendingSock(h) => Some(h)
    case PendingConn => None
    case Queued(h) => h
    case Connecting(h) => Some(h)
    case Established(h) => Some(h)
  }

  /** The operating system gives out only handles that no open socket has. */
  ghost predicate FreeFor(ledger: map<nat, Place>, p: Place) {
    forall id :: id in ledger ==> SocketOf(p) == None || SocketOf(ledger[id]) != SocketOf(p)
  }

  function InitStep(s: Net, count: nat): Net {
    if count == 0 || s.pollers != [] then s else s.(pollers := seq(count, _ => Shard([], map[], map[], map[])))
  }

  ghost function AllocStep(s: Net, o: Origin): Net {
    if !FreeFor(s.ledger, InHand(o)) || (o.FromAccept? && o.poller >= |s.pollers|) then s
    else s.(nextId := s.nextId + 1, hand := s.hand[s.nextId := o], ledger := s.ledger[s.nextId := InHand(o)])
  }

  /** Moves session id to the poller it belongs to, as event e or as a session. */
  function ToQueue(s: Net, id: nat, e: Event): Net
    requires s.pollers != []
  {
    var q := ShardOf(id, |s.pollers|);
    s.(pollers := s.pollers[q := Pushed(s.pollers[q], e)], ledger := s.ledger[id := Queued(HandleOf(e))])
  }

  function ToTable(s: Net, q: nat, shard: Shard, id: nat, h: nat): Net
    requires q < |s.pollers|
  {
    s.(pollers := s.pollers[q := AddSession(shard, id, h)], ledger := s.ledger[id := Established(h)])
  }

  /** The session of poller q ends: it is closed, or its connection fails. */
  function Ended(s: Net, q: nat, shard: Shard, id: nat): Net
    requires q < |s.pollers|
  {
    s.(pollers := s.pollers[q := shard], ledger := s.ledger - {id})
  }

  /** The rest of Listen, Connect, AsyncConn and AddToPoller once the id is drawn. */
  function PutStep(s: Net, id: nat): Net {
    if id !in s.hand then s
    else
      var t := s.(hand := s.hand - {id});
      match s.hand[id]
      case FromApi(h) =>
        if s.pollers != [] then ToQueue(t, id, AddSock(id, h))
        else t.(pendingSocks := Insert(s.pendingSocks, id, h), ledger := s.ledger[id := PendingSock(h)])
      case FromAsync =>
        if s.pollers != [] then ToQueue(t, id, AsyncConn(id))
        else t.(pendingConns := s.pendingConns + {id}, ledger := s.ledger[id := PendingConn])
      case FromAccept(q, h) =>
        if q >= |s.pollers| then s
        else if ShardOf(id, |s.pollers|) == q then ToTable(t, q, s.pollers[q], id, h)
        else ToQueue(t, id, TakeOver(id, h))
  }

  /** One iteration of a loop of PollerMgr::Start. */
  function FlushStep(s: Net, id: nat): Net {
    if s.pollers == [] then s
    else if id in s.pendingSocks then
      ToQueue(s.(pendingSocks := s.pendingSocks - {id}), id, AddSock(id, s.pendingSocks[id]))
    else if id in s.pendingConns then
      ToQueue(s.(pendingConns := s.pendingConns - {id}), id, AsyncConn(id))
    else s
  }

  /** PollerMgr::Send, Close and CtrlProtocolStack. */
  function PushStep(s: Net, id: nat, ask: Ask): Net {
    if s.pollers == [] then s
    else
      var q := ShardOf(id, |s.pollers|);
      s.(pollers := s.pollers[q := Pushed(s.pollers[q], Request(id, ask))])
  }

  /** HandleEv_Send, HandleEv_Close and HandleEv_CtrlProtocolStack: whether the session goes. */
  predicate Closes(ask: Ask, answer: Answer) {
    ask.CloseSession? || answer.Failure?
  }

  ghost function HandleStep(s: Net, q: nat, answer: Answer): Net {
    if q >= |s.pollers| || s.pollers[q].queue == [] then s
    else
      var e := s.pollers[q].queue[0];
      var shard := s.pollers[q].(queue := s.pollers[q].queue[1..]);
      match e
      case AddSock(id, h) => ToTable(s, q, shard, id, h)
      case TakeOver(id, h) => ToTable(s, q, shard, id, h)
      case AsyncConn(id) =>
        if answer.Failure? then Ended(s, q, shard, id)
        else if !FreeFor(s.ledger, Established(answer.handle)) then s
        else if answer.Success? then ToTable(s, q, shard, id, answer.handle)
        else
          s.(pollers := s.pollers[q := shard.(connecting := Insert(shard.connecting, answer.handle, id))],
             ledger := s.ledger[id := Connecting(answer.handle)])
      case Request(id, ask) =>
        if id in shard.sessions && Closes(ask, answer) then Ended(s, q, RemoveSession(shard, id), id)
        else s.(pollers := s.pollers[q := shard])
  }

  /** HandleConnecting: an asynchronous connection succeeds or fails. */
  function WritableStep(s: Net, q: nat, h: nat, connected: bool): Net {
    if q >= |s.pollers| || h !in s.pollers[q].connecting then s
    else
      var id := s.pollers[q].connecting[h];
      var shard := s.pollers[q].(connecting := s.pollers[q].connecting - {h});
      if connected then ToTable(s, q, shard, id, h) else Ended(s, q, shard, id)
  }

  /** A session closes for an error or the end of its stream. */
  function HangUpStep(s: Net, q: nat, id: nat): Net {
    if q >= |s.pollers| || id !in s.pollers[q].sessions then s
    else Ended(s, q, RemoveSession(s.pollers[q], id), id)
  }

  ghost function Next(s: Net, step: Step): Net {
    match step
    case Init(count) => InitStep(s, count)
    case Alloc(o) => AllocStep(s, o)
    case Put(id) => PutStep(s, id)
    case Flush(id) => FlushStep(s, id)
    case Push(id, ask) => PushStep(s, id, ask)
    case Handle(q, answer) => HandleStep(s, q, answer)
    case Writable(q, h, connected) => WritableStep(s, q, h, connected)
    case HangUp(q, id) => HangUpStep(s, q, id)
  }

  ghost function Exec(steps: seq<Step>): Net {
    if steps == [] then Fresh() else Next(Exec(steps[..|steps| - 1]), steps[|steps| - 1])
  }

  // ---------------------------------------------------------------------
  // Invariant
  // ---------------------------------------------------------------------

  /** Queue q holds only events of its own sessions, and one arrival for each queued one. */
  ghost predicate QueueOk(queue: seq<Event>, q: nat, n: nat, ledger: map<nat, Place>) {
    && (forall k :: 0 <= k < |queue| ==> ShardOf(queue[k].id, n) == q)
    && (forall k :: 0 <= k < |queue| && Arrival(queue[k]) ==>
          queue[k].id in ledger && ledger[queue[k].id] == Queued(HandleOf(queue[k])))
    && (forall j, k :: 0 <= j < k < |queue| && Arrival(queue[j]) && Arrival(queue[k]) ==> queue[j].id != queue[k].id)
    && (forall id :: id in ledger && ledger[id].Queued? && ShardOf(id, n) == q ==> Arrives(queue, id))
  }

  ghost predicate Arrives(queue: seq<Event>, id: nat) {
    exists k :: 0 <= k < |queue| && Arrival(queue[k]) && queue[k].id == id
  }

  /** The tables hold exactly the sessions that belong there. */
  ghost predicate TablesOk(s: Shard, q: nat, n: nat, ledger: map<nat, Place>) {
    && (forall id :: id in s.sessions ==>
      id in ledger && ledger[id] == Established(s.sessions[id]) && ShardOf(id, n) == q)
    && (forall id :: id in ledger && ledger[id].Established? && ShardOf(id, n) == q ==> id in s.sessions)
    && (forall h :: h in s.sockets ==> s.sockets[h] in s.sessions && s.sessions[s.sockets[h]] == h)
    && (forall id :: id in s.sessions ==> s.sessions[id] in s.sockets && s.sockets[s.sessions[id]] == id)
    && (forall h :: h in s.connecting ==>
          s.connecting[h] in ledger && ledger[s.connecting[h]] == Connecting(h) && ShardOf(s.connecting[h], n) == q)
    && (forall id :: id in ledger && ledger[id].Connecting? && ShardOf(id, n) == q ==>
          ledger[id].handle in s.connecting && s.connecting[ledger[id].handle] == id)
  }

  ghost predicate ShardOk(s: Shard, q: nat, n: nat, ledger: map<nat, Place>) {
    QueueOk(s.queue, q, n, ledger) && TablesOk(s, q, n, ledger)
  }

  predicate AtPoller(p: Place) {
    p.Queued? || p.Connecting? || p.Established?
  }

  /** The manager's own maps, and what threads have in hand. */
  ghost predicate MapsOk(socks: map<nat, nat>, conns: set<nat>, hand: map<nat, Origin>, n: nat,
      ledger: map<nat, Place>) {
    && (forall id :: id in ledger && ledger[id].PendingSock? ==> id in socks)
    && (forall id :: id in socks ==> id in ledger && ledger[id] == PendingSock(socks[id]))
    && (forall id :: id in conns <==> id in ledger && ledger[id] == PendingConn)
    && (forall id :: id in ledger && ledger[id].InHand? ==> id in hand)
    && (forall id :: id in hand ==> id in ledger && ledger[id] == InHand(hand[id]))
    && (forall id :: id in hand && hand[id].FromAccept? ==> hand[id].poller < n)
  }

  ghost predicate ManagerOk(s: Net) {
    MapsOk(s.pendingSocks, s.pendingConns, s.hand, |s.pollers|, s.ledger)
  }

  ghost predicate LedgerOk(ledger: map<nat, Place>, n: nat, nextId: nat) {
    && (forall id :: id in ledger ==> 1 <= id < nextId && (AtPoller(ledger[id]) ==> n > 0))
    && (forall i, j :: i in ledger && j in ledger && i != j ==>
      SocketOf(ledger[i]) == None || SocketOf(ledger[i]) != SocketOf(ledger[j]))
  }

  ghost predicate Inv(s: Net) {
    && s.nextId >= 1 && ManagerOk(s) && LedgerOk(s.ledger, |s.pollers|, s.nextId)
    && (forall q :: 0 <= q < |s.pollers| ==> ShardOk(s.pollers[q], q, |s.pollers|, s.ledger))
  }

  // ---------------------------------------------------------------------
  // Moving one session
  // ---------------------------------------------------------------------

  ghost predicate Agree(ledger: map<nat, Place>, ledger': map<nat, Place>, id: nat) {
    forall x :: x != id ==> (x in ledger <==> x in ledger') && (x in ledger ==> ledger'[x] == ledger[x])
  }

  ghost predicate NotQueued(ledger: map<nat, Place>, id: nat) {
    id in ledger ==> !ledger[id].Queued?
  }

  ghost predicate NotTabled(ledger: map<nat, Place>, id: nat) {
    id in ledger ==> !ledger[id].Connecting? && !ledger[id].Established?
  }

  lemma QueueFrame(queue: seq<Event>, q: nat, n: nat, ledger: map<nat, Place>, ledger': map<nat, Place>, id: nat)
    requires QueueOk(queue, q, n, ledger) && Agree(ledger, ledger', id)
    requires ShardOf(id, n) != q || (NotQueued(ledger, id) && NotQueued(ledger', id))
    ensures QueueOk(queue, q, n, ledger')
  {
    hide ShardOf;
  }

  lemma TablesFrame(s: Shard, q: nat, n: nat, ledger: map<nat, Place>, ledger': map<nat, Place>, id: nat)
    requires TablesOk(s, q, n, ledger) && Agree(ledger, ledger', id)
    requires ShardOf(id, n) != q || (NotTabled(ledger, id) && NotTabled(ledger', id))
    ensures TablesOk(s, q, n, ledger')
  {
    hide ShardOf;
  }

  lemma LedgerSet(ledger: map<nat, Place>, n: nat, nextId: nat, id: nat, p: Place)
    requires LedgerOk(ledger, n, nextId) && 1 <= id < nextId && (AtPoller(p) ==> n > 0)
    requires FreeFor(ledger, p) || (id in ledger && SocketOf(ledger[id]) == SocketOf(p))
    ensures LedgerOk(ledger[id := p], n, nextId)
  {
    hide SocketOf;
  }

  lemma LedgerDrop(ledger: map<nat, Place>, n: nat, nextId: nat, id: nat)
    requires LedgerOk(ledger, n, nextId)
    ensures LedgerOk(ledger - {id}, n, nextId)
  {
    hide SocketOf;
  }

  /** What a poller does to its own session leaves the other pollers as they were. */
  lemma OneShard(s: Net, s': Net, q: nat, id: nat)
    requires Inv(s) && q < |s.pollers| && ShardOf(id, |s.pollers|) == q && Agree(s.ledger, s'.ledger, id)
    requires |s'.pollers| == |s.pollers| && s'.pollers == s.pollers[q := s'.pollers[q]] && s'.nextId == s.nextId
    requires ShardOk(s'.pollers[q], q, |s.pollers|, s'.ledger)
    requires ManagerOk(s') && LedgerOk(s'.ledger, |s.pollers|, s.nextId)
    ensures Inv(s')
  {
    var n := |s.pollers|;
    hide ManagerOk, LedgerOk, TablesOk, QueueOk, Agree, ShardOf;
    forall r | 0 <= r < n ensures ShardOk(s'.pollers[r], r, n, s'.ledger) {
      if r != q {
        var t := s.pollers[r];
        assert ShardOk(t, r, n, s.ledger);
        QueueFrame(t.queue, r, n, s.ledger, s'.ledger, id);
        TablesFrame(t, r, n, s.ledger, s'.ledger, id);
      }
    }
  }

  // the manager's maps

  lemma MapsFrame(socks: map<nat, nat>, conns: set<nat>, hand: map<nat, Origin>, n: nat, ledger: map<nat, Place>,
      ledger': map<nat, Place>, id: nat)
    requires MapsOk(socks, conns, hand, n, ledger) && Agree(ledger, ledger', id)
    requires (id in ledger ==> AtPoller(ledger[id])) && (id in ledger' ==> AtPoller(ledger'[id]))
    ensures MapsOk(socks, conns, hand, n, ledger')
  {
  }

  lemma MapsLeave(socks: map<nat, nat>, conns: set<nat>, hand: map<nat, Origin>, n: nat, ledger: map<nat, Place>,
      id: nat)
    requires MapsOk(socks, conns, hand, n, ledger) && id in ledger
    ensures MapsOk(socks - {id}, conns - {id}, hand - {id}, n, ledger - {id})
    ensures !ledger[id].PendingSock? ==> socks - {id} == socks
    ensures ledger[id] != PendingConn ==> conns - {id} == conns
    ensures !ledger[id].InHand? ==> hand - {id} == hand
  {
  }

  /** Adds an id the ledger does not know. */
  lemma MapsEnter(socks: map<nat, nat>, conns: set<nat>, hand: map<nat, Origin>, n: nat, ledger: map<nat, Place>,
      id: nat, p: Place)
    requires MapsOk(socks, conns, hand, n, ledger) && id !in ledger
    ensures p.PendingSock? ==> MapsOk(Insert(socks, id, p.handle), conns, hand, n, ledger[id := p])
    ensures p == PendingConn ==> MapsOk(socks, conns + {id}, hand, n, ledger[id := p])
    ensures p.InHand? && (p.origin.FromAccept? ==> p.origin.poller < n) ==>
      MapsOk(socks, conns, hand[id := p.origin], n, ledger[id := p])
    ensures AtPoller(p) ==> MapsOk(socks, conns, hand, n, ledger[id := p])
  {
  }

  /** An id in hand moves to place p. */
  lemma MapsFromHand(socks: map<nat, nat>, conns: set<nat>, hand: map<nat, Origin>, n: nat, ledger: map<nat, Place>,
      id: nat, p: Place)
    requires MapsOk(socks, conns, hand, n, ledger) && id in ledger && ledger[id].InHand?
    ensures p.PendingSock? ==> MapsOk(Insert(socks, id, p.handle), conns, hand - {id}, n, ledger[id := p])
    ensures p == PendingConn ==> MapsOk(socks, conns + {id}, hand - {id}, n, ledger[id := p])
    ensures AtPoller(p) ==> MapsOk(socks, conns, hand - {id}, n, ledger[id := p])
  {
    MapsLeave(socks, conns, hand, n, ledger, id);
    hide MapsOk, Insert;
    MapsEnter(socks, conns, hand - {id}, n, ledger - {id}, id, p);
    assert (ledger - {id})[id := p] == ledger[id := p];
  }

  /** An id leaves the manager's maps or a thread's hand for a poller. */
  lemma MapsOut(socks: map<nat, nat>, conns: set<nat>, hand: map<nat, Origin>, n: nat, ledger: map<nat, Place>, id: nat,
      p: Place)
    requires MapsOk(socks, conns, hand, n, ledger) && id in ledger && AtPoller(p)
    ensures MapsOk(socks - {id}, conns - {id}, hand - {id}, n, ledger[id := p])
  {
    MapsLeave(socks, conns, hand, n, ledger, id);
    hide MapsOk;
    MapsEnter(socks - {id}, conns - {id}, hand - {id}, n, ledger - {id}, id, p);
    assert (ledger - {id})[id := p] == ledger[id := p];
  }

  // pushing an arrival

  lemma QueuePush(queue: seq<Event>, q: nat, n: nat, ledger: map<nat, Place>, e: Event)
    requires QueueOk(queue, q, n, ledger)
    requires Arrival(e) && ShardOf(e.id, n) == q && e.id in ledger && NotQueued(ledger, e.id)
    requires !ledger[e.id].Established?
    ensures QueueOk(queue + [e], q, n, ledger[e.id := Queued(HandleOf(e))])
  {
    var ledger' := ledger[e.id := Queued(HandleOf(e))];
    var queue' := queue + [e];
    hide ShardOf;
    assert queue'[|queue|] == e;
    forall id | id in ledger' && ledger'[id].Queued? && ShardOf(id, n) == q ensures Arrives(queue', id) {
      if id != e.id { ArrivesLater(queue, id, queue', 0); }
    }
  }

  lemma ArrivesLater(queue: seq<Event>, id: nat, queue': seq<Event>, shift: nat)
    requires Arrives(queue, id) && shift <= |queue| && queue[shift..] <= queue'
    requires forall k :: 0 <= k < shift ==> queue[k].id != id
    ensures Arrives(queue', id)
  {
    var k :| 0 <= k < |queue| && Arrival(queue[k]) && queue[k].id == id;
    assert queue'[k - shift] == queue[shift..][k - shift];
  }

  // taking an event off the queue

  lemma QueuePop(queue: seq<Event>, q: nat, n: nat, ledger: map<nat, Place>, ledger': map<nat, Place>)
    requires QueueOk(queue, q, n, ledger) && queue != []
    requires var e := queue[0];
      if e.Request? then ledger' == ledger
      else Agree(ledger, ledger', e.id) && NotQueued(ledger', e.id)
    ensures QueueOk(queue[1..], q, n, ledger')
  {
    var e, queue' := queue[0], queue[1..];
    hide ShardOf;
    forall id | id in ledger' && ledger'[id].Queued? && ShardOf(id, n) == q ensures Arrives(queue', id) {
      if !Arrival(e) || id != e.id {
        var k :| 0 <= k < |queue| && Arrival(queue[k]) && queue[k].id == id;
        assert queue'[k - 1] == queue[k];
      }
    }
  }

  // a poller's tables

  ghost predicate Unshared(ledger: map<nat, Place>, id: nat, h: nat) {
    forall x :: x in ledger && x != id ==> SocketOf(ledger[x]) != Some(h)
  }

  lemma TablesAdd(s: Shard, q: nat, n: nat, ledger: map<nat, Place>, id: nat, h: nat)
    requires TablesOk(s, q, n, ledger) && ShardOf(id, n) == q && NotTabled(ledger, id) && Unshared(ledger, id, h)
    ensures TablesOk(AddSession(s, id, h), q, n, ledger[id := Established(h)])
  {
    hide ShardOf;
    assert id !in s.sessions;
    assert h !in s.sockets;
  }

  lemma TablesConnect(s: Shard, q: nat, n: nat, ledger: map<nat, Place>, id: nat, h: nat)
    requires TablesOk(s, q, n, ledger) && ShardOf(id, n) == q && NotTabled(ledger, id) && Unshared(ledger, id, h)
    ensures TablesOk(s.(connecting := Insert(s.connecting, h, id)), q, n, ledger[id := Connecting(h)])
  {
    hide ShardOf;
    assert h !in s.connecting;
  }

  lemma TablesDisconnect(s: Shard, q: nat, n: nat, ledger: map<nat, Place>, h: nat)
    requires TablesOk(s, q, n, ledger) && h in s.connecting
    ensures TablesOk(s.(connecting := s.connecting - {h}), q, n, ledger - {s.connecting[h]})
  {
    hide ShardOf;
  }

  lemma TablesRemove(s: Shard, q: nat, n: nat, ledger: map<nat, Place>, id: nat)
    requires TablesOk(s, q, n, ledger) && id in s.sessions
    ensures TablesOk(RemoveSession(s, id), q, n, ledger - {id})
  {
    hide ShardOf;
  }

  lemma SameTables(s: Shard, q: nat, n: nat, ledger: map<nat, Place>, queue: seq<Event>)
    requires TablesOk(s, q, n, ledger)
    ensures TablesOk(s.(queue := queue), q, n, ledger)
  {
    hide ShardOf;
  }

  // ---------------------------------------------------------------------
  // Preservation
  // ---------------------------------------------------------------------

  lemma InvParts(s: Net)
    requires Inv(s)
    ensures MapsOk(s.pendingSocks, s.pendingConns, s.hand, |s.pollers|, s.ledger)
    ensures LedgerOk(s.ledger, |s.pollers|, s.nextId)
    ensures forall q :: 0 <= q < |s.pollers| ==> ShardOk(s.pollers[q], q, |s.pollers|, s.ledger)
    ensures forall id :: id in s.ledger ==> 1 <= id < s.nextId && (AtPoller(s.ledger[id]) ==> s.pollers != [])
  {
    hide MapsOk, ShardOk, SocketOf;
  }

  /** Where the ids of the manager's maps are. */
  lemma MapsPlace(s: Net, id: nat)
    requires Inv(s)
    ensures id in s.pendingSocks ==> id in s.ledger && s.ledger[id] == PendingSock(s.pendingSocks[id])
    ensures id in s.pendingConns ==> id in s.ledger && s.ledger[id] == PendingConn
    ensures id in s.hand ==> id in s.ledger && s.ledger[id] == InHand(s.hand[id])
    ensures id in s.hand && s.hand[id].FromAccept? ==> s.hand[id].poller < |s.pollers|
  {
    hide ShardOk, LedgerOk;
  }

  lemma InitInv(s: Net, count: nat)
    requires Inv(s)
    ensures Inv(InitStep(s, count))
  {
    if count > 0 && s.pollers == [] {
      hide ShardOf, SocketOf;
    }
  }

  lemma AllocInv(s: Net, o: Origin)
    requires Inv(s)
    ensures Inv(AllocStep(s, o))
  {
    var n, id := |s.pollers|, s.nextId;
    if FreeFor(s.ledger, InHand(o)) && (o.FromAccept? ==> o.poller < n) {
      var s' := AllocStep(s, o);
      assert LedgerOk(s.ledger, n, s'.nextId) && id !in s.ledger;
      hide LedgerOk, QueueOk, TablesOk, ShardOf, MapsOk, SocketOf, FreeFor;
      LedgerSet(s.ledger, n, s'.nextId, id, InHand(o));
      MapsEnter(s.pendingSocks, s.pendingConns, s.hand, n, s.ledger, id, InHand(o));
      forall r | 0 <= r < n ensures ShardOk(s'.pollers[r], r, n, s'.ledger) {
        AllocShard(s.pollers[r], r, n, s.nextId, s.ledger, o);
      }
    }
  }

  lemma AllocShard(t: Shard, r: nat, n: nat, id: nat, ledger: map<nat, Place>, o: Origin)
    requires ShardOk(t, r, n, ledger) && id !in ledger
    ensures ShardOk(t, r, n, ledger[id := InHand(o)])
  {
    hide QueueOk, TablesOk, ShardOf;
    var ledger' := ledger[id := InHand(o)];
    QueueFrame(t.queue, r, n, ledger, ledger', id);
    TablesFrame(t, r, n, ledger, ledger', id);
  }

  lemma PushShard(s: Shard, q: nat, n: nat, ledger: map<nat, Place>, e: Event)
    requires ShardOk(s, q, n, ledger) && Arrival(e) && ShardOf(e.id, n) == q && e.id in ledger
    requires !AtPoller(ledger[e.id])
    ensures ShardOk(Pushed(s, e), q, n, ledger[e.id := Queued(HandleOf(e))])
  {
    hide QueueOk, TablesOk, ShardOf;
    var ledger' := ledger[e.id := Queued(HandleOf(e))];
    QueuePush(s.queue, q, n, ledger, e);
    TablesFrame(s, q, n, ledger, ledger', e.id);
    SameTables(s, q, n, ledger', s.queue + [e]);
  }

  /** A session leaves the manager's maps or a thread's hand for its poller's queue. */
  lemma ToQueueInv(s: Net, t: Net, id: nat, e: Event)
    requires Inv(s) && s.pollers != [] && id == e.id && id in s.ledger && !AtPoller(s.ledger[id]) && Arrival(e)
    requires SocketOf(s.ledger[id]) == HandleOf(e)
    requires t == s.(pendingSocks := s.pendingSocks - {id}, pendingConns := s.pendingConns - {id},
      hand := s.hand - {id})
    ensures Inv(ToQueue(t, id, e))
  {
    hide Inv, LedgerOk, FreeFor, ShardOk, ShardOf, HandleOf, MapsOk, Pushed;
    var n := |s.pollers|;
    var q := ShardOf(id, n);
    var s' := ToQueue(t, id, e);
    InvParts(s);
    LedgerSet(s.ledger, n, s.nextId, id, Queued(HandleOf(e)));
    MapsOut(s.pendingSocks, s.pendingConns, s.hand, n, s.ledger, id, Queued(HandleOf(e)));
    PushShard(s.pollers[q], q, n, s.ledger, e);
    OneShard(s, s', q, id);
  }

  lemma FlushInv(s: Net, id: nat)
    requires Inv(s)
    ensures Inv(FlushStep(s, id))
  {
    hide Inv, ToQueue, ShardOf, MapsOk, LedgerOk, ShardOk;
    InvParts(s);
    MapsPlace(s, id);
    if s.pollers != [] && (id in s.pendingSocks || id in s.pendingConns) {
      MapsLeave(s.pendingSocks, s.pendingConns, s.hand, |s.pollers|, s.ledger, id);
      var t := s.(pendingSocks := s.pendingSocks - {id}, pendingConns := s.pendingConns - {id}, hand := s.hand - {id});
      ToQueueInv(s, t, id, if id in s.pendingSocks then AddSock(id, s.pendingSocks[id]) else AsyncConn(id));
    }
  }

  /** A session that was in hand or connecting becomes a poller's session. */
  lemma EstablishShard(s: Shard, q: nat, n: nat, ledger: map<nat, Place>, id: nat, h: nat)
    requires ShardOk(s, q, n, ledger) && ShardOf(id, n) == q && Unshared(ledger, id, h)
    requires NotQueued(ledger, id) && NotTabled(ledger, id)
    ensures ShardOk(AddSession(s, id, h), q, n, ledger[id := Established(h)])
  {
    hide QueueOk, TablesOk, ShardOf, Unshared;
    QueueFrame(s.queue, q, n, ledger, ledger[id := Established(h)], id);
    TablesAdd(s, q, n, ledger, id, h);
  }

  /** An accepted session belongs to the poller that accepted it. */
  lemma ToOwnTableInv(s: Net, t: Net, id: nat, q: nat, h: nat)
    requires Inv(s) && q < |s.pollers| && ShardOf(id, |s.pollers|) == q && id in s.ledger
    requires s.ledger[id] == InHand(FromAccept(q, h))
    requires t == s.(hand := s.hand - {id})
    ensures Inv(ToTable(t, q, s.pollers[q], id, h))
  {
    hide Inv, LedgerOk, FreeFor, ShardOk, ShardOf, MapsOk, Unshared, AddSession;
    var n, p := |s.pollers|, Established(h);
    var s' := ToTable(t, q, s.pollers[q], id, h);
    InvParts(s);
    LedgerSet(s.ledger, n, s.nextId, id, p);
    OnlySocket(s.ledger, n, s.nextId, id, h);
    MapsFromHand(s.pendingSocks, s.pendingConns, s.hand, n, s.ledger, id, p);
    EstablishShard(s.pollers[q], q, n, s.ledger, id, h);
    OneShard(s, s', q, id);
  }

  lemma OnlySocket(ledger: map<nat, Place>, n: nat, nextId: nat, id: nat, h: nat)
    requires LedgerOk(ledger, n, nextId) && id in ledger && SocketOf(ledger[id]) == Some(h)
    ensures Unshared(ledger, id, h)
  {
  }

  /** Before the pollers exist a session waits in one of the manager's maps. */
  lemma ParkInv(s: Net, s': Net, id: nat, p: Place)
    requires Inv(s) && s.pollers == [] && id in s.ledger && s.ledger[id].InHand?
    requires SocketOf(p) == SocketOf(s.ledger[id])
    requires p.PendingSock? || p.PendingConn?
    requires s' == s.(hand := s.hand - {id}, ledger := s.ledger[id := p], pendingSocks := s'.pendingSocks,
      pendingConns := s'.pendingConns)
    requires s'.pendingSocks == if p.PendingSock? then Insert(s.pendingSocks, id, p.handle) else s.pendingSocks
    requires s'.pendingConns == if p.PendingConn? then s.pendingConns + {id} else s.pendingConns
    ensures Inv(s')
  {
    InvParts(s);
    assert s.nextId >= 1;
    hide Inv, LedgerOk, MapsOk, SocketOf, FreeFor, ShardOk, ShardOf, Insert;
    LedgerSet(s.ledger, 0, s.nextId, id, p);
    MapsFromHand(s.pendingSocks, s.pendingConns, s.hand, 0, s.ledger, id, p);
    ParkedInv(s');
  }

  lemma ParkedInv(s: Net)
    requires s.pollers == [] && s.nextId >= 1 && MapsOk(s.pendingSocks, s.pendingConns, s.hand, 0, s.ledger)
    requires LedgerOk(s.ledger, 0, s.nextId)
    ensures Inv(s)
  {
    hide MapsOk, LedgerOk;
  }

  lemma PutInv(s: Net, id: nat)
    requires Inv(s)
    ensures Inv(PutStep(s, id))
  {
    hide Inv, ToQueue, ToTable, ShardOf, MapsOk, LedgerOk, ShardOk, Insert;
    InvParts(s);
    MapsPlace(s, id);
    if id in s.hand {
      MapsLeave(s.pendingSocks, s.pendingConns, s.hand, |s.pollers|, s.ledger, id);
      var t := s.(pendingSocks := s.pendingSocks - {id}, pendingConns := s.pendingConns - {id}, hand := s.hand - {id});
      assert t == s.(hand := s.hand - {id});
      var o := s.hand[id];
      if o.FromAccept? {
        if ShardOf(id, |s.pollers|) == o.poller { ToOwnTableInv(s, t, id, o.poller, o.handle); }
        else { ToQueueInv(s, t, id, TakeOver(id, o.handle)); }
      } else if s.pollers == [] {
        ParkInv(s, PutStep(s, id), id, if o.FromApi? then PendingSock(o.handle) else PendingConn);
      } else {
        ToQueueInv(s, t, id, if o.FromApi? then AddSock(id, o.handle) else AsyncConn(id));
      }
    }
  }

  /** What a poller does to a session of its own. */
  lemma PollerMove(s: Net, q: nat, shard: Shard, id: nat, ledger': map<nat, Place>)
    requires Inv(s) && q < |s.pollers| && ShardOf(id, |s.pollers|) == q && Agree(s.ledger, ledger', id)
    requires (id in s.ledger ==> AtPoller(s.ledger[id])) && (id in ledger' ==> AtPoller(ledger'[id]))
    requires ShardOk(shard, q, |s.pollers|, ledger') && LedgerOk(ledger', |s.pollers|, s.nextId)
    ensures Inv(s.(pollers := s.pollers[q := shard], ledger := ledger'))
  {
    hide Inv, LedgerOk, ShardOk, ShardOf, MapsOk, Agree;
    InvParts(s);
    MapsFrame(s.pendingSocks, s.pendingConns, s.hand, |s.pollers|, s.ledger, ledger', id);
    OneShard(s, s.(pollers := s.pollers[q := shard], ledger := ledger'), q, id);
  }

  // send, close and control requests

  lemma RequestShard(s: Shard, q: nat, n: nat, ledger: map<nat, Place>, id: nat, ask: Ask)
    requires ShardOk(s, q, n, ledger) && ShardOf(id, n) == q
    ensures ShardOk(Pushed(s, Request(id, ask)), q, n, ledger)
  {
    hide ShardOf, SocketOf;
    var e := Request(id, ask);
    var queue := s.queue + [e];
    SameTables(s, q, n, ledger, queue);
    hide TablesOk;
    forall x | x in ledger && ledger[x].Queued? && ShardOf(x, n) == q ensures Arrives(queue, x) {
      ArrivesLater(s.queue, x, queue, 0);
    }
  }

  lemma PushInv(s: Net, id: nat, ask: Ask)
    requires Inv(s)
    ensures Inv(PushStep(s, id, ask))
  {
    hide Inv, LedgerOk, ShardOk, ShardOf, MapsOk, Pushed;
    InvParts(s);
    if s.pollers != [] {
      var n := |s.pollers|;
      var q := ShardOf(id, n);
      RequestShard(s.pollers[q], q, n, s.ledger, id, ask);
      OneShard(s, PushStep(s, id, ask), q, id);
    }
  }

  // handling queued events

  ghost predicate HeadIs(s: Shard, e: Event) {
    s.queue != [] && s.queue[0] == e
  }

  lemma PopEstablish(s: Shard, q: nat, n: nat, ledger: map<nat, Place>, e: Event, h: nat)
    requires ShardOk(s, q, n, ledger) && HeadIs(s, e) && Arrival(e) && Unshared(ledger, e.id, h)
    ensures ShardOf(e.id, n) == q && e.id in ledger && ledger[e.id] == Queued(HandleOf(e))
    ensures ShardOk(AddSession(s.(queue := s.queue[1..]), e.id, h), q, n, ledger[e.id := Established(h)])
  {
    hide ShardOf, Unshared, TablesOk;
    assert ShardOf(e.id, n) == q && e.id in ledger && ledger[e.id] == Queued(HandleOf(e));
    hide QueueOk;
    QueuePop(s.queue, q, n, ledger, ledger[e.id := Established(h)]);
    SameTables(s, q, n, ledger, s.queue[1..]);
    TablesAdd(s.(queue := s.queue[1..]), q, n, ledger, e.id, h);
  }

  lemma PopConnect(s: Shard, q: nat, n: nat, ledger: map<nat, Place>, id: nat, h: nat)
    requires ShardOk(s, q, n, ledger) && HeadIs(s, AsyncConn(id)) && Unshared(ledger, id, h)
    ensures ShardOf(id, n) == q && id in ledger && ledger[id] == Queued(None)
    ensures ShardOk(s.(queue := s.queue[1..], connecting := Insert(s.connecting, h, id)), q, n,
      ledger[id := Connecting(h)])
  {
    hide ShardOf, Unshared, TablesOk;
    assert ShardOf(id, n) == q && id in ledger && ledger[id] == Queued(HandleOf(AsyncConn(id)));
    hide QueueOk;
    QueuePop(s.queue, q, n, ledger, ledger[id := Connecting(h)]);
    SameTables(s, q, n, ledger, s.queue[1..]);
    TablesConnect(s.(queue := s.queue[1..]), q, n, ledger, id, h);
  }

  lemma PopDrop(s: Shard, q: nat, n: nat, ledger: map<nat, Place>, id: nat)
    requires ShardOk(s, q, n, ledger) && HeadIs(s, AsyncConn(id))
    ensures ShardOf(id, n) == q && id in ledger && ledger[id] == Queued(None)
    ensures ShardOk(s.(queue := s.queue[1..]), q, n, ledger - {id})
  {
    hide ShardOf, TablesOk;
    assert ShardOf(id, n) == q && id in ledger && ledger[id] == Queued(HandleOf(AsyncConn(id)));
    hide QueueOk;
    QueuePop(s.queue, q, n, ledger, ledger - {id});
    TablesFrame(s, q, n, ledger, ledger - {id}, id);
    SameTables(s, q, n, ledger - {id}, s.queue[1..]);
  }

  lemma PopRequest(s: Shard, q: nat, n: nat, ledger: map<nat, Place>)
    requires ShardOk(s, q, n, ledger) && s.queue != [] && s.queue[0].Request?
    ensures ShardOf(s.queue[0].id, n) == q && ShardOk(s.(queue := s.queue[1..]), q, n, ledger)
  {
    hide ShardOf, TablesOk;
    assert ShardOf(s.queue[0].id, n) == q;
    hide QueueOk;
    QueuePop(s.queue, q, n, ledger, ledger);
    SameTables(s, q, n, ledger, s.queue[1..]);
  }

  lemma RemoveShard(s: Shard, q: nat, n: nat, ledger: map<nat, Place>, id: nat)
    requires ShardOk(s, q, n, ledger) && id in s.sessions
    ensures ShardOf(id, n) == q && id in ledger && ledger[id].Established?
    ensures ShardOk(RemoveSession(s, id), q, n, ledger - {id})
  {
    hide ShardOf, QueueOk;
    assert ShardOf(id, n) == q && id in ledger && ledger[id] == Established(s.sessions[id]);
    hide TablesOk;
    TablesRemove(s, q, n, ledger, id);
    QueueFrame(s.queue, q, n, ledger, ledger - {id}, id);
  }

  lemma DisconnectShard(s: Shard, q: nat, n: nat, ledger: map<nat, Place>, h: nat)
    requires ShardOk(s, q, n, ledger) && h in s.connecting
    ensures var id := s.connecting[h];
      && ShardOf(id, n) == q && id in ledger && ledger[id] == Connecting(h)
      && ShardOk(s.(connecting := s.connecting - {h}), q, n, ledger - {id})
  {
    hide ShardOf, QueueOk;
    var id := s.connecting[h];
    assert ShardOf(id, n) == q && id in ledger && ledger[id] == Connecting(h);
    hide TablesOk;
    TablesDisconnect(s, q, n, ledger, h);
    QueueFrame(s.queue, q, n, ledger, ledger - {id}, id);
  }

  lemma FreeUnshared(ledger: map<nat, Place>, id: nat, h: nat)
    requires FreeFor(ledger, Established(h))
    ensures Unshared(ledger, id, h) && FreeFor(ledger, Connecting(h))
  {
    assert SocketOf(Established(h)) == Some(h);
  }

  /** The event at the head of the queue makes the session one of the poller's. */
  lemma ArriveInv(s: Net, q: nat, e: Event, h: nat)
    requires Inv(s) && q < |s.pollers| && HeadIs(s.pollers[q], e) && Arrival(e)
    requires if WithSocket(e) then h == e.handle else FreeFor(s.ledger, Established(h))
    ensures Inv(ToTable(s, q, s.pollers[q].(queue := s.pollers[q].queue[1..]), e.id, h))
  {
    hide Inv, LedgerOk, ShardOk, ShardOf, MapsOk, FreeFor, Unshared, AddSession;
    var n := |s.pollers|;
    InvParts(s);
    HeadPlace(s.pollers[q], q, n, s.ledger);
    if WithSocket(e) { OnlySocket(s.ledger, n, s.nextId, e.id, h); } else { FreeUnshared(s.ledger, e.id, h); }
    PopEstablish(s.pollers[q], q, n, s.ledger, e, h);
    LedgerSet(s.ledger, n, s.nextId, e.id, Established(h));
    PollerMove(s, q, AddSession(s.pollers[q].(queue := s.pollers[q].queue[1..]), e.id, h), e.id,
      s.ledger[e.id := Established(h)]);
  }

  lemma HeadPlace(s: Shard, q: nat, n: nat, ledger: map<nat, Place>)
    requires ShardOk(s, q, n, ledger) && s.queue != []
    ensures ShardOf(s.queue[0].id, n) == q
    ensures var e := s.queue[0]; Arrival(e) ==> e.id in ledger && ledger[e.id] == Queued(HandleOf(e))
  {
    hide ShardOf, TablesOk;
  }

  lemma ConnectInv(s: Net, q: nat, id: nat, answer: Answer)
    requires Inv(s) && q < |s.pollers| && HeadIs(s.pollers[q], AsyncConn(id)) && !answer.Success?
    ensures Inv(HandleStep(s, q, answer))
  {
    hide Inv, LedgerOk, ShardOk, ShardOf, MapsOk, FreeFor, Unshared, Insert;
    var n, shard := |s.pollers|, s.pollers[q];
    InvParts(s);
    PopDrop(shard, q, n, s.ledger, id);
    if answer.Failure? {
      LedgerDrop(s.ledger, n, s.nextId, id);
      PollerMove(s, q, shard.(queue := shard.queue[1..]), id, s.ledger - {id});
    } else if FreeFor(s.ledger, Established(answer.handle)) {
      var h := answer.handle;
      FreeUnshared(s.ledger, id, h);
      PopConnect(shard, q, n, s.ledger, id, h);
      LedgerSet(s.ledger, n, s.nextId, id, Connecting(h));
      PollerMove(s, q, shard.(queue := shard.queue[1..], connecting := Insert(shard.connecting, h, id)), id,
        s.ledger[id := Connecting(h)]);
    }
  }

  lemma RequestInv(s: Net, q: nat, answer: Answer)
    requires Inv(s) && q < |s.pollers| && s.pollers[q].queue != [] && s.pollers[q].queue[0].Request?
    ensures Inv(HandleStep(s, q, answer))
  {
    hide Inv, LedgerOk, ShardOk, ShardOf, MapsOk, RemoveSession;
    var n, shard, e := |s.pollers|, s.pollers[q].(queue := s.pollers[q].queue[1..]), s.pollers[q].queue[0];
    InvParts(s);
    PopRequest(s.pollers[q], q, n, s.ledger);
    if e.id in shard.sessions && Closes(e.ask, answer) {
      RemoveShard(shard, q, n, s.ledger, e.id);
      LedgerDrop(s.ledger, n, s.nextId, e.id);
      PollerMove(s, q, RemoveSession(shard, e.id), e.id, s.ledger - {e.id});
    } else {
      OneShard(s, HandleStep(s, q, answer), q, e.id);
    }
  }

  lemma HandleInv(s: Net, q: nat, answer: Answer)
    requires Inv(s)
    ensures Inv(HandleStep(s, q, answer))
  {
    hide Inv, ToTable;
    if q < |s.pollers| && s.pollers[q].queue != [] {
      var e := s.pollers[q].queue[0];
      if e.Request? {
        RequestInv(s, q, answer);
      } else if WithSocket(e) {
        ArriveInv(s, q, e, e.handle);
      } else if !answer.Success? {
        ConnectInv(s, q, e.id, answer);
      } else if FreeFor(s.ledger, Established(answer.handle)) {
        ArriveInv(s, q, e, answer.handle);
      }
    }
  }

  lemma WritableInv(s: Net, q: nat, h: nat, connected: bool)
    requires Inv(s)
    ensures Inv(WritableStep(s, q, h, connected))
  {
    hide Inv, LedgerOk, ShardOk, ShardOf, MapsOk, FreeFor, Unshared, AddSession;
    if q < |s.pollers| && h in s.pollers[q].connecting {
      var n, id := |s.pollers|, s.pollers[q].connecting[h];
      var shard, dropped := s.pollers[q].(connecting := s.pollers[q].connecting - {h}), s.ledger - {id};
      InvParts(s);
      DisconnectShard(s.pollers[q], q, n, s.ledger, h);
      if connected {
        OnlySocket(s.ledger, n, s.nextId, id, h);
        LedgerSet(s.ledger, n, s.nextId, id, Established(h));
        assert dropped[id := Established(h)] == s.ledger[id := Established(h)];
        FewerUnshared(s.ledger, id, h);
        EstablishShard(shard, q, n, dropped, id, h);
        PollerMove(s, q, AddSession(shard, id, h), id, s.ledger[id := Established(h)]);
      } else {
        LedgerDrop(s.ledger, n, s.nextId, id);
        PollerMove(s, q, shard, id, dropped);
      }
    }
  }

  lemma FewerUnshared(ledger: map<nat, Place>, id: nat, h: nat)
    requires Unshared(ledger, id, h)
    ensures Unshared(ledger - {id}, id, h)
  {
  }

  lemma HangUpInv(s: Net, q: nat, id: nat)
    requires Inv(s)
    ensures Inv(HangUpStep(s, q, id))
  {
    hide Inv, LedgerOk, ShardOk, ShardOf, MapsOk, RemoveSession;
    if q < |s.pollers| && id in s.pollers[q].sessions {
      InvParts(s);
      RemoveShard(s.pollers[q], q, |s.pollers|, s.ledger, id);
      LedgerDrop(s.ledger, |s.pollers|, s.nextId, id);
      PollerMove(s, q, RemoveSession(s.pollers[q], id), id, s.ledger - {id});
    }
  }

  lemma {:induction false} NextInv(s: Net, step: Step)
    requires Inv(s)
    ensures Inv(Next(s, step))
  {
    hide Inv, InitStep, AllocStep, PutStep, FlushStep, PushStep, HandleStep, WritableStep, HangUpStep;
    match step
    case Init(count) => InitInv(s, count);
    case Alloc(o) => AllocInv(s, o);
    case Put(id) => PutInv(s, id);
    case Flush(id) => FlushInv(s, id);
    case Push(id, ask) => PushInv(s, id, ask);
    case Handle(q, answer) => HandleInv(s, q, answer);
    case Writable(q, h, connected) => WritableInv(s, q, h, connected);
    case HangUp(q, id) => HangUpInv(s, q, id);
  }

  lemma {:induction false} ReachedInv(steps: seq<Step>)
    ensures Inv(Exec(steps))
    decreases |steps|
  {
    hide Next;
    if steps != [] {
      hide Inv;
      ReachedInv(steps[..|steps| - 1]);
      NextInv(Exec(steps[..|steps| - 1]), steps[|steps| - 1]);
    }
  }

  // ---------------------------------------------------------------------
  // Results
  // ---------------------------------------------------------------------

  /** A place in the program's own data where a session can be. */
  datatype Spot =
    | AtThread
    | AtPendingSocks
    | AtPendingConns
    | AtQueue(q: nat, k: nat)
    | AtConnecting(q: nat, h: nat)
    | AtSessions(q: nat)

  ghost predicate Holds(s: Net, id: nat, at: Spot) {
    match at
    case AtThread => id in s.hand
    case AtPendingSocks => id in s.pendingSocks
    case AtPendingConns => id in s.pendingConns
    case AtQueue(q, k) =>
      && q < |s.pollers| && k < |s.pollers[q].queue|
      && Arrival(s.pollers[q].queue[k]) && s.pollers[q].queue[k].id == id
    case AtConnecting(q, h) => q < |s.pollers| && h in s.pollers[q].connecting && s.pollers[q].connecting[h] == id
    case AtSessions(q) => q < |s.pollers| && id in s.pollers[q].sessions
  }

  /** The spot that the ledger's place stands for, but for the position in the queue. */
  ghost predicate Stands(n: nat, id: nat, p: Place, at: Spot) {
    match at
    case AtThread => p.InHand?
    case AtPendingSocks => p.PendingSock?
    case AtPendingConns => p == PendingConn
    case AtQueue(q, k) => p.Queued? && q == ShardOf(id, n)
    case AtConnecting(q, h) => p == Connecting(h) && q == ShardOf(id, n)
    case AtSessions(q) => p.Established? && q == ShardOf(id, n)
  }

  lemma HeldStands(s: Net, id: nat, at: Spot)
    requires Inv(s) && Holds(s, id, at)
    ensures id in s.ledger && Stands(|s.pollers|, id, s.ledger[id], at)
  {
    hide ShardOf, LedgerOk;
    if at.AtQueue? || at.AtConnecting? || at.AtSessions? {
      assert ShardOk(s.pollers[at.q], at.q, |s.pollers|, s.ledger);
    }
  }

  lemma QueuedOnce(s: Net, q: nat, j: nat, k: nat, id: nat)
    requires Inv(s) && Holds(s, id, AtQueue(q, j)) && Holds(s, id, AtQueue(q, k))
    ensures j == k
  {
    hide ShardOf, LedgerOk, TablesOk, MapsOk;
    assert ShardOk(s.pollers[q], q, |s.pollers|, s.ledger);
  }

  lemma LiveSpot(s: Net, id: nat) returns (at: Spot)
    requires Inv(s) && id in s.ledger
    ensures Holds(s, id, at)
  {
    InvParts(s);
    var n := |s.pollers|;
    var q := ShardOf(id, n);
    match s.ledger[id]
    case InHand(_) => at := AtThread;
    case PendingSock(_) => at := AtPendingSocks;
    case PendingConn => at := AtPendingConns;
    case Queued(_) =>
      assert ShardOk(s.pollers[q], q, n, s.ledger);
      assert Arrives(s.pollers[q].queue, id);
      var k: nat :| k < |s.pollers[q].queue| && Arrival(s.pollers[q].queue[k]) && s.pollers[q].queue[k].id == id;
      at := AtQueue(q, k);
    case Connecting(h) =>
      assert ShardOk(s.pollers[q], q, n, s.ledger);
      at := AtConnecting(q, h);
    case Established(_) =>
      assert ShardOk(s.pollers[q], q, n, s.ledger);
      at := AtSessions(q);
  }

  /** The poller a spot is in. */
  predicate InPoller(at: Spot) {
    at.AtQueue? || at.AtConnecting? || at.AtSessions?
  }

  /** In every reachable state a live session is in exactly one place, a place at a poller is
      at poller id % n, and a session that is not live is nowhere.  */
  lemma {:induction false} ExactlyOnePlace(steps: seq<Step>, id: nat)
    ensures var s := Exec(steps);
      && (id in s.ledger <==> exists at :: Holds(s, id, at))
      && (forall at, at' :: Holds(s, id, at) && Holds(s, id, at') ==> at == at')
      && (forall at :: Holds(s, id, at) && InPoller(at) ==> |s.pollers| > 0 && at.q == id % |s.pollers|)
  {
    ReachedInv(steps);
    var s := Exec(steps);
    hide Exec, Inv, Holds;
    if id in s.ledger { var at := LiveSpot(s, id); }
    forall at, at' | Holds(s, id, at) && Holds(s, id, at') ensures at == at' { SameSpot(s, id, at, at'); }
    forall at | Holds(s, id, at) && InPoller(at) ensures |s.pollers| > 0 && at.q == id % |s.pollers| {
      HeldStands(s, id, at);
      InvParts(s);
    }
    forall at | Holds(s, id, at) ensures id in s.ledger { HeldStands(s, id, at); }
  }

  lemma SameSpot(s: Net, id: nat, at: Spot, at': Spot)
    requires Inv(s) && Holds(s, id, at) && Holds(s, id, at')
    ensures at == at'
  {
    hide Inv, Holds, ShardOf;
    HeldStands(s, id, at);
    HeldStands(s, id, at');
    if at.AtQueue? && at'.AtQueue? { QueuedOnce(s, at.q, at.k, at'.k, id); }
  }

  /** The step is one of those that end session id: its connection fails, it hangs up, or a
      request closes it.  */
  ghost predicate EndsBy(s: Net, step: Step, id: nat) {
    match step
    case HangUp(q, x) => x == id && q < |s.pollers| && id in s.pollers[q].sessions
    case Writable(q, h, connected) =>
      !connected && q < |s.pollers| && h in s.pollers[q].connecting && s.pollers[q].connecting[h] == id
    case Handle(q, answer) =>
      && q < |s.pollers| && s.pollers[q].queue != [] && s.pollers[q].queue[0].id == id
      && (match s.pollers[q].queue[0]
          case AsyncConn(_) => answer.Failure?
          case Request(_, CloseSession) => id in s.pollers[q].sessions
          case Request(_, SendPacket) => id in s.pollers[q].sessions && answer.Failure?
          case Request(_, CtrlStack) => id in s.pollers[q].sessions && answer.Failure?
          case _ => false)
    case _ => false
  }

  /** A live session ends exactly by such a step and never by being passed on, and only the
      drawing of the next id makes a session live.  */
  lemma {:induction false} OnlyEndingsEnd(steps: seq<Step>, step: Step, id: nat)
    ensures var s, s' := Exec(steps), Next(Exec(steps), step);
      && (id in s'.ledger && id !in s.ledger ==> step.Alloc? && id == s.nextId)
      && (id in s.ledger ==> (id !in s'.ledger <==> EndsBy(s, step, id)))
  {
    ReachedInv(steps);
    hide Exec, Next, EndsBy;
    EndingStep(Exec(steps), step, id);
  }

  lemma EndingStep(s: Net, step: Step, id: nat)
    requires Inv(s)
    ensures var s' := Next(s, step);
      && (id in s'.ledger && id !in s.ledger ==> step.Alloc? && id == s.nextId)
      && (id in s.ledger ==> (id !in s'.ledger <==> EndsBy(s, step, id)))
  {
    hide Inv, ShardOf, Pushed, AddSession, RemoveSession, Insert, FreeFor;
    hide PutStep, FlushStep, HandleStep, WritableStep;
    match step
    case Put(x) => PutLedger(s, x);
    case Flush(x) => FlushLedger(s, x);
    case Handle(q, answer) => HandleLedger(s, q, answer, id);
    case Writable(q, h, connected) => WritableLedger(s, q, h, connected, id);
    case _ =>
  }

  lemma PutLedger(s: Net, x: nat)
    requires Inv(s)
    ensures PutStep(s, x).ledger.Keys == s.ledger.Keys
  {
    hide Inv, ShardOf, Pushed, AddSession, Insert;
    MapsPlace(s, x);
  }

  lemma FlushLedger(s: Net, x: nat)
    requires Inv(s)
    ensures FlushStep(s, x).ledger.Keys == s.ledger.Keys
  {
    hide Inv, ShardOf, Pushed;
    MapsPlace(s, x);
  }

  lemma HandleLedger(s: Net, q: nat, answer: Answer, id: nat)
    requires Inv(s)
    ensures id in HandleStep(s, q, answer).ledger <==> id in s.ledger && !EndsBy(s, Handle(q, answer), id)
  {
    hide Inv, ShardOf, ShardOk, AddSession, RemoveSession, Insert, FreeFor, MapsOk, LedgerOk;
    InvParts(s);
    if q < |s.pollers| && s.pollers[q].queue != [] {
      HeadPlace(s.pollers[q], q, |s.pollers|, s.ledger);
    }
  }

  lemma WritableLedger(s: Net, q: nat, h: nat, connected: bool, id: nat)
    requires Inv(s)
    ensures id in WritableStep(s, q, h, connected).ledger <==>
      id in s.ledger && !EndsBy(s, Writable(q, h, connected), id)
  {
    hide Inv, ShardOf, ShardOk, AddSession, MapsOk, LedgerOk;
    InvParts(s);
    if q < |s.pollers| && h in s.pollers[q].connecting {
      DisconnectShard(s.pollers[q], q, |s.pollers|, s.ledger, h);
    }
  }

  /** Every event for a session, whoever pushed it, is queued at poller id % n. */
  lemma {:induction false} RequestsRouted(steps: seq<Step>, q: nat, k: nat)
    requires q < |Exec(steps).pollers| && k < |Exec(steps).pollers[q].queue|
    ensures Exec(steps).pollers[q].queue[k].id % |Exec(steps).pollers| == q
  {
    ReachedInv(steps);
    var s := Exec(steps);
    hide Exec;
    assert ShardOk(s.pollers[q], q, |s.pollers|, s.ledger);
  }

  /** A poller's _sessions and _sockets are inverse to each other, and no socket handle is in
      two tables or in two pollers.  */
  lemma {:induction false} SocketsInSync(steps: seq<Step>, q: nat, h: nat, r: nat)
    requires q < |Exec(steps).pollers| && h in Exec(steps).pollers[q].sockets && r < |Exec(steps).pollers|
    ensures var ps := Exec(steps).pollers;
      && ps[q].sockets[h] in ps[q].sessions && ps[q].sessions[ps[q].sockets[h]] == h
      && h !in ps[r].connecting && (h in ps[r].sockets ==> r == q)
      && (forall id :: id in ps[q].sessions ==>
        ps[q].sessions[id] in ps[q].sockets && ps[q].sockets[ps[q].sessions[id]] == id)
  {
    ReachedInv(steps);
    var s := Exec(steps);
    hide Exec;
    InvParts(s);
    hide Inv;
    HandleAlone(s, q, h, r);
  }

  lemma HandleAlone(s: Net, q: nat, h: nat, r: nat)
    requires LedgerOk(s.ledger, |s.pollers|, s.nextId) && q < |s.pollers| && r < |s.pollers|
    requires h in s.pollers[q].sockets
    requires ShardOk(s.pollers[q], q, |s.pollers|, s.ledger) && ShardOk(s.pollers[r], r, |s.pollers|, s.ledger)
    ensures var ps := s.pollers;
      && ps[q].sockets[h] in ps[q].sessions && ps[q].sessions[ps[q].sockets[h]] == h
      && h !in ps[r].connecting && (h in ps[r].sockets ==> r == q)
      && (forall id :: id in ps[q].sessions ==>
        ps[q].sessions[id] in ps[q].sockets && ps[q].sockets[ps[q].sessions[id]] == id)
  {
    hide QueueOk, ShardOf;
    assert SocketOf(Established(h)) == SocketOf(Connecting(h));
  }
}
