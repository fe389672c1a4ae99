/** The RPC protocol end to end: processes that call over connections, a network that may
    lose, duplicate and reorder packets but forges none, and the services that answer
    (src/rpc_channel.cpp, src/rpc_service_mgr.cpp, src/rpc_conn_comp.cpp).  */
module RpcProtocol {
  import opened Wrappers
  import opened Bytes
  import opened RpcPacket
  import opened CoroMgr

  // ---------------------------------------------------------------------
  // Packets
  // ---------------------------------------------------------------------

  const RPC_REQ: nat := 1
  const RPC_RSP: nat := 2
  const LLBC_OK: int := 0
  const LLBC_FAILED: int := -1

  /** A packet names the connection it travels on; both ends know it by their session id. */
  datatype Packet = Packet(conn: nat, opcode: nat, status: int, payload: seq<byte>)

  /** A packet with a head and one message, as CallMethod and OnRpcDone write it. */
  function Compose(conn: nat, opcode: nat, status: int, h: Head, body: seq<byte>): Packet {
    Packet(conn, opcode, status, ToPacket([], h) + WriteBlob(body))
  }

  /** OnRecvPacket: the copy handed to the handlers keeps everything but the status. */
  function Received(p: Packet): Packet {
    p.(status := 0)
  }

  lemma ComposeRoundTrip(conn: nat, opcode: nat, status: int, h: Head, body: seq<byte>)
    requires Fits(h) && |body| < BLOB_LIMIT
    ensures FromPacket(Received(Compose(conn, opcode, status, h, body)).payload) == Some((h, WriteBlob(body)))
    ensures ReadBlob(WriteBlob(body)) == Some((body, []))
  {
    HeadRoundTrip(h, WriteBlob(body));
    BlobRoundTrip(body, []);
    assert WriteBlob(body) + [] == WriteBlob(body);
  }

  // ---------------------------------------------------------------------
  // Worlds
  // ---------------------------------------------------------------------

  /** Which process opened each connection, and which methods its other end serves. */
  datatype Config = Config(owner: nat -> nat, serves: (nat, seq<byte>, seq<byte>) -> bool)

  datatype Request = Request(conn: nat, serviceName: seq<byte>, methodName: seq<byte>, body: seq<byte>)

  /** A request being served: what OnRpcDone's controller remembers of it. */
  datatype Task = Task(conn: nat, head: Head, body: seq<byte>)

  /** A finished service method: the message it left and whether it failed its controller. */
  datatype Answer = Answer(task: Task, reply: seq<byte>, failed: bool)

  /** `calls[i][k]` is the request of call number k of process i.  Packets, tasks and answers
      are never dropped from their sets: the network may deliver a packet any number of
      times, in any order, or never.  */
  datatype World = World(
    procs: seq<Client>,
    calls: seq<seq<Request>>,
    net: set<Packet>,
    tasks: set<Task>,
    answers: set<Answer>)

  datatype Step =
    | Local(proc: nat, event: Event)
    | Invoke(proc: nat, request: Request, controller: nat, hasRsp: bool, sent: bool)
    | Accept(packet: Packet, parses: bool)
    | Done(task: Task, reply: seq<byte>, failed: bool)
    | Deliver(packet: Packet, parses: bool)

  function Start(clocks: seq<int>): World {
    World(seq(|clocks|, i requires 0 <= i < |clocks| => Fresh(clocks[i])), seq(|clocks|, _ => []), {}, {}, {})
  }

  /** Names and messages are far shorter than their length fields allow. */
  predicate Sendable(q: Request) {
    |q.serviceName| < BLOB_LIMIT && |q.methodName| < BLOB_LIMIT && |q.body| < BLOB_LIMIT
  }

  /** CallMethod; writing or sending the packet may fail after the call is registered. */
  ghost function InvokeStep(cfg: Config, w: World, i: nat, q: Request, controller: nat, hasRsp: bool, sent: bool): World
    requires |w.calls| == |w.procs|
  {
    if i >= |w.procs| || cfg.owner(q.conn) != i || |w.procs[i].seen| >= UID_COUNT || !Sendable(q) then w
    else
      var c := Next(w.procs[i], Call(controller, hasRsp, true));
      var p := Compose(q.conn, RPC_REQ, LLBC_OK, Head(c.gen, q.serviceName, q.methodName), q.body);
      w.(procs := w.procs[i := c], calls := w.calls[i := w.calls[i] + [q]], net := if sent then w.net + {p} else w.net)
  }

  /** HandleRpcReq. */
  function AcceptStep(cfg: Config, w: World, packet: Packet, parses: bool): World {
    if packet !in w.net || packet.opcode != RPC_REQ then w
    else
      var p := Received(packet);
      match FromPacket(p.payload)
      case None => w
      case Some((h, rest)) =>
        if !cfg.serves(p.conn, h.serviceName, h.methodName) || ReadBlob(rest).None? || !parses then w
        else w.(tasks := w.tasks + {Task(p.conn, h, ReadBlob(rest).value.0)})
  }

  /** The packet OnRpcDone sends: the request's own head, back over the request's session. */
  function ResponsePacket(a: Answer): Packet {
    Compose(a.task.conn, RPC_RSP, if a.failed then LLBC_FAILED else LLBC_OK, a.task.head, a.reply)
  }

  /** OnRpcDone. */
  function DoneStep(w: World, task: Task, reply: seq<byte>, failed: bool): World {
    if task !in w.tasks || |reply| >= BLOB_LIMIT then w
    else
      var a := Answer(task, reply, failed);
      w.(net := w.net + {ResponsePacket(a)}, answers := w.answers + {a})
  }

  /** The response a packet makes HandleRpcRsp see. */
  function AsResponse(packet: Packet, parses: bool): Option<Event> {
    var p := Received(packet);
    match FromPacket(p.payload)
    case None => None
    case Some((h, rest)) =>
      match ReadBlob(rest)
      case None => Some(Response(h.sequence, p.status, [], false))
      case Some((body, _)) => Some(Response(h.sequence, p.status, body, parses))
  }

  ghost function DeliverStep(cfg: Config, w: World, packet: Packet, parses: bool): World {
    var i := cfg.owner(packet.conn);
    if packet !in w.net || packet.opcode != RPC_RSP || i >= |w.procs| || AsResponse(packet, parses).None? then w
    else w.(procs := w.procs[i := Next(w.procs[i], AsResponse(packet, parses).value)])
  }

  ghost function LocalStep(w: World, i: nat, e: Event): World {
    if i >= |w.procs| || e.Call? || e.Response? then w else w.(procs := w.procs[i := Next(w.procs[i], e)])
  }

  ghost function Take(cfg: Config, w: World, s: Step): World
    requires |w.calls| == |w.procs|
  {
    match s
    case Local(i, e) => LocalStep(w, i, e)
    case Invoke(i, q, controller, hasRsp, sent) => InvokeStep(cfg, w, i, q, controller, hasRsp, sent)
    case Accept(packet, parses) => AcceptStep(cfg, w, packet, parses)
    case Done(task, reply, failed) => DoneStep(w, task, reply, failed)
    case Deliver(packet, parses) => DeliverStep(cfg, w, packet, parses)
  }

  ghost function Reached(cfg: Config, clocks: seq<int>, steps: seq<Step>): (w: World)
    ensures |w.calls| == |w.procs| == |clocks|
  {
    if steps == [] then Start(clocks)
    else Take(cfg, Reached(cfg, clocks, steps[..|steps| - 1]), steps[|steps| - 1])
  }

  /** No coroutine has itself killed while a kill resumes it. */
  ghost predicate PoliteStep(w: World, s: Step) {
    s.Local? && s.proc < |w.procs| ==> Polite(w.procs[s.proc], s.event)
  }

  ghost predicate PoliteSteps(cfg: Config, clocks: seq<int>, steps: seq<Step>) {
    forall n :: 0 <= n < |steps| ==> PoliteStep(Reached(cfg, clocks, steps[..n]), steps[n])
  }

  // ---------------------------------------------------------------------
  // Invariant
  // ---------------------------------------------------------------------

  /** The task carries the request of the call whose uid is in its head. */
  ghost predicate Genuine(cfg: Config, calls: seq<seq<Request>>, t: Task) {
    var i := cfg.owner(t.conn);
    && i < |calls| && 1 <= t.head.sequence <= |calls[i]| && Fits(t.head) && |t.body| < BLOB_LIMIT
    && calls[i][t.head.sequence - 1] == Request(t.conn, t.head.serviceName, t.head.methodName, t.body)
  }

  ghost predicate Answered(answers: set<Answer>, t: Task, reply: seq<byte>) {
    exists failed :: Answer(t, reply, failed) in answers
  }

  /** The packet CallMethod sends for a task. */
  function PacketOf(t: Task): Packet {
    Compose(t.conn, RPC_REQ, LLBC_OK, t.head, t.body)
  }

  ghost predicate Packets(cfg: Config, calls: seq<seq<Request>>, net: set<Packet>, answers: set<Answer>) {
    forall p :: p in net ==>
      && (p.opcode == RPC_REQ ==> exists t :: Genuine(cfg, calls, t) && p == PacketOf(t))
      && (p.opcode == RPC_RSP ==> exists a :: a in answers && p == ResponsePacket(a))
  }

  ghost predicate Served(cfg: Config, calls: seq<seq<Request>>, tasks: set<Task>, answers: set<Answer>) {
    && (forall t :: t in tasks ==> Genuine(cfg, calls, t) && cfg.serves(t.conn, t.head.serviceName, t.head.methodName))
    && (forall a :: a in answers ==> a.task in tasks && |a.reply| < BLOB_LIMIT)
  }

  function TaskOf(q: Request, uid: nat): Task {
    Task(q.conn, Head(uid, q.serviceName, q.methodName), q.body)
  }

  /** Every reply a coroutine of this process found answers the request of its own call. */
  ghost predicate Matched(c: Client, calls: seq<Request>, answers: set<Answer>) {
    forall k: nat, body :: k < |c.seen| && k < |calls| && Replied(body) in c.seen[k] ==>
      Answered(answers, TaskOf(calls[k], k + 1), body)
  }

  ghost predicate Procs(cfg: Config, w: World) {
    && |w.calls| == |w.procs|
    && (forall i :: 0 <= i < |w.procs| ==>
      Inv(w.procs[i]) && |w.procs[i].seen| == |w.calls[i]| && Matched(w.procs[i], w.calls[i], w.answers))
    && (forall i, k :: 0 <= i < |w.calls| && 0 <= k < |w.calls[i]| ==> cfg.owner(w.calls[i][k].conn) == i)
  }

  ghost predicate WorldInv(cfg: Config, w: World) {
    Procs(cfg, w) && Packets(cfg, w.calls, w.net, w.answers) && Served(cfg, w.calls, w.tasks, w.answers)
  }

  // ---------------------------------------------------------------------
  // One process
  // ---------------------------------------------------------------------

  /** Only a response carrying a call's uid makes its coroutine find a reply, and then it
      finds that response's body.  */
  lemma ReplyFromResponse(c: Client, e: Event, k: nat, body: seq<byte>)
    requires Inv(c) && k < |c.seen|
    ensures |Next(c, e).seen| >= |c.seen|
    ensures Replied(body) in Next(c, e).seen[k] ==>
      Replied(body) in c.seen[k] || (e.Response? && e.uid == k + 1 && e.body == body && e.parses && e.status == 0)
  {
    hide ExactlyOnce, Timed;
  }

  lemma SeenGrowth(c: Client, e: Event)
    ensures |Next(c, e).seen| == |c.seen| + if e.Call? && e.useCoro && |c.seen| < UID_COUNT then 1 else 0
  {
  }

  // ---------------------------------------------------------------------
  // Preservation
  // ---------------------------------------------------------------------

  lemma TaskOfGenuine(cfg: Config, calls: seq<seq<Request>>, t: Task)
    requires Genuine(cfg, calls, t)
    ensures TaskOf(calls[cfg.owner(t.conn)][t.head.sequence - 1], t.head.sequence) == t
  {
  }

  /** Issuing one more call leaves what earlier packets say true. */
  lemma CallsGrow(cfg: Config, w: World, i: nat, q: Request)
    requires i < |w.calls| && Packets(cfg, w.calls, w.net, w.answers) && Served(cfg, w.calls, w.tasks, w.answers)
    ensures var calls := w.calls[i := w.calls[i] + [q]];
      Packets(cfg, calls, w.net, w.answers) && Served(cfg, calls, w.tasks, w.answers)
  {
    var calls := w.calls[i := w.calls[i] + [q]];
    forall t | Genuine(cfg, w.calls, t) ensures Genuine(cfg, calls, t) {}
    hide Genuine;
  }

  lemma AnswersGrow(c: Client, calls: seq<Request>, answers: set<Answer>, a: Answer)
    requires Matched(c, calls, answers)
    ensures Matched(c, calls, answers + {a})
  {
    forall t, reply | Answered(answers, t, reply) ensures Answered(answers + {a}, t, reply) {
      var failed :| Answer(t, reply, failed) in answers;
      assert Answer(t, reply, failed) in answers + {a};
    }
    hide Answered;
  }

  /** A process event other than a call keeps every reply matched, provided that a response
      answers the call it names.  */
  lemma ClientMatched(c: Client, calls: seq<Request>, answers: set<Answer>, e: Event)
    requires Inv(c) && |c.seen| == |calls| && Matched(c, calls, answers) && !e.Call?
    requires e.Response? && e.parses ==>
      1 <= e.uid <= |calls| && Answered(answers, TaskOf(calls[e.uid - 1], e.uid), e.body)
    ensures |Next(c, e).seen| == |calls| && Matched(Next(c, e), calls, answers)
  {
    SeenGrowth(c, e);
    var d := Next(c, e);
    hide Next, Inv, Answered;
    forall k: nat, body | k < |d.seen| && Replied(body) in d.seen[k]
      ensures Answered(answers, TaskOf(calls[k], k + 1), body)
    {
      ReplyFromResponse(c, e, k, body);
    }
  }

  lemma ProcParts(cfg: Config, w: World, i: nat)
    requires Procs(cfg, w) && i < |w.procs|
    ensures |w.calls| == |w.procs| && Inv(w.procs[i]) && |w.procs[i].seen| == |w.calls[i]|
    ensures Matched(w.procs[i], w.calls[i], w.answers)
    ensures forall k :: 0 <= k < |w.calls[i]| ==> cfg.owner(w.calls[i][k].conn) == i
  {
    hide Inv, Matched;
  }

  /** Only process i changes. */
  lemma ProcsStep(cfg: Config, w: World, w': World, i: nat)
    requires Procs(cfg, w) && i < |w.procs| == |w'.procs| == |w'.calls| && w'.answers == w.answers
    requires w'.procs == w.procs[i := w'.procs[i]] && w'.calls == w.calls[i := w'.calls[i]]
    requires Inv(w'.procs[i]) && |w'.procs[i].seen| == |w'.calls[i]| && Matched(w'.procs[i], w'.calls[i], w.answers)
    requires forall k :: 0 <= k < |w'.calls[i]| ==> cfg.owner(w'.calls[i][k].conn) == i
    ensures Procs(cfg, w')
  {
    hide Inv, Matched;
  }

  lemma LocalInv(cfg: Config, w: World, i: nat, e: Event)
    requires WorldInv(cfg, w) && PoliteStep(w, Local(i, e))
    ensures WorldInv(cfg, LocalStep(w, i, e))
  {
    hide Procs, Next, Inv, Matched, Packets, Served;
    if i < |w.procs| && !e.Call? && !e.Response? {
      ProcParts(cfg, w, i);
      ClientMatched(w.procs[i], w.calls[i], w.answers, e);
      NextInv(w.procs[i], e);
      ProcsStep(cfg, w, LocalStep(w, i, e), i);
    }
  }

  lemma CallMatched(c: Client, calls: seq<Request>, answers: set<Answer>, q: Request, controller: nat, hasRsp: bool)
    requires Inv(c) && |c.seen| == |calls| && Matched(c, calls, answers) && |c.seen| < UID_COUNT
    ensures var d := Next(c, Call(controller, hasRsp, true));
      Inv(d) && d.gen == |d.seen| == |calls| + 1 && Matched(d, calls + [q], answers)
  {
    var e := Call(controller, hasRsp, true);
    SeenGrowth(c, e);
    NextInv(c, e);
    var d := Next(c, e);
    assert d.seen[|calls|] == [];
    hide Next, Inv, Answered;
    forall k: nat, body | k < |d.seen| && Replied(body) in d.seen[k]
      ensures Answered(answers, TaskOf((calls + [q])[k], k + 1), body)
    {
      if k < |calls| { ReplyFromResponse(c, e, k, body); }
    }
  }

  lemma NewRequest(cfg: Config, calls: seq<seq<Request>>, net: set<Packet>, answers: set<Answer>, t: Task)
    requires Packets(cfg, calls, net, answers) && Genuine(cfg, calls, t)
    ensures Packets(cfg, calls, net + {PacketOf(t)}, answers)
  {
    hide Genuine, ToPacket, WriteBlob, ResponsePacket;
  }

  lemma InvokeInv(cfg: Config, w: World, i: nat, q: Request, controller: nat, hasRsp: bool, sent: bool)
    requires WorldInv(cfg, w)
    ensures WorldInv(cfg, InvokeStep(cfg, w, i, q, controller, hasRsp, sent))
  {
    hide Procs, Next, Inv, Matched, Packets, Served, Compose;
    if i < |w.procs| && cfg.owner(q.conn) == i && |w.procs[i].seen| < UID_COUNT && Sendable(q) {
      ProcParts(cfg, w, i);
      CallMatched(w.procs[i], w.calls[i], w.answers, q, controller, hasRsp);
      CallsGrow(cfg, w, i, q);
      var w' := InvokeStep(cfg, w, i, q, controller, hasRsp, sent);
      var t := TaskOf(q, |w.calls[i]| + 1);
      assert Genuine(cfg, w'.calls, t);
      hide Genuine;
      NewRequest(cfg, w'.calls, w.net, w.answers, t);
      ProcsStep(cfg, w, w', i);
    }
  }

  /** What HandleRpcReq reads from a request packet is the request of some call. */
  lemma RequestReadsAs(cfg: Config, w: World, packet: Packet) returns (t: Task)
    requires Packets(cfg, w.calls, w.net, w.answers) && packet in w.net && packet.opcode == RPC_REQ
    ensures Genuine(cfg, w.calls, t) && packet.conn == t.conn
    ensures FromPacket(Received(packet).payload) == Some((t.head, WriteBlob(t.body)))
    ensures ReadBlob(WriteBlob(t.body)) == Some((t.body, []))
  {
    hide FromPacket, ReadBlob, WriteBlob;
    t :| Genuine(cfg, w.calls, t) && packet == PacketOf(t);
    ComposeRoundTrip(t.conn, RPC_REQ, LLBC_OK, t.head, t.body);
  }

  lemma SameProcs(cfg: Config, w: World, w': World)
    requires Procs(cfg, w) && w'.procs == w.procs && w'.calls == w.calls && w'.answers == w.answers
    ensures Procs(cfg, w')
  {
    hide Inv, Matched;
  }

  lemma AcceptInv(cfg: Config, w: World, packet: Packet, parses: bool)
    requires WorldInv(cfg, w)
    ensures WorldInv(cfg, AcceptStep(cfg, w, packet, parses))
  {
    hide Procs, Packets, Genuine, FromPacket, ReadBlob, WriteBlob;
    if packet in w.net && packet.opcode == RPC_REQ {
      var t := RequestReadsAs(cfg, w, packet);
      SameProcs(cfg, w, AcceptStep(cfg, w, packet, parses));
    }
  }

  lemma NewAnswer(cfg: Config, w: World, a: Answer)
    requires WorldInv(cfg, w) && a.task in w.tasks && |a.reply| < BLOB_LIMIT
    ensures Packets(cfg, w.calls, w.net + {ResponsePacket(a)}, w.answers + {a})
    ensures Served(cfg, w.calls, w.tasks, w.answers + {a})
  {
    hide Procs, Genuine, ToPacket, WriteBlob;
    assert a in w.answers + {a};
  }

  lemma DoneInv(cfg: Config, w: World, task: Task, reply: seq<byte>, failed: bool)
    requires WorldInv(cfg, w)
    ensures WorldInv(cfg, DoneStep(w, task, reply, failed))
  {
    hide Packets, Served, ResponsePacket, Inv, Matched;
    if task in w.tasks && |reply| < BLOB_LIMIT {
      var a := Answer(task, reply, failed);
      forall i | 0 <= i < |w.procs| ensures Matched(w.procs[i], w.calls[i], w.answers + {a}) {
        AnswersGrow(w.procs[i], w.calls[i], w.answers, a);
      }
      NewAnswer(cfg, w, a);
    }
  }

  /** What HandleRpcRsp reads from the packet of an answer. */
  lemma AnswerReadsAs(cfg: Config, w: World, a: Answer, parses: bool)
    requires Served(cfg, w.calls, w.tasks, w.answers) && a in w.answers
    ensures AsResponse(ResponsePacket(a), parses) == Some(Response(a.task.head.sequence, 0, a.reply, parses))
    ensures ResponsePacket(a).conn == a.task.conn && Genuine(cfg, w.calls, a.task)
  {
    var status := if a.failed then LLBC_FAILED else LLBC_OK;
    assert Genuine(cfg, w.calls, a.task);
    ComposeRoundTrip(a.task.conn, RPC_RSP, status, a.task.head, a.reply);
    hide FromPacket, ReadBlob, WriteBlob, ToPacket, Served;
  }

  /** A response packet names the call it answers. */
  lemma ResponseGenuine(cfg: Config, w: World, packet: Packet, parses: bool)
    requires WorldInv(cfg, w) && packet in w.net && packet.opcode == RPC_RSP
    ensures |w.calls| == |w.procs| && cfg.owner(packet.conn) < |w.procs|
    ensures var r := AsResponse(packet, parses);
      var calls := w.calls[cfg.owner(packet.conn)];
      && r.Some? && r.value.Response? && r.value.status == 0 && r.value.parses == parses && 1 <= r.value.uid <= |calls|
      && Answered(w.answers, TaskOf(calls[r.value.uid - 1], r.value.uid), r.value.body)
  {
    hide Inv, Matched, AsResponse, ResponsePacket, Compose, Served;
    var a :| a in w.answers && packet == ResponsePacket(a);
    hide Packets;
    AnswerReadsAs(cfg, w, a, parses);
    TaskOfGenuine(cfg, w.calls, a.task);
    assert Answer(a.task, a.reply, a.failed) in w.answers;
  }

  lemma DeliverInv(cfg: Config, w: World, packet: Packet, parses: bool)
    requires WorldInv(cfg, w)
    ensures WorldInv(cfg, DeliverStep(cfg, w, packet, parses))
  {
    hide AsResponse, Procs, Next, Inv, Matched, Packets, Served, Answered;
    if packet in w.net && packet.opcode == RPC_RSP {
      ResponseGenuine(cfg, w, packet, parses);
      var i := cfg.owner(packet.conn);
      var e := AsResponse(packet, parses).value;
      ProcParts(cfg, w, i);
      ClientMatched(w.procs[i], w.calls[i], w.answers, e);
      NextInv(w.procs[i], e);
      ProcsStep(cfg, w, DeliverStep(cfg, w, packet, parses), i);
    }
  }

  lemma {:induction false} TakeInv(cfg: Config, w: World, s: Step)
    requires WorldInv(cfg, w) && PoliteStep(w, s)
    ensures WorldInv(cfg, Take(cfg, w, s))
  {
    hide WorldInv, LocalStep, InvokeStep, AcceptStep, DoneStep, DeliverStep;
    match s
    case Local(i, e) => LocalInv(cfg, w, i, e);
    case Invoke(i, q, controller, hasRsp, sent) => InvokeInv(cfg, w, i, q, controller, hasRsp, sent);
    case Accept(packet, parses) => AcceptInv(cfg, w, packet, parses);
    case Done(task, reply, failed) => DoneInv(cfg, w, task, reply, failed);
    case Deliver(packet, parses) => DeliverInv(cfg, w, packet, parses);
  }

  lemma {:induction false} ReachedInv(cfg: Config, clocks: seq<int>, steps: seq<Step>)
    requires PoliteSteps(cfg, clocks, steps)
    ensures WorldInv(cfg, Reached(cfg, clocks, steps))
    decreases |steps|
  {
    hide Take;
    if steps != [] {
      hide WorldInv;
      var n := |steps| - 1;
      var front := steps[..n];
      forall m | 0 <= m < n ensures PoliteStep(Reached(cfg, clocks, front[..m]), front[m]) {
        assert front[..m] == steps[..m];
        assert PoliteStep(Reached(cfg, clocks, steps[..m]), steps[m]);
      }
      ReachedInv(cfg, clocks, front);
      assert PoliteStep(Reached(cfg, clocks, steps[..n]), steps[n]);
      TakeInv(cfg, Reached(cfg, clocks, front), steps[n]);
    }
  }

  // ---------------------------------------------------------------------
  // Results
  // ---------------------------------------------------------------------

  /** End-to-end correlation.  In every run, a coroutine that found a reply was resumed once,
      and the reply is the message a service method that is really served left for the very
      request its call had sent, on the call's own connection and under the call's own uid.
      Loss, duplication, reordering and other processes' traffic cannot change that.  */
  lemma {:induction false} EndToEnd(cfg: Config, clocks: seq<int>, steps: seq<Step>, i: nat, k: nat, body: seq<byte>)
    requires PoliteSteps(cfg, clocks, steps) && i < |clocks|
    requires k < |Reached(cfg, clocks, steps).procs[i].seen|
    requires Replied(body) in Reached(cfg, clocks, steps).procs[i].seen[k]
    ensures var w := Reached(cfg, clocks, steps);
      && w.procs[i].seen[k] == [Replied(body)] && k < |w.calls[i]|
      && var q := w.calls[i][k];
      && cfg.owner(q.conn) == i && cfg.serves(q.conn, q.serviceName, q.methodName)
      && Answered(w.answers, Task(q.conn, Head(k + 1, q.serviceName, q.methodName), q.body), body)
  {
    ReachedInv(cfg, clocks, steps);
    var w := Reached(cfg, clocks, steps);
    hide Reached, PoliteSteps, Packets, Registered, Timed;
    OneOutcome(w.procs[i], k, Replied(body));
    var q := w.calls[i][k];
    assert Answered(w.answers, TaskOf(q, k + 1), body);
    var failed :| Answer(TaskOf(q, k + 1), body, failed) in w.answers;
    assert TaskOf(q, k + 1) in w.tasks;
  }

  lemma OneOutcome(c: Client, k: nat, o: Outcome)
    requires Inv(c) && k < |c.seen| && o in c.seen[k]
    ensures c.seen[k] == [o]
  {
    assert |c.seen[k]| == 1;
  }

  lemma ResponseOutcome(c: Client, uid: nat, body: seq<byte>, parses: bool)
    requires Inv(c) && c.frames == [] && c.sweep == None && uid in c.suspended
    ensures var c' := Next(c, Response(uid, 0, body, parses));
      1 <= uid <= |c'.seen| && FindsReply(c'.seen[uid - 1], c.failed, c.suspended[uid], body, parses)
  {
    IdleSuspended(c, uid);
    assert c.suspended[uid].useCoro && c.suspended[uid].uid == uid;
    hide Inv;
    var c' := Next(c, Response(uid, 0, body, parses));
    assert |c'.seen[uid - 1]| == 1;
    assert "read rsp failed"[1] != "rpc failed"[1];
  }

  /** One outcome: the reply exactly when the controller has not failed, a response is wanted
      and it parses; never the server's failure.  */
  ghost predicate FindsReply(seen: seq<Outcome>, failed: set<nat>, ctx: Context, body: seq<byte>, parses: bool) {
    && |seen| == 1 && seen[0] != Killed("rpc failed")
    && (seen[0] == Replied(body) <==> ctx.controller !in failed && ctx.hasRsp && parses)
  }

  lemma DeliveredOutcome(cfg: Config, w: World, packet: Packet, parses: bool, a: Answer)
    requires WorldInv(cfg, w) && a in w.answers && packet == ResponsePacket(a) && packet in w.net
    requires cfg.owner(packet.conn) < |w.procs|
    requires var c := w.procs[cfg.owner(packet.conn)];
      c.frames == [] && c.sweep == None && a.task.head.sequence in c.suspended
    ensures var i, uid := cfg.owner(packet.conn), a.task.head.sequence;
      var c, c' := w.procs[i], DeliverStep(cfg, w, packet, parses).procs[i];
      1 <= uid <= |c'.seen| && FindsReply(c'.seen[uid - 1], c.failed, c.suspended[uid], a.reply, parses)
  {
    hide AsResponse, ToPacket, WriteBlob, FindsReply, Procs, Inv, Next, Packets, Served;
    assert packet.opcode == RPC_RSP;
    hide ResponsePacket, Compose;
    AnswerReadsAs(cfg, w, a, parses);
    ProcParts(cfg, w, cfg.owner(packet.conn));
    ResponseOutcome(w.procs[cfg.owner(packet.conn)], a.task.head.sequence, a.reply, parses);
  }

  /** A suspended coroutine that a server's answer reaches finds the reply exactly when its
      controller has not failed, it wants a response and that response parses.  Whether the
      service method failed plays no part: a failed one looks like a successful one.  */
  lemma {:induction false} FailureInvisible(cfg: Config, clocks: seq<int>, steps: seq<Step>, parses: bool, a: Answer)
    requires PoliteSteps(cfg, clocks, steps)
    requires var w := Reached(cfg, clocks, steps); a in w.answers && ResponsePacket(a) in w.net
    requires cfg.owner(a.task.conn) < |clocks|
    requires var c := Reached(cfg, clocks, steps).procs[cfg.owner(a.task.conn)];
      c.frames == [] && c.sweep == None && a.task.head.sequence in c.suspended
    ensures var i, uid := cfg.owner(a.task.conn), a.task.head.sequence;
      var w := Reached(cfg, clocks, steps);
      var c, c' := w.procs[i], DeliverStep(cfg, w, ResponsePacket(a), parses).procs[i];
      1 <= uid <= |c'.seen| && FindsReply(c'.seen[uid - 1], c.failed, c.suspended[uid], a.reply, parses)
  {
    ReachedInv(cfg, clocks, steps);
    var w := Reached(cfg, clocks, steps);
    assert ResponsePacket(a).conn == a.task.conn;
    hide Reached, PoliteSteps, WorldInv, DeliverStep, FindsReply, ResponsePacket;
    DeliveredOutcome(cfg, w, ResponsePacket(a), parses, a);
  }

  /** The packet CallMethod sends for a request whose call drew this uid. */
  function RequestPacket(q: Request, uid: nat): Packet {
    PacketOf(TaskOf(q, uid))
  }

  lemma InvokeSends(cfg: Config, w: World, i: nat, q: Request, controller: nat)
    requires WorldInv(cfg, w) && i < |w.procs| && cfg.owner(q.conn) == i && |w.procs[i].seen| < UID_COUNT && Sendable(q)
    ensures var uid, w' := |w.procs[i].seen| + 1, InvokeStep(cfg, w, i, q, controller, true, true);
      && RequestPacket(q, uid) in w'.net
      && w'.procs[i] == Next(w.procs[i], Call(controller, true, true))
      && |w'.procs| == |w.procs|
  {
    hide Packets, Served;
    CallMatched(w.procs[i], w.calls[i], w.answers, q, controller, true);
    hide Inv, Next, Matched;
  }

  lemma CallSuspends(c: Client, controller: nat)
    requires Inv(c) && |c.seen| < UID_COUNT
    ensures var c', uid := Next(c, Call(controller, true, true)), |c.seen| + 1;
      && uid in c'.suspended && c'.suspended[uid].controller == controller && c'.suspended[uid].hasRsp
      && c'.frames == c.frames && c'.sweep == c.sweep && c'.failed == c.failed && Inv(c')
  {
    CallInv(c, controller, true, true);
    NextUidFormula(c.gen);
  }

  lemma AcceptTakes(cfg: Config, w: World, q: Request, uid: nat)
    requires RequestPacket(q, uid) in w.net && cfg.serves(q.conn, q.serviceName, q.methodName) && Sendable(q)
    requires uid <= UID_COUNT
    ensures AcceptStep(cfg, w, RequestPacket(q, uid), true) == w.(tasks := w.tasks + {TaskOf(q, uid)})
  {
    ComposeRoundTrip(q.conn, RPC_REQ, LLBC_OK, Head(uid, q.serviceName, q.methodName), q.body);
  }

  /** The four steps of an undisturbed exchange. */
  ghost function ExchangeSteps(cfg: Config, w: World, i: nat, q: Request, controller: nat, reply: seq<byte>,
      failed: bool): World
    requires |w.calls| == |w.procs| && i < |w.procs|
  {
    var uid := |w.procs[i].seen| + 1;
    var w1 := InvokeStep(cfg, w, i, q, controller, true, true);
    var w2 := AcceptStep(cfg, w1, RequestPacket(q, uid), true);
    var w3 := DoneStep(w2, TaskOf(q, uid), reply, failed);
    DeliverStep(cfg, w3, ResponsePacket(Answer(TaskOf(q, uid), reply, failed)), true)
  }

  /** A call that any reachable world issues outside updates and resumptions, for a served
      method and on a controller that has not failed, finds the reply when nothing gets lost. */
  lemma {:induction false} UndisturbedExchange(cfg: Config, clocks: seq<int>, steps: seq<Step>, i: nat, q: Request,
      controller: nat, reply: seq<byte>, failed: bool)
    requires PoliteSteps(cfg, clocks, steps) && i < |clocks| && cfg.owner(q.conn) == i
    requires cfg.serves(q.conn, q.serviceName, q.methodName)
    requires Sendable(q) && |reply| < BLOB_LIMIT
    requires var c := Reached(cfg, clocks, steps).procs[i];
      c.frames == [] && c.sweep == None && controller !in c.failed && |c.seen| < UID_COUNT
    ensures var w := Reached(cfg, clocks, steps);
      var c' := ExchangeSteps(cfg, w, i, q, controller, reply, failed).procs[i];
      |c'.seen| > |w.procs[i].seen| && c'.seen[|w.procs[i].seen|] == [Replied(reply)]
  {
    ReachedInv(cfg, clocks, steps);
    hide Reached, PoliteSteps, ExchangeSteps, WorldInv;
    Exchange(cfg, Reached(cfg, clocks, steps), i, q, controller, reply, failed);
  }

  lemma Exchange(cfg: Config, w: World, i: nat, q: Request, controller: nat, reply: seq<byte>, failed: bool)
    requires WorldInv(cfg, w) && |w.calls| == |w.procs| && i < |w.procs| && cfg.owner(q.conn) == i
    requires cfg.serves(q.conn, q.serviceName, q.methodName)
    requires Sendable(q) && |reply| < BLOB_LIMIT
    requires var c := w.procs[i]; c.frames == [] && c.sweep == None && controller !in c.failed && |c.seen| < UID_COUNT
    ensures var c' := ExchangeSteps(cfg, w, i, q, controller, reply, failed).procs[i];
      |c'.seen| > |w.procs[i].seen| && c'.seen[|w.procs[i].seen|] == [Replied(reply)]
  {
    hide WorldInv, InvokeStep, AcceptStep, DoneStep, Inv, Next, ResponsePacket, DeliverStep;
    var c, uid := w.procs[i], |w.procs[i].seen| + 1;
    ProcInv(cfg, w, i);
    InvokeSends(cfg, w, i, q, controller);
    CallSuspends(c, controller);
    InvokeInv(cfg, w, i, q, controller, true, true);
    var w1 := InvokeStep(cfg, w, i, q, controller, true, true);
    ServedAndAnswered(cfg, w1, q, uid, reply, failed);
    var a := Answer(TaskOf(q, uid), reply, failed);
    var w3 := DoneStep(AcceptStep(cfg, w1, RequestPacket(q, uid), true), a.task, reply, failed);
    DeliveredOutcome(cfg, w3, ResponsePacket(a), true, a);
  }

  lemma ProcInv(cfg: Config, w: World, i: nat)
    requires WorldInv(cfg, w) && i < |w.procs|
    ensures Inv(w.procs[i])
  {
    hide Inv, Matched;
  }

  lemma ServedAndAnswered(cfg: Config, w: World, q: Request, uid: nat, reply: seq<byte>, failed: bool)
    requires WorldInv(cfg, w) && RequestPacket(q, uid) in w.net && cfg.serves(q.conn, q.serviceName, q.methodName)
    requires Sendable(q) && |reply| < BLOB_LIMIT && uid <= UID_COUNT
    ensures var a := Answer(TaskOf(q, uid), reply, failed);
      var w' := DoneStep(AcceptStep(cfg, w, RequestPacket(q, uid), true), a.task, reply, failed);
      && WorldInv(cfg, w') && w'.procs == w.procs && a in w'.answers
      && ResponsePacket(a) in w'.net && ResponsePacket(a).conn == q.conn && a.task.head.sequence == uid
  {
    hide WorldInv;
    AcceptTakes(cfg, w, q, uid);
    AcceptInv(cfg, w, RequestPacket(q, uid), true);
    DoneInv(cfg, AcceptStep(cfg, w, RequestPacket(q, uid), true), TaskOf(q, uid), reply, failed);
    hide AcceptStep;
  }

  // ---------------------------------------------------------------------
  // What the steps do
  // ---------------------------------------------------------------------

  /** The packet of an answer: a response on the request's connection with the request's head
      and the reply, marked failed with status -1 exactly when the service method failed.  */
  lemma ResponsePacketMeans(a: Answer)
    requires Fits(a.task.head) && |a.reply| < BLOB_LIMIT
    ensures var p := ResponsePacket(a);
      && p.conn == a.task.conn && p.opcode == 2 && p.status == (if a.failed then -1 else 0)
      && FromPacket(p.payload) == Some((a.task.head, WriteBlob(a.reply)))
      && ReadBlob(WriteBlob(a.reply)) == Some((a.reply, []))
  {
    ComposeRoundTrip(a.task.conn, RPC_RSP, if a.failed then LLBC_FAILED else LLBC_OK, a.task.head, a.reply);
    hide FromPacket, ReadBlob, WriteBlob, ToPacket;
  }

  /** A call is registered whether or not its packet gets sent, and the network gains exactly
      its request, on its connection and under its uid, if it does.  */
  lemma InvokeMeans(cfg: Config, w: World, i: nat, q: Request, controller: nat, hasRsp: bool, sent: bool)
    requires WorldInv(cfg, w) && i < |w.procs| && cfg.owner(q.conn) == i && |w.procs[i].seen| < UID_COUNT && Sendable(q)
    ensures |w.calls| == |w.procs|
    ensures var uid, w' := |w.procs[i].seen| + 1, InvokeStep(cfg, w, i, q, controller, hasRsp, sent);
      && w' == w.(procs := w'.procs, calls := w.calls[i := w.calls[i] + [q]],
                  net := if sent then w.net + {RequestPacket(q, uid)} else w.net)
      && w'.procs == w.procs[i := w'.procs[i]]
      && uid in w'.procs[i].suspended && w'.procs[i].suspended[uid].controller == controller
      && w'.procs[i].suspended[uid].hasRsp == hasRsp
      && w'.procs[i].suspended[uid].deadline == w.procs[i].now + 10000
  {
    ProcParts(cfg, w, i);
    hide WorldInv, Procs, Matched, ToPacket, WriteBlob;
    CallRegisters(w.procs[i], controller, hasRsp);
    hide Next, Inv;
  }

  lemma CallRegisters(c: Client, controller: nat, hasRsp: bool)
    requires Inv(c) && |c.seen| < UID_COUNT
    ensures var c', uid := Next(c, Call(controller, hasRsp, true)), |c.seen| + 1;
      && c'.gen == uid && uid in c'.suspended
      && c'.suspended[uid] == Context(uid, c.now + 10000, controller, hasRsp, true) && c'.suspended[uid] in c'.heap
  {
    NextUidFormula(c.gen);
    hide NextUid, ExactlyOnce, Timed;
  }

  /** A request is taken up exactly when its method is served and its message parses. */
  lemma AcceptMeans(cfg: Config, w: World, q: Request, uid: nat, parses: bool)
    requires RequestPacket(q, uid) in w.net && Sendable(q) && uid <= UID_COUNT
    ensures AcceptStep(cfg, w, RequestPacket(q, uid), parses) ==
      if cfg.serves(q.conn, q.serviceName, q.methodName) && parses
      then w.(tasks := w.tasks + {Task(q.conn, Head(uid, q.serviceName, q.methodName), q.body)})
      else w
  {
    ComposeRoundTrip(q.conn, RPC_REQ, LLBC_OK, Head(uid, q.serviceName, q.methodName), q.body);
    hide FromPacket, ReadBlob, WriteBlob, ToPacket;
  }

  /** A service method that is done adds its answer, and its packet to the network. */
  lemma DoneMeans(w: World, task: Task, reply: seq<byte>, failed: bool)
    requires task in w.tasks && |reply| < BLOB_LIMIT
    ensures var a := Answer(task, reply, failed);
      DoneStep(w, task, reply, failed) == w.(net := w.net + {ResponsePacket(a)}, answers := w.answers + {a})
  {
  }
}
