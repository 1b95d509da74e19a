/**
 The dispatcher of the embedded compiler as a machine of interleaved atomic
 steps: one goroutine per inbound packet, a token pool, and per isolate a worker
 and the goroutine that drains its replies. The host keeps the protocol: it
 answers a request once, and reuses an ID only after its CompileResponse.
 */
module IsolateDispatcher {
  import opened Collections
  import opened Wrappers

  const MAX_CONCURRENT_COMPILATIONS := 15

  type CompilationId = id: int | 0 < id < 0x1_0000_0000 witness 1

  /** How an outbound message leaves the compilation, told by its category byte. */
  datatype Kind = Log | Request | Response | Fatal

  /** An outbound message, with the borrow of the isolate it was produced under. */
  datatype Message = Message(id: CompilationId, kind: Kind, borrow: nat)

  /** The callback of one borrow. */
  datatype Handler = Handler(id: CompilationId, borrow: nat)

  /** The isolate's own goroutine. */
  datatype Worker =
    | Idle
    | Running(id: CompilationId, borrow: nat)
    | Sending(message: Message)
    | Awaiting(id: CompilationId, borrow: nat)

  /** The goroutine that takes replies from the isolate and runs the handler on them. */
  datatype Drain =
    | Ready
    | Received(message: Message)
    | Loaded(message: Message, handler: Handler)
    | Releasing(message: Message, handler: Handler)
    | Writing(message: Message, handler: Handler)

  datatype Isolate = Isolate(borrowed: bool, handler: Option<Handler>, worker: Worker, drain: Drain)

  datatype Packet = CompileRequest | Reply

  /** The goroutine handling one inbound packet. */
  datatype Thread =
    | Arrived(id: CompilationId, packet: Packet)
    | Waiting(id: CompilationId, packet: Packet)
    | Acquired(id: CompilationId, packet: Packet)
    | Found(id: CompilationId, packet: Packet, isolate: nat)
    | Putting(id: CompilationId, packet: Packet, isolate: nat)

  /** What the host knows of a compilation it has not seen the end of. */
  datatype HostState = Compiling | Asked

  datatype State = State(
    tokens: nat,
    active: map<CompilationId, nat>,
    inactive: seq<nat>,
    isolates: seq<Isolate>,
    threads: map<nat, Thread>,
    host: map<CompilationId, HostState>,
    borrows: nat,
    written: seq<(Message, Handler)>,
    exited: bool,
    fault: bool)
  {
    function With(i: nat, isolate: Isolate): State
      requires i < |isolates|
    {
      this.(isolates := isolates[i := isolate])
    }
  }

  const INITIAL := State(0, map[], [], [], map[], map[], 0, [], false, false)

  datatype Step =
    | Compile(thread: nat, id: CompilationId)
    | Answer(thread: nat, id: CompilationId)
    | Lookup(thread: nat)
    | Acquire(thread: nat)
    | Start(thread: nat)
    | Send(thread: nat)
    | Take(thread: nat)
    | Emit(isolate: nat, kind: Kind)
    | Receive(isolate: nat)
    | Load(isolate: nat)
    | Handle(isolate: nat)
    | Release(isolate: nat)
    | Write(isolate: nat)

  /** Whether the step can happen now; a goroutine that would block cannot step. */
  predicate Enabled(s: State, step: Step) {
    !s.exited &&
    match step
    case Compile(t, id) => t !in s.threads && id !in s.host
    case Answer(t, id) => t !in s.threads && id in s.host && s.host[id].Asked?
    case Lookup(t) => t in s.threads && s.threads[t].Arrived?
    case Acquire(t) => t in s.threads && s.threads[t].Waiting? && s.tokens < MAX_CONCURRENT_COMPILATIONS
    case Start(t) => t in s.threads && s.threads[t].Acquired?
    case Send(t) => t in s.threads && s.threads[t].Found? && s.threads[t].isolate < |s.isolates|
    case Take(t) =>
      && t in s.threads && s.threads[t].Putting? && s.threads[t].isolate < |s.isolates|
      && var worker := s.isolates[s.threads[t].isolate].worker; (worker.Idle? || worker.Awaiting?)
    case Emit(i, _) => i < |s.isolates| && s.isolates[i].worker.Running?
    case Receive(i) => i < |s.isolates| && s.isolates[i].worker.Sending? && s.isolates[i].drain.Ready? && s.isolates[i].handler.Some?
    case Load(i) => i < |s.isolates| && s.isolates[i].drain.Received? && s.isolates[i].handler.Some?
    case Handle(i) => i < |s.isolates| && s.isolates[i].drain.Loaded?
    case Release(i) => i < |s.isolates| && s.isolates[i].drain.Releasing?
    case Write(i) => i < |s.isolates| && s.isolates[i].drain.Writing?
  }

  function Next(s: State, step: Step): State
    requires Enabled(s, step)
  {
    match step
    case Compile(t, id) => s.(host := s.host[id := Compiling], threads := s.threads[t := Arrived(id, CompileRequest)])
    case Answer(t, id) => s.(host := s.host[id := Compiling], threads := s.threads[t := Arrived(id, Reply)])
    case Lookup(t) => AfterLookup(s, t)
    case Acquire(t) =>
      s.(tokens := s.tokens + 1, threads := s.threads[t := Acquired(s.threads[t].id, s.threads[t].packet)])
    case Start(t) => AfterStart(s, t)
    case Send(t) =>
      var thread := s.threads[t];
      if s.isolates[thread.isolate].borrowed
      then s.(threads := s.threads[t := Putting(thread.id, thread.packet, thread.isolate)])
      else s.(threads := s.threads - {t}, fault := true)
    case Take(t) => AfterTake(s, t)
    case Emit(i, kind) =>
      var worker := s.isolates[i].worker;
      s.With(i, s.isolates[i].(worker := Sending(Message(worker.id, kind, worker.borrow))))
    case Receive(i) => AfterReceive(s, i)
    case Load(i) =>
      s.With(i, s.isolates[i].(drain := Loaded(s.isolates[i].drain.message, s.isolates[i].handler.value)))
    case Handle(i) => AfterHandle(s, i)
    case Release(i) =>
      var drain := s.isolates[i].drain;
      if s.tokens == 0 then s.(fault := true)
      else s.With(i, s.isolates[i].(drain := Writing(drain.message, drain.handler))).(tokens := s.tokens - 1)
    case Write(i) => AfterWrite(s, i)
  }

  /** The first locked region of getIsolate. */
  function AfterLookup(s: State, t: nat): State
    requires t in s.threads && s.threads[t].Arrived?
  {
    var thread := s.threads[t];
    if thread.id in s.active then s.(threads := s.threads[t := Found(thread.id, thread.packet, s.active[thread.id])])
    else s.(threads := s.threads[t := Waiting(thread.id, thread.packet)])
  }

  /** The second one: recheck, then take or spawn an isolate and borrow it. */
  function AfterStart(s: State, t: nat): State
    requires t in s.threads && s.threads[t].Acquired?
  {
    var thread := s.threads[t];
    if thread.id in s.active then
      if s.tokens == 0 then s.(fault := true)
      else s.(tokens := s.tokens - 1, threads := s.threads[t := Found(thread.id, thread.packet, s.active[thread.id])])
    else if s.inactive != [] then Borrow(s.(inactive := s.inactive[1..]), t, s.inactive[0])
    else Borrow(s.(isolates := s.isolates + [Isolate(false, None, Idle, Ready)]), t, |s.isolates|)
  }

  function Borrow(s: State, t: nat, i: nat): State
    requires t in s.threads
  {
    var thread := s.threads[t];
    if i >= |s.isolates| || s.isolates[i].borrowed then s.(threads := s.threads - {t}, fault := true)
    else
      s.With(i, s.isolates[i].(borrowed := true, handler := Some(Handler(thread.id, s.borrows))))
       .(active := s.active[thread.id := i], borrows := s.borrows + 1,
         threads := s.threads[t := Found(thread.id, thread.packet, i)])
  }

  /** The worker takes a packet: a new compilation when idle, a reply when awaiting one. */
  function AfterTake(s: State, t: nat): State
    requires t in s.threads && s.threads[t].Putting? && s.threads[t].isolate < |s.isolates|
  {
    var thread := s.threads[t];
    var isolate := s.isolates[thread.isolate];
    var taken := s.(threads := s.threads - {t});
    match isolate.worker
    case Idle =>
      if thread.packet.CompileRequest? && isolate.handler.Some?
      then taken.With(thread.isolate, isolate.(worker := Running(thread.id, isolate.handler.value.borrow)))
      else taken.(fault := true)
    case Awaiting(id, borrow) =>
      if thread.packet.Reply? && id == thread.id
      then taken.With(thread.isolate, isolate.(worker := Running(id, borrow)))
      else taken.(fault := true)
    case _ => taken
  }

  function AfterReceive(s: State, i: nat): State
    requires i < |s.isolates| && s.isolates[i].worker.Sending?
  {
    var message := s.isolates[i].worker.message;
    var worker :=
      match message.kind
      case Log => Running(message.id, message.borrow)
      case Request => Awaiting(message.id, message.borrow)
      case _ => Idle;
    s.With(i, s.isolates[i].(worker := worker, drain := Received(message)))
  }

  /** The handler: a finished compilation is taken out of the active ones before anything is written. */
  function AfterHandle(s: State, i: nat): State
    requires i < |s.isolates| && s.isolates[i].drain.Loaded?
  {
    var drain := s.isolates[i].drain;
    if drain.message.kind.Response? then
      s.With(i, s.isolates[i].(borrowed := false, drain := Releasing(drain.message, drain.handler)))
       .(active := s.active - {drain.handler.id}, inactive := s.inactive + [i],
         fault := s.fault || !s.isolates[i].borrowed)
    else s.With(i, s.isolates[i].(drain := Writing(drain.message, drain.handler)))
  }

  /** The packet reaches the host. */
  function AfterWrite(s: State, i: nat): State
    requires i < |s.isolates| && s.isolates[i].drain.Writing?
  {
    var drain := s.isolates[i].drain;
    var message := drain.message;
    var written := s.With(i, s.isolates[i].(drain := Ready)).(written := s.written + [(message, drain.handler)]);
    match message.kind
    case Log => written
    case Request => written.(host := s.host[message.id := Asked])
    case Response => written.(host := s.host - {message.id})
    case Fatal => written.(exited := true)
  }

  // ---- Invariants ----

  type Active = map<CompilationId, nat>

  type Host = map<CompilationId, HostState>

  /** The borrow is the current one of isolate `i`, and its compilation is active. */
  predicate Current(isolate: Isolate, i: nat, active: Active, id: CompilationId, borrow: nat) {
    id in active && active[id] == i && isolate.handler == Some(Handler(id, borrow))
  }

  /** The drain holds a message whose compilation is still active. */
  predicate Live(d: Drain) {
    d.Received? || d.Loaded? || (d.Writing? && !d.message.kind.Response?)
  }

  /** The drain holds a response whose compilation is no longer active. */
  predicate Finished(d: Drain) {
    d.Releasing? || (d.Writing? && d.message.kind.Response?)
  }

  /** The host has not seen the end of the compilation, and owes it nothing. */
  predicate Open(host: Host, id: CompilationId) { id in host && host[id].Compiling? }

  predicate WorkerOk(isolate: Isolate, i: nat, active: Active) {
    match isolate.worker
    case Idle => true
    case Running(id, borrow) => Current(isolate, i, active, id, borrow)
    case Sending(message) => Current(isolate, i, active, message.id, message.borrow)
    case Awaiting(id, borrow) => Current(isolate, i, active, id, borrow)
  }

  /** A message on its way tells what the worker is doing. */
  predicate InStep(worker: Worker, kind: Kind) {
    match worker
    case Idle => kind.Response? || kind.Fatal?
    case Awaiting(_, _) => kind.Request?
    case _ => kind.Log?
  }

  predicate DrainOk(isolate: Isolate, i: nat, active: Active, host: Host) {
    var d := isolate.drain;
    && (Live(d) ==>
          Current(isolate, i, active, d.message.id, d.message.borrow) && Open(host, d.message.id)
          && InStep(isolate.worker, d.message.kind))
    && (Finished(d) ==> d.message.kind.Response? && d.message.id !in active && Open(host, d.message.id))
    && (d.Loaded? || d.Releasing? || d.Writing? ==> d.handler == Handler(d.message.id, d.message.borrow))
  }

  predicate IsolatesOk(isolates: seq<Isolate>, active: Active, host: Host) {
    forall i | 0 <= i < |isolates| :: WorkerOk(isolates[i], i, active) && DrainOk(isolates[i], i, active, host)
  }

  /** Compilations that have ended but whose response is not written yet are all different. */
  predicate FinishedApart(isolates: seq<Isolate>) {
    forall i, j | 0 <= i < j < |isolates| && Finished(isolates[i].drain) && Finished(isolates[j].drain) ::
      isolates[i].drain.message.id != isolates[j].drain.message.id
  }

  /** Active compilations have isolates of their own, borrowed for them. */
  predicate ActiveOk(isolates: seq<Isolate>, active: Active, host: Host) {
    forall id <- active ::
      && active[id] < |isolates| && isolates[active[id]].borrowed
      && isolates[active[id]].handler.Some? && isolates[active[id]].handler.value.id == id
      && id in host
  }

  /** Isolates are active or inactive, and inactive ones are not borrowed. */
  predicate InactiveOk(isolates: seq<Isolate>, active: Active, inactive: seq<nat>) {
    && |isolates| == |active| + |inactive|
    && (forall k | 0 <= k < |inactive| :: inactive[k] < |isolates| && !isolates[inactive[k]].borrowed)
    && (forall k, l | 0 <= k < l < |inactive| :: inactive[k] != inactive[l])
  }

  /** The isolate a thread's packet is for is ready to take it. */
  predicate ReadyFor(isolate: Isolate, packet: Packet) {
    && !Live(isolate.drain)
    && match packet
       case CompileRequest => isolate.worker.Idle?
       case Reply => isolate.worker.Awaiting?
  }

  predicate ThreadOk(isolates: seq<Isolate>, active: Active, host: Host, thread: Thread) {
    && Open(host, thread.id)
    && (thread.packet.Reply? ==> thread.id in active)
    && (thread.id in active ==>
          && !thread.Waiting? && !thread.Acquired? && (thread.Arrived? ==> thread.packet.Reply?)
          && active[thread.id] < |isolates| && ReadyFor(isolates[active[thread.id]], thread.packet))
    && (thread.Found? || thread.Putting? ==> thread.id in active && active[thread.id] == thread.isolate)
  }

  predicate ThreadsOk(isolates: seq<Isolate>, active: Active, host: Host, threads: map<nat, Thread>) {
    && (forall t <- threads :: ThreadOk(isolates, active, host, threads[t]))
    && (forall t <- threads, u <- threads :: threads[t].id == threads[u].id ==> t == u)
  }

  /** A packet on its way belongs to no compilation that has just ended. */
  predicate NoneFinished(isolates: seq<Isolate>, threads: map<nat, Thread>) {
    forall t, i | t in threads && 0 <= i < |isolates| && Finished(isolates[i].drain) ::
      isolates[i].drain.message.id != threads[t].id
  }

  /** The host is asked only by a compilation that waits for the answer. */
  predicate HostOk(isolates: seq<Isolate>, active: Active, host: Host) {
    forall id <- host :: host[id].Asked? ==>
      id in active && active[id] < |isolates| && ReadyFor(isolates[active[id]], Reply)
  }

  function AcquiredThreads(threads: map<nat, Thread>): set<nat> { set t | t in threads && threads[t].Acquired? }

  function ReleasingDrains(isolates: seq<Isolate>): set<nat> {
    set i | 0 <= i < |isolates| && isolates[i].drain.Releasing?
  }

  /** Tokens in use are those of active compilations, of handlers about to activate, and of completions about to release. */
  predicate TokensOk(s: State) {
    && s.tokens == |s.active| + |AcquiredThreads(s.threads)| + |ReleasingDrains(s.isolates)|
    && s.tokens <= MAX_CONCURRENT_COMPILATIONS
    && |s.isolates| <= MAX_CONCURRENT_COMPILATIONS
  }

  /** Every message was handled by the borrow that produced it, under its own ID. */
  predicate NoCrossTalk(s: State) {
    forall k | 0 <= k < |s.written| :: s.written[k].1 == Handler(s.written[k].0.id, s.written[k].0.borrow)
  }

  /** What isolates are doing. */
  predicate WorkOk(s: State) {
    IsolatesOk(s.isolates, s.active, s.host) && FinishedApart(s.isolates)
  }

  /** Who has which isolate. */
  predicate PoolOk(s: State) {
    ActiveOk(s.isolates, s.active, s.host) && InactiveOk(s.isolates, s.active, s.inactive)
  }

  /** Packets on their way in and questions to the host. */
  predicate TrafficOk(s: State) {
    && ThreadsOk(s.isolates, s.active, s.host, s.threads) && NoneFinished(s.isolates, s.threads)
    && HostOk(s.isolates, s.active, s.host)
  }

  predicate Shape(s: State) { WorkOk(s) && PoolOk(s) && TrafficOk(s) }

  ghost predicate Inv(s: State) {
    !s.fault && Shape(s) && TokensOk(s) && NoCrossTalk(s)
  }

  // ---- Every step keeps the shape ----

  /** Who has which isolate depends on neither workers nor drains. */
  lemma PoolUntouched(s: State, n: State)
    requires PoolOk(s) && n.active == s.active && n.inactive == s.inactive && |n.isolates| == |s.isolates|
    requires forall j | 0 <= j < |s.isolates| ::
               n.isolates[j].borrowed == s.isolates[j].borrowed && n.isolates[j].handler == s.isolates[j].handler
    requires forall id <- s.active :: id in s.host ==> id in n.host
    ensures PoolOk(n)
  {}

  /** An isolate that no thread and no question waits for may move on. */
  lemma TrafficUntouched(s: State, n: State, i: nat)
    requires TrafficOk(s) && n.threads == s.threads && n.active == s.active
    requires |n.isolates| == |s.isolates| && i < |s.isolates| && n.isolates == s.isolates[i := n.isolates[i]]
    requires forall t <- s.threads :: Open(n.host, s.threads[t].id)
    requires forall packet :: ReadyFor(s.isolates[i], packet) ==> ReadyFor(n.isolates[i], packet)
    requires Finished(n.isolates[i].drain) ==>
               Finished(s.isolates[i].drain) && n.isolates[i].drain.message == s.isolates[i].drain.message
    requires forall id <- n.host :: n.host[id].Asked? ==> id in s.host && s.host[id].Asked?
    ensures TrafficOk(n)
  {}

  /** A compilation that becomes active on an isolate nobody has disturbs no other packet. */
  lemma BorrowTraffic(s: State, n: State, t: nat, i: nat)
    requires TrafficOk(s) && t in s.threads && s.threads[t].id !in s.active && s.threads[t].packet.CompileRequest?
    requires n.active == s.active[s.threads[t].id := i] && n.host == s.host
    requires n.threads == s.threads[t := Found(s.threads[t].id, CompileRequest, i)]
    requires i < |n.isolates| && |s.isolates| <= |n.isolates|
    requires forall j | 0 <= j < |s.isolates| && j != i :: n.isolates[j] == s.isolates[j]
    requires forall id <- s.active :: s.active[id] < |s.isolates| && s.active[id] != i
    requires forall j | 0 <= j < |n.isolates| && Finished(n.isolates[j].drain) ::
               j < |s.isolates| && n.isolates[j].drain == s.isolates[j].drain
    requires ReadyFor(n.isolates[i], CompileRequest)
    ensures TrafficOk(n)
  {}

  lemma CompileWork(s: State, t: nat, id: CompilationId)
    requires Shape(s) && Enabled(s, Compile(t, id))
    ensures WorkOk(Next(s, Compile(t, id)))
  {
    hide FinishedApart, ActiveOk, InactiveOk, ThreadsOk, NoneFinished, HostOk, WorkerOk, Current, InStep;
  }

  lemma CompilePool(s: State, t: nat, id: CompilationId)
    requires Shape(s) && Enabled(s, Compile(t, id))
    ensures PoolOk(Next(s, Compile(t, id)))
  {
    hide IsolatesOk, FinishedApart, InactiveOk, ThreadsOk, NoneFinished, HostOk;
  }

  lemma CompileTraffic(s: State, t: nat, id: CompilationId)
    requires Shape(s) && Enabled(s, Compile(t, id))
    ensures TrafficOk(Next(s, Compile(t, id)))
  {
    hide FinishedApart, InactiveOk, WorkerOk, Current, InStep;
  }

  lemma CompileShape(s: State, t: nat, id: CompilationId)
    requires Shape(s) && Enabled(s, Compile(t, id))
    ensures Shape(Next(s, Compile(t, id)))
  {
    hide WorkOk, PoolOk, TrafficOk;
    CompileWork(s, t, id);
    CompilePool(s, t, id);
    CompileTraffic(s, t, id);
  }

  lemma AnswerWork(s: State, t: nat, id: CompilationId)
    requires Shape(s) && Enabled(s, Answer(t, id))
    ensures WorkOk(Next(s, Answer(t, id)))
  {
    hide FinishedApart, ActiveOk, InactiveOk, ThreadsOk, NoneFinished, HostOk, WorkerOk, Current, InStep;
  }

  lemma AnswerPool(s: State, t: nat, id: CompilationId)
    requires Shape(s) && Enabled(s, Answer(t, id))
    ensures PoolOk(Next(s, Answer(t, id)))
  {
    hide IsolatesOk, FinishedApart, InactiveOk, ThreadsOk, NoneFinished, HostOk;
  }

  lemma AnswerTraffic(s: State, t: nat, id: CompilationId)
    requires Shape(s) && Enabled(s, Answer(t, id))
    ensures TrafficOk(Next(s, Answer(t, id)))
  {
    hide FinishedApart, InactiveOk, WorkerOk, Current, InStep;
  }

  lemma AnswerShape(s: State, t: nat, id: CompilationId)
    requires Shape(s) && Enabled(s, Answer(t, id))
    ensures Shape(Next(s, Answer(t, id)))
  {
    hide WorkOk, PoolOk, TrafficOk;
    AnswerWork(s, t, id);
    AnswerPool(s, t, id);
    AnswerTraffic(s, t, id);
  }

  lemma LookupShape(s: State, t: nat)
    requires Shape(s) && Enabled(s, Lookup(t))
    ensures Shape(Next(s, Lookup(t)))
  {
    hide IsolatesOk, FinishedApart, ActiveOk, InactiveOk, HostOk, ReadyFor;
  }

  lemma AcquireShape(s: State, t: nat)
    requires Shape(s) && Enabled(s, Acquire(t))
    ensures Shape(Next(s, Acquire(t)))
  {
    hide IsolatesOk, FinishedApart, ActiveOk, InactiveOk, HostOk, ReadyFor;
  }

  /** No packet finds its compilation active on the second look: there is one packet at a time. */
  lemma StartIsFresh(s: State, t: nat)
    requires Shape(s) && Enabled(s, Start(t))
    ensures s.threads[t].id !in s.active && s.threads[t].packet.CompileRequest?
  {}

  lemma ReuseWork(s: State, t: nat)
    requires Shape(s) && Enabled(s, Start(t)) && s.inactive != []
    ensures WorkOk(Next(s, Start(t)))
  {
    StartIsFresh(s, t);
    hide ThreadsOk, HostOk;
  }

  lemma ReuseActive(s: State, t: nat)
    requires Shape(s) && Enabled(s, Start(t)) && s.inactive != []
    ensures var n := Next(s, Start(t)); ActiveOk(n.isolates, n.active, n.host) && n.fault == s.fault
  {
    StartIsFresh(s, t);
  }

  lemma ReuseInactive(s: State, t: nat)
    requires Shape(s) && Enabled(s, Start(t)) && s.inactive != []
    ensures var n := Next(s, Start(t)); InactiveOk(n.isolates, n.active, n.inactive)
  {
    StartIsFresh(s, t);
  }

  lemma ReusePool(s: State, t: nat)
    requires Shape(s) && Enabled(s, Start(t)) && s.inactive != []
    ensures PoolOk(Next(s, Start(t))) && Next(s, Start(t)).fault == s.fault
  {
    hide IsolatesOk, FinishedApart, ActiveOk, InactiveOk;
    StartIsFresh(s, t);
    ReuseActive(s, t);
    ReuseInactive(s, t);
  }

  lemma ReuseTraffic(s: State, t: nat)
    requires Shape(s) && Enabled(s, Start(t)) && s.inactive != []
    ensures TrafficOk(Next(s, Start(t)))
  {
    StartIsFresh(s, t);
    var i := s.inactive[0];
    assert WorkerOk(s.isolates[i], i, s.active) && DrainOk(s.isolates[i], i, s.active, s.host);
    hide IsolatesOk, FinishedApart, ThreadsOk, NoneFinished, HostOk;
    BorrowTraffic(s, Next(s, Start(t)), t, i);
  }

  lemma ReuseShape(s: State, t: nat)
    requires Shape(s) && Enabled(s, Start(t)) && s.inactive != []
    ensures Shape(Next(s, Start(t))) && Next(s, Start(t)).fault == s.fault
  {
    hide WorkOk, PoolOk, TrafficOk;
    ReuseWork(s, t);
    ReusePool(s, t);
    ReuseTraffic(s, t);
  }

  /** An isolate does not notice that a compilation it has nothing to do with becomes active. */
  lemma OthersUnaffected(isolate: Isolate, j: nat, active: Active, host: Host, id: CompilationId, i: nat)
    requires WorkerOk(isolate, j, active) && DrainOk(isolate, j, active, host) && id !in active
    requires Finished(isolate.drain) ==> isolate.drain.message.id != id
    ensures WorkerOk(isolate, j, active[id := i]) && DrainOk(isolate, j, active[id := i], host)
  {}

  lemma SpawnIsolates(s: State, t: nat)
    requires Shape(s) && Enabled(s, Start(t)) && s.inactive == []
    ensures var n := Next(s, Start(t)); IsolatesOk(n.isolates, n.active, n.host)
  {
    hide WorkerOk, DrainOk;
    StartIsFresh(s, t);
    var n, i := Next(s, Start(t)), |s.isolates|;
    forall j | 0 <= j < i
      ensures WorkerOk(n.isolates[j], j, n.active) && DrainOk(n.isolates[j], j, n.active, n.host)
    {
      OthersUnaffected(s.isolates[j], j, s.active, s.host, s.threads[t].id, i);
    }
    NewIsolateOk(n.isolates[i], i, n.active, n.host);
  }

  lemma NewIsolateOk(isolate: Isolate, i: nat, active: Active, host: Host)
    requires isolate.worker.Idle? && isolate.drain.Ready?
    ensures WorkerOk(isolate, i, active) && DrainOk(isolate, i, active, host)
  {}

  lemma SpawnApart(s: State, t: nat)
    requires Shape(s) && Enabled(s, Start(t)) && s.inactive == []
    ensures var n := Next(s, Start(t)); FinishedApart(n.isolates)
  {
    StartIsFresh(s, t);
  }

  lemma SpawnWork(s: State, t: nat)
    requires Shape(s) && Enabled(s, Start(t)) && s.inactive == []
    ensures WorkOk(Next(s, Start(t)))
  {
    hide IsolatesOk, FinishedApart, ActiveOk, InactiveOk;
    StartIsFresh(s, t);
    SpawnIsolates(s, t);
    SpawnApart(s, t);
  }

  lemma SpawnPool(s: State, t: nat)
    requires Shape(s) && Enabled(s, Start(t)) && s.inactive == []
    ensures PoolOk(Next(s, Start(t))) && Next(s, Start(t)).fault == s.fault
  {
    StartIsFresh(s, t);
  }

  lemma SpawnTraffic(s: State, t: nat)
    requires Shape(s) && Enabled(s, Start(t)) && s.inactive == []
    ensures TrafficOk(Next(s, Start(t)))
  {
    StartIsFresh(s, t);
    hide IsolatesOk, FinishedApart, InactiveOk, ThreadsOk, NoneFinished, HostOk;
    BorrowTraffic(s, Next(s, Start(t)), t, |s.isolates|);
  }

  lemma SpawnShape(s: State, t: nat)
    requires Shape(s) && Enabled(s, Start(t)) && s.inactive == []
    ensures Shape(Next(s, Start(t))) && Next(s, Start(t)).fault == s.fault
  {
    hide WorkOk, PoolOk, TrafficOk;
    SpawnWork(s, t);
    SpawnPool(s, t);
    SpawnTraffic(s, t);
  }

  lemma SendShape(s: State, t: nat)
    requires Shape(s) && Enabled(s, Send(t))
    ensures Shape(Next(s, Send(t))) && Next(s, Send(t)).fault == s.fault
  {}

  /** A packet always meets the isolate in the state it is meant for. */
  lemma PacketIsExpected(s: State, t: nat)
    requires Shape(s) && t in s.threads && s.threads[t].Putting?
    ensures var thread := s.threads[t];
            && thread.isolate < |s.isolates| && thread.id in s.active && s.active[thread.id] == thread.isolate
            && ReadyFor(s.isolates[thread.isolate], thread.packet) && s.isolates[thread.isolate].handler.Some?
            && s.isolates[thread.isolate].handler.value.id == thread.id
            && (thread.packet.Reply? ==> s.isolates[thread.isolate].worker.id == thread.id)
  {
    assert ThreadOk(s.isolates, s.active, s.host, s.threads[t]);
  }

  /** The state after a packet is taken: its goroutine is gone and the worker runs on. */
  function Taken(s: State, t: nat): State
    requires t in s.threads && s.threads[t].Putting? && s.threads[t].isolate < |s.isolates|
    requires s.isolates[s.threads[t].isolate].handler.Some?
  {
    var thread := s.threads[t];
    var isolate := s.isolates[thread.isolate];
    s.(threads := s.threads - {t})
     .With(thread.isolate, isolate.(worker := Running(thread.id, isolate.handler.value.borrow)))
  }

  lemma TakeIsTaken(s: State, t: nat)
    requires Shape(s) && Enabled(s, Take(t))
    ensures s.isolates[s.threads[t].isolate].handler.Some? && Next(s, Take(t)) == Taken(s, t)
  {
    PacketIsExpected(s, t);
    var thread := s.threads[t];
    if thread.packet.Reply? {
      assert WorkerOk(s.isolates[thread.isolate], thread.isolate, s.active);
    }
  }

  lemma TakeWork(s: State, t: nat)
    requires Shape(s) && Enabled(s, Take(t))
    ensures WorkOk(Next(s, Take(t)))
  {
    hide Next;
    PacketIsExpected(s, t);
    TakeIsTaken(s, t);
  }

  lemma TakePool(s: State, t: nat)
    requires Shape(s) && Enabled(s, Take(t))
    ensures PoolOk(Next(s, Take(t)))
  {
    hide Next;
    PacketIsExpected(s, t);
    TakeIsTaken(s, t);
  }

  lemma TakeTraffic(s: State, t: nat)
    requires Shape(s) && Enabled(s, Take(t))
    ensures TrafficOk(Next(s, Take(t)))
  {
    hide Next;
    PacketIsExpected(s, t);
    TakeIsTaken(s, t);
  }

  lemma TakeShape(s: State, t: nat)
    requires Shape(s) && Enabled(s, Take(t))
    ensures Shape(Next(s, Take(t))) && Next(s, Take(t)).fault == s.fault
  {
    hide WorkOk, PoolOk, TrafficOk;
    TakeIsTaken(s, t);
    TakeWork(s, t);
    TakePool(s, t);
    TakeTraffic(s, t);
  }

  lemma EmitWork(s: State, i: nat, kind: Kind)
    requires Shape(s) && Enabled(s, Emit(i, kind))
    ensures WorkOk(Next(s, Emit(i, kind)))
  {
    hide ActiveOk, InactiveOk, ThreadsOk, NoneFinished, HostOk;
  }

  lemma EmitPool(s: State, i: nat, kind: Kind)
    requires Shape(s) && Enabled(s, Emit(i, kind))
    ensures PoolOk(Next(s, Emit(i, kind)))
  {
    hide IsolatesOk, FinishedApart, ActiveOk, InactiveOk, ThreadsOk, NoneFinished, HostOk;
    PoolUntouched(s, Next(s, Emit(i, kind)));
  }

  lemma EmitTraffic(s: State, i: nat, kind: Kind)
    requires Shape(s) && Enabled(s, Emit(i, kind))
    ensures TrafficOk(Next(s, Emit(i, kind)))
  {
    assert WorkerOk(s.isolates[i], i, s.active) && DrainOk(s.isolates[i], i, s.active, s.host);
    hide IsolatesOk, FinishedApart, InactiveOk;
  }

  lemma EmitShape(s: State, i: nat, kind: Kind)
    requires Shape(s) && Enabled(s, Emit(i, kind))
    ensures Shape(Next(s, Emit(i, kind)))
  {
    hide WorkOk, PoolOk, TrafficOk;
    EmitWork(s, i, kind);
    EmitPool(s, i, kind);
    EmitTraffic(s, i, kind);
  }

  lemma ReceiveWork(s: State, i: nat)
    requires Shape(s) && Enabled(s, Receive(i))
    ensures WorkOk(Next(s, Receive(i)))
  {
    assert WorkerOk(s.isolates[i], i, s.active);
    assert Open(s.host, s.isolates[i].worker.message.id);
    hide ActiveOk, InactiveOk, ThreadsOk, NoneFinished, HostOk;
  }

  lemma ReceivePool(s: State, i: nat)
    requires Shape(s) && Enabled(s, Receive(i))
    ensures PoolOk(Next(s, Receive(i)))
  {
    hide IsolatesOk, FinishedApart, ActiveOk, InactiveOk, ThreadsOk, NoneFinished, HostOk;
    PoolUntouched(s, Next(s, Receive(i)));
  }

  lemma ReceiveTraffic(s: State, i: nat)
    requires Shape(s) && Enabled(s, Receive(i))
    ensures TrafficOk(Next(s, Receive(i)))
  {
    assert WorkerOk(s.isolates[i], i, s.active) && DrainOk(s.isolates[i], i, s.active, s.host);
    hide IsolatesOk, FinishedApart, InactiveOk;
  }

  lemma ReceiveShape(s: State, i: nat)
    requires Shape(s) && Enabled(s, Receive(i))
    ensures Shape(Next(s, Receive(i)))
  {
    hide WorkOk, PoolOk, TrafficOk;
    ReceiveWork(s, i);
    ReceivePool(s, i);
    ReceiveTraffic(s, i);
  }

  lemma LoadWork(s: State, i: nat)
    requires Shape(s) && Enabled(s, Load(i))
    ensures WorkOk(Next(s, Load(i)))
  {
    hide ActiveOk, InactiveOk, ThreadsOk, NoneFinished, HostOk;
  }

  lemma LoadPool(s: State, i: nat)
    requires Shape(s) && Enabled(s, Load(i))
    ensures PoolOk(Next(s, Load(i)))
  {
    hide IsolatesOk, FinishedApart, ActiveOk, InactiveOk, ThreadsOk, NoneFinished, HostOk;
    PoolUntouched(s, Next(s, Load(i)));
  }

  lemma LoadTraffic(s: State, i: nat)
    requires Shape(s) && Enabled(s, Load(i))
    ensures TrafficOk(Next(s, Load(i)))
  {
    assert WorkerOk(s.isolates[i], i, s.active) && DrainOk(s.isolates[i], i, s.active, s.host);
    hide IsolatesOk, FinishedApart, InactiveOk;
  }

  lemma LoadShape(s: State, i: nat)
    requires Shape(s) && Enabled(s, Load(i))
    ensures Shape(Next(s, Load(i)))
  {
    hide WorkOk, PoolOk, TrafficOk;
    LoadWork(s, i);
    LoadPool(s, i);
    LoadTraffic(s, i);
  }

  lemma ForwardWork(s: State, i: nat)
    requires Shape(s) && Enabled(s, Handle(i)) && !s.isolates[i].drain.message.kind.Response?
    ensures WorkOk(Next(s, Handle(i)))
  {
    hide ActiveOk, InactiveOk, ThreadsOk, NoneFinished, HostOk;
  }

  lemma ForwardPool(s: State, i: nat)
    requires Shape(s) && Enabled(s, Handle(i)) && !s.isolates[i].drain.message.kind.Response?
    ensures PoolOk(Next(s, Handle(i)))
  {
    assert DrainOk(s.isolates[i], i, s.active, s.host);
    hide IsolatesOk, FinishedApart, ActiveOk, InactiveOk, ThreadsOk, NoneFinished, HostOk;
    PoolUntouched(s, Next(s, Handle(i)));
  }

  lemma ForwardTraffic(s: State, i: nat)
    requires Shape(s) && Enabled(s, Handle(i)) && !s.isolates[i].drain.message.kind.Response?
    ensures TrafficOk(Next(s, Handle(i)))
  {
    assert WorkerOk(s.isolates[i], i, s.active) && DrainOk(s.isolates[i], i, s.active, s.host);
    hide IsolatesOk, FinishedApart, InactiveOk;
  }

  lemma ForwardShape(s: State, i: nat)
    requires Shape(s) && Enabled(s, Handle(i)) && !s.isolates[i].drain.message.kind.Response?
    ensures Shape(Next(s, Handle(i))) && Next(s, Handle(i)).fault == s.fault
  {
    hide WorkOk, PoolOk, TrafficOk;
    ForwardWork(s, i);
    ForwardPool(s, i);
    ForwardTraffic(s, i);
  }

  lemma FinishIsolates(s: State, i: nat)
    requires Shape(s) && Enabled(s, Handle(i)) && s.isolates[i].drain.message.kind.Response?
    ensures var n := Next(s, Handle(i)); IsolatesOk(n.isolates, n.active, n.host)
  {
    var d, n := s.isolates[i].drain, Next(s, Handle(i));
    assert Current(s.isolates[i], i, s.active, d.handler.id, d.handler.borrow);
    forall j | 0 <= j < |s.isolates| && j != i
      ensures WorkerOk(s.isolates[j], j, n.active) && DrainOk(s.isolates[j], j, n.active, n.host)
    {
      assert WorkerOk(s.isolates[j], j, s.active) && DrainOk(s.isolates[j], j, s.active, s.host);
    }
  }

  lemma FinishApart(s: State, i: nat)
    requires Shape(s) && Enabled(s, Handle(i)) && s.isolates[i].drain.message.kind.Response?
    ensures var n := Next(s, Handle(i)); FinishedApart(n.isolates)
  {
    hide InactiveOk, ThreadsOk, NoneFinished, HostOk;
  }

  lemma FinishWork(s: State, i: nat)
    requires Shape(s) && Enabled(s, Handle(i)) && s.isolates[i].drain.message.kind.Response?
    ensures WorkOk(Next(s, Handle(i)))
  {
    hide IsolatesOk, FinishedApart, ActiveOk, InactiveOk;
    FinishIsolates(s, i);
    FinishApart(s, i);
  }

  lemma FinishActive(s: State, i: nat)
    requires Shape(s) && Enabled(s, Handle(i)) && s.isolates[i].drain.message.kind.Response?
    ensures var n := Next(s, Handle(i)); ActiveOk(n.isolates, n.active, n.host) && n.fault == s.fault
  {
    hide FinishedApart, InactiveOk, ThreadsOk, NoneFinished, HostOk;
  }

  lemma FinishInactive(s: State, i: nat)
    requires Shape(s) && Enabled(s, Handle(i)) && s.isolates[i].drain.message.kind.Response?
    ensures var n := Next(s, Handle(i)); InactiveOk(n.isolates, n.active, n.inactive)
  {
    assert DrainOk(s.isolates[i], i, s.active, s.host);
    hide IsolatesOk, FinishedApart, ThreadsOk, NoneFinished, HostOk;
  }

  lemma FinishPool(s: State, i: nat)
    requires Shape(s) && Enabled(s, Handle(i)) && s.isolates[i].drain.message.kind.Response?
    ensures PoolOk(Next(s, Handle(i))) && Next(s, Handle(i)).fault == s.fault
  {
    hide IsolatesOk, FinishedApart, ActiveOk, InactiveOk;
    FinishActive(s, i);
    FinishInactive(s, i);
  }

  lemma FinishTraffic(s: State, i: nat)
    requires Shape(s) && Enabled(s, Handle(i)) && s.isolates[i].drain.message.kind.Response?
    ensures TrafficOk(Next(s, Handle(i)))
  {
    assert WorkerOk(s.isolates[i], i, s.active) && DrainOk(s.isolates[i], i, s.active, s.host);
    hide IsolatesOk, FinishedApart, InactiveOk;
  }

  lemma FinishShape(s: State, i: nat)
    requires Shape(s) && Enabled(s, Handle(i)) && s.isolates[i].drain.message.kind.Response?
    ensures Shape(Next(s, Handle(i))) && Next(s, Handle(i)).fault == s.fault
  {
    hide WorkOk, PoolOk, TrafficOk;
    FinishWork(s, i);
    FinishPool(s, i);
    FinishTraffic(s, i);
  }

  lemma ReleaseWork(s: State, i: nat)
    requires Shape(s) && Enabled(s, Release(i)) && s.tokens > 0
    ensures WorkOk(Next(s, Release(i)))
  {
    hide ActiveOk, InactiveOk, ThreadsOk, NoneFinished, HostOk;
  }

  lemma ReleasePool(s: State, i: nat)
    requires Shape(s) && Enabled(s, Release(i)) && s.tokens > 0
    ensures PoolOk(Next(s, Release(i))) && Next(s, Release(i)).fault == s.fault
  {
    assert DrainOk(s.isolates[i], i, s.active, s.host);
    hide IsolatesOk, FinishedApart, ActiveOk, InactiveOk, ThreadsOk, NoneFinished, HostOk;
    PoolUntouched(s, Next(s, Release(i)));
  }

  lemma ReleaseTraffic(s: State, i: nat)
    requires Shape(s) && Enabled(s, Release(i)) && s.tokens > 0
    ensures TrafficOk(Next(s, Release(i)))
  {
    assert DrainOk(s.isolates[i], i, s.active, s.host);
    hide IsolatesOk, FinishedApart, ActiveOk, InactiveOk, HostOk;
    TrafficUntouched(s, Next(s, Release(i)), i);
  }

  lemma ReleaseShape(s: State, i: nat)
    requires Shape(s) && Enabled(s, Release(i)) && s.tokens > 0
    ensures Shape(Next(s, Release(i))) && Next(s, Release(i)).fault == s.fault
  {
    hide WorkOk, PoolOk, TrafficOk;
    ReleaseWork(s, i);
    ReleasePool(s, i);
    ReleaseTraffic(s, i);
  }

  lemma WriteOnWork(s: State, i: nat)
    requires Shape(s) && Enabled(s, Write(i)) && (s.isolates[i].drain.message.kind.Log? || s.isolates[i].drain.message.kind.Fatal?)
    ensures WorkOk(Next(s, Write(i)))
  {
    hide ActiveOk, InactiveOk, ThreadsOk, NoneFinished, HostOk;
  }

  lemma WriteOnPool(s: State, i: nat)
    requires Shape(s) && Enabled(s, Write(i)) && (s.isolates[i].drain.message.kind.Log? || s.isolates[i].drain.message.kind.Fatal?)
    ensures PoolOk(Next(s, Write(i)))
  {
    assert DrainOk(s.isolates[i], i, s.active, s.host);
    hide IsolatesOk, FinishedApart, ActiveOk, InactiveOk, ThreadsOk, NoneFinished, HostOk;
    PoolUntouched(s, Next(s, Write(i)));
  }

  lemma WriteOnTraffic(s: State, i: nat)
    requires Shape(s) && Enabled(s, Write(i)) && (s.isolates[i].drain.message.kind.Log? || s.isolates[i].drain.message.kind.Fatal?)
    ensures TrafficOk(Next(s, Write(i)))
  {
    assert DrainOk(s.isolates[i], i, s.active, s.host);
    hide IsolatesOk, FinishedApart, ActiveOk, InactiveOk, HostOk;
    TrafficUntouched(s, Next(s, Write(i)), i);
  }

  lemma WriteOnShape(s: State, i: nat)
    requires Shape(s) && Enabled(s, Write(i)) && (s.isolates[i].drain.message.kind.Log? || s.isolates[i].drain.message.kind.Fatal?)
    ensures Shape(Next(s, Write(i)))
  {
    hide WorkOk, PoolOk, TrafficOk;
    WriteOnWork(s, i);
    WriteOnPool(s, i);
    WriteOnTraffic(s, i);
  }

  lemma WriteRequestWork(s: State, i: nat)
    requires Shape(s) && Enabled(s, Write(i)) && s.isolates[i].drain.message.kind.Request?
    ensures WorkOk(Next(s, Write(i)))
  {
    hide InactiveOk, ThreadsOk, NoneFinished, HostOk;
  }

  lemma WriteRequestPool(s: State, i: nat)
    requires Shape(s) && Enabled(s, Write(i)) && s.isolates[i].drain.message.kind.Request?
    ensures PoolOk(Next(s, Write(i)))
  {
    assert DrainOk(s.isolates[i], i, s.active, s.host);
    hide IsolatesOk, FinishedApart, ActiveOk, InactiveOk, ThreadsOk, NoneFinished, HostOk;
    PoolUntouched(s, Next(s, Write(i)));
  }

  lemma WriteRequestTraffic(s: State, i: nat)
    requires Shape(s) && Enabled(s, Write(i)) && s.isolates[i].drain.message.kind.Request?
    ensures TrafficOk(Next(s, Write(i)))
  {
    assert WorkerOk(s.isolates[i], i, s.active) && DrainOk(s.isolates[i], i, s.active, s.host);
    hide IsolatesOk, InactiveOk;
  }

  lemma WriteRequestShape(s: State, i: nat)
    requires Shape(s) && Enabled(s, Write(i)) && s.isolates[i].drain.message.kind.Request?
    ensures Shape(Next(s, Write(i)))
  {
    hide WorkOk, PoolOk, TrafficOk;
    WriteRequestWork(s, i);
    WriteRequestPool(s, i);
    WriteRequestTraffic(s, i);
  }

  lemma WriteResponseWork(s: State, i: nat)
    requires Shape(s) && Enabled(s, Write(i)) && s.isolates[i].drain.message.kind.Response?
    ensures WorkOk(Next(s, Write(i)))
  {
    hide InactiveOk, ThreadsOk, NoneFinished, HostOk;
  }

  lemma WriteResponsePool(s: State, i: nat)
    requires Shape(s) && Enabled(s, Write(i)) && s.isolates[i].drain.message.kind.Response?
    ensures PoolOk(Next(s, Write(i)))
  {
    assert DrainOk(s.isolates[i], i, s.active, s.host);
    hide IsolatesOk, FinishedApart, ActiveOk, InactiveOk, ThreadsOk, NoneFinished, HostOk;
    PoolUntouched(s, Next(s, Write(i)));
  }

  lemma WriteResponseTraffic(s: State, i: nat)
    requires Shape(s) && Enabled(s, Write(i)) && s.isolates[i].drain.message.kind.Response?
    ensures TrafficOk(Next(s, Write(i)))
  {
    assert DrainOk(s.isolates[i], i, s.active, s.host);
    hide IsolatesOk, FinishedApart, ActiveOk, InactiveOk, HostOk;
    TrafficUntouched(s, Next(s, Write(i)), i);
  }

  lemma WriteResponseShape(s: State, i: nat)
    requires Shape(s) && Enabled(s, Write(i)) && s.isolates[i].drain.message.kind.Response?
    ensures Shape(Next(s, Write(i)))
  {
    hide WorkOk, PoolOk, TrafficOk;
    WriteResponseWork(s, i);
    WriteResponsePool(s, i);
    WriteResponseTraffic(s, i);
  }

  // ---- Counting tokens ----

  function Held(b: bool): nat { if b then 1 else 0 }

  lemma ThreadTokens(threads: map<nat, Thread>, t: nat, thread: Thread)
    ensures |AcquiredThreads(threads[t := thread])| + Held(t in threads && threads[t].Acquired?)
            == |AcquiredThreads(threads)| + Held(thread.Acquired?)
  {
    var before, after := AcquiredThreads(threads), AcquiredThreads(threads[t := thread]);
    assert t in before <==> t in threads && threads[t].Acquired?;
    assert t in after <==> thread.Acquired?;
    assert after - {t} == before - {t};
    WithOrWithout(before, t);
    WithOrWithout(after, t);
  }

  lemma GoneTokens(threads: map<nat, Thread>, t: nat)
    requires t in threads && !threads[t].Acquired?
    ensures AcquiredThreads(threads - {t}) == AcquiredThreads(threads)
  {}

  lemma DrainTokens(isolates: seq<Isolate>, i: nat, isolate: Isolate)
    requires i < |isolates|
    ensures |ReleasingDrains(isolates[i := isolate])| + Held(isolates[i].drain.Releasing?)
            == |ReleasingDrains(isolates)| + Held(isolate.drain.Releasing?)
  {
    var before, after := ReleasingDrains(isolates), ReleasingDrains(isolates[i := isolate]);
    assert i in before <==> isolates[i].drain.Releasing?;
    assert i in after <==> isolate.drain.Releasing?;
    assert after - {i} == before - {i};
    WithOrWithout(before, i);
    WithOrWithout(after, i);
  }

  lemma WithOrWithout(s: set<nat>, x: nat)
    ensures |s| == |s - {x}| + Held(x in s)
  {}

  lemma NewDrainTokens(isolates: seq<Isolate>, isolate: Isolate)
    requires !isolate.drain.Releasing?
    ensures ReleasingDrains(isolates + [isolate]) == ReleasingDrains(isolates)
  {}

  /** Steps of one goroutine that neither take nor give a token. */
  lemma ThreadStepTokens(s: State, t: nat, thread: Thread, host: Host)
    requires TokensOk(s) && (t in s.threads ==> !s.threads[t].Acquired?) && !thread.Acquired?
    ensures TokensOk(s.(threads := s.threads[t := thread], host := host))
  {
    ThreadTokens(s.threads, t, thread);
  }

  lemma IsolateStepTokens(s: State, i: nat, isolate: Isolate)
    requires TokensOk(s) && i < |s.isolates|
    requires s.isolates[i].drain.Releasing? == isolate.drain.Releasing?
    ensures TokensOk(s.With(i, isolate))
  {
    DrainTokens(s.isolates, i, isolate);
  }

  lemma AcquireTokens(s: State, t: nat)
    requires Inv(s) && Enabled(s, Acquire(t))
    ensures TokensOk(Next(s, Acquire(t)))
  {
    ThreadTokens(s.threads, t, Acquired(s.threads[t].id, s.threads[t].packet));
  }

  /** The token of the handler becomes that of the compilation it activates. */
  lemma StartTokens(s: State, t: nat)
    requires Inv(s) && Enabled(s, Start(t))
    ensures TokensOk(Next(s, Start(t)))
  {
    StartIsFresh(s, t);
    var thread := s.threads[t];
    var i := if s.inactive == [] then |s.isolates| else s.inactive[0];
    var isolates := if s.inactive == [] then s.isolates + [Isolate(false, None, Idle, Ready)] else s.isolates;
    NewDrainTokens(s.isolates, Isolate(false, None, Idle, Ready));
    ThreadTokens(s.threads, t, Found(thread.id, thread.packet, i));
    DrainTokens(isolates, i, isolates[i].(borrowed := true, handler := Some(Handler(thread.id, s.borrows))));
  }

  lemma TakeTokens(s: State, t: nat)
    requires Inv(s) && Enabled(s, Take(t))
    ensures TokensOk(Next(s, Take(t)))
  {
    PacketIsExpected(s, t);
    GoneTokens(s.threads, t);
    var thread := s.threads[t];
    var isolate := s.isolates[thread.isolate];
    DrainTokens(s.isolates, thread.isolate, isolate.(worker := Running(thread.id, isolate.handler.value.borrow)));
  }

  /** The token of a compilation becomes that of its completion. */
  lemma HandleTokens(s: State, i: nat)
    requires Inv(s) && Enabled(s, Handle(i))
    ensures TokensOk(Next(s, Handle(i)))
  {
    var d := s.isolates[i].drain;
    assert Current(s.isolates[i], i, s.active, d.message.id, d.message.borrow);
    assert (s.active - {d.handler.id}).Keys == s.active.Keys - {d.handler.id};
    DrainTokens(s.isolates, i, s.isolates[i].(borrowed := false, drain := Releasing(d.message, d.handler)));
    DrainTokens(s.isolates, i, s.isolates[i].(drain := Writing(d.message, d.handler)));
  }

  /** A completion never waits for a token to give back. */
  lemma ReleaseNeverBlocks(s: State, i: nat)
    requires Inv(s) && Enabled(s, Release(i))
    ensures s.tokens > 0 && TokensOk(Next(s, Release(i)))
  {
    var d := s.isolates[i].drain;
    assert i in ReleasingDrains(s.isolates);
    DrainTokens(s.isolates, i, s.isolates[i].(drain := Writing(d.message, d.handler)));
  }

  // ---- Every step, every run ----

  lemma InitialInv()
    ensures Inv(INITIAL)
  {}

  lemma HostStepKeepsInv(s: State, step: Step)
    requires Inv(s) && Enabled(s, step) && (step.Compile? || step.Answer? || step.Lookup? || step.Acquire? || step.Send?)
    ensures Inv(Next(s, step))
  {
    hide Shape, TokensOk;
    match step
    case Compile(t, id) =>
      CompileShape(s, t, id);
      ThreadStepTokens(s, t, Arrived(id, CompileRequest), s.host[id := Compiling]);
    case Answer(t, id) =>
      AnswerShape(s, t, id);
      ThreadStepTokens(s, t, Arrived(id, Reply), s.host[id := Compiling]);
    case Lookup(t) =>
      LookupShape(s, t);
      ThreadStepTokens(s, t, Next(s, step).threads[t], s.host);
    case Acquire(t) =>
      AcquireShape(s, t);
      AcquireTokens(s, t);
    case Send(t) =>
      SendShape(s, t);
      ThreadStepTokens(s, t, Putting(s.threads[t].id, s.threads[t].packet, s.threads[t].isolate), s.host);
  }

  lemma IsolateStepKeepsInv(s: State, step: Step)
    requires Inv(s) && Enabled(s, step) && (step.Start? || step.Take? || step.Emit? || step.Receive? || step.Load?)
    ensures Inv(Next(s, step))
  {
    hide Shape, TokensOk;
    match step
    case Start(t) =>
      if s.inactive == [] {
        SpawnShape(s, t);
      } else {
        ReuseShape(s, t);
      }
      StartTokens(s, t);
      StartIsFresh(s, t);
    case Take(t) =>
      TakeShape(s, t);
      TakeTokens(s, t);
      PacketIsExpected(s, t);
    case Emit(i, kind) =>
      EmitShape(s, i, kind);
      IsolateStepTokens(s, i, Next(s, step).isolates[i]);
    case Receive(i) =>
      ReceiveShape(s, i);
      IsolateStepTokens(s, i, Next(s, step).isolates[i]);
    case Load(i) =>
      LoadShape(s, i);
      IsolateStepTokens(s, i, Next(s, step).isolates[i]);
  }

  /** What the handler of a loaded message is, and so whom it is written for. */
  lemma HandlerIsOwn(s: State, i: nat)
    requires Shape(s) && i < |s.isolates| && s.isolates[i].drain.Writing?
    ensures var d := s.isolates[i].drain; d.handler == Handler(d.message.id, d.message.borrow)
  {}

  lemma WriteKeepsInv(s: State, i: nat)
    requires Inv(s) && Enabled(s, Write(i))
    ensures Inv(Next(s, Write(i)))
  {
    hide Shape, TokensOk;
    HandlerIsOwn(s, i);
    DrainTokens(s.isolates, i, s.isolates[i].(drain := Ready));
    WriteTokens(s, i);
    match s.isolates[i].drain.message.kind
    case Log => WriteOnShape(s, i);
    case Fatal => WriteOnShape(s, i);
    case Request => WriteRequestShape(s, i);
    case Response => WriteResponseShape(s, i);
  }

  lemma WriteTokens(s: State, i: nat)
    requires TokensOk(s) && Enabled(s, Write(i))
    ensures TokensOk(Next(s, Write(i)))
  {
    DrainTokens(s.isolates, i, s.isolates[i].(drain := Ready));
  }

  lemma HandleKeepsInv(s: State, i: nat)
    requires Inv(s) && Enabled(s, Handle(i))
    ensures Inv(Next(s, Handle(i)))
  {
    hide Shape, TokensOk;
    HandleTokens(s, i);
    if s.isolates[i].drain.message.kind.Response? {
      FinishShape(s, i);
    } else {
      ForwardShape(s, i);
    }
  }

  lemma StepKeepsInv(s: State, step: Step)
    requires Inv(s) && Enabled(s, step)
    ensures Inv(Next(s, step))
  {
    hide Inv, Next, Enabled;
    match step
    case Start(_) => IsolateStepKeepsInv(s, step);
    case Take(_) => IsolateStepKeepsInv(s, step);
    case Emit(_, _) => IsolateStepKeepsInv(s, step);
    case Receive(_) => IsolateStepKeepsInv(s, step);
    case Load(_) => IsolateStepKeepsInv(s, step);
    case Handle(i) => HandleKeepsInv(s, i);
    case Release(i) => ReleaseKeepsInv(s, i);
    case Write(i) => WriteKeepsInv(s, i);
    case _ => HostStepKeepsInv(s, step);
  }

  lemma ReleaseKeepsInv(s: State, i: nat)
    requires Inv(s) && Enabled(s, Release(i))
    ensures Inv(Next(s, Release(i)))
  {
    hide Shape, TokensOk;
    ReleaseNeverBlocks(s, i);
    ReleaseShape(s, i);
  }

  /** A run from the start: each state is the one before it after an enabled step. */
  predicate IsRun(states: seq<State>, steps: seq<Step>) {
    && |states| == |steps| + 1 && states[0] == INITIAL
    && forall k | 0 <= k < |steps| :: Enabled(states[k], steps[k]) && states[k + 1] == Next(states[k], steps[k])
  }

  lemma {:induction false} RunKeepsInv(states: seq<State>, steps: seq<Step>, k: nat)
    requires IsRun(states, steps) && k < |states|
    ensures Inv(states[k])
  {
    hide Inv, Enabled, Next;
    if k == 0 {
      InitialInv();
    } else {
      RunKeepsInv(states, steps, k - 1);
      StepKeepsInv(states[k - 1], steps[k - 1]);
    }
  }

  // ---- What that means ----

  /** In every reachable state tokens are conserved, nothing exceeds the limit, and no operation has failed or blocked. */
  lemma TokensAreConserved(states: seq<State>, steps: seq<Step>, k: nat)
    requires IsRun(states, steps) && k < |states|
    ensures var s := states[k];
            && s.tokens == |s.active| + |AcquiredThreads(s.threads)| + |ReleasingDrains(s.isolates)|
            && |s.active| <= s.tokens <= MAX_CONCURRENT_COMPILATIONS
            && |s.isolates| <= MAX_CONCURRENT_COMPILATIONS
            && !s.fault
  {
    hide Shape, IsRun;
    RunKeepsInv(states, steps, k);
  }

  predicate Injective(m: Active) { forall a <- m, b <- m :: m[a] == m[b] ==> a == b }

  lemma {:induction false} InjectiveCount(m: Active)
    requires Injective(m)
    ensures |m.Values| == |m|
    decreases |m.Keys|
  {
    if m.Keys == {} {
      assert m.Values == {};
    } else {
      var a :| a in m;
      var rest := m - {a};
      assert rest.Keys == m.Keys - {a};
      InjectiveCount(rest);
      forall v | v in m.Values ensures v in rest.Values + {m[a]} {
        var b :| b in m && m[b] == v;
        assert b != a ==> b in rest && rest[b] == v;
      }
      assert forall v <- rest.Values :: v in m.Values && v != m[a];
      assert m.Values == rest.Values + {m[a]};
    }
  }

  lemma SameSize<T>(a: set<T>, b: set<T>)
    requires a <= b && |a| == |b|
    ensures a == b
  {
    assert b == a + (b - a);
  }

  /** Disjoint indices that are as many as there are isolates are all of them. */
  lemma PoolIsFull(active: Active, inactive: seq<nat>, n: nat)
    requires Injective(active) && n == |active| + |inactive|
    requires NoRepeats(inactive) && active.Values !! Members(inactive)
    requires forall i | i in active.Values + Members(inactive) :: i < n
    ensures active.Values + Members(inactive) == Below(n)
  {
    RepeatFreeSize(inactive);
    InjectiveCount(active);
    SameSize(active.Values + Members(inactive), Below(n));
  }

  lemma PoolFacts(s: State)
    requires PoolOk(s)
    ensures Injective(s.active) && NoRepeats(s.inactive) && |s.isolates| == |s.active| + |s.inactive|
    ensures s.active.Values !! Members(s.inactive)
    ensures forall i | i in s.active.Values + Members(s.inactive) :: i < |s.isolates|
  {}

  lemma InOneOf(a: set<nat>, b: set<nat>, n: nat, i: nat)
    requires a + b == Below(n) && i < n
    ensures i in a || i in b
  {
    assert i in Below(n) && i in a + b;
  }

  lemma BorrowedWhenActive(s: State, i: nat)
    requires PoolOk(s) && i < |s.isolates|
    ensures i in s.active.Values ==> s.isolates[i].borrowed
    ensures i in Members(s.inactive) ==> !s.isolates[i].borrowed
  {}

  lemma PoolSplits(s: State)
    requires PoolOk(s)
    ensures Injective(s.active) && s.active.Values !! Members(s.inactive)
    ensures s.active.Values + Members(s.inactive) == Below(|s.isolates|)
    ensures forall i | 0 <= i < |s.isolates| :: s.isolates[i].borrowed <==> i in s.active.Values
  {
    hide PoolOk, Injective, Members, NoRepeats, Below;
    PoolFacts(s);
    PoolIsFull(s.active, s.inactive, |s.isolates|);
    forall i | 0 <= i < |s.isolates| ensures s.isolates[i].borrowed <==> i in s.active.Values {
      InOneOf(s.active.Values, Members(s.inactive), |s.isolates|, i);
      BorrowedWhenActive(s, i);
    }
  }

  /** Isolates split into active ones, each for its own compilation and borrowed, and inactive ones, not borrowed. */
  lemma IsolatesSplit(states: seq<State>, steps: seq<Step>, k: nat)
    requires IsRun(states, steps) && k < |states|
    ensures var s := states[k];
            && Injective(s.active) && s.active.Values !! Members(s.inactive)
            && s.active.Values + Members(s.inactive) == Below(|s.isolates|)
            && forall i | 0 <= i < |s.isolates| :: s.isolates[i].borrowed <==> i in s.active.Values
  {
    hide IsRun, WorkOk, PoolOk, TrafficOk, TokensOk, Members, Injective;
    RunKeepsInv(states, steps, k);
    PoolSplits(states[k]);
  }

  /** Whatever is written was handled by the borrow that produced it, under the ID of that borrow. */
  lemma NobodyElsesMessage(states: seq<State>, steps: seq<Step>, k: nat)
    requires IsRun(states, steps) && k < |states|
    ensures forall e <- states[k].written :: e.1 == Handler(e.0.id, e.0.borrow)
  {
    hide IsRun, Shape, TokensOk;
    RunKeepsInv(states, steps, k);
  }

  /**
   When a completion is written, its ID is out of the active map, no packet for it
   is on its way, and the host has not reused it: the completion cannot undo a reuse.
   */
  lemma CompletionIsNotStale(states: seq<State>, steps: seq<Step>, k: nat, i: nat)
    requires IsRun(states, steps) && k < |states| && i < |states[k].isolates|
    requires states[k].isolates[i].drain.Writing?
    ensures var s := states[k];
            var id := s.isolates[i].drain.message.id;
            && id in s.host
            && (s.isolates[i].drain.message.kind.Response? ==>
                  id !in s.active && forall t <- s.threads :: s.threads[t].id != id)
  {
    hide IsRun, TokensOk;
    RunKeepsInv(states, steps, k);
    assert DrainOk(states[k].isolates[i], i, states[k].active, states[k].host);
  }
}
