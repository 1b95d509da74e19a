/** The dispatcher never gets stuck while a compilation is open and not all that are under way wait for the host. */
module DispatcherProgress {
  import opened Collections
  import opened Wrappers
  import opened IsolateDispatcher

  /** The isolate is at work, or its drain has a message of a compilation that goes on. */
  predicate Working(isolate: Isolate) {
    isolate.worker.Running? || isolate.worker.Sending? || Live(isolate.drain)
  }

  predicate Handled(threads: map<nat, Thread>, id: CompilationId) { exists t <- threads :: threads[t].id == id }

  predicate WorkedOn(isolates: seq<Isolate>, active: Active, id: CompilationId) {
    id in active && active[id] < |isolates| && Working(isolates[active[id]])
  }

  predicate EndingAt(isolates: seq<Isolate>, id: CompilationId, i: nat) {
    i < |isolates| && Finished(isolates[i].drain) && isolates[i].drain.message.id == id
  }

  ghost predicate Ending(isolates: seq<Isolate>, id: CompilationId) { exists i :: EndingAt(isolates, id, i) }

  /** Somebody has the compilation: a packet handler, its isolate, or the drain that writes its response. */
  ghost predicate Busy(s: State, id: CompilationId) {
    Handled(s.threads, id) || WorkedOn(s.isolates, s.active, id) || Ending(s.isolates, id)
  }

  ghost predicate BusyOk(s: State) {
    s.exited || forall id <- s.host :: s.host[id].Compiling? ==> Busy(s, id)
  }

  /** What does not touch a compilation leaves it with whoever has it. */
  lemma StaysBusy(s: State, n: State, id: CompilationId)
    requires Busy(s, id)
    requires forall t <- s.threads :: s.threads[t].id == id ==> t in n.threads && n.threads[t].id == id
    requires WorkedOn(s.isolates, s.active, id) ==> WorkedOn(n.isolates, n.active, id)
    requires forall i: nat :: EndingAt(s.isolates, id, i) ==> EndingAt(n.isolates, id, i)
    ensures Busy(n, id)
  {
    hide WorkedOn, EndingAt;
    if Handled(s.threads, id) {
      var t :| t in s.threads && s.threads[t].id == id;
      assert n.threads[t].id == id;
    } else if !WorkedOn(s.isolates, s.active, id) {
      var i :| EndingAt(s.isolates, id, i);
      assert EndingAt(n.isolates, id, i);
    }
  }

  // ---- Every step keeps everybody busy ----

  lemma HostStep(s: State, step: Step)
    requires BusyOk(s) && Enabled(s, step) && (step.Compile? || step.Answer?)
    ensures BusyOk(Next(s, step))
  {
    hide WorkedOn, EndingAt;
    var n := Next(s, step);
    forall id | id in n.host && n.host[id].Compiling? ensures Busy(n, id) {
      if id == step.id {
        assert n.threads[step.thread].id == id;
      } else {
        StaysBusy(s, n, id);
      }
    }
  }

  lemma ThreadStep(s: State, step: Step)
    requires Shape(s) && BusyOk(s) && Enabled(s, step) && (step.Lookup? || step.Acquire? || step.Send?)
    ensures BusyOk(Next(s, step))
  {
    hide WorkedOn, EndingAt, IsolatesOk, FinishedApart, InactiveOk, NoneFinished, HostOk;
    var n := Next(s, step);
    forall id | id in n.host && n.host[id].Compiling? ensures Busy(n, id) {
      StaysBusy(s, n, id);
    }
  }

  /** Starting a compilation does not touch an isolate that works on another one. */
  lemma StartSpares(s: State, t: nat, id: CompilationId)
    requires Shape(s) && Enabled(s, Start(t)) && WorkedOn(s.isolates, s.active, id)
    ensures WorkedOn(Next(s, Start(t)).isolates, Next(s, Start(t)).active, id)
  {
    hide IsolatesOk, FinishedApart, ThreadsOk, NoneFinished, HostOk, Working;
    StartIsFresh(s, t);
    if s.inactive != [] {
      assert s.active[id] != s.inactive[0];
    }
  }

  lemma StartKeepsDrains(s: State, t: nat)
    requires Shape(s) && Enabled(s, Start(t))
    ensures var n := Next(s, Start(t));
            |s.isolates| <= |n.isolates| && forall i | 0 <= i < |s.isolates| :: n.isolates[i].drain == s.isolates[i].drain
    ensures Next(s, Start(t)).host == s.host && Next(s, Start(t)).exited == s.exited
    ensures forall u <- s.threads :: u in Next(s, Start(t)).threads && Next(s, Start(t)).threads[u].id == s.threads[u].id
  {
    hide IsolatesOk, FinishedApart, ThreadsOk, NoneFinished, HostOk;
    StartIsFresh(s, t);
  }

  lemma StartStep(s: State, t: nat)
    requires Shape(s) && BusyOk(s) && Enabled(s, Start(t))
    ensures BusyOk(Next(s, Start(t)))
  {
    hide Shape, WorkedOn, Next;
    var n := Next(s, Start(t));
    StartKeepsDrains(s, t);
    forall id | id in n.host && n.host[id].Compiling? ensures Busy(n, id) {
      if WorkedOn(s.isolates, s.active, id) {
        StartSpares(s, t, id);
      }
      StaysBusy(s, n, id);
    }
  }

  lemma TakeStep(s: State, t: nat)
    requires Shape(s) && BusyOk(s) && Enabled(s, Take(t))
    ensures BusyOk(Next(s, Take(t)))
  {
    var n, thread := Next(s, Take(t)), s.threads[t];
    TakeIsTaken(s, t);
    PacketIsExpected(s, t);
    hide IsolatesOk, FinishedApart, InactiveOk, NoneFinished, HostOk;
    forall id | id in n.host && n.host[id].Compiling? ensures Busy(n, id) {
      if id == thread.id {
        assert WorkedOn(n.isolates, n.active, id);
      } else {
        StaysBusy(s, n, id);
      }
    }
  }

  /** A step of one isolate that goes on working leaves everybody busy. */
  lemma WorkStep(s: State, step: Step)
    requires Shape(s) && BusyOk(s) && Enabled(s, step) && (step.Emit? || step.Receive? || step.Load?)
    ensures BusyOk(Next(s, step))
  {
    hide IsolatesOk, FinishedApart, ActiveOk, InactiveOk, ThreadsOk, NoneFinished, HostOk;
    var n := Next(s, step);
    forall id | id in n.host && n.host[id].Compiling? ensures Busy(n, id) {
      StaysBusy(s, n, id);
    }
  }

  lemma ReleaseStep(s: State, i: nat)
    requires Shape(s) && BusyOk(s) && Enabled(s, Release(i))
    ensures BusyOk(Next(s, Release(i)))
  {
    hide FinishedApart, ActiveOk, InactiveOk, ThreadsOk, NoneFinished, HostOk;
    var n := Next(s, Release(i));
    assert DrainOk(s.isolates[i], i, s.active, s.host);
    hide IsolatesOk;
    forall id | id in n.host && n.host[id].Compiling? ensures Busy(n, id) {
      StaysBusy(s, n, id);
    }
  }

  lemma HandleStep(s: State, i: nat)
    requires Shape(s) && BusyOk(s) && Enabled(s, Handle(i))
    ensures BusyOk(Next(s, Handle(i)))
  {
    hide FinishedApart, InactiveOk, ThreadsOk, NoneFinished, HostOk;
    var n, message := Next(s, Handle(i)), s.isolates[i].drain.message;
    assert DrainOk(s.isolates[i], i, s.active, s.host);
    hide IsolatesOk;
    forall id | id in n.host && n.host[id].Compiling? ensures Busy(n, id) {
      if id == message.id && message.kind.Response? {
        assert EndingAt(n.isolates, id, i);
      } else {
        StaysBusy(s, n, id);
      }
    }
  }

  lemma WriteStep(s: State, i: nat)
    requires Shape(s) && BusyOk(s) && Enabled(s, Write(i))
    ensures BusyOk(Next(s, Write(i)))
  {
    hide FinishedApart, InactiveOk, ThreadsOk, NoneFinished, HostOk;
    var n, message := Next(s, Write(i)), s.isolates[i].drain.message;
    assert DrainOk(s.isolates[i], i, s.active, s.host) && WorkerOk(s.isolates[i], i, s.active);
    hide IsolatesOk;
    forall id | !n.exited && id in n.host && n.host[id].Compiling? ensures Busy(n, id) {
      StaysBusy(s, n, id);
    }
  }

  lemma StepKeepsBusy(s: State, step: Step)
    requires Shape(s) && BusyOk(s) && Enabled(s, step)
    ensures BusyOk(Next(s, step))
  {
    hide Shape, BusyOk, Next;
    match step
    case Compile(_, _) => HostStep(s, step);
    case Answer(_, _) => HostStep(s, step);
    case Lookup(_) => ThreadStep(s, step);
    case Acquire(_) => ThreadStep(s, step);
    case Send(_) => ThreadStep(s, step);
    case Start(t) => StartStep(s, t);
    case Take(t) => TakeStep(s, t);
    case Emit(_, _) => WorkStep(s, step);
    case Receive(_) => WorkStep(s, step);
    case Load(_) => WorkStep(s, step);
    case Handle(i) => HandleStep(s, i);
    case Release(i) => ReleaseStep(s, i);
    case Write(i) => WriteStep(s, i);
  }

  lemma {:induction false} RunKeepsBusy(states: seq<State>, steps: seq<Step>, k: nat)
    requires IsRun(states, steps) && k < |states|
    ensures BusyOk(states[k])
  {
    hide Shape, Enabled, Next, TokensOk, NoCrossTalk;
    if k > 0 {
      RunKeepsBusy(states, steps, k - 1);
      RunKeepsInv(states, steps, k - 1);
      assert states[k - 1 + 1] == Next(states[k - 1], steps[k - 1]);
      StepKeepsBusy(states[k - 1], steps[k - 1]);
    }
  }

  // ---- Something can always happen ----

  /** A step of the dispatcher, not of the host. */
  predicate CanStep(s: State, step: Step) { !step.Compile? && !step.Answer? && Enabled(s, step) }

  ghost predicate SomeStep(s: State) { exists step :: CanStep(s, step) }

  lemma DrainCanStep(s: State, i: nat)
    requires Shape(s) && !s.exited && i < |s.isolates| && !s.isolates[i].drain.Ready?
    ensures SomeStep(s)
  {
    hide FinishedApart, ActiveOk, InactiveOk, ThreadsOk, NoneFinished, HostOk;
    assert DrainOk(s.isolates[i], i, s.active, s.host);
    match s.isolates[i].drain
    case Received(_) => assert CanStep(s, Load(i));
    case Loaded(_, _) => assert CanStep(s, Handle(i));
    case Releasing(_, _) => assert CanStep(s, Release(i));
    case Writing(_, _) => assert CanStep(s, Write(i));
  }

  lemma WorkingCanStep(s: State, i: nat)
    requires Shape(s) && !s.exited && i < |s.isolates| && Working(s.isolates[i])
    ensures SomeStep(s)
  {
    hide FinishedApart, ActiveOk, InactiveOk, ThreadsOk, NoneFinished, HostOk;
    assert WorkerOk(s.isolates[i], i, s.active);
    if !s.isolates[i].drain.Ready? {
      DrainCanStep(s, i);
    } else if s.isolates[i].worker.Running? {
      assert CanStep(s, Emit(i, Log));
    } else {
      assert CanStep(s, Receive(i));
    }
  }

  lemma ThreadCanStep(s: State, t: nat)
    requires Shape(s) && !s.exited && t in s.threads && !s.threads[t].Waiting?
    ensures SomeStep(s)
  {
    hide IsolatesOk, FinishedApart, InactiveOk, NoneFinished, HostOk;
    match s.threads[t]
    case Arrived(_, _) => assert CanStep(s, Lookup(t));
    case Acquired(_, _) => assert CanStep(s, Start(t));
    case Found(_, _, _) => assert CanStep(s, Send(t));
    case Putting(_, _, _) =>
      PacketIsExpected(s, t);
      assert CanStep(s, Take(t));
  }

  /** An active compilation is never one that only waits for a token. */
  lemma ActiveCanStep(s: State, id: CompilationId)
    requires Shape(s) && !s.exited && id in s.active && Busy(s, id)
    ensures SomeStep(s)
  {
    hide WorkOk, InactiveOk, NoneFinished, HostOk, SomeStep;
    if WorkedOn(s.isolates, s.active, id) {
      WorkingCanStep(s, s.active[id]);
    } else if Handled(s.threads, id) {
      var t :| t in s.threads && s.threads[t].id == id;
      ThreadCanStep(s, t);
    } else {
      var i :| EndingAt(s.isolates, id, i);
      DrainCanStep(s, i);
    }
  }

  lemma SomeMember<T>(s: set<T>)
    requires |s| > 0
    ensures exists x :: x in s
  {}

  /** The compilations that wait for an answer of the host. */
  function AskedOf(host: Host): set<CompilationId> { set id | id in host && host[id].Asked? }

  lemma SubsetIsSmaller<T>(a: set<T>, b: set<T>)
    requires a <= b
    ensures |a| <= |b|
  {
    if a != {} {
      var x :| x in a;
      SubsetIsSmaller(a - {x}, b - {x});
    }
  }

  /** With all tokens taken, and not all of them by compilations that wait for the host, somebody can go on. */
  lemma FullCanStep(s: State)
    requires Inv(s) && BusyOk(s) && !s.exited && s.tokens == MAX_CONCURRENT_COMPILATIONS
    requires |AskedOf(s.host)| < MAX_CONCURRENT_COMPILATIONS
    ensures SomeStep(s)
  {
    hide WorkOk, PoolOk, TrafficOk, SomeStep, Busy;
    if |AcquiredThreads(s.threads)| > 0 {
      SomeMember(AcquiredThreads(s.threads));
      var t :| t in AcquiredThreads(s.threads);
      ThreadCanStep(s, t);
    } else if |ReleasingDrains(s.isolates)| > 0 {
      SomeMember(ReleasingDrains(s.isolates));
      var i :| i in ReleasingDrains(s.isolates);
      DrainCanStep(s, i);
    } else {
      assert exists id :: id in s.active.Keys && id !in AskedOf(s.host) by {
        if s.active.Keys <= AskedOf(s.host) {
          SubsetIsSmaller(s.active.Keys, AskedOf(s.host));
        }
      }
      var id :| id in s.active.Keys && id !in AskedOf(s.host);
      ActiveIsOpen(s, id);
      ActiveCanStep(s, id);
    }
  }

  lemma ActiveIsOpen(s: State, id: CompilationId)
    requires PoolOk(s) && id in s.active
    ensures id in s.host
  {}

  /**
   The dispatcher does not deadlock: in every reachable state that has not exited,
   while some compilation does not wait for the host and fewer do than there are
   tokens, some goroutine can take a step.
   */
  lemma NeverStuck(states: seq<State>, steps: seq<Step>, k: nat)
    requires IsRun(states, steps) && k < |states| && !states[k].exited
    requires exists id <- states[k].host :: states[k].host[id].Compiling?
    requires |AskedOf(states[k].host)| < MAX_CONCURRENT_COMPILATIONS
    ensures SomeStep(states[k])
  {
    hide IsRun, WorkOk, PoolOk, TrafficOk, SomeStep, Enabled;
    RunKeepsInv(states, steps, k);
    RunKeepsBusy(states, steps, k);
    var s := states[k];
    var id :| id in s.host && s.host[id].Compiling?;
    if id in s.active {
      ActiveCanStep(s, id);
    } else if Handled(s.threads, id) {
      var t :| t in s.threads && s.threads[t].id == id;
      if !s.threads[t].Waiting? {
        ThreadCanStep(s, t);
      } else if s.tokens == MAX_CONCURRENT_COMPILATIONS {
        FullCanStep(s);
      } else {
        WaitingCanStep(s, t);
      }
    } else {
      var i :| EndingAt(s.isolates, id, i);
      DrainCanStep(s, i);
    }
  }

  lemma WaitingCanStep(s: State, t: nat)
    requires !s.exited && t in s.threads && s.threads[t].Waiting? && s.tokens < MAX_CONCURRENT_COMPILATIONS
    ensures SomeStep(s)
  {
    assert CanStep(s, Acquire(t));
  }

  lemma SubsetSize(a: set<nat>, b: set<nat>)
    requires a <= b
    ensures |a| <= |b|
  {
    assert b == a + (b - a);
  }

  lemma FreshThread(threads: map<nat, Thread>) returns (t: nat)
    ensures t !in threads
  {
    var below := Below(|threads| + 1);
    if below <= threads.Keys {
      SubsetSize(below, threads.Keys);
    }
    t :| t in below && t !in threads.Keys;
  }

  /** The host can always ask for a compilation under an ID that is free, and answer what it has been asked. */
  lemma HostIsHeard(s: State, id: CompilationId)
    requires !s.exited
    ensures id !in s.host ==> exists t :: Enabled(s, Compile(t, id))
    ensures id in s.host && s.host[id].Asked? ==> exists t :: Enabled(s, Answer(t, id))
  {
    var t := FreshThread(s.threads);
    assert id !in s.host ==> Enabled(s, Compile(t, id));
    assert id in s.host && s.host[id].Asked? ==> Enabled(s, Answer(t, id));
  }

  /** A compilation that runs may say anything: log, ask, end or give up. */
  lemma AnythingMayBeSaid(s: State, id: CompilationId, kind: Kind)
    requires Inv(s) && !s.exited && id in s.active && s.isolates[s.active[id]].worker.Running?
    ensures var step := Emit(s.active[id], kind);
            && Enabled(s, step)
            && Next(s, step).isolates[s.active[id]].worker == Sending(Message(id, kind, s.isolates[s.active[id]].handler.value.borrow))
  {
    assert WorkerOk(s.isolates[s.active[id]], s.active[id], s.active);
  }
}
