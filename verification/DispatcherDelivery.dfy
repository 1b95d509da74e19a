/** Whatever a compilation says reaches the host: once, in order, and before anything it says later. */
module DispatcherDelivery {
  import opened Wrappers
  import opened IsolateDispatcher

  /** What the steps of the run so far had the isolates say under a borrow, in order. */
  function Emitted(states: seq<State>, steps: seq<Step>, k: nat, borrow: nat): seq<Message>
    requires IsRun(states, steps) && k < |states|
  {
    if k == 0 then [] else Emitted(states, steps, k - 1, borrow) + Said(states[k - 1], steps[k - 1], borrow)
  }

  /** A running worker says one thing, under the borrow it runs for. */
  function Said(s: State, step: Step, borrow: nat): seq<Message>
    requires Enabled(s, step)
  {
    match step
    case Emit(i, kind) =>
      var worker := s.isolates[i].worker;
      if worker.borrow == borrow then [Message(worker.id, kind, borrow)] else []
    case _ => []
  }

  /** What the host has been sent under a borrow. */
  function Delivered(written: seq<(Message, Handler)>, borrow: nat): seq<Message> {
    if written == [] then []
    else
      var last := written[|written| - 1].0;
      Delivered(written[..|written| - 1], borrow) + if last.borrow == borrow then [last] else []
  }

  /** What is in the drain of an isolate and then what its worker is sending. */
  function Pending(isolate: Isolate, borrow: nat): seq<Message> {
    (if !isolate.drain.Ready? && isolate.drain.message.borrow == borrow then [isolate.drain.message] else [])
    + (if isolate.worker.Sending? && isolate.worker.message.borrow == borrow then [isolate.worker.message] else [])
  }

  function OnTheWay(isolates: seq<Isolate>, borrow: nat): seq<Message> {
    if isolates == [] then []
    else OnTheWay(isolates[..|isolates| - 1], borrow) + Pending(isolates[|isolates| - 1], borrow)
  }

  // ---- A borrow belongs to one isolate ----

  predicate Owns(isolate: Isolate, borrow: nat) {
    || (isolate.handler.Some? && isolate.handler.value.borrow == borrow)
    || (!isolate.drain.Ready? && isolate.drain.message.borrow == borrow)
  }

  ghost predicate BorrowsOk(s: State) {
    && (forall i, b: nat | 0 <= i < |s.isolates| && Owns(s.isolates[i], b) :: b < s.borrows)
    && (forall i, j, b: nat | 0 <= i < |s.isolates| && 0 <= j < |s.isolates|
                              && Owns(s.isolates[i], b) && Owns(s.isolates[j], b) :: i == j)
  }

  /** The isolate holds no other borrows than before. */
  ghost predicate NoMore(before: Isolate, after: Isolate) { forall b: nat | Owns(after, b) :: Owns(before, b) }

  lemma OneChanged(s: State, n: State, i: nat)
    requires BorrowsOk(s) && n.borrows == s.borrows && i < |s.isolates|
    requires |n.isolates| == |s.isolates| && n.isolates == s.isolates[i := n.isolates[i]]
    requires NoMore(s.isolates[i], n.isolates[i])
    ensures BorrowsOk(n)
  {
    hide Owns;
    forall j, b: nat | 0 <= j < |n.isolates| && Owns(n.isolates[j], b) ensures Owns(s.isolates[j], b) {}
  }

  lemma NoneChanged(s: State, n: State)
    requires BorrowsOk(s) && n.borrows == s.borrows && n.isolates == s.isolates
    ensures BorrowsOk(n)
  {}

  /** An isolate nobody has, or a new one, is given a borrow nobody has had. */
  lemma OneBorrowed(s: State, n: State, i: nat)
    requires BorrowsOk(s) && n.borrows == s.borrows + 1 && |s.isolates| <= |n.isolates| && i < |n.isolates|
    requires forall j | 0 <= j < |n.isolates| && j != i :: j < |s.isolates| && n.isolates[j] == s.isolates[j]
    requires forall b: nat | Owns(n.isolates[i], b) :: b == s.borrows || (i < |s.isolates| && Owns(s.isolates[i], b))
    ensures BorrowsOk(n)
  {
    hide Owns;
  }

  lemma StartKeepsBorrows(s: State, t: nat)
    requires Shape(s) && BorrowsOk(s) && Enabled(s, Start(t))
    ensures BorrowsOk(Next(s, Start(t)))
  {
    StartIsFresh(s, t);
    assert s.inactive != [] ==> s.inactive[0] < |s.isolates| && !s.isolates[s.inactive[0]].borrowed;
    hide Shape, BorrowsOk;
    OneBorrowed(s, Next(s, Start(t)), if s.inactive == [] then |s.isolates| else s.inactive[0]);
  }

  lemma ReceiveKeepsBorrows(s: State, i: nat)
    requires Shape(s) && BorrowsOk(s) && Enabled(s, Receive(i))
    ensures BorrowsOk(Next(s, Receive(i)))
  {
    assert WorkerOk(s.isolates[i], i, s.active);
    hide Shape, BorrowsOk;
    OneChanged(s, Next(s, Receive(i)), i);
  }

  lemma TakeKeepsBorrows(s: State, t: nat)
    requires BorrowsOk(s) && Enabled(s, Take(t))
    ensures BorrowsOk(Next(s, Take(t)))
  {
    hide BorrowsOk;
    var n := Next(s, Take(t));
    if n.isolates == s.isolates {
      NoneChanged(s, n);
    } else {
      OneChanged(s, n, s.threads[t].isolate);
    }
  }

  lemma HandleKeepsBorrows(s: State, i: nat)
    requires BorrowsOk(s) && Enabled(s, Handle(i))
    ensures BorrowsOk(Next(s, Handle(i)))
  {
    hide BorrowsOk;
    OneChanged(s, Next(s, Handle(i)), i);
  }

  lemma WriteKeepsBorrows(s: State, i: nat)
    requires BorrowsOk(s) && Enabled(s, Write(i))
    ensures BorrowsOk(Next(s, Write(i)))
  {
    hide BorrowsOk;
    OneChanged(s, Next(s, Write(i)), i);
  }

  lemma IsolateKeepsBorrows(s: State, step: Step, i: nat)
    requires BorrowsOk(s) && Enabled(s, step)
    requires step.Emit? || step.Load? || step.Release?
    requires i == step.isolate
    ensures BorrowsOk(Next(s, step))
  {
    hide BorrowsOk;
    var n := Next(s, step);
    assert n.isolates == s.isolates[i := n.isolates[i]];
    OneChanged(s, n, i);
  }

  lemma StepKeepsBorrows(s: State, step: Step)
    requires Inv(s) && BorrowsOk(s) && Enabled(s, step)
    ensures BorrowsOk(Next(s, step))
  {
    hide BorrowsOk, Shape, TokensOk, AfterStart, AfterTake, AfterReceive, AfterHandle, AfterWrite;
    match step
    case Start(t) => StartKeepsBorrows(s, t);
    case Take(t) => TakeKeepsBorrows(s, t);
    case Receive(i) => ReceiveKeepsBorrows(s, i);
    case Emit(i, _) => IsolateKeepsBorrows(s, step, i);
    case Load(i) => IsolateKeepsBorrows(s, step, i);
    case Handle(i) => HandleKeepsBorrows(s, i);
    case Release(i) => IsolateKeepsBorrows(s, step, i);
    case Write(i) => WriteKeepsBorrows(s, i);
    case _ => NoneChanged(s, Next(s, step));
  }

  lemma {:induction false} RunKeepsBorrows(states: seq<State>, steps: seq<Step>, k: nat)
    requires IsRun(states, steps) && k < |states|
    ensures Inv(states[k]) && BorrowsOk(states[k])
  {
    hide Inv, Enabled, Next;
    RunKeepsInv(states, steps, k);
    if k > 0 {
      RunKeepsBorrows(states, steps, k - 1);
      StepKeepsBorrows(states[k - 1], steps[k - 1]);
    }
  }

  // ---- Where the messages of a borrow are ----

  lemma {:induction false} SameOnTheWay(a: seq<Isolate>, b: seq<Isolate>, borrow: nat)
    requires |a| == |b| && forall i | 0 <= i < |a| :: Pending(a[i], borrow) == Pending(b[i], borrow)
    ensures OnTheWay(a, borrow) == OnTheWay(b, borrow)
  {
    hide Pending;
    if a != [] {
      SameOnTheWay(a[..|a| - 1], b[..|b| - 1], borrow);
    }
  }

  /** All that is on the way is with the one isolate that has something. */
  lemma {:induction false} OnlyAt(isolates: seq<Isolate>, i: nat, borrow: nat)
    requires i < |isolates| && forall j | 0 <= j < |isolates| && j != i :: Pending(isolates[j], borrow) == []
    ensures OnTheWay(isolates, borrow) == Pending(isolates[i], borrow)
  {
    hide Pending;
    var n := |isolates| - 1;
    if i < n {
      OnlyAt(isolates[..n], i, borrow);
    } else {
      NoneOnTheWay(isolates[..n], borrow);
    }
  }

  lemma {:induction false} NoneOnTheWay(isolates: seq<Isolate>, borrow: nat)
    requires forall j | 0 <= j < |isolates| :: Pending(isolates[j], borrow) == []
    ensures OnTheWay(isolates, borrow) == []
  {
    hide Pending;
    if isolates != [] {
      NoneOnTheWay(isolates[..|isolates| - 1], borrow);
    }
  }

  lemma PendingIsOwned(s: State, i: nat, borrow: nat)
    requires Shape(s) && i < |s.isolates| && Pending(s.isolates[i], borrow) != []
    ensures Owns(s.isolates[i], borrow)
  {
    assert WorkerOk(s.isolates[i], i, s.active);
  }

  lemma OthersHaveNone(s: State, i: nat, borrow: nat)
    requires Shape(s) && BorrowsOk(s) && i < |s.isolates| && Owns(s.isolates[i], borrow)
    ensures forall j | 0 <= j < |s.isolates| && j != i :: Pending(s.isolates[j], borrow) == []
    ensures OnTheWay(s.isolates, borrow) == Pending(s.isolates[i], borrow)
  {
    hide Owns, Pending, OnTheWay, Shape;
    forall j | 0 <= j < |s.isolates| && j != i ensures Pending(s.isolates[j], borrow) == [] {
      if Pending(s.isolates[j], borrow) != [] {
        PendingIsOwned(s, j, borrow);
      }
    }
    OnlyAt(s.isolates, i, borrow);
  }

  // ---- Every step ----

  /** What has been written under a borrow and then what is on its way. */
  function Known(s: State, borrow: nat): seq<Message> { Delivered(s.written, borrow) + OnTheWay(s.isolates, borrow) }

  lemma EmitIsKept(s: State, i: nat, kind: Kind, borrow: nat)
    requires Shape(s) && BorrowsOk(s) && Enabled(s, Emit(i, kind))
    ensures Known(Next(s, Emit(i, kind)), borrow) == Known(s, borrow) + Said(s, Emit(i, kind), borrow)
  {
    hide OnTheWay, Delivered, BorrowsOk, Shape;
    var n, worker := Next(s, Emit(i, kind)), s.isolates[i].worker;
    if worker.borrow == borrow {
      RunningOwns(s, i);
      OthersHaveNone(s, i, borrow);
      OnlyAt(n.isolates, i, borrow);
    } else {
      SameOnTheWay(s.isolates, n.isolates, borrow);
    }
  }

  lemma RunningOwns(s: State, i: nat)
    requires Shape(s) && i < |s.isolates| && s.isolates[i].worker.Running?
    ensures Owns(s.isolates[i], s.isolates[i].worker.borrow)
  {
    assert WorkerOk(s.isolates[i], i, s.active);
  }

  /** The packet leaves the drain, in front of what the worker is sending. */
  lemma WrittenLeaves(s: State, i: nat, borrow: nat)
    requires Shape(s) && BorrowsOk(s) && Enabled(s, Write(i))
    ensures var message := s.isolates[i].drain.message;
            OnTheWay(s.isolates, borrow)
            == (if message.borrow == borrow then [message] else [])
               + OnTheWay(s.isolates[i := s.isolates[i].(drain := Ready)], borrow)
  {
    hide OnTheWay, BorrowsOk, Shape, Owns;
    var after := s.isolates[i := s.isolates[i].(drain := Ready)];
    if s.isolates[i].drain.message.borrow == borrow {
      PendingIsOwned(s, i, borrow);
      OthersHaveNone(s, i, borrow);
      OnlyAt(after, i, borrow);
    } else {
      SameOnTheWay(s.isolates, after, borrow);
    }
  }

  lemma WriteIsKept(s: State, i: nat, borrow: nat)
    requires Shape(s) && BorrowsOk(s) && Enabled(s, Write(i))
    ensures Known(Next(s, Write(i)), borrow) == Known(s, borrow)
  {
    hide OnTheWay, BorrowsOk, Shape, Delivered, Pending;
    var drain := s.isolates[i].drain;
    WrittenLeaves(s, i, borrow);
    OneMoreDelivered(s.written, (drain.message, drain.handler), borrow);
  }

  lemma OneMoreDelivered(written: seq<(Message, Handler)>, next: (Message, Handler), borrow: nat)
    ensures Delivered(written + [next], borrow)
            == Delivered(written, borrow) + if next.0.borrow == borrow then [next.0] else []
  {
    assert (written + [next])[..|written|] == written;
  }

  lemma StartPending(s: State, t: nat, borrow: nat)
    requires Shape(s) && Enabled(s, Start(t))
    ensures var n := Next(s, Start(t));
            && n.written == s.written
            && |n.isolates| == |s.isolates| + (if s.inactive == [] then 1 else 0)
            && (forall j | 0 <= j < |s.isolates| :: Pending(n.isolates[j], borrow) == Pending(s.isolates[j], borrow))
            && (s.inactive == [] ==> Pending(n.isolates[|s.isolates|], borrow) == [])
  {
    StartIsFresh(s, t);
    assert s.inactive != [] ==> s.inactive[0] < |s.isolates| && !s.isolates[s.inactive[0]].borrowed;
    hide Shape;
  }

  lemma StartIsKept(s: State, t: nat, borrow: nat)
    requires Shape(s) && Enabled(s, Start(t))
    ensures Known(Next(s, Start(t)), borrow) == Known(s, borrow)
  {
    hide Delivered, OnTheWay, Shape, AfterStart, Pending;
    StartPending(s, t, borrow);
    var n := Next(s, Start(t));
    SameOnTheWay(s.isolates, n.isolates[..|s.isolates|], borrow);
    if s.inactive == [] {
      NothingNew(n.isolates, borrow);
    } else {
      assert n.isolates[..|s.isolates|] == n.isolates;
    }
  }

  lemma NothingNew(isolates: seq<Isolate>, borrow: nat)
    requires isolates != [] && Pending(isolates[|isolates| - 1], borrow) == []
    ensures OnTheWay(isolates, borrow) == OnTheWay(isolates[..|isolates| - 1], borrow)
  {}

  lemma TakeIsKept(s: State, t: nat, borrow: nat)
    requires Enabled(s, Take(t))
    ensures Known(Next(s, Take(t)), borrow) == Known(s, borrow)
  {
    hide OnTheWay, Delivered;
    SameOnTheWay(s.isolates, Next(s, Take(t)).isolates, borrow);
  }

  /** One isolate goes on with the same messages. */
  lemma PassedOn(s: State, n: State, i: nat, borrow: nat)
    requires i < |s.isolates| && |n.isolates| == |s.isolates| && n.isolates == s.isolates[i := n.isolates[i]]
    requires n.written == s.written && Pending(n.isolates[i], borrow) == Pending(s.isolates[i], borrow)
    ensures Known(n, borrow) == Known(s, borrow)
  {
    hide OnTheWay, Delivered, Pending;
    SameOnTheWay(s.isolates, n.isolates, borrow);
  }

  lemma ReceiveIsKept(s: State, i: nat, borrow: nat)
    requires Enabled(s, Receive(i))
    ensures Known(Next(s, Receive(i)), borrow) == Known(s, borrow)
  {
    hide Known;
    PassedOn(s, Next(s, Receive(i)), i, borrow);
  }

  lemma HandleIsKept(s: State, i: nat, borrow: nat)
    requires Enabled(s, Handle(i))
    ensures Known(Next(s, Handle(i)), borrow) == Known(s, borrow)
  {
    hide Known;
    PassedOn(s, Next(s, Handle(i)), i, borrow);
  }

  lemma PassIsKept(s: State, step: Step, i: nat, borrow: nat)
    requires Enabled(s, step) && (step.Load? || step.Release?) && i == step.isolate
    ensures Known(Next(s, step), borrow) == Known(s, borrow)
  {
    hide Known;
    PassedOn(s, Next(s, step), i, borrow);
  }

  lemma StepIsKept(s: State, step: Step, borrow: nat)
    requires Inv(s) && BorrowsOk(s) && Enabled(s, step)
    ensures Known(Next(s, step), borrow) == Known(s, borrow) + Said(s, step, borrow)
  {
    hide OnTheWay, Delivered, BorrowsOk, Shape, TokensOk;
    hide AfterStart, AfterTake, AfterReceive, AfterHandle, AfterWrite;
    match step
    case Emit(i, kind) => EmitIsKept(s, i, kind, borrow);
    case Write(i) => WriteIsKept(s, i, borrow);
    case Start(t) => StartIsKept(s, t, borrow);
    case Take(t) => TakeIsKept(s, t, borrow);
    case Receive(i) => ReceiveIsKept(s, i, borrow);
    case Load(i) => PassIsKept(s, step, i, borrow);
    case Handle(i) => HandleIsKept(s, i, borrow);
    case Release(i) => PassIsKept(s, step, i, borrow);
    case _ =>
      assert Next(s, step).isolates == s.isolates && Next(s, step).written == s.written;
  }

  /**
   In every reachable state, what a compilation has said is what the host has been
   sent of it, in order, and then what its isolate is about to send: nothing is lost,
   doubled or overtaken, log messages included.
   */
  lemma {:induction false} EverythingIsDelivered(states: seq<State>, steps: seq<Step>, k: nat, borrow: nat)
    requires IsRun(states, steps) && k < |states|
    ensures Emitted(states, steps, k, borrow)
            == Delivered(states[k].written, borrow) + OnTheWay(states[k].isolates, borrow)
    ensures forall i | 0 <= i < |states[k].isolates| && Pending(states[k].isolates[i], borrow) != [] ::
              OnTheWay(states[k].isolates, borrow) == Pending(states[k].isolates[i], borrow)
  {
    hide Inv, Enabled, Next, BorrowsOk, Said, Pending, OnTheWay;
    if k > 0 {
      EverythingIsDelivered(states, steps, k - 1, borrow);
      RunKeepsBorrows(states, steps, k - 1);
      StepIsKept(states[k - 1], steps[k - 1], borrow);
    } else {
      NothingAtFirst(borrow);
    }
    RunKeepsBorrows(states, steps, k);
    PendingIsAll(states[k], borrow);
  }

  lemma NothingAtFirst(borrow: nat)
    ensures Delivered(INITIAL.written, borrow) == [] && OnTheWay(INITIAL.isolates, borrow) == []
  {}

  lemma PendingIsAll(s: State, borrow: nat)
    requires Inv(s) && BorrowsOk(s)
    ensures forall i | 0 <= i < |s.isolates| && Pending(s.isolates[i], borrow) != [] ::
              OnTheWay(s.isolates, borrow) == Pending(s.isolates[i], borrow)
  {
    hide Shape, TokensOk, Pending, OnTheWay, Owns, BorrowsOk;
    forall i | 0 <= i < |s.isolates| && Pending(s.isolates[i], borrow) != []
      ensures OnTheWay(s.isolates, borrow) == Pending(s.isolates[i], borrow)
    {
      PendingIsOwned(s, i, borrow);
      OthersHaveNone(s, i, borrow);
    }
  }

  /** Once nothing is being sent, the host has been sent all that was ever said. */
  lemma QuietMeansDelivered(states: seq<State>, steps: seq<Step>, k: nat, borrow: nat)
    requires IsRun(states, steps) && k < |states|
    requires forall isolate <- states[k].isolates :: isolate.drain.Ready? && !isolate.worker.Sending?
    ensures Emitted(states, steps, k, borrow) == Delivered(states[k].written, borrow)
  {
    hide IsRun;
    EverythingIsDelivered(states, steps, k, borrow);
    NoneOnTheWay(states[k].isolates, borrow);
  }
}
