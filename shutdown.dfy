/** Shutdown sequencing of a session: the list of shutdown operations, the
    handler that waits for the one shutdown signal and then runs them, the
    interrupt listener whose first interrupt sends that signal, and the
    stored operation error that decides the exit status. The goroutines and
    the unbuffered channel between them become single steps: a send on the
    channel is received exactly when the handler is still waiting. */
module Shutdown {
  import opened Types

  /** A registered shutdown operation: cancelling the session context or
      closing the wallet. */
  datatype Hook = CancelContext | CloseWallet

  /** Where the interrupt listener is: waiting for the first interrupt,
      stuck sending the signal after the handler has already received one,
      or logging every later interrupt. */
  datatype Listener = AwaitingFirst | SendBlocked | Looping

  /** The shared state: the registered operations, the stored operation
      error, whether the handler has received the signal, the operations it
      ran, whether it exited with status 1, and the listener. */
  datatype Coordinator = Coordinator(
    ops: seq<Hook>,
    opError: Option<Error>,
    received: bool,
    ran: seq<Hook>,
    exitedWithError: bool,
    listener: Listener,
    alreadyLogs: nat)

  /** What `Valid` keeps: nothing has run before the signal; afterwards the
      operations that ran are the ones registered at that moment, in order. */
  ghost predicate Consistent(c: Coordinator) {
    (!c.received ==> c.ran == [] && !c.exitedWithError && c.listener != Looping) &&
    (c.received ==> c.ran <= c.ops) &&
    (c.listener == AwaitingFirst ==> c.alreadyLogs == 0) &&
    (c.listener == SendBlocked ==> c.received)
  }

  function Start(): (c: Coordinator)
    ensures Consistent(c) && c.ops == [] && !c.received && c.listener == AwaitingFirst && c.opError.None?
  {
    Coordinator([], None, false, [], false, AwaitingFirst, 0)
  }

  /** Appends a shutdown operation. */
  function Register(c: Coordinator, h: Hook): (d: Coordinator)
    ensures d.ops == c.ops + [h]
    ensures d.received == c.received && d.ran == c.ran && d.exitedWithError == c.exitedWithError
    ensures Consistent(c) ==> Consistent(d)
  {
    c.(ops := c.ops + [h])
  }

  /** A send on the shutdown channel. The waiting handler receives it, runs
      every registered operation once in order, then exits with status 1
      exactly when an operation error is stored. Once the handler has
      received, nobody receives again and nothing changes. */
  function Signal(c: Coordinator): (d: Coordinator)
    ensures !c.received ==> d.received && d.ran == c.ops && (d.exitedWithError <==> c.opError.Some?)
    ensures c.received ==> d == c
    ensures d.ops == c.ops && d.opError == c.opError && d.listener == c.listener && d.alreadyLogs == c.alreadyLogs
    ensures Consistent(c) ==> Consistent(d)
  {
    if c.received then c
    else c.(received := true, ran := c.ops, exitedWithError := c.opError.Some?)
  }

  /** An interrupt. The first one makes the listener send the signal; if no
      one receives it the listener is stuck. Later ones are only logged by a
      listener that got past its send. */
  function HandleInterrupt(c: Coordinator): (d: Coordinator)
    ensures c.listener == AwaitingFirst ==>
      d == Signal(c).(listener := if c.received then SendBlocked else Looping)
    ensures c.listener == Looping ==> d == c.(alreadyLogs := c.alreadyLogs + 1)
    ensures c.listener == SendBlocked ==> d == c
    ensures Consistent(c) ==> Consistent(d)
  {
    match c.listener
    case AwaitingFirst => Signal(c).(listener := if c.received then SendBlocked else Looping)
    case Looping => c.(alreadyLogs := c.alreadyLogs + 1)
    case SendBlocked => c
  }

  /** One thing that can happen during a session. */
  datatype Event =
    | Interrupted             // an interrupt or termination signal arrives
    | ShutdownSent            // main sends on the shutdown channel
    | OpErrorSet(err: Option<Error>)   // main stores the operation's result
    | OpAdded(hook: Hook)     // main registers a shutdown operation

  function Apply(c: Coordinator, e: Event): (d: Coordinator)
    ensures c.received ==> d.received && d.ran == c.ran && d.exitedWithError == c.exitedWithError
    ensures Consistent(c) ==> Consistent(d)
  {
    match e
    case Interrupted => HandleInterrupt(c)
    case ShutdownSent => Signal(c)
    case OpErrorSet(err) => c.(opError := err)
    case OpAdded(h) => Register(c, h)
  }

  /** The state after the events, in order. */
  function Replay(c: Coordinator, events: seq<Event>): Coordinator
    decreases |events|
  {
    if events == [] then c else Replay(Apply(c, events[0]), events[1..])
  }

  /** How many of the events were a signal the handler received. */
  function Deliveries(c: Coordinator, events: seq<Event>): nat
    decreases |events|
  {
    if events == [] then 0
    else
      var d := Apply(c, events[0]);
      (if !c.received && d.received then 1 else 0) + Deliveries(d, events[1..])
  }

  /** Every reachable state is consistent. */
  lemma {:induction false} ReplayConsistent(c: Coordinator, events: seq<Event>)
    requires Consistent(c)
    ensures Consistent(Replay(c, events))
    decreases |events|
  {
    if events != [] {
      ReplayConsistent(Apply(c, events[0]), events[1..]);
    }
  }

  /** The operations run once: after the handler has received the signal,
      no event runs any operation again or changes the exit decision. */
  lemma {:induction false} ShutdownOnce(c: Coordinator, events: seq<Event>)
    requires c.received
    ensures var d := Replay(c, events);
      d.received && d.ran == c.ran && d.exitedWithError == c.exitedWithError
    decreases |events|
  {
    if events != [] {
      ShutdownOnce(Apply(c, events[0]), events[1..]);
    }
  }

  /** The handler receives at most one signal, whatever happens. */
  lemma {:induction false} AtMostOneDelivery(c: Coordinator, events: seq<Event>)
    ensures Deliveries(c, events) <= (if c.received then 0 else 1)
    decreases |events|
  {
    if events != [] {
      var d := Apply(c, events[0]);
      AtMostOneDelivery(d, events[1..]);
      if d.received {
        NoDeliveryAfterReceived(d, events[1..]);
      }
    }
  }

  lemma {:induction false} NoDeliveryAfterReceived(c: Coordinator, events: seq<Event>)
    requires c.received
    ensures Deliveries(c, events) == 0
    decreases |events|
  {
    if events != [] {
      NoDeliveryAfterReceived(Apply(c, events[0]), events[1..]);
    }
  }

  /** `n` interrupts in a row. */
  function Interrupts(n: nat): (events: seq<Event>)
    ensures |events| == n && forall i :: 0 <= i < n ==> events[i] == Interrupted
  {
    seq(n, i => Interrupted)
  }

  /** Once the listener is past its first interrupt, every later one only
      adds an "already shutting down" log line. */
  lemma {:induction false} LaterInterruptsOnlyLog(c: Coordinator, n: nat)
    requires c.listener == Looping
    ensures Replay(c, Interrupts(n)) == c.(alreadyLogs := c.alreadyLogs + n)
    decreases n
  {
    if n > 0 {
      assert Interrupts(n)[1..] == Interrupts(n - 1);
      LaterInterruptsOnlyLog(c.(alreadyLogs := c.alreadyLogs + 1), n - 1);
    }
  }

  /** A listener stuck on its send ignores every later interrupt. */
  lemma {:induction false} BlockedListenerIgnores(c: Coordinator, n: nat)
    requires c.listener == SendBlocked
    ensures Replay(c, Interrupts(n)) == c
    decreases n
  {
    if n > 0 {
      assert Interrupts(n)[1..] == Interrupts(n - 1);
      BlockedListenerIgnores(c, n - 1);
    }
  }

  /** The first interrupt of a session triggers the shutdown; the rest
      only log, and the operations stay run exactly once. */
  lemma FirstInterruptTriggers(c: Coordinator, n: nat)
    requires c.listener == AwaitingFirst && !c.received
    ensures var d := Replay(c, [Interrupted] + Interrupts(n));
      d.received && d.ran == c.ops && d.listener == Looping && d.alreadyLogs == c.alreadyLogs + n &&
      Deliveries(c, [Interrupted] + Interrupts(n)) == 1
  {
    var first := HandleInterrupt(c);
    assert ([Interrupted] + Interrupts(n))[1..] == Interrupts(n);
    LaterInterruptsOnlyLog(first, n);
    NoDeliveryAfterReceived(first, Interrupts(n));
  }

  /** The exit status comes from the operation error stored before the
      signal: status 1 exactly when it is non-nil, whatever follows. */
  lemma ExitFromOpError(c: Coordinator, err: Option<Error>, later: seq<Event>)
    requires !c.received
    ensures var d := Replay(c, [OpErrorSet(err), ShutdownSent] + later);
      d.received && d.ran == c.ops && (d.exitedWithError <==> err.Some?)
  {
    var stored := c.(opError := err);
    var signalled := Signal(stored);
    assert ([OpErrorSet(err), ShutdownSent] + later)[1..] == [ShutdownSent] + later;
    assert ([ShutdownSent] + later)[1..] == later;
    ShutdownOnce(signalled, later);
  }

  /** The session's shutdown state, updated in place. Running a hook has its
      effect: cancelling the context or closing the wallet. */
  class ShutdownCoordinator {
    var ops: seq<Hook>
    var opError: Option<Error>
    var received: bool
    var ran: seq<Hook>
    var exitedWithError: bool
    var listener: Listener
    var alreadyLogs: nat
    var contextCancelled: bool
    var walletClosed: bool

    function State(): Coordinator
      reads this
    {
      Coordinator(ops, opError, received, ran, exitedWithError, listener, alreadyLogs)
    }

    ghost predicate Valid()
      reads this
    {
      Consistent(State()) &&
      (contextCancelled <==> CancelContext in ran) && (walletClosed <==> CloseWallet in ran)
    }

    constructor ()
      ensures Valid() && State() == Start() && !contextCancelled && !walletClosed
    {
      ops, opError, received, ran := [], None, false, [];
      exitedWithError, listener, alreadyLogs := false, AwaitingFirst, 0;
      contextCancelled, walletClosed := false, false;
    }

    method AddShutdownOp(h: Hook)
      requires Valid()
      modifies this
      ensures Valid() && State() == Register(old(State()), h)
      ensures contextCancelled == old(contextCancelled) && walletClosed == old(walletClosed)
    {
      ops := ops + [h];
    }

    method SetOpError(err: Option<Error>)
      requires Valid()
      modifies this
      ensures Valid() && State() == Apply(old(State()), OpErrorSet(err))
      ensures contextCancelled == old(contextCancelled) && walletClosed == old(walletClosed)
    {
      opError := err;
    }

    /** Sends the shutdown signal; `delivered` says whether the handler
        received it (a send nobody receives would block its sender). */
    method BeginShutdown() returns (delivered: bool)
      requires Valid()
      modifies this
      ensures Valid() && State() == Signal(old(State())) && delivered == !old(received)
      ensures delivered ==> contextCancelled == (CancelContext in ops) && walletClosed == (CloseWallet in ops)
      ensures !delivered ==> contextCancelled == old(contextCancelled) && walletClosed == old(walletClosed)
    {
      if received {
        return false;
      }
      received := true;
      var i := 0;
      while i < |ops|
        invariant 0 <= i <= |ops| && ran == ops[..i]
        invariant (contextCancelled <==> CancelContext in ran) && (walletClosed <==> CloseWallet in ran)
        invariant ops == old(ops) && opError == old(opError) && received
        invariant exitedWithError == old(exitedWithError) && listener == old(listener) && alreadyLogs == old(alreadyLogs)
      {
        match ops[i] {
          case CancelContext => contextCancelled := true;
          case CloseWallet => walletClosed := true;
        }
        assert ops[..i + 1] == ops[..i] + [ops[i]];
        ran := ran + [ops[i]];
        i := i + 1;
      }
      assert ops[..|ops|] == ops;
      exitedWithError := opError.Some?;
      delivered := true;
    }

    /** An interrupt reaching the listener. */
    method Interrupt()
      requires Valid()
      modifies this
      ensures Valid() && State() == HandleInterrupt(old(State()))
    {
      match listener
      case AwaitingFirst =>
        var delivered := BeginShutdown();
        listener := if delivered then Looping else SendBlocked;
      case Looping =>
        alreadyLogs := alreadyLogs + 1;
      case SendBlocked =>
    }
  }
}
