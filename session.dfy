/** The session driver: load the configuration, register the shutdown
    operations, connect to a wallet, run the chosen front end, and signal
    shutdown when it returns. The front ends and the wallet connection are
    foreign calls whose results are inputs. */
module Session {
  import opened Types
  import opened Shutdown
  import opened StringSort

  /** The configuration options this part of the program reads. */
  datatype Config = Config(httpMode: bool, desktopMode: bool, useTestNet: bool, useWalletRPC: bool)

  /** The front end a session runs. */
  datatype Mode = Http | Desktop | Cli

  /** HTTP mode wins over desktop mode, which wins over the command line. */
  function SelectMode(c: Config): (m: Mode)
    ensures m == Http <==> c.httpMode
    ensures m == Desktop <==> !c.httpMode && c.desktopMode
    ensures m == Cli <==> !c.httpMode && !c.desktopMode
  {
    if c.httpMode then Http else if c.desktopMode then Desktop else Cli
  }

  function NetType(c: Config): (netType: string)
    ensures netType == "testnet" <==> c.useTestNet
    ensures netType == "mainnet" <==> !c.useTestNet
  {
    if c.useTestNet then "testnet" else "mainnet"
  }

  /** The wallet middleware a session talks to, on a network. */
  datatype Medium = DcrLibWallet(netType: string) | DcrWalletRpc(netType: string)

  /** connectToWallet: the native library unless the wallet RPC is asked
      for; a failed RPC connection ends the process (None). */
  function ConnectToWallet(c: Config, rpcConnects: bool): (m: Option<Medium>)
    ensures m.None? <==> c.useWalletRPC && !rpcConnects
    ensures m.Some? ==> (m.value.DcrLibWallet? <==> !c.useWalletRPC) && m.value.netType == NetType(c)
  {
    if !c.useWalletRPC then Some(DcrLibWallet(NetType(c)))
    else if rpcConnects then Some(DcrWalletRpc(NetType(c)))
    else None
  }

  /** How a session ends: the process exits with a status, main is stuck
      sending a shutdown signal nobody receives, or main waits for a
      shutdown that only an interrupt can still start. */
  datatype Outcome = Exited(status: int) | Blocked | Waiting

  /** What a session did: how it ended, the front end it ran, the wallet
      it connected to, the shutdown operations registered and those run. */
  datatype Report = Report(outcome: Outcome, mode: Option<Mode>, medium: Option<Medium>,
                           ops: seq<Hook>, ran: seq<Hook>)

  /** Where main is when the session's first interrupt arrives, if one does:
      before it registers the cancel operation, while it connects to the
      wallet (the close operation is not registered yet), or while the
      front end runs. */
  datatype InterruptAt = Never | BeforeCancel | WhileConnecting | WhileRunning

  /** The shutdown operations registered by the time main reaches `at`. */
  function OpsBefore(at: InterruptAt): (ops: seq<Hook>)
    ensures ops <= [CancelContext, CloseWallet]
    ensures |ops| == (match at case BeforeCancel => 0 case WhileConnecting => 1 case _ => 2)
  {
    match at
    case BeforeCancel => []
    case WhileConnecting => [CancelContext]
    case _ => [CancelContext, CloseWallet]
  }

  /** The main function. `runResult` is what the HTTP server or the command
      line front end returns; `at` says when an interrupt arrives. An
      interrupt during the front end's run finishes its shutdown before the
      front end's result is stored. */
  method RunSession(config: Option<Config>, args: seq<string>, rpcConnects: bool,
                    runResult: Option<Error>, at: InterruptAt) returns (r: Report)
    ensures config.None? ==> r == Report(Exited(1), None, None, [], [])
    ensures config.Some? && ConnectToWallet(config.value, rpcConnects).None? ==>
      r == Report(Exited(1), None, None, [CancelContext], if at == WhileConnecting then [CancelContext] else [])
    ensures config.Some? && ConnectToWallet(config.value, rpcConnects).Some? ==>
      r.mode == Some(SelectMode(config.value)) && r.medium == ConnectToWallet(config.value, rpcConnects) &&
      r.ops == [CancelContext, CloseWallet]
    // the hooks run at most once, in registration order
    ensures r.ran <= [CancelContext, CloseWallet]
    // an interrupt before the wallet connection runs only what is registered by then
    ensures config.Some? && (at == BeforeCancel || at == WhileConnecting) ==> r.ran == OpsBefore(at)
    ensures r.mode == Some(Http) && |args| > 0 ==>
      r.outcome == Exited(1) && r.ran == (if at == WhileConnecting then [CancelContext] else [])
    ensures r.mode == Some(Http) && |args| == 0 ==>
      r.outcome == (match at
                    case Never => if runResult.Some? then Exited(1) else Waiting
                    case BeforeCancel => if runResult.Some? then Blocked else Exited(0)
                    case _ => Exited(0)) &&
      r.ran == (if at == Never then (if runResult.Some? then OpsBefore(Never) else []) else OpsBefore(at))
    ensures r.mode == Some(Cli) ==>
      r.outcome == (if at != Never then Blocked else if runResult.Some? then Exited(1) else Exited(0)) &&
      r.ran == OpsBefore(at)
    ensures r.mode == Some(Desktop) ==>
      r.outcome == (if at == Never then Waiting else Exited(0)) &&
      r.ran == (if at == Never then [] else OpsBefore(at))
  {
    if config.None? {
      return Report(Exited(1), None, None, [], []);
    }
    var c := config.value;
    var shutdown := new ShutdownCoordinator();
    if at == BeforeCancel {
      shutdown.Interrupt();
    }
    shutdown.AddShutdownOp(CancelContext);
    if at == WhileConnecting {
      shutdown.Interrupt();
    }
    assert shutdown.ops == [CancelContext] && shutdown.opError.None?;
    assert shutdown.received <==> at == BeforeCancel || at == WhileConnecting;
    assert shutdown.received ==> shutdown.ran == OpsBefore(at) && shutdown.listener == Looping;
    assert !shutdown.exitedWithError;
    var medium := ConnectToWallet(c, rpcConnects);
    if medium.None? {
      return Report(Exited(1), None, None, shutdown.ops, shutdown.ran);
    }
    shutdown.AddShutdownOp(CloseWallet);
    assert shutdown.ops == [CancelContext, CloseWallet];
    var mode := SelectMode(c);
    if mode == Http && |args| > 0 {
      return Report(Exited(1), Some(mode), medium, shutdown.ops, shutdown.ran);
    }
    var outcome := RunFrontEnd(shutdown, mode, runResult, at);
    r := Report(outcome, Some(mode), medium, shutdown.ops, shutdown.ran);
  }

  /** The rest of main once both shutdown operations are registered: the
      front end runs (an interrupt may arrive meanwhile), its result is
      stored, the shutdown signal is sent when the mode calls for it, and
      main waits for the handler. */
  method RunFrontEnd(shutdown: ShutdownCoordinator, mode: Mode, runResult: Option<Error>, at: InterruptAt)
    returns (outcome: Outcome)
    requires shutdown.Valid() && shutdown.ops == [CancelContext, CloseWallet] && shutdown.opError.None?
    requires shutdown.received <==> at == BeforeCancel || at == WhileConnecting
    requires shutdown.received ==> shutdown.ran == OpsBefore(at) && shutdown.listener == Looping
    requires !shutdown.exitedWithError
    requires !shutdown.received ==> shutdown.listener == AwaitingFirst
    requires shutdown.contextCancelled <==> at == WhileConnecting
    modifies shutdown
    ensures shutdown.ops == [CancelContext, CloseWallet]
    ensures mode == Http ==>
      outcome == (match at
                  case Never => if runResult.Some? then Exited(1) else Waiting
                  case BeforeCancel => if runResult.Some? then Blocked else Exited(0)
                  case _ => Exited(0)) &&
      shutdown.ran == (if at == Never then (if runResult.Some? then OpsBefore(Never) else []) else OpsBefore(at))
    ensures mode == Cli ==>
      outcome == (if at != Never then Blocked else if runResult.Some? then Exited(1) else Exited(0)) &&
      shutdown.ran == OpsBefore(at)
    ensures mode == Desktop ==>
      outcome == (if at == Never then Waiting else Exited(0)) &&
      shutdown.ran == (if at == Never then [] else OpsBefore(at))
  {
    if at == WhileRunning {
      shutdown.Interrupt();
    }
    assert shutdown.received <==> at != Never;
    assert shutdown.received ==> shutdown.ran == OpsBefore(at) && !shutdown.exitedWithError;
    assert shutdown.contextCancelled <==> at == WhileConnecting || at == WhileRunning;
    var sends := false;
    if mode == Http {
      shutdown.SetOpError(runResult);
      // only an error the cancellation did not cause signals shutdown
      sends := runResult.Some? && !shutdown.contextCancelled;
    } else if mode == Cli {
      shutdown.SetOpError(runResult);
      sends := true;
    }
    if sends {
      var delivered := shutdown.BeginShutdown();
      if !delivered {
        return Blocked;
      }
    }
    if shutdown.exitedWithError {
      outcome := Exited(1);
    } else if shutdown.received {
      // the handler is done and main returns from its wait
      outcome := Exited(0);
    } else {
      outcome := Waiting;
    }
  }

  /** A command the argument parser knows. */
  datatype Command = Command(name: string)

  function Names(commands: seq<Command>): (names: seq<string>)
    ensures |names| == |commands| && forall i :: 0 <= i < |names| ==> names[i] == commands[i].name
  {
    seq(|commands|, i requires 0 <= i < |commands| => commands[i].name)
  }

  /** The names of the registered commands, sorted. */
  method SupportedCommands(registered: seq<Command>) returns (names: seq<string>)
    ensures |names| == |registered|
    ensures multiset(names) == multiset(Names(registered))
    ensures Sorted(names)
  {
    var collected: seq<string> := [];
    for i := 0 to |registered|
      invariant collected == Names(registered[..i])
    {
      collected := collected + [registered[i].name];
    }
    assert registered[..|registered|] == registered;
    var a := new string[|collected|](i requires 0 <= i < |collected| => collected[i]);
    assert a[..] == collected;
    SortStrings(a);
    names := a[..];
  }
}
