/** The wallet middleware the loader drives (a native wallet library or a
    wallet RPC client). Its answers are scripted; what it records is the
    order of the calls made on it and their arguments. */
module Middleware {
  import opened Types

  /** One call made on the middleware. */
  datatype Call =
    | WalletExists
    | OpenWallet
    | GenerateNewWalletSeed
    | CreateWallet(passphrase: string, seed: string)
    | SyncBlockChain(rescan: bool)

  /** A callback the middleware makes on the sync listener while syncing. */
  datatype SyncEvent =
    | SyncStarted
    | HeadersFetched(percentageProgress: int)
    | DiscoveredAddress(state: string)
    | RescanningBlocks(percentageProgress: int)
    | SyncEnded(err: Option<Error>)

  /** How the middleware answers each kind of call. */
  datatype Script = Script(
    existsReply: Reply<bool>,      // the first WalletExists
    recheckReply: Reply<bool>,     // every later WalletExists
    open: Option<Error>,           // OpenWallet
    seed: Reply<string>,           // GenerateNewWalletSeed
    create: Option<Error>,         // CreateWallet
    syncEvents: seq<SyncEvent>,    // listener callbacks made by SyncBlockChain
    syncStart: Option<Error>)      // what SyncBlockChain itself returns

  /** The answer to a WalletExists call: the first one gets `existsReply`,
      every later one `recheckReply`. */
  function ExistsAnswer(s: Script, checkedBefore: bool): Reply<bool> {
    if checkedBefore then s.recheckReply else s.existsReply
  }

  class WalletMiddleware {
    const script: Script
    var trace: seq<Call>

    constructor (script: Script)
      ensures this.script == script && trace == []
    {
      this.script := script;
      trace := [];
    }

    method WalletExists() returns (r: Reply<bool>)
      modifies this
      ensures r == ExistsAnswer(script, Call.WalletExists in old(trace))
      ensures trace == old(trace) + [Call.WalletExists]
    {
      r := if Call.WalletExists in trace then script.recheckReply else script.existsReply;
      trace := trace + [Call.WalletExists];
    }

    method OpenWallet() returns (err: Option<Error>)
      modifies this
      ensures err == script.open && trace == old(trace) + [Call.OpenWallet]
    {
      err := script.open;
      trace := trace + [Call.OpenWallet];
    }

    method GenerateNewWalletSeed() returns (r: Reply<string>)
      modifies this
      ensures r == script.seed && trace == old(trace) + [Call.GenerateNewWalletSeed]
    {
      r := script.seed;
      trace := trace + [Call.GenerateNewWalletSeed];
    }

    method CreateWallet(passphrase: string, seed: string) returns (err: Option<Error>)
      modifies this
      ensures err == script.create && trace == old(trace) + [Call.CreateWallet(passphrase, seed)]
    {
      err := script.create;
      trace := trace + [Call.CreateWallet(passphrase, seed)];
    }

    /** Returns the callbacks made on the listener during the call, in order,
        and the call's own error. */
    method SyncBlockChain(rescan: bool) returns (events: seq<SyncEvent>, err: Option<Error>)
      modifies this
      ensures events == script.syncEvents && err == script.syncStart
      ensures trace == old(trace) + [Call.SyncBlockChain(rescan)]
    {
      events, err := script.syncEvents, script.syncStart;
      trace := trace + [Call.SyncBlockChain(rescan)];
    }
  }
}
