# Wallet session core of godcr, modelled in Dafny

This project models two parts of the godcr wallet client.

The first part is the **wallet loader** (`cli/walletloader.go`). It checks whether a wallet exists. It opens the wallet if there is one. Otherwise it offers to create one: the passphrase is typed twice, a seed is generated, the user acknowledges the seed backup, the wallet is created, and a first block-chain sync runs.
- The wallet middleware is a `WalletMiddleware` object. Its answers come from a `Script`, and it records every call made on it in a `trace`. The first `WalletExists` call and every later one have separate answers, so the check that `createWallet` repeats after `openWallet`'s own check can give a different result.
- The terminal is a list of the lines the prompt library delivers. A request reads lines until the validator accepts one and returns that line unchanged. Running out of lines is a read error.
- Each race between an operation and the cancellation of the session context is a boolean input: `true` means the context won.
- Each loader method is proved against a function of the script and the typed lines (`CreateFlow`, `FinishCreation`, `OfferFlow`, `OpenFlow`, `SyncOutcome`). The function gives the returned error, the middleware calls in order, and the lines left unread. The properties are stated in those functions' contracts.
- The two response validators are string functions over models of Go's `strings.TrimSpace`, `strings.Trim(_, "\"")` and `strings.EqualFold`. Lemmas state exactly which inputs each validator accepts.

The second part is the **session driver** (`main.go`):
- choosing the run mode;
- the network type and the wallet medium;
- the list of shutdown operations and the handler that runs them;
- the interrupt listener;
- the stored operation error that decides the exit status;
- the sorted list of command names.

The shutdown state is a `ShutdownCoordinator` object, updated in place. Each of its methods is proved against a pure step function on the `Coordinator` datatype. Lemmas over sequences of events (`Replay`) show three things:
- the operations run at most once, in registration order;
- only the first interrupt sends the shutdown signal;
- the exit status comes from the stored error.

`RunSession` is the main function, with at most one interrupt that arrives at one of four points. `SupportedCommands` collects the command names and sorts them in place in an array.

## Behaviour worth noting

- **Quotes.** `strings.Trim(_, "\"")` removes any number of leading quotes and any number of trailing quotes, each side on its own.
- **Decline test.** The decline test in `attemptToCreateWallet` (cli/walletloader.go:153) looks at the line as delivered, not at its normalised form. So a quoted `"n"` is a valid answer that still starts the wallet creation (`PaddedNoDoesNotDecline`).
- **Second shutdown send.** Nobody receives a second send on `beginShutdown`, so its sender blocks. Such a send comes from main after an interrupt has already triggered the shutdown, or from the listener after main has. `RunSession` reports this as `Blocked`. A listener stuck this way no longer logs later interrupts.
- **Early interrupt.** The handler runs the shutdown operations registered when the signal arrives. An interrupt before main.go:73 registers the wallet close therefore leaves the wallet open (`RunSession`, `OpsBefore`).

## Model

| member | source | states |
|---|---|---|
| TerminalPrompt.Prompt | cli/walletloader.go:61-65 | a request returns the first line the validator accepts, with the lines after it; it fails with a read error exactly when no line is accepted |
| TerminalPrompt.RequestInput | cli/walletloader.go:147-151 | the re-prompting loop returns what `Prompt` specifies |
| GoStrings.TrimSpace | cli/walletloader.go:53 | the trimmed string neither begins nor ends with white space (`TrimAround` says which string that is) |
| GoStrings.TrimQuotes | cli/walletloader.go:54 | the trimmed string neither begins nor ends with a quote (`TrimAround` says which string that is) |
| GoStrings.EqualFold | cli/walletloader.go:55 | a string always matches itself |
| GoStrings.EqualFoldCases | cli/walletloader.go:55 | two strings match exactly when they have the same length and agree at each position up to the case of an ASCII letter |
| GoStrings.TrimAround | cli/walletloader.go:53-54 | trimming a character class from both ends removes exactly the padding around a middle whose ends are not in the class |
| GoStrings.TrimLeftSplit | cli/walletloader.go:53-54 | a string is the trimmed-off prefix, all in the class, followed by the left-trimmed rest |
| GoStrings.TrimRightSplit | cli/walletloader.go:53-54 | a string is the right-trimmed part followed by the trimmed-off suffix, all in the class |
| Middleware.WalletMiddleware.WalletExists | cli/walletloader.go:15 | returns the scripted first answer if no earlier check is in the trace, the scripted later answer otherwise, and appends the call to the trace |
| Middleware.WalletMiddleware.OpenWallet | cli/walletloader.go:110 | returns the scripted error and appends the call to the trace |
| Middleware.WalletMiddleware.GenerateNewWalletSeed | cli/walletloader.go:43 | returns the scripted seed or error and appends the call to the trace |
| Middleware.WalletMiddleware.CreateWallet | cli/walletloader.go:68 | returns the scripted error and records the passphrase and seed it was given |
| Middleware.WalletMiddleware.SyncBlockChain | cli/walletloader.go:183 | returns the listener callbacks and start error of the script, and records a rescanning sync |
| WalletLoader.Normalize | cli/walletloader.go:53-54 | the normalised response neither begins nor ends with a quote (`NormalizedIsPadded` gives the rest) |
| WalletLoader.NormalizedIsPadded | cli/walletloader.go:53-54 | every response is its normalised form padded with quotes, then white space |
| WalletLoader.PaddedNormalizes | cli/walletloader.go:53-54 | a word with no space or quote at its ends, padded that way, normalises back to itself |
| WalletLoader.NormalizeIffPadded | cli/walletloader.go:53-54 | for such a word, normalising gives the word exactly when the response is the word padded |
| WalletLoader.EqualFoldOk | cli/walletloader.go:55 | the words equal to "OK" up to letter case are exactly ok, oK, Ok and OK |
| WalletLoader.EqualFoldLetter | cli/walletloader.go:140 | the words equal to "y" or "N" up to letter case are exactly that letter in lower or upper case |
| WalletLoader.BackupValidator | cli/walletloader.go:52-60 | the backup answer is accepted exactly when its normalised form is "OK" in some letter case |
| WalletLoader.BackupAccepts | cli/walletloader.go:52-60 | the backup answer is accepted exactly when it is "OK", in any case, inside any quotes inside any white space |
| WalletLoader.BackupAcceptsExamples | cli/walletloader.go:52-60 | `ok`, `  "OK"  ` and `""ok"` are accepted |
| WalletLoader.BackupRefusesExamples | cli/walletloader.go:52-60 | `K`, the empty line and `no` are refused |
| WalletLoader.BackupInnerSpaceExample | cli/walletloader.go:53-55 | `" OK "` normalises to ` OK ` because spaces inside the quotes stay, so it is refused |
| WalletLoader.CreateOfferValidator | cli/walletloader.go:137-145 | the answer to the offer is accepted exactly when its normalised form is empty, y, Y, n or N |
| WalletLoader.CreateOfferAccepts | cli/walletloader.go:137-145 | the answer is accepted exactly when it is empty, y, Y, n or N inside any quotes inside any white space |
| WalletLoader.DeclinesCreation | cli/walletloader.go:153 | the answer as delivered declines exactly when it is empty, n or N |
| WalletLoader.PaddedNoDoesNotDecline | cli/walletloader.go:138-140 | a quoted or space-padded n passes the validator yet does not decline |
| WalletLoader.AnyLine | cli/walletloader.go:27-36 | the passphrase prompts accept every line |
| WalletLoader.AnyLineTakesFirst | cli/walletloader.go:27-36 | each passphrase prompt takes the next line, and fails only when none is left |
| WalletLoader.FirstSent | cli/walletloader.go:170-187 | the first value sent on the sync-done channel comes from the first SyncEnded callback, or else from the start error, or nothing is sent |
| WalletLoader.FirstEnded | cli/walletloader.go:170-177 | a sync with a SyncEnded callback has a first one |
| WalletLoader.SyncOutcome | cli/walletloader.go:163-196 | a cancelled wait returns the cancellation error; otherwise the result is the first error delivered, and a nil result means a SyncEnded(nil) callback happened; a sync that delivers nothing returns the cancellation error |
| WalletLoader.CreateFlow | cli/walletloader.go:13-40 | the existence check gets the first or the later scripted answer as the middleware was or was not asked before; an existence-check error or an existing wallet ends the flow with one call and no line read; a missing line is a read error; different passphrases end the flow with only the existence check made; the flow goes on exactly when the two lines match; OpenWallet is never called |
| WalletLoader.FinishCreation | cli/walletloader.go:42-76 | a seed error ends the flow after one call, with no line read; a backup prompt that runs out of lines is a read error after that one call; once the backup answer is accepted, the lines after it are left unread; CreateWallet is called at most once, only after a seed and an accepted backup answer, with the typed passphrase and that seed; after a creation error nothing more is called; otherwise the result is the sync's; a nil result means all three calls were made |
| WalletLoader.OfferFlow | cli/walletloader.go:135-159 | no accepted answer is a read error; a declining answer returns "wallet doesn't exist" with no middleware call; any other accepted answer runs the creation on the remaining lines; OpenWallet is never called |
| WalletLoader.OpenFlow | cli/walletloader.go:84-133 | OpenWallet is called exactly when the wallet exists; a cancelled wait returns the cancellation error with the input unread, after only the loading task's calls (the check, and OpenWallet when the wallet exists), so no creation follows; a check error is returned; a missing wallet leads to the creation offer, whose creation asks the middleware again |
| WalletLoader.RecheckFindsWallet | cli/walletloader.go:99-119 | when the first check finds no wallet and the check repeated by the accepted creation finds one, openWallet returns "wallet already exists" after two checks |
| WalletLoader.SyncBlockChain | cli/walletloader.go:163-196 | returns `SyncOutcome` and makes exactly one rescanning sync call |
| WalletLoader.CreateWallet | cli/walletloader.go:13-77 | returns, calls and reads what `CreateFlow` specifies |
| WalletLoader.FinishWallet | cli/walletloader.go:42-76 | returns, calls and reads what `FinishCreation` specifies |
| WalletLoader.AttemptToCreateWallet | cli/walletloader.go:135-159 | returns, calls and reads what `OfferFlow` specifies |
| WalletLoader.OpenWallet | cli/walletloader.go:84-133 | returns, calls and reads what `OpenFlow` specifies |
| StringSort.BelowTotal | main.go:184 | any two strings are ordered one way or the other |
| StringSort.BelowTransitive | main.go:184 | the string order is transitive |
| StringSort.BelowAntisymmetric | main.go:184 | strings ordered both ways are equal |
| StringSort.AdjacentSortedIsSorted | main.go:184 | neighbours in order means every pair in order |
| StringSort.SortedPermutationUnique | main.go:184 | two sorted orderings of the same strings are equal, so the sort result is determined |
| StringSort.SortStrings | main.go:184 | the array ends sorted and holds the same strings as before |
| StringSort.InsertDown | main.go:184 | one insertion step extends the sorted prefix by one and keeps the multiset |
| Shutdown.Start | main.go:35-41 | nothing is registered, no signal has been received and no error is stored |
| Shutdown.Register | main.go:69 | a registered operation goes at the end of the list and does not run |
| Shutdown.Signal | main.go:231-247 | the first signal received runs every registered operation in order and exits with status 1 exactly when an error is stored; a later send changes nothing |
| Shutdown.HandleInterrupt | main.go:215-229 | the first interrupt sends the signal (the listener is stuck if nobody receives it); later ones only add a log line |
| Shutdown.Apply | main.go:215-247 | once received, the signal stays received and the operations that ran and the exit decision stay as they were |
| Shutdown.ReplayConsistent | main.go:231-238 | in every reachable state nothing has run before the signal, and afterwards the operations that ran are a prefix of those registered |
| Shutdown.ShutdownOnce | main.go:235-238 | after the signal, no sequence of events runs any operation again or changes the exit decision |
| Shutdown.AtMostOneDelivery | main.go:222 | whatever happens, the handler receives the shutdown signal at most once |
| Shutdown.LaterInterruptsOnlyLog | main.go:225-228 | every interrupt after the first only adds an "already shutting down" log line |
| Shutdown.BlockedListenerIgnores | main.go:220-222 | a listener stuck on its send ignores every later interrupt |
| Shutdown.FirstInterruptTriggers | main.go:219-228 | the first interrupt runs the registered operations; the following ones only log, and exactly one signal is received |
| Shutdown.ExitFromOpError | main.go:241-246 | after the signal the exit status is 1 exactly when the error stored before it is non-nil |
| Shutdown.ShutdownCoordinator.constructor | main.go:35-41 | the object starts in the state `Start` gives |
| Shutdown.ShutdownCoordinator.AddShutdownOp | main.go:73 | appends the operation as `Register` does, and runs nothing |
| Shutdown.ShutdownCoordinator.SetOpError | main.go:80 | stores the operation error and changes nothing else |
| Shutdown.ShutdownCoordinator.BeginShutdown | main.go:231-247 | follows `Signal`: the loop runs every operation in order (the context is cancelled and the wallet closed exactly when registered); it reports whether the send was received |
| Shutdown.ShutdownCoordinator.Interrupt | main.go:215-229 | follows `HandleInterrupt` |
| Session.SelectMode | main.go:75-91 | HTTP when asked for; otherwise desktop when asked for; otherwise the command line; exactly one |
| Session.NetType | main.go:100-105 | "testnet" exactly when the test network is configured, otherwise "mainnet" |
| Session.ConnectToWallet | main.go:107-118 | the native library unless the wallet RPC is configured, on the configured network; only a failed RPC connection fails |
| Session.OpsBefore | main.go:69-73 | the operations registered before main reaches a point: none before :69, the cancel before :73, both after |
| Session.RunSession | main.go:55-95 | covers each path and each arrival point of an interrupt. No configuration exits 1. A failed RPC connection exits 1 with only the cancel operation registered. HTTP mode with leftover arguments exits 1 before the front end. The operations run at most once, in registration order, and an interrupt runs only those registered when it arrives. In HTTP mode the signal is sent only for an error the cancellation did not cause; an interrupt before the cancel is registered leaves the context live, so an HTTP error then blocks main on its send. The command line always sends the signal after its run, which blocks after any interrupt. The exit status is 1 exactly when the stored error is non-nil at the handler's check |
| Session.RunFrontEnd | main.go:76-95 | for each mode and each earlier or concurrent interrupt: the outcome, the operations that ran, and the registered operations unchanged |
| Session.Names | main.go:179-183 | one name per registered command, in order |
| Session.SupportedCommands | main.go:178-186 | one name per registered command, sorted, as a permutation of the command names |

## Left out

- Goroutines, channels, `select`, `sync.WaitGroup` and `signal.Notify`. Each race is an input flag and each signal an event. Channel sends are atomic steps: a send is received exactly when the handler is still waiting.
- The race between `wg.Add` in the shutdown handler and `Wait` in main, and the race between `wg.Done` and `os.Exit(1)`. The handler is taken to register first and to finish its exit check before main returns.
- RunSession: at most one interrupt arrives, at one of four points: never, before main.go:69, during `connectToWallet`, or during the front end's run. An interrupt during the run is taken to finish its exit check before the front end's result is stored. The other interleaving is not modelled: there, an HTTP or command-line error would give exit status 1. Interrupts after the first only log (`LaterInterruptsOnlyLog`). The event lemmas of `Shutdown` cover every order of events.
- Abandoned background work. When the context wins the race in `openWallet`, the model still lets the loading task finish and records its calls in the trace. Only the returned value follows the race.
- SyncOutcome: a sync that sends nothing on the sync-done channel, not cancelled, is taken to end by cancellation. The source waits in its `select` until the context is cancelled, which may never happen.
- Later SyncEnded sends. The listener's SyncEnded callbacks after the first, and a start-error send after a SyncEnded, block the middleware's goroutine. The model only takes the first value sent.
- The full Unicode `strings.TrimSpace` and `strings.EqualFold`. The model covers ASCII white space and ASCII case folding. Unicode spaces such as U+0085 and U+00A0 are not trimmed. Unicode folds such as the Kelvin sign to `k` are not covered.
- `terminalprompt` is not part of this model. `EmptyValidator` is taken to accept every line. `RequestInputSecure` behaves like `RequestInput` apart from echo. The prompt texts are not modelled. The script's lines are taken to be the lines as the library delivers them, without their line terminator; any other trimming the library may do is not modelled.
- PaddedNoDoesNotDecline: its space-padded case `" n"` reaches the decline test only if `terminalprompt` passes leading spaces through. The quoted case `"\"n\""` does not depend on that.
- Printed output. This covers `fmt` printing, `displayWalletSeed`, the `errMsg` text of `openWallet` (it is only printed), and the net type named in messages.
- The middleware implementations (dcrlibwallet, dcrwalletrpc) and their connection parameters (server, certificate, TLS). The middleware is a scripted object and its connection a boolean.
- `web.StartHttpServer`, `desktop.StartDesktopApp` and `cli.Run`. Their results are inputs. Desktop mode stores no error.
- `config.LoadConfig`, go-flags parsing, `handleParseError`, `printCommandHelp`, and both `enterCliMode` variants at main.go:126 and main.go:143. The configuration is an optional record. The merge leftovers at main.go:44-54 and the `listenForInterruptRequests` name at main.go:63 are read as the coherent path through `listenForShutdown`.
- `os.Exit`. It is a returned outcome: `Exited(status)`. A send nobody receives is `Blocked`. Waiting for a shutdown signal that never comes is `Waiting`.
- SortStrings: Go's `sort.Strings` uses a different algorithm. Any correct sort gives the same result (`SortedPermutationUnique`), so an insertion sort stands in for it.
- `cli/commands/receive.go` and `cli/commands/history.go`. These are thin glue over the wallet RPC client, QR generation and table printing.
