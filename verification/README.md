# REPL process registry of brackets-elixir-tools

This project models, in Dafny, the node-side half of the Elixir tools for the
Brackets editor: the supervisor in `node/iexDomain.js` that starts `iex` REPL
processes, forwards their output to the editor, writes to them and kills them.
It also models how `runProcess` turns the result of a one-shot `execFile` into
a success or a failure.

The supervisor keeps a table `repls` from a random repl id in [0, 9998] to a
record `{id, isAlive, proc}`. The model is functional. `ReplState.Supervisor`
holds four parts:

- `repls`, the table, mapping an id to a serial number;
- `procs`, every record ever created, keyed by that serial number;
- `nextSerial`, the next unused serial number;
- `log`, every request made to the operating system (spawn, stdin write, kill)
  and every event sent to the editor (`replDataAvailable`, `replClosed`,
  `replError`).

The serial number gives each process record an identity. It is needed
because a record outlives its table entry: the `close` handler of the
process still refers to it after the entry was removed, and the id may
already have been given to a new repl.

Each request and each process event is a pure transition of this state:

- `ReplRegistry`: the requests `StartRepl`, `SendReplData`, `CloseRepl` and
  `CloseAllRepls`. Beneath the last two sits `Kill`, which models the helper
  `killChildProcess`. It is not a request of its own, and on its own it does
  not keep the invariant below: it leaves the dead record in the table.
  `CloseRepl` removes the entry before the kill and `CloseAllRepls` empties
  the table after its kills, and that restores the invariant.
- `ProcessEvents`: the handlers `startRepl` attaches to each process,
  `OnProcessData`, `OnProcessClose` and `OnProcessError`.
- `ReplIds`: the random draw and the retry loop that picks a free id.
- `ReplTrace`: `Run` applies any interleaving of requests and events.
- `RunProcess`: the result selection of `runProcess`.

The central invariant is `ReplState.Valid`. It says that a record is alive
exactly when it is the table entry for its own id. Every request and event
of `ReplTrace.Event` keeps it (`ReplTrace.Next`).
Together with `ReplState.Evolves` (a dead record never comes back to life),
it gives the main guarantees:

- after `closeRepl` or `closeAllRepls`, the exit of the killed process is
  never reported;
- that exit never disturbs a new repl that reuses the id.

The random draw (the floor of a random number in [0, 1) times 9999) is
modelled with the random number as an exact fraction num/den. The retry loop runs
over a finite sequence of draws. `StartRepl` returns None while every draw
so far has collided, meaning the loop has not yet returned.
`StartCompletesIff` shows the loop can return exactly when fewer than 9999
ids are in use. With all 9999 in use it never ends.

Three behaviours of the code differ from what one might expect. The model
follows the code in each:

- Ids are unique among table entries, not among running processes. A killed
  process may still be running when its id is drawn again.
- The stdout and stderr handlers do not check `isAlive`. Output that a
  killed process prints late is emitted under its old id. If that id was
  reused, the editor cannot tell this output from the new repl's output
  (`ReplTrace.StaleOutputMisattributed`).
- `closeRepl` on an unknown id returns `undefined`, modelled as `false`.

## Model

| member | source | states |
|---|---|---|
| ReplState.Init | node/iexDomain.js:16-17 | the supervisor starts with an empty table and satisfies the invariant |
| ReplState.AliveIffRegistered | node/iexDomain.js:47-50 | in every valid state a record is alive if and only if the table entry for its id is that record |
| ReplState.LiveIdsUnique | node/iexDomain.js:40-44 | two live records never share a repl id |
| ReplIds.RandomReplId | node/iexDomain.js:19-21 | the draw lies in [0, 9998] and is the floor of the random fraction times 9999 |
| ReplIds.EveryIdDrawable | node/iexDomain.js:19-21 | every id in [0, 9998] can be drawn |
| ReplIds.FirstFree | node/iexDomain.js:41-44 | the retry loop stops at the first draw not in use, after all earlier draws collided; it keeps running exactly when every draw collided |
| ReplIds.RegistryBounded | node/iexDomain.js:40-44 | the table never holds more than 9999 ids |
| ReplIds.FreeIdExists | node/iexDomain.js:41-44 | with fewer than 9999 ids in use some draw is free |
| ReplIds.FullRegistryRejectsEveryDraw | node/iexDomain.js:41-44 | with 9999 ids in use every draw collides |
| ReplRegistry.StartRepl | node/iexDomain.js:38-78 | the returned id is in [0, 9998], was not in use and is the first free draw; it now maps to a fresh live record with a spawn logged; every other entry is unchanged and the invariant is kept |
| ReplRegistry.StartCompletesIff | node/iexDomain.js:40-44 | some sequence of draws lets startRepl return if and only if fewer than 9999 ids are in use |
| ReplRegistry.SendReplData | node/iexDomain.js:81-87 | an unknown id changes nothing; a known id writes the data to the stdin of the live process registered under it and changes nothing else |
| ReplRegistry.Kill | node/iexDomain.js:89-106 | a dead record is left alone; a live one is marked dead and receives exactly one kill request; no other record and not the table changes |
| ReplRegistry.KillIdempotent | node/iexDomain.js:91-92 | killing a record twice is the same as killing it once |
| ReplRegistry.CloseRepl | node/iexDomain.js:108-115 | the result is true exactly for a known id; an unknown id changes nothing; a known id loses exactly its entry, its record is marked dead with one kill request, and the invariant is kept |
| ReplRegistry.RegisteredFrom | node/iexDomain.js:119-124 | the loop of closeAllRepls visits exactly the live records, each once, in ascending order of id |
| ReplRegistry.KillAll | node/iexDomain.js:120-124 | killing a list of distinct records marks each dead, logs exactly one kill request for each that was alive and nothing else, and leaves all other records alone |
| ReplRegistry.CloseAllRepls | node/iexDomain.js:117-126 | afterwards the table is empty and every record is dead; every previously registered record got exactly one kill request, no other record got one, and nothing else was logged |
| ProcessEvents.OnProcessData | node/iexDomain.js:54-62 | a chunk is emitted as replDataAvailable under the record's id, whether or not the record is alive; no state changes |
| ProcessEvents.OnProcessClose | node/iexDomain.js:63-71 | the exit of a live record emits replClosed for its id, removes exactly that entry and marks it dead; the exit of a dead record changes nothing and emits nothing |
| ProcessEvents.OnProcessError | node/iexDomain.js:72-75 | an error emits replError under the record's id and changes no state |
| ProcessEvents.UnexpectedExitReportedOnce | node/iexDomain.js:63-71 | an unexpected exit is reported with exactly one replClosed, and a repeated exit is silent |
| ReplTrace.Next | node/iexDomain.js:38-126 | every request and process event keeps the invariant; records are never forgotten, never change id and never come back to life |
| ReplTrace.Run | node/iexDomain.js:38-126 | along any run of requests and events the invariant holds and the state only moves forward |
| ReplTrace.VoluntaryCloseSuppressesExit | node/iexDomain.js:63-71 | after closeRepl, whatever happens next, the exit of the killed process emits nothing and leaves the table unchanged |
| ReplTrace.CloseAllSuppressesExit | node/iexDomain.js:117-126 | after closeAllRepls, whatever happens next, the exit of any earlier process emits nothing and leaves the table unchanged |
| ReplTrace.IdReuseUndisturbed | node/iexDomain.js:63-71 | a closed repl's id can be drawn again at once for a new record, and the killed process's late exit leaves that new entry in place |
| ReplTrace.StaleOutputMisattributed | node/iexDomain.js:54-62 | after id reuse, late output of the killed process produces exactly the event the new process's output would |
| RunProcess.RunOutcome | node/iexDomain.js:26-34 | missing outputs count as empty; the result is a failure if and only if there was an error and both outputs are empty; a failure carries the error, a success carries both outputs |
| RunProcess.OutputNeverDropped | node/iexDomain.js:29-30 | whenever the process wrote anything, the caller receives a success carrying exactly that output, even if there was an error |
| RunProcess.NoErrorSucceeds | node/iexDomain.js:29-30 | without an error the result is a success |

## Left out

- Process spawning and stdin writes are operating-system I/O. They appear only as log entries (`Spawned`, `StdinWritten`). The data a process prints is a parameter of the event.
- `execFile` is operating-system I/O. In `runProcess` its callback arguments become the parameters of `RunProcess.RunOutcome`. In the Windows kill (`taskkill`) it is covered by the single `KillRequested` entry.
- Stream encoding (`setEncoding("utf8")`) does not appear in the model. Output chunks are already strings.
- Diagnostic console logging is not modelled: neither the `console.error` in the failure path of `runProcess` nor the one in the `error` handler produces a log entry.
- The kill mechanism (`taskkill /PID … /T /F` on Windows, `SIGTERM` elsewhere) is platform I/O. It is one abstract `KillRequested` entry, and the OS process id is the record's serial.
- `Math.random` returns a floating-point number. It is taken as an exact fraction in [0, 1). Floating-point rounding of the product with 9999 is not modelled.
- The timing of asynchronous callbacks is not modelled. Each data chunk, `close` and `error` is one atomic transition, in any order relative to the requests. The `close` handler's `code` and `signal` and the `error` object are not interpreted; the error is a string.
- JavaScript object keys are strings. Repl ids are modelled as integers, since only integer ids are ever stored.
- `init` and the `registerCommand`/`registerEvent` calls only register metadata with the editor's domain manager. `main.js` only registers the Elixir language with a constant configuration.
- The editor-side session handling, prompt detection and command correlation are not part of this model.
- ReplRegistry.CloseAllRepls: its contract states how many kill requests each record receives, but not their order in the log. The ascending-id order is stated on `ReplRegistry.RegisteredFrom`.
