/** The state of the node-side REPL supervisor (`node/iexDomain.js`).

    The JavaScript keeps a table `repls` from repl id to a record
    `{id, isAlive, proc}`. A record outlives its table entry: the `close`
    handler of its process still holds it after `closeRepl` or
    `closeAllRepls` removed it. So the model keeps every record ever made in
    `procs`, keyed by a serial number that stands for object identity, and
    `repls` maps a repl id to the serial of the record it currently holds.
    Everything the supervisor asks of the operating system or tells the
    editor is appended to `log`. */
module ReplState {

  /** Repl ids are drawn from [0, IdSpace). */
  const IdSpace: int := 9999

  /** One result of the random draw. */
  type ReplDraw = d: int | 0 <= d < IdSpace

  /** Identity of one process record; never reused. */
  type Serial = nat

  datatype Stream = Stdout | Stderr

  /** The arguments of `spawn`: executable, arguments, working directory. */
  datatype Command = Command(procName: string, args: seq<string>, cwd: string)

  /** The record `{id, isAlive, proc}`; the process itself is the serial
      under which the record is stored. */
  datatype Handle = Handle(id: int, isAlive: bool)

  /** Requests to the operating system and events emitted to the editor. */
  datatype Output =
    | Spawned(serial: Serial, cmd: Command)
    | StdinWritten(serial: Serial, data: string)
    | KillRequested(serial: Serial)
    | ReplDataAvailable(id: int, stream: Stream, data: string)
    | ReplClosed(id: int)
    | ReplError(id: int, err: string)

  datatype Supervisor = Supervisor(
    repls: map<int, Serial>,
    procs: map<Serial, Handle>,
    nextSerial: Serial,
    log: seq<Output>)

  /** The state invariant: serials are fresh below `nextSerial`, every table
      entry holds a live record carrying its own id, and a record is alive
      exactly when it is the table entry for its id. */
  predicate Valid(s: Supervisor) {
    && (forall x :: x in s.procs ==> x < s.nextSerial)
    && (forall id :: id in s.repls ==>
          && 0 <= id < IdSpace
          && s.repls[id] in s.procs
          && s.procs[s.repls[id]] == Handle(id, true))
    && (forall x :: x in s.procs && s.procs[x].isAlive ==> Registered(s, x))
  }

  /** Record `x` is the table entry for its own id. */
  predicate Registered(s: Supervisor, x: Serial)
    requires x in s.procs
  {
    s.procs[x].id in s.repls && s.repls[s.procs[x].id] == x
  }

  /** The module-level state before any repl was started. */
  function Init(): (s: Supervisor)
    ensures Valid(s) && s.repls == map[] && s.log == []
  {
    Supervisor(map[], map[], 0, [])
  }

  /** How many kill requests for record `x` a log holds. */
  function KillCount(log: seq<Output>, x: Serial): nat {
    multiset(log)[KillRequested(x)]
  }

  /** `t` is a later state than `s`: records are never forgotten, never change
      id and never come back to life, serials only grow and the log only
      grows at its end. */
  predicate Evolves(s: Supervisor, t: Supervisor) {
    && s.nextSerial <= t.nextSerial
    && (forall x :: x in s.procs ==>
          && x in t.procs
          && t.procs[x].id == s.procs[x].id
          && (t.procs[x].isAlive ==> s.procs[x].isAlive))
    && |s.log| <= |t.log|
    && t.log[..|s.log|] == s.log
  }

  lemma AliveIffRegistered(s: Supervisor, x: Serial)
    requires Valid(s) && x in s.procs
    ensures s.procs[x].isAlive <==> Registered(s, x)
  {
  }

  /** No two live records share a repl id. */
  lemma LiveIdsUnique(s: Supervisor, x: Serial, y: Serial)
    requires Valid(s) && x in s.procs && y in s.procs
    requires s.procs[x].isAlive && s.procs[y].isAlive
    requires s.procs[x].id == s.procs[y].id
    ensures x == y
  {
  }

  lemma {:induction false} EvolvesTransitive(s: Supervisor, m: Supervisor, t: Supervisor)
    requires Evolves(s, m) && Evolves(m, t)
    ensures Evolves(s, t)
  {
    calc {
      t.log[..|s.log|];
      (t.log[..|m.log|])[..|s.log|];
      m.log[..|s.log|];
      s.log;
    }
  }
}
