/** Runs of the supervisor: any interleaving of editor requests and process
    events, each applied atomically, and what holds along every run. */
module ReplTrace {
  import opened Options
  import opened ReplState
  import opened ReplRegistry
  import opened ProcessEvents

  datatype Event =
    | Start(cmd: Command, draws: seq<ReplDraw>)
    | Send(replId: int, data: string)
    | Close(replId: int)
    | CloseAll
    | Data(serial: Serial, stream: Stream, data: string)
    | Exit(serial: Serial)
    | Error(serial: Serial, err: string)

  /** A start can happen once its draws have produced a free id; a process
      event can only come from a process that was spawned. */
  predicate Enabled(s: Supervisor, e: Event)
    requires Valid(s)
  {
    match e
    case Start(cmd, draws) => StartRepl(s, cmd, draws).Some?
    case Data(x, _, _) => x in s.procs
    case Exit(x) => x in s.procs
    case Error(x, _) => x in s.procs
    case _ => true
  }

  /** One step keeps the invariant and only moves the state forward. */
  function Next(s: Supervisor, e: Event): (r: Supervisor)
    requires Valid(s) && Enabled(s, e)
    ensures Valid(r) && Evolves(s, r)
  {
    match e
    case Start(cmd, draws) => StartRepl(s, cmd, draws).value.state
    case Send(replId, data) => SendReplData(s, replId, data)
    case Close(replId) => CloseRepl(s, replId).state
    case CloseAll => CloseAllRepls(s)
    case Data(x, stream, data) => OnProcessData(s, x, stream, data)
    case Exit(x) => OnProcessClose(s, x)
    case Error(x, err) => OnProcessError(s, x, err)
  }

  /** Apply events in order; None when one of them cannot happen. */
  function Run(s: Supervisor, es: seq<Event>): (r: Option<Supervisor>)
    requires Valid(s)
    ensures r.Some? ==> Valid(r.value) && Evolves(s, r.value)
    decreases |es|
  {
    if |es| == 0 then Some(s)
    else if !Enabled(s, es[0]) then None
    else
      var m := Next(s, es[0]);
      var r := Run(m, es[1..]);
      if r.None? then r
      else EvolvesTransitive(s, m, r.value); r
  }

  /** After `closeRepl`, whatever happens next, the exit of the killed
      process is silent and leaves the table alone. */
  lemma VoluntaryCloseSuppressesExit(s: Supervisor, replId: int, es: seq<Event>)
    requires Valid(s) && replId in s.repls
    ensures var x := s.repls[replId];
      var c := CloseRepl(s, replId).state;
      Run(c, es).Some? ==>
        var t := Run(c, es).value;
        x in t.procs && OnProcessClose(t, x) == t
  {
  }

  /** After `closeAllRepls`, whatever happens next, the exit of any process
      spawned before it is silent. */
  lemma CloseAllSuppressesExit(s: Supervisor, x: Serial, es: seq<Event>)
    requires Valid(s) && x in s.procs
    ensures var c := CloseAllRepls(s);
      Run(c, es).Some? ==>
        var t := Run(c, es).value;
        x in t.procs && OnProcessClose(t, x) == t
  {
  }

  /** The id of a closed repl can be drawn again at once, and the late exit
      of the killed process does not touch the new entry. */
  lemma IdReuseUndisturbed(s: Supervisor, replId: int, cmd: Command)
    requires Valid(s) && replId in s.repls
    ensures var x := s.repls[replId];
      var c := CloseRepl(s, replId).state;
      var st := StartRepl(c, cmd, [replId as ReplDraw]);
      && st.Some?
      && st.value.id == replId
      && st.value.state.repls[replId] != x
      && OnProcessClose(st.value.state, x) == st.value.state
  {
  }

  /** Output that a killed process still prints after its id was reused is
      emitted under that id, exactly as output of the new process is: the
      editor cannot tell the two apart. */
  lemma StaleOutputMisattributed(s: Supervisor, replId: int, cmd: Command, stream: Stream, data: string)
    requires Valid(s) && replId in s.repls
    ensures var x := s.repls[replId];
      var c := CloseRepl(s, replId).state;
      var t := StartRepl(c, cmd, [replId as ReplDraw]).value.state;
      var y := t.repls[replId];
      && x != y && x in t.procs && y in t.procs
      && OnProcessData(t, x, stream, data).log == OnProcessData(t, y, stream, data).log
  {
  }
}
