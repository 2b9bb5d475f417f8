/** The handlers `startRepl` attaches to each spawned process: output on
    stdout or stderr, `close` and `error`. Each event is one atomic
    transition; the handler finds its record through the serial. */
module ProcessEvents {
  import opened ReplState

  /** A chunk on stdout or stderr is forwarded as `replDataAvailable` under
      the record's id. The handler does not look at `isAlive`. */
  function OnProcessData(s: Supervisor, x: Serial, stream: Stream, data: string): (r: Supervisor)
    requires x in s.procs
    ensures r.repls == s.repls && r.procs == s.procs && r.nextSerial == s.nextSerial
    ensures r.log == s.log + [ReplDataAvailable(s.procs[x].id, stream, data)]
    ensures Valid(s) ==> Valid(r)
  {
    s.(log := s.log + [ReplDataAvailable(s.procs[x].id, stream, data)])
  }

  /** The process exited. Only a record that is still alive, that is an
      exit nobody asked for, is marked dead, loses its table entry and is
      reported with `replClosed`; after a requested kill nothing happens. */
  function OnProcessClose(s: Supervisor, x: Serial): (r: Supervisor)
    requires Valid(s) && x in s.procs
    ensures !s.procs[x].isAlive ==> r == s
    ensures s.procs[x].isAlive ==>
      var id := s.procs[x].id;
      && r.repls == s.repls - {id}
      && r.procs == s.procs[x := Handle(id, false)]
      && r.nextSerial == s.nextSerial
      && r.log == s.log + [ReplClosed(id)]
    ensures Valid(r)
  {
    var h := s.procs[x];
    if h.isAlive then
      s.(procs := s.procs[x := h.(isAlive := false)],
         repls := s.repls - {h.id},
         log := s.log + [ReplClosed(h.id)])
    else s
  }

  /** A spawn or runtime failure is reported with `replError`; no state
      changes. */
  function OnProcessError(s: Supervisor, x: Serial, err: string): (r: Supervisor)
    requires x in s.procs
    ensures r.repls == s.repls && r.procs == s.procs && r.nextSerial == s.nextSerial
    ensures r.log == s.log + [ReplError(s.procs[x].id, err)]
    ensures Valid(s) ==> Valid(r)
  {
    s.(log := s.log + [ReplError(s.procs[x].id, err)])
  }

  /** An exit reported for a live record is reported once: a second exit
      of the same process is silent. */
  lemma UnexpectedExitReportedOnce(s: Supervisor, x: Serial)
    requires Valid(s) && x in s.procs && s.procs[x].isAlive
    ensures var t := OnProcessClose(s, x);
      x in t.procs && OnProcessClose(t, x) == t && t.log[|s.log|..] == [ReplClosed(s.procs[x].id)]
  {
  }
}
