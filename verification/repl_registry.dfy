/** The requests the editor sends: `startRepl`, `sendReplData`, `closeRepl`
    and `closeAllRepls`, with `killChildProcess` beneath the last two. Each
    is a pure transition of the supervisor state. */
module ReplRegistry {
  import opened Options
  import opened ReplState
  import opened ReplIds

  /** The state after `startRepl` together with the id it returned. */
  datatype Started = Started(state: Supervisor, id: int)

  /** The state after `closeRepl` together with its result (`undefined`
      is `false`). */
  datatype Closed = Closed(state: Supervisor, wasClosed: bool)

  /** `startRepl`: draw ids until one is not in use, spawn the process and
      register a live record under that id. `draws` is the sequence of
      random draws seen so far; None means every one of them collided, so
      the loop has not yet returned. */
  function StartRepl(s: Supervisor, cmd: Command, draws: seq<ReplDraw>): (r: Option<Started>)
    requires Valid(s)
    ensures r.None? <==> forall j :: 0 <= j < |draws| ==> draws[j] in s.repls
    ensures r.Some? ==>
      var Started(t, id) := r.value;
      && 0 <= id < IdSpace
      && id !in s.repls
      && (exists k :: 0 <= k < |draws| && draws[k] == id &&
            forall j :: 0 <= j < k ==> draws[j] in s.repls)
      && s.nextSerial !in s.procs
      && t.repls == s.repls[id := s.nextSerial]
      && t.procs == s.procs[s.nextSerial := Handle(id, true)]
      && t.nextSerial == s.nextSerial + 1
      && t.log == s.log + [Spawned(s.nextSerial, cmd)]
      && Valid(t)
  {
    match FirstFree(draws, s.repls.Keys)
    case None => None
    case Some(k) =>
      var x := s.nextSerial;
      var id := draws[k];
      Some(Started(
        Supervisor(s.repls[id := x], s.procs[x := Handle(id, true)], x + 1, s.log + [Spawned(x, cmd)]),
        id))
  }

  /** `sendReplData`: unknown ids are ignored; otherwise the data goes to the
      standard input of the live process registered under the id. */
  function SendReplData(s: Supervisor, replId: int, data: string): (r: Supervisor)
    requires Valid(s)
    ensures replId !in s.repls ==> r == s
    ensures replId in s.repls ==>
      && s.procs[s.repls[replId]] == Handle(replId, true)
      && r.repls == s.repls && r.procs == s.procs && r.nextSerial == s.nextSerial
      && r.log == s.log + [StdinWritten(s.repls[replId], data)]
    ensures Valid(r)
  {
    if replId !in s.repls then s
    else s.(log := s.log + [StdinWritten(s.repls[replId], data)])
  }

  /** `killChildProcess`: nothing for a dead record; otherwise the record is
      marked dead first and then exactly one kill is requested. The table is
      left alone: callers remove the entry themselves. */
  function Kill(s: Supervisor, x: Serial): (r: Supervisor)
    requires x in s.procs
    ensures !s.procs[x].isAlive ==> r == s
    ensures s.procs[x].isAlive ==> r.log == s.log + [KillRequested(x)]
    ensures r.repls == s.repls && r.nextSerial == s.nextSerial
    ensures r.procs == s.procs[x := Handle(s.procs[x].id, false)]
  {
    if !s.procs[x].isAlive then s
    else s.(procs := s.procs[x := s.procs[x].(isAlive := false)], log := s.log + [KillRequested(x)])
  }

  /** Killing twice is killing once. */
  lemma KillIdempotent(s: Supervisor, x: Serial)
    requires x in s.procs
    ensures Kill(Kill(s, x), x) == Kill(s, x)
  {
  }

  /** `closeRepl`: an unknown id changes nothing and reports false; a known
      id loses its entry, its record is killed and true is reported. */
  function CloseRepl(s: Supervisor, replId: int): (r: Closed)
    requires Valid(s)
    ensures r.wasClosed <==> replId in s.repls
    ensures replId !in s.repls ==> r.state == s
    ensures replId in s.repls ==>
      var x := s.repls[replId];
      && r.state.repls == s.repls - {replId}
      && r.state.procs == s.procs[x := Handle(replId, false)]
      && r.state.nextSerial == s.nextSerial
      && r.state.log == s.log + [KillRequested(x)]
    ensures Valid(r.state)
  {
    if replId !in s.repls then Closed(s, false)
    else
      var x := s.repls[replId];
      Closed(Kill(s.(repls := s.repls - {replId}), x), true)
  }

  /** Kill the records `xs` one after another. */
  function KillAll(s: Supervisor, xs: seq<Serial>): (r: Supervisor)
    requires forall i :: 0 <= i < |xs| ==> xs[i] in s.procs
    requires forall i, j :: 0 <= i < j < |xs| ==> xs[i] != xs[j]
    ensures r.repls == s.repls && r.nextSerial == s.nextSerial
    ensures r.procs.Keys == s.procs.Keys
    ensures forall x :: x in s.procs ==> r.procs[x].id == s.procs[x].id
    ensures forall x :: x in s.procs ==> r.procs[x].isAlive == (s.procs[x].isAlive && x !in xs)
    ensures KillsAppended(s, r, xs)
    decreases |xs|
  {
    if |xs| == 0 then
      assert s.log[|s.log|..] == [];
      s
    else
      var m := Kill(s, xs[0]);
      var r := KillAll(m, xs[1..]);
      KillAllStep(s, m, r, xs);
      r
  }

  /** `r` extends the log of `s` with kill requests only: exactly one for
      each record of `xs` that was alive in `s`, and none for any other. */
  ghost predicate KillsAppended(s: Supervisor, r: Supervisor, xs: seq<Serial>) {
    && |s.log| <= |r.log|
    && r.log[..|s.log|] == s.log
    && (forall i :: |s.log| <= i < |r.log| ==> r.log[i].KillRequested?)
    && (forall x :: KillCount(r.log[|s.log|..], x)
                    == (if x in s.procs && x in xs && s.procs[x].isAlive then 1 else 0))
  }

  lemma KillAllStep(s: Supervisor, m: Supervisor, r: Supervisor, xs: seq<Serial>)
    requires |xs| > 0 && xs[0] in s.procs && m == Kill(s, xs[0])
    requires forall i, j :: 0 <= i < j < |xs| ==> xs[i] != xs[j]
    requires KillsAppended(m, r, xs[1..])
    ensures KillsAppended(s, r, xs)
  {
    var head := m.log[|s.log|..];
    var tail := r.log[|m.log|..];
    assert |s.log| <= |m.log| && m.log[..|s.log|] == s.log;
    PrefixSplit(s.log, m.log, r.log);
    assert xs[0] !in xs[1..] by {
      forall j | 0 <= j < |xs[1..]|
        ensures xs[1..][j] != xs[0]
      {
        assert xs[1..][j] == xs[j + 1];
      }
    }
    forall x
      ensures KillCount(r.log[|s.log|..], x)
              == (if x in s.procs && x in xs && s.procs[x].isAlive then 1 else 0)
    {
      KillCountSplit(head, tail, x);
      KillAllStepCount(s, m, head, tail, xs, x);
    }
    forall i | |s.log| <= i < |r.log|
      ensures r.log[i].KillRequested?
    {
      if i < |m.log| {
        assert r.log[i] == m.log[i];
      }
    }
  }

  /** Splitting a log that extends `b`, which extends `a`, at both ends. */
  lemma PrefixSplit(a: seq<Output>, b: seq<Output>, c: seq<Output>)
    requires |a| <= |b| && b[..|a|] == a
    requires |b| <= |c| && c[..|b|] == b
    ensures c[..|a|] == a
    ensures c[|a|..] == b[|a|..] + c[|b|..]
  {
    assert c == b + c[|b|..];
  }

  lemma KillCountSplit(head: seq<Output>, tail: seq<Output>, x: Serial)
    ensures KillCount(head + tail, x) == KillCount(head, x) + KillCount(tail, x)
  {
    assert multiset(head + tail) == multiset(head) + multiset(tail);
  }

  lemma KillAllStepCount(s: Supervisor, m: Supervisor, head: seq<Output>, tail: seq<Output>, xs: seq<Serial>, x: Serial)
    requires |xs| > 0 && xs[0] in s.procs && m == Kill(s, xs[0]) && xs[0] !in xs[1..]
    requires |s.log| <= |m.log| && head == m.log[|s.log|..]
    requires KillCount(tail, x) == (if x in m.procs && x in xs[1..] && m.procs[x].isAlive then 1 else 0)
    ensures KillCount(head, x) + KillCount(tail, x)
            == (if x in s.procs && x in xs && s.procs[x].isAlive then 1 else 0)
  {
    if x != xs[0] {
      assert x in xs <==> x in xs[1..] by {
        assert xs == [xs[0]] + xs[1..];
      }
    }
  }

  /** `closeAllRepls`: kill every registered record, in ascending id order,
      then empty the table. */
  function CloseAllRepls(s: Supervisor): (r: Supervisor)
    requires Valid(s)
    ensures Valid(r)
    ensures r.repls == map[]
    ensures r.nextSerial == s.nextSerial && r.procs.Keys == s.procs.Keys
    ensures forall x :: x in s.procs ==> r.procs[x] == Handle(s.procs[x].id, false)
    ensures |s.log| <= |r.log| && r.log[..|s.log|] == s.log
    ensures forall i :: |s.log| <= i < |r.log| ==> r.log[i].KillRequested?
    ensures forall id :: id in s.repls ==> KillCount(r.log[|s.log|..], s.repls[id]) == 1
    ensures forall x :: KillCount(r.log[|s.log|..], x) > 0 ==> x in s.procs && Registered(s, x)
  {
    var xs := RegisteredFrom(s, 0);
    AscendingIdsDistinct(s, xs);
    var k := KillAll(s, xs);
    CloseAllEffect(s, xs, k);
    k.(repls := map[])
  }

  /** The serials the table holds under ids in [lo, IdSpace), in ascending
      order of id: JavaScript enumerates the integer keys of an object in
      ascending order, so this is the order `closeAllRepls` visits them. */
  function RegisteredFrom(s: Supervisor, lo: int): (xs: seq<Serial>)
    requires Valid(s) && 0 <= lo <= IdSpace
    ensures forall i :: 0 <= i < |xs| ==> xs[i] in s.procs && s.procs[xs[i]].isAlive
    ensures forall i :: 0 <= i < |xs| ==> lo <= s.procs[xs[i]].id
    ensures forall i, j :: 0 <= i < j < |xs| ==> s.procs[xs[i]].id < s.procs[xs[j]].id
    ensures forall x :: x in s.procs && s.procs[x].isAlive && lo <= s.procs[x].id ==> x in xs
    decreases IdSpace - lo
  {
    if lo == IdSpace then []
    else
      var rest := RegisteredFrom(s, lo + 1);
      if lo in s.repls then [s.repls[lo]] + rest else rest
  }

  /** Serials listed in strictly ascending order of id are distinct. */
  lemma AscendingIdsDistinct(s: Supervisor, xs: seq<Serial>)
    requires forall i :: 0 <= i < |xs| ==> xs[i] in s.procs
    requires forall i, j :: 0 <= i < j < |xs| ==> s.procs[xs[i]].id < s.procs[xs[j]].id
    ensures forall i, j :: 0 <= i < j < |xs| ==> xs[i] != xs[j]
  {
  }

  lemma CloseAllEffect(s: Supervisor, xs: seq<Serial>, k: Supervisor)
    requires Valid(s)
    requires forall x :: x in xs <==> x in s.procs && s.procs[x].isAlive
    requires k.nextSerial == s.nextSerial && k.procs.Keys == s.procs.Keys
    requires forall x :: x in s.procs ==> k.procs[x].id == s.procs[x].id
    requires forall x :: x in s.procs ==> k.procs[x].isAlive == (s.procs[x].isAlive && x !in xs)
    requires KillsAppended(s, k, xs)
    ensures Valid(k.(repls := map[]))
    ensures forall x :: x in s.procs ==> k.procs[x] == Handle(s.procs[x].id, false)
    ensures forall id :: id in s.repls ==> KillCount(k.log[|s.log|..], s.repls[id]) == 1
    ensures forall x :: KillCount(k.log[|s.log|..], x) > 0 ==> x in s.procs && Registered(s, x)
  {
    forall id | id in s.repls
      ensures KillCount(k.log[|s.log|..], s.repls[id]) == 1
    {
      assert s.procs[s.repls[id]].isAlive;
    }
  }

  /** The retry loop of `startRepl` can return exactly when fewer than
      IdSpace ids are in use; with the table full it spins forever. */
  lemma StartCompletesIff(s: Supervisor, cmd: Command)
    requires Valid(s)
    ensures (exists draws :: StartRepl(s, cmd, draws).Some?) <==> |s.repls| < IdSpace
  {
    if |s.repls| < IdSpace {
      FreeIdExists(s);
      var d: ReplDraw :| d !in s.repls;
      assert StartRepl(s, cmd, [d]).Some?;
    } else {
      RegistryBounded(s);
      forall draws | true
        ensures StartRepl(s, cmd, draws).None?
      {
        forall j | 0 <= j < |draws|
          ensures draws[j] in s.repls
        {
          FullRegistryRejectsEveryDraw(s, draws[j]);
        }
      }
    }
  }
}
