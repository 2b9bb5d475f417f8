/** `runProcess`: how the `execFile` callback arguments become the result
    passed on to the editor. */
module RunProcess {
  import opened Options

  /** The captured output handed back on success. */
  datatype ProcOutput = ProcOutput(stdout: string, stderr: string)

  /** `cb(null, {stdout, stderr})` or `cb(err, null)`. */
  datatype RunResult = Succeeded(output: ProcOutput) | Failed(err: string)

  /** A missing output read as the empty string. */
  function OrEmpty(o: Option<string>): (r: string)
    ensures o.Some? ==> r == o.value
    ensures o.None? ==> r == ""
  {
    match o
    case Some(v) => v
    case None => ""
  }

  /** The callback of `execFile`: a missing output counts as empty; any
      output, or no error, is a success carrying both outputs; only an error
      with no output at all is a failure, carrying the error. */
  function RunOutcome(err: Option<string>, stdout: Option<string>, stderr: Option<string>): (r: RunResult)
    ensures r.Failed? <==> err.Some? && OrEmpty(stdout) == "" && OrEmpty(stderr) == ""
    ensures r.Succeeded? ==> r.output == ProcOutput(OrEmpty(stdout), OrEmpty(stderr))
    ensures r.Failed? ==> r.err == err.value
  {
    var out := OrEmpty(stdout);
    var errOut := OrEmpty(stderr);
    if errOut != "" || out != "" || err.None? then Succeeded(ProcOutput(out, errOut))
    else Failed(err.value)
  }

  /** Output is never dropped: when the process wrote anything, the caller
      receives it even if the process also failed. */
  lemma OutputNeverDropped(err: Option<string>, stdout: Option<string>, stderr: Option<string>)
    requires OrEmpty(stdout) != "" || OrEmpty(stderr) != ""
    ensures RunOutcome(err, stdout, stderr) == Succeeded(ProcOutput(OrEmpty(stdout), OrEmpty(stderr)))
  {
  }

  /** Without an error the result is always a success, even with no output. */
  lemma NoErrorSucceeds(stdout: Option<string>, stderr: Option<string>)
    ensures RunOutcome(None, stdout, stderr).Succeeded?
  {
  }
}
