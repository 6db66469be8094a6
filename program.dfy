/**
 * `main`: parse the options, then sample until a tick fails, and map how the
 * program ends to the process's exit status.
 */
module Program {
  import opened Options
  import opened Sampler

  /** How the process ends, or that it is still sampling when the ticks run out. */
  datatype Exit =
    | HelpShown(usage: string)
    | ConfigError(message: string)
    | RuntimeError(message: string)
    | Panicked(message: string)
    | StillSampling

  /**
   * The exit status: 0 after help, 1 for a rejected command line or an
   * error returned from `main`, 101 for a panic.
   */
  function ExitCode(e: Exit): (code: int)
    requires !e.StillSampling?
    ensures code == 0 <==> e.HelpShown?
    ensures e.ConfigError? || e.RuntimeError? ==> code == 1
  {
    match e
    case HelpShown(_) => 0
    case ConfigError(_) => 1
    case RuntimeError(_) => 1
    case Panicked(_) => 101
  }

  /**
   * The whole program over a finite run of ticks: help exits 0 without
   * sampling; a rejected command line exits 1 without sampling; an accepted
   * one samples as `Run` does, and the sampling path never exits 0.
   */
  method Cgstat(g: Getopts, secondsF32: string -> SecondsF32, ticks: seq<Tick>) returns (out: seq<string>, exit: Exit)
    ensures exit.HelpShown? <==> g.Parsed? && g.matches.help
    ensures exit.HelpShown? ==> exit.usage == UsageBrief
    ensures !Accepts(g, secondsF32) ==> out == [] && !exit.RuntimeError? && !exit.StillSampling?
    ensures g.Unparsable? ==> exit == ConfigError("error parsing arguments: " + g.error)
    ensures g.Parsed? && !g.matches.help && g.matches.duration.Some? ==>
      match secondsF32(g.matches.duration.value)
      case NotAFloat(e) => exit == ConfigError("cannot parse interval: " + e)
      case ConversionPanic(m) => exit == Panicked(m)
      case Seconds(_) => true
    ensures g.Parsed? && !g.matches.help && IntervalReadable(g.matches, secondsF32) && |g.matches.free| != 1 ==>
      exit == ConfigError(NoCgroupName)
    ensures Accepts(g, secondsF32) ==>
      && |out| <= |ticks|
      && (forall i :: 0 <= i < |out| ==>
            TickAction(ticks[i]).Emit? && out[i] == SampleLine(ticks[i].now, TickAction(ticks[i]).value))
      && (exit.StillSampling? <==> |out| == |ticks|)
      && (|out| < |ticks| ==> match TickAction(ticks[|out|])
                             case Return(m) => exit == RuntimeError(m)
                             case Abort(m) => exit == Panicked(m)
                             case Emit(_) => false)
    ensures !exit.StillSampling? && out != [] ==> ExitCode(exit) != 0
  {
    var parsed := ParseOptions(g, secondsF32);
    match parsed {
      case Rejected(Usage(u)) =>
        return [], HelpShown(u);
      case Rejected(Invalid(m)) =>
        return [], ConfigError(m);
      case Aborted(m) =>
        return [], Panicked(m);
      case Accepted(_) =>
    }
    var stop;
    out, stop := Run(ticks);
    if stop.OutOfTicks? {
      exit := StillSampling;
    } else if stop.action.Return? {
      exit := RuntimeError(stop.action.message);
    } else {
      exit := Panicked(stop.action.message);
    }
  }
}
