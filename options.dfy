/**
 * `parse_options` after getopts has run: the help flag, the optional `-d`
 * interval over the one-second default, and exactly one cgroup name.
 * Getopts itself and the `f32` reading of the interval are inputs.
 */
module Options {
  import opened Decimal

  /** A span of time, as whole seconds and nanoseconds. */
  datatype Duration = Duration(secs: nat, nanos: nat)

  /** What getopts matched: `-h`, the `-d` argument if any, the free arguments. */
  datatype Matches = Matches(help: bool, duration: Option<string>, free: seq<string>)

  /** getopts' verdict on the command line. */
  datatype Getopts = Parsed(matches: Matches) | Unparsable(error: string)

  /**
   * Reading a `-d` argument as `f32` seconds and converting it with
   * `Duration::from_secs_f32`: a duration, a float parse error, or the
   * conversion's panic (negative, non-finite or too large a value).
   */
  datatype SecondsF32 = Seconds(duration: Duration) | NotAFloat(error: string) | ConversionPanic(message: string)

  datatype CgstatOptions = CgstatOptions(interval: Duration, cgName: string)

  /** `Usage` is the help request; `Invalid` any rejected command line. */
  datatype OptionsError = Usage(text: string) | Invalid(message: string)

  /** How `parse_options` ends; `Aborted` when the interval conversion aborts. */
  datatype Parse = Accepted(opts: CgstatOptions) | Rejected(error: OptionsError) | Aborted(message: string)

  /** The brief line the usage text starts with. */
  const UsageBrief: string := "Usage: cgstat [-d DURATION]"

  const NoCgroupName: string := "no cgroup name"

  /** The sampling interval when `-d` is not given: one second. */
  const DefaultInterval: Duration := Duration(1, 0)

  /** `CgstatOptions::default`: one second, empty cgroup name. */
  const DefaultOptions: CgstatOptions := CgstatOptions(DefaultInterval, "")

  /** The `-d` argument, if given, reads as a duration. */
  predicate IntervalReadable(m: Matches, secondsF32: string -> SecondsF32) {
    m.duration.Some? ==> secondsF32(m.duration.value).Seconds?
  }

  /** The command lines `parse_options` accepts. */
  predicate Accepts(g: Getopts, secondsF32: string -> SecondsF32) {
    g.Parsed? && !g.matches.help && IntervalReadable(g.matches, secondsF32) && |g.matches.free| == 1
  }

  /**
   * `parse_options`: a getopts failure first, then help, then the interval,
   * then the count of free arguments; the cgroup name is the one free
   * argument, unchanged.
   */
  method ParseOptions(g: Getopts, secondsF32: string -> SecondsF32) returns (r: Parse)
    ensures g.Unparsable? ==> r == Rejected(Invalid("error parsing arguments: " + g.error))
    ensures g.Parsed? && g.matches.help ==> r == Rejected(Usage(UsageBrief))
    ensures g.Parsed? && !g.matches.help && g.matches.duration.Some? ==>
      match secondsF32(g.matches.duration.value)
      case NotAFloat(e) => r == Rejected(Invalid("cannot parse interval: " + e))
      case ConversionPanic(msg) => r == Aborted(msg)
      case Seconds(_) => true
    ensures g.Parsed? && !g.matches.help && IntervalReadable(g.matches, secondsF32) && |g.matches.free| != 1 ==>
      r == Rejected(Invalid(NoCgroupName))
    ensures r.Accepted? <==> Accepts(g, secondsF32)
    ensures r.Accepted? ==> r.opts.cgName == g.matches.free[0]
    ensures r.Accepted? && g.matches.duration.None? ==> r.opts.interval == DefaultInterval
    ensures r.Accepted? && g.matches.duration.Some? ==>
      r.opts.interval == secondsF32(g.matches.duration.value).duration
  {
    if g.Unparsable? {
      return Rejected(Invalid("error parsing arguments: " + g.error));
    }
    var matches := g.matches;
    if matches.help {
      return Rejected(Usage(UsageBrief));
    }
    var cgopts := DefaultOptions;
    if matches.duration.Some? {
      match secondsF32(matches.duration.value) {
        case NotAFloat(e) =>
          return Rejected(Invalid("cannot parse interval: " + e));
        case ConversionPanic(msg) =>
          return Aborted(msg);
        case Seconds(d) =>
          cgopts := cgopts.(interval := d);
      }
    }
    if |matches.free| != 1 {
      return Rejected(Invalid(NoCgroupName));
    }
    cgopts := cgopts.(cgName := matches.free[0]);
    return Accepted(cgopts);
  }
}
