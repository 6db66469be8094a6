/**
 * The sampling loop of `main`: every tick re-opens the cgroup's
 * `memory.stat`, extracts `rss`, and either prints one timestamped CSV line
 * or ends the run. The clock is a per-tick input; the wait between ticks is
 * not modelled.
 */
module Sampler {
  import opened Decimal
  import opened Extractor

  /** The key every tick looks up. */
  const SampledKey: string := "rss"

  /** The message the run ends with when the key is absent. */
  const KeyNotFound: string := "key not found in file"

  /** The stat file as one tick finds it: not openable, or its lines. */
  datatype StatFile = OpenFailure(error: string) | Opened(lines: seq<Line>)

  /** What one tick sees: the stat file, and the clock as RFC 3339 text. */
  datatype Tick = Tick(stat: StatFile, now: string)

  /** What one tick does: print a value, return an error from `main`, or abort. */
  datatype Action = Emit(value: u64) | Return(message: string) | Abort(message: string)

  /** How a finite run of ticks ends. */
  datatype Stop = OutOfTicks | Stopped(action: Action)

  /** `read_stat_key`: an open failure is an error; otherwise the extractor decides. */
  function ReadStatKey(f: StatFile, key: string): (r: Outcome)
    ensures f.OpenFailure? ==> r == Err(f.error)
    ensures f.Opened? ==> r == Lookup(f.lines, key)
  {
    match f
    case OpenFailure(e) => Err(e)
    case Opened(lines) => Lookup(lines, key)
  }

  /**
   * What `read_stat_key` returns, by the line where the scan stops: the key
   * is absent only when the file opened and no line stopped the scan; an
   * error is the open failure or the read error the scan stopped at; a value
   * or a panic comes from the matching line the scan stopped at.
   */
  lemma ReadStatKeyOutcome(f: StatFile, key: string)
    ensures ReadStatKey(f, key) == Ok(None) <==>
      f.Opened? && forall j :: 0 <= j < |f.lines| ==> Skipped(f.lines[j], key)
    ensures f.Opened? ==> forall e :: ReadStatKey(f, key) == Err(e) <==>
      exists i :: StopsAt(f.lines, key, i) && f.lines[i] == ReadFailure(e)
    ensures f.Opened? ==> forall n: u64 :: ReadStatKey(f, key) == Ok(Some(n)) <==>
      exists i :: StopsAt(f.lines, key, i) && f.lines[i].Text? && ParseU64(f.lines[i].text[|key| + 1..]) == Some(n)
    ensures f.Opened? ==> forall rest :: ReadStatKey(f, key) == Panic(rest) <==>
      exists i :: StopsAt(f.lines, key, i) && f.lines[i].Text? && rest == f.lines[i].text[|key| + 1..]
                  && ParseU64(rest) == None
  {
    if f.Opened? {
      LookupOutcome(f.lines, key);
    }
  }

  /** The text an unreadable value aborts with. */
  function PanicMessage(unparsed: string): string {
    "cannot convert '" + unparsed + "'"
  }

  /**
   * The decision at the head of each tick: a value is emitted; an absent key
   * and an I/O error end the run with a message; a malformed value aborts.
   */
  function Decide(r: Outcome): (a: Action)
    ensures a.Emit? <==> r.Ok? && r.value.Some?
    ensures a.Emit? ==> a.value == r.value.value
    ensures r == Ok(None) ==> a == Return(KeyNotFound)
    ensures r.Err? ==> a == Return(r.error)
    ensures a.Abort? <==> r.Panic?
    ensures r.Panic? ==> a.message == PanicMessage(r.unparsed)
  {
    match r
    case Ok(Some(v)) => Emit(v)
    case Ok(None) => Return(KeyNotFound)
    case Err(e) => Return(e)
    case Panic(s) => Abort(PanicMessage(s))
  }

  /** The action of one tick, always for the key `rss`. */
  function TickAction(t: Tick): Action {
    Decide(ReadStatKey(t.stat, SampledKey))
  }

  /** The line printed for one sample: `<timestamp>,<value>`. */
  function SampleLine(now: string, v: u64): string {
    now + "," + ShowNat(v)
  }

  /** A printed line carries the timestamp, a comma, and a field that reads back as the value. */
  lemma SampleLineFields(now: string, v: u64)
    ensures var line := SampleLine(now, v);
      |line| > |now| + 1 && line[..|now|] == now && line[|now|] == ','
      && ParseU64(line[|now| + 1..]) == Some(v)
  {
    var line := SampleLine(now, v);
    assert line[..|now|] == now;
    assert line[|now| + 1..] == ShowNat(v);
    ParseShow(v);
  }

  /**
   * The `loop` of `main` over a finite sequence of ticks: one line per tick
   * that yields a value, in tick order; the first tick that does not yield a
   * value ends the run, and nothing is printed for it.
   */
  method Run(ticks: seq<Tick>) returns (out: seq<string>, stop: Stop)
    ensures |out| <= |ticks|
    ensures forall i :: 0 <= i < |out| ==>
      TickAction(ticks[i]).Emit? && out[i] == SampleLine(ticks[i].now, TickAction(ticks[i]).value)
    ensures stop == if |out| == |ticks| then OutOfTicks else Stopped(TickAction(ticks[|out|]))
    ensures stop.Stopped? ==> !stop.action.Emit?
  {
    out := [];
    var i := 0;
    while i < |ticks|
      invariant i <= |ticks| && |out| == i
      invariant forall k :: 0 <= k < i ==>
        TickAction(ticks[k]).Emit? && out[k] == SampleLine(ticks[k].now, TickAction(ticks[k]).value)
    {
      var r := ReadStatKey(ticks[i].stat, SampledKey);
      var rss;
      match r {
        case Ok(None) =>
          return out, Stopped(Return(KeyNotFound));
        case Ok(Some(v)) =>
          rss := v;
        case Err(e) =>
          return out, Stopped(Return(e));
        case Panic(s) =>
          return out, Stopped(Abort(PanicMessage(s)));
      }
      out := out + [SampleLine(ticks[i].now, rss)];
      i := i + 1;
    }
    return out, OutOfTicks;
  }

  /** A tick whose stat file has no `rss` line ends the run with "key not found in file". */
  lemma AbsentKeyEndsRun(t: Tick)
    requires t.stat.Opened?
    requires forall j :: 0 <= j < |t.stat.lines| ==> Skipped(t.stat.lines[j], SampledKey)
    ensures TickAction(t) == Return(KeyNotFound)
  {
    ReadStatKeyOutcome(t.stat, SampledKey);
  }
}
