# cgstat in Dafny

cgstat samples the resident set size (`rss`) of one memory control group. It
re-reads `memory.stat` for the cgroup on every tick and prints one line
`<RFC 3339 timestamp>,<value>` per tick. The run ends at the first tick that
fails. This project models the logic of `src/main.rs` and proves its
properties:

- `Decimal`: reading a `u64` from text (`u64::from_str`: ASCII digits, one
  optional leading `+`, no sign `-`, no whitespace, at most 2^64-1) and
  writing it back (`Display`).
- `Extractor`: `find_key_val`. `Lookup` is a recursive specification and
  `FindKeyVal` is the scanning loop, proved equal to it. A stream is a
  sequence of lines, and each line is either text or a read error. The
  `.expect` panic on a malformed value is its own outcome, `Panic`.
- `Sampler`: `read_stat_key`, the decision made at each tick (`Decide`), the
  printed line (`SampleLine`), and the `loop` of `main` run over a finite
  sequence of ticks (`Run`). Each tick carries its stat file and the clock
  reading.
- `Options`: the decisions of `parse_options` once getopts has matched the
  command line. The result of getopts and the `f32` reading of `-d` are
  inputs.
- `Program`: `main`, which parses the options, then samples, then maps how
  the program ended to an exit status.

Points where the model follows the code as written rather than its evident
intent:

- The cgroup name is kept exactly as given. The TODO at `src/main.rs:94`
  says a leading `/` should be removed, but the code does not remove it.
- A matching line whose value does not parse makes the program panic
  through `.expect`. The code has no typed format error. A panic exits with
  status 101, not 1.
- A zero interval is accepted. A negative interval makes
  `Duration::from_secs_f32` panic. Neither is rejected as a configuration
  error.

## Model

| member | source | states |
|---|---|---|
| Decimal.ParseU64 | src/main.rs:24-27 | If a string is accepted, it is non-empty and is all digits after an optional `+` |
| Decimal.ShowNat | src/main.rs:126 | The printed value is non-empty, is all digits, and has no leading zero |
| Decimal.ShowNatValue | src/main.rs:126 | The printed digits denote the printed number |
| Decimal.ParseShow | src/main.rs:25-27 | Parsing a printed number gives it back exactly when it is at most 2^64-1, and gives a rejection (overflow) otherwise |
| Decimal.ParsePlusShow | src/main.rs:25-27 | One leading `+` is accepted and does not change the value |
| Decimal.ParseLeadingZero | src/main.rs:25-27 | Leading zeros are accepted and do not change the value |
| Decimal.ParseRejectsNonDigit | src/main.rs:25-27 | Any character other than a digit or the one leading `+` (a space, a letter, `-`) makes the parse fail |
| Decimal.ParseRejectsSigns | src/main.rs:25-27 | The empty string, a lone `+`, and anything that starts with `-` are rejected |
| Extractor.FindKeyVal | src/main.rs:17-31 | The scanning loop, with its `continue` and early returns, computes exactly `Lookup` |
| Extractor.LookupAtFirstStop | src/main.rs:19-28 | The first line that is not skipped decides the result: a read error there is returned; a match there gives its value, or a panic on its remainder |
| Extractor.FirstMatchWins | src/main.rs:18-28 | A line `key N` with only non-matching lines before it gives `Some(N)`, whatever follows it |
| Extractor.ReadErrorBeforeMatch | src/main.rs:19-20 | A read error before any match is returned as `Err` |
| Extractor.MalformedValuePanics | src/main.rs:24-27 | A matching line whose remainder is not a u64 gives the panic outcome, never `None` |
| Extractor.LookupAbsent | src/main.rs:21-30 | The result is `Ok(None)` if and only if every line was read and none starts with `key + " "` |
| Extractor.LookupAppend | src/main.rs:19-30 | Lines after the one that decides the result are never looked at; a stream prefix with no match passes the decision to the lines after it |
| Extractor.FirstStop | src/main.rs:19-23 | When some line stops the scan, there is a first such line |
| Extractor.LookupOutcome | src/main.rs:17-31 | Every outcome, both directions, in terms of the line where the scan stops. `Ok(None)` exactly when there is no such line. `Err(e)` exactly when that line is the read error `e`. `Ok(Some(n))` exactly when it matches and its remainder parses to `n`. `Panic(rest)` exactly when it matches and its remainder `rest` does not parse |
| Extractor.ExactPrefixScenario | src/main.rs:18-23 | For key `baz`, the line `baz_baz 1111` is skipped and `baz 9999` gives 9999 |
| Extractor.NoTrailingSpaceScenario | src/main.rs:18-23 | A line that is just `baz`, with no space after it, does not match |
| Extractor.FirstOfTwoScenario | src/main.rs:19-28 | Of two `rss` lines only the first counts; a read error after it is never reached |
| Extractor.NonNumericScenario | src/main.rs:24-27 | `rss abc` gives the panic outcome |
| Sampler.ReadStatKeyOutcome | src/main.rs:33-37 | A stat file that cannot be opened gives its open error. The key is reported absent exactly when the file opened and every line was read without a match. For an opened file, the result is `Err(e)` exactly when the scan stops at the read error `e`. It is `Some(n)` exactly when the scan stops at a matching line whose remainder parses to `n`. It is a panic exactly when the scan stops at a matching line whose remainder does not parse |
| Sampler.Decide | src/main.rs:118-124 | A tick emits a value exactly when the read gave `Some`; a missing key ends the run with "key not found in file"; an I/O error ends it with the error text; a malformed value aborts it |
| Sampler.SampleLineFields | src/main.rs:125-126 | A printed line is the timestamp, then a comma, then a field that parses back to the sampled value |
| Sampler.Run | src/main.rs:117-128 | One line for each successful tick, in tick order and always for key `rss`. The first tick that does not yield a value ends the run with that tick's action, and nothing is printed for it |
| Sampler.AbsentKeyEndsRun | src/main.rs:118-120 | A stat file with no `rss` line ends the run with "key not found in file" |
| Options.ParseOptions | src/main.rs:59-98 | A getopts failure is checked first, then help, then the interval (default 1 s), then that there is exactly one free argument. The result is accepted exactly in the remaining case, and the cgroup name is that argument unchanged |
| Program.ExitCode | src/main.rs:100-113 | The exit status is 0 exactly after help; it is 1 for a rejected command line or an error from the loop |
| Program.Cgstat | src/main.rs:100-128 | Help exits 0 without sampling. A getopts failure, an unreadable interval, or a free-argument count other than 1 ends as `ConfigError` with the message `parse_options` gives, which is exit 1. An interval-conversion panic ends as `Panicked`. None of these print anything. An accepted command line samples as `Run` does, and the sampling path never exits 0 |

## Left out

- Opening the file, buffered reading, `println!`, `eprint!`, `sleep` and `process::exit`. These are I/O. The stat file is an input to each tick, and the printed lines are an output sequence.
- Splitting the file into lines (`BufRead::lines`, including how it removes `\n` and `\r\n` and rejects invalid UTF-8). The stream is given already split into lines; a UTF-8 failure is a `ReadFailure`.
- The wall clock and RFC 3339 formatting (`Utc::now`, `to_rfc3339`). Each tick's timestamp is an opaque input string.
- Building the cgroup path from `/sys/fs/cgroup/memory` and the cgroup name. `Path::join` is not part of this model, so the model does not capture that an absolute cgroup name replaces the base directory.
- getopts itself and the usage text it renders. Its matches are an input, and `Usage` carries only the brief line `Usage: cgstat [-d DURATION]`.
- Reading `-d` as an `f32` and `Duration::from_secs_f32`. This is floating point, so the conversion is an opaque function input with three outcomes: a duration, a parse error, or a panic.
- Sampler.Decide: the panic message stops at `cannot convert '<rest>'`. It omits the `ParseIntError` detail that `.expect` appends, and it omits the thread and location text of the panic.
- Program.Cgstat: does not model the text written to the error stream (`error: {:?}` for a rejected command line, `Error: {:?}` for an error returned from `main`). It models only the message and the exit status.
- The loop never ends on its own. The model runs it over a finite sequence of ticks and reports `OutOfTicks` / `StillSampling` when that sequence runs out.
- Repeated extraction over the same lines gives the same result because `Lookup` is a function. No separate statement of this is needed.
- `plot.py`: plotting with numpy and matplotlib in floating point, outside the sampler.
