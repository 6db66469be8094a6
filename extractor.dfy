/**
 * The key-value extractor `find_key_val`: scan the lines of a stat file in
 * order for the first one that starts with `key` followed by one space, and
 * read the rest of that line as an unsigned 64-bit integer.
 */
module Extractor {
  import opened Decimal

  /** What reading the next line yields: its text, or a read error. */
  datatype Line = Text(text: string) | ReadFailure(error: string)

  /**
   * How a scan ends: `Ok(Some(n))` for a value, `Ok(None)` when no line
   * matched, `Err(e)` for a propagated read error, and `Panic(rest)` when the
   * matched line's remainder `rest` is not a u64 (the `.expect` aborts).
   */
  datatype Outcome = Ok(value: Option<u64>) | Err(error: string) | Panic(unparsed: string)

  /** The exact prefix a matching line starts with. */
  function Prefix(key: string): string {
    key + " "
  }

  predicate StartsWith(s: string, p: string) {
    |p| <= |s| && s[..|p|] == p
  }

  /** A line the scan steps over (`continue`): read fine, but not a match. */
  predicate Skipped(l: Line, key: string) {
    l.Text? && !StartsWith(l.text, Prefix(key))
  }

  /** The result of the scan at the first line it does not step over. */
  function Settle(l: Line, key: string): Outcome
    requires !Skipped(l, key)
  {
    match l
    case ReadFailure(e) => Err(e)
    case Text(s) =>
      var rest := s[|Prefix(key)|..];
      match ParseU64(rest)
      case Some(n) => Ok(Some(n))
      case None => Panic(rest)
  }

  /** What `find_key_val` returns (or how it aborts) on `lines`. */
  function Lookup(lines: seq<Line>, key: string): Outcome
    decreases |lines|
  {
    if lines == [] then Ok(None)
    else if Skipped(lines[0], key) then Lookup(lines[1..], key)
    else Settle(lines[0], key)
  }

  /** `find_key_val`: the scan loop with its `continue` and early returns. */
  method FindKeyVal(lines: seq<Line>, key: string) returns (r: Outcome)
    ensures r == Lookup(lines, key)
  {
    var pref := key + " ";
    var i := 0;
    while i < |lines|
      invariant 0 <= i <= |lines|
      invariant Lookup(lines, key) == Lookup(lines[i..], key)
    {
      assert lines[i..][0] == lines[i] && lines[i..][1..] == lines[i + 1..];
      match lines[i]
      case ReadFailure(e) =>
        return Err(e);
      case Text(sl) =>
        if !(|pref| <= |sl| && sl[..|pref|] == pref) {
          i := i + 1;
          continue;
        }
        var justVal := sl[|pref|..];
        var nv := ParseU64(justVal);
        if nv.None? {
          return Panic(justVal);
        }
        return Ok(Some(nv.value));
    }
    return Ok(None);
  }

  /**
   * The scan's result is decided by the first line that is not stepped over:
   * a read error there is returned, a matching line there gives its value,
   * or aborts when its remainder is not a u64.
   */
  lemma {:induction false} LookupAtFirstStop(lines: seq<Line>, key: string, i: nat)
    requires i < |lines|
    requires forall j :: 0 <= j < i ==> Skipped(lines[j], key)
    requires !Skipped(lines[i], key)
    ensures lines[i].ReadFailure? ==> Lookup(lines, key) == Err(lines[i].error)
    ensures lines[i].Text? ==>
      var rest := lines[i].text[|key| + 1..];
      Lookup(lines, key) == if ParseU64(rest).Some? then Ok(Some(ParseU64(rest).value)) else Panic(rest)
  {
    if i == 0 {
    } else {
      assert Skipped(lines[0], key);
      LookupAtFirstStop(lines[1..], key, i - 1);
    }
  }

  /** First match wins: a line `key N` with only non-matching lines before it gives N. */
  lemma FirstMatchWins(lines: seq<Line>, key: string, i: nat, rest: string, n: u64)
    requires i < |lines| && lines[i] == Text(Prefix(key) + rest)
    requires ParseU64(rest) == Some(n)
    requires forall j :: 0 <= j < i ==> Skipped(lines[j], key)
    ensures Lookup(lines, key) == Ok(Some(n))
  {
    var s := Prefix(key) + rest;
    assert s[..|Prefix(key)|] == Prefix(key) && s[|key| + 1..] == rest;
    LookupAtFirstStop(lines, key, i);
  }

  /** A read error before any match is returned as the error. */
  lemma ReadErrorBeforeMatch(lines: seq<Line>, key: string, i: nat)
    requires i < |lines| && lines[i].ReadFailure?
    requires forall j :: 0 <= j < i ==> Skipped(lines[j], key)
    ensures Lookup(lines, key) == Err(lines[i].error)
  {
    LookupAtFirstStop(lines, key, i);
  }

  /** A matching line whose remainder is not a u64 aborts; it is never "absent". */
  lemma MalformedValuePanics(lines: seq<Line>, key: string, i: nat, rest: string)
    requires i < |lines| && lines[i] == Text(Prefix(key) + rest)
    requires ParseU64(rest) == None
    requires forall j :: 0 <= j < i ==> Skipped(lines[j], key)
    ensures Lookup(lines, key) == Panic(rest)
  {
    var s := Prefix(key) + rest;
    assert s[..|Prefix(key)|] == Prefix(key) && s[|key| + 1..] == rest;
    LookupAtFirstStop(lines, key, i);
  }

  /**
   * The key is absent exactly when every line was read and none matched;
   * a read error or a match never yields `Ok(None)`.
   */
  lemma {:induction false} LookupAbsent(lines: seq<Line>, key: string)
    ensures Lookup(lines, key) == Ok(None) <==> forall j :: 0 <= j < |lines| ==> Skipped(lines[j], key)
    decreases |lines|
  {
    if lines != [] {
      LookupAbsent(lines[1..], key);
      if Skipped(lines[0], key) {
        assert forall j :: 1 <= j < |lines| ==> lines[j] == lines[1..][j - 1];
      }
    }
  }

  /**
   * Lines after the one that decides the result are never looked at: once a
   * prefix of the stream decides the result, appending lines changes nothing,
   * and a prefix with no match hands the decision to what follows.
   */
  lemma {:induction false} LookupAppend(a: seq<Line>, b: seq<Line>, key: string)
    ensures Lookup(a + b, key) == if Lookup(a, key) == Ok(None) then Lookup(b, key) else Lookup(a, key)
    decreases |a|
  {
    if a == [] {
      assert a + b == b;
    } else {
      assert (a + b)[0] == a[0];
      if Skipped(a[0], key) {
        assert (a + b)[1..] == a[1..] + b;
        LookupAppend(a[1..], b, key);
      }
    }
  }

  /** The first line to stop the scan, when some line does. */
  lemma {:induction false} FirstStop(lines: seq<Line>, key: string) returns (i: nat)
    requires exists j :: 0 <= j < |lines| && !Skipped(lines[j], key)
    ensures i < |lines| && !Skipped(lines[i], key)
    ensures forall j :: 0 <= j < i ==> Skipped(lines[j], key)
    decreases |lines|
  {
    if !Skipped(lines[0], key) {
      i := 0;
    } else {
      var j :| 0 <= j < |lines| && !Skipped(lines[j], key);
      assert lines[1..][j - 1] == lines[j];
      var k := FirstStop(lines[1..], key);
      i := k + 1;
    }
  }

  /** Line `i` is where the scan stops: every line before it is skipped and it is not. */
  predicate StopsAt(lines: seq<Line>, key: string, i: int) {
    0 <= i < |lines| && !Skipped(lines[i], key) && forall j :: 0 <= j < i ==> Skipped(lines[j], key)
  }

  /**
   * Every outcome of the scan, described by the line where it stops: no such
   * line gives `Ok(None)`; a read error there gives `Err`; a matching line
   * there gives its value, or a panic when its remainder is not a u64.
   */
  lemma {:induction false} LookupOutcome(lines: seq<Line>, key: string)
    ensures Lookup(lines, key) == Ok(None) <==> forall j :: 0 <= j < |lines| ==> Skipped(lines[j], key)
    ensures forall e :: Lookup(lines, key) == Err(e) <==>
      exists i :: StopsAt(lines, key, i) && lines[i] == ReadFailure(e)
    ensures forall n: u64 :: Lookup(lines, key) == Ok(Some(n)) <==>
      exists i :: StopsAt(lines, key, i) && lines[i].Text? && ParseU64(lines[i].text[|key| + 1..]) == Some(n)
    ensures forall rest :: Lookup(lines, key) == Panic(rest) <==>
      exists i :: StopsAt(lines, key, i) && lines[i].Text? && rest == lines[i].text[|key| + 1..]
                  && ParseU64(rest) == None
  {
    LookupAbsent(lines, key);
    if exists j :: 0 <= j < |lines| && !Skipped(lines[j], key) {
      var i := FirstStop(lines, key);
      assert StopsAt(lines, key, i);
      LookupAtFirstStop(lines, key, i);
      forall k | StopsAt(lines, key, k) ensures k == i {
        assert !(k < i) && !(i < k);
      }
    }
  }

  // Example streams for `find_key_val`.

  /** Key `baz` skips `baz_baz 1111` and finds `baz 9999`. */
  lemma ExactPrefixScenario()
    ensures Lookup([Text("foo 1234"), Text("baz_baz 1111"), Text("bar 4443"), Text("baz 9999")], "baz")
            == Ok(Some(9999))
  {
    var lines := [Text("foo 1234"), Text("baz_baz 1111"), Text("bar 4443"), Text("baz 9999")];
    assert "foo 1234"[..4][0] == 'f';
    assert !StartsWith("foo 1234", "baz ");
    assert "baz_baz 1111"[..4][3] == '_';
    assert !StartsWith("baz_baz 1111", "baz ");
    assert "bar 4443"[..4][2] == 'r';
    assert !StartsWith("bar 4443", "baz ");
    ParseShow(9999);
    assert ShowNat(9999) == "9999";
    FirstMatchWins(lines, "baz", 3, "9999", 9999);
  }

  /** A line that is just the key, without the space, does not match. */
  lemma NoTrailingSpaceScenario()
    ensures Lookup([Text("baz")], "baz") == Ok(None)
  {
  }

  /** Of two matching lines only the first is read. */
  lemma FirstOfTwoScenario(e: string)
    ensures Lookup([Text("rss 12"), Text("rss 34"), ReadFailure(e)], "rss") == Ok(Some(12))
  {
    ParseShow(12);
    assert ShowNat(12) == "12";
    FirstMatchWins([Text("rss 12"), Text("rss 34"), ReadFailure(e)], "rss", 0, "12", 12);
  }

  /** `rss abc` aborts the scan instead of reporting the key as absent. */
  lemma NonNumericScenario()
    ensures Lookup([Text("cache 7"), Text("rss abc")], "rss") == Panic("abc")
  {
    assert "cache 7"[..4][0] == 'c';
    assert !StartsWith("cache 7", "rss ");
    ParseRejectsNonDigit("abc", 0);
    MalformedValuePanics([Text("cache 7"), Text("rss abc")], "rss", 1, "abc");
  }
}
