/**
 * The sequential part of `execute_job`: the `LogCapture` stream that turns
 * service output into log lines, the argv each service is started with, and
 * how the way a service ends decides the job's status and exit code.
 */
module JobRunner {
  import opened Common
  import opened Text
  import opened Jobs
  import opened Batching

  // ---------------------------------------------------------------------------
  // Splitting output into lines

  /** The position of the first line break in `t`. */
  function NewlineAt(t: string): (r: Option<nat>)
    ensures r.Some? ==> r.value < |t| && t[r.value] == '\n'
    ensures r.Some? ==> forall i :: 0 <= i < r.value ==> t[i] != '\n'
    ensures r.None? ==> forall i :: 0 <= i < |t| ==> t[i] != '\n'
  {
    if t == [] then None
    else if t[0] == '\n' then Some(0)
    else
      match NewlineAt(t[1..])
      case None => None
      case Some(k) => Some(k + 1)
  }

  /** The complete lines of `t`, each without its line break, in order. */
  function Lines(t: string): seq<string>
    decreases |t|
  {
    match NewlineAt(t)
    case None => []
    case Some(k) => [t[..k]] + Lines(t[k + 1..])
  }

  /** What follows the last line break of `t`: the incomplete last line. */
  function Rest(t: string): string
    decreases |t|
  {
    match NewlineAt(t)
    case None => t
    case Some(k) => Rest(t[k + 1..])
  }

  /** Puts the lines back together, each followed by a line break. */
  function Unlines(lines: seq<string>): string {
    if lines == [] then [] else lines[0] + "\n" + Unlines(lines[1..])
  }

  /** One round of the `write` loop: the first line comes off the front. */
  lemma SplitStep(t: string, k: nat)
    requires NewlineAt(t) == Some(k)
    ensures Lines(t) == [t[..k]] + Lines(t[k + 1..]) && Rest(t) == Rest(t[k + 1..])
  {
  }

  /** Splitting loses nothing: the lines and the rest give back the text. */
  lemma {:induction false} SplitRoundTrip(t: string)
    ensures Unlines(Lines(t)) + Rest(t) == t
    decreases |t|
  {
    var r := NewlineAt(t);
    if r.Some? {
      var k := r.value;
      var tail := t[k + 1..];
      SplitStep(t, k);
      SplitRoundTrip(tail);
      UnlinesCons(t[..k], Lines(tail));
      Glue(t, k, Unlines(Lines(tail)), Rest(tail));
    }
  }

  lemma UnlinesCons(l: string, lines: seq<string>)
    ensures Unlines([l] + lines) == l + "\n" + Unlines(lines)
  {
    assert ([l] + lines)[1..] == lines;
  }

  lemma Glue(t: string, k: nat, u: string, r: string)
    requires k < |t| && t[k] == '\n' && u + r == t[k + 1..]
    ensures (t[..k] + "\n" + u) + r == t
  {
    assert t == t[..k] + "\n" + t[k + 1..];
  }

  /** No line and no rest holds a line break. */
  lemma {:induction false} SplitHasNoBreaks(t: string)
    ensures forall l :: l in Lines(t) ==> '\n' !in l
    ensures '\n' !in Rest(t)
    decreases |t|
  {
    var r := NewlineAt(t);
    if r.Some? {
      var k := r.value;
      SplitStep(t, k);
      SplitHasNoBreaks(t[k + 1..]);
      assert '\n' !in t[..k];
    }
  }

  /** Text made of lines without breaks and a rest without breaks splits into exactly those. */
  lemma {:induction false} UnlinesRoundTrip(lines: seq<string>, rest: string)
    requires forall l :: l in lines ==> '\n' !in l
    requires '\n' !in rest
    ensures Lines(Unlines(lines) + rest) == lines && Rest(Unlines(lines) + rest) == rest
  {
    if lines == [] {
      assert Unlines(lines) + rest == rest;
    } else {
      assert lines[0] in lines && forall x :: x in lines[1..] ==> x in lines;
      UnlinesRoundTrip(lines[1..], rest);
      UnlinesStep(lines, rest);
    }
  }

  /** The first-line case of `UnlinesRoundTrip`, given the fact for the lines after it. */
  lemma UnlinesStep(lines: seq<string>, rest: string)
    requires lines != [] && '\n' !in lines[0]
    requires Lines(Unlines(lines[1..]) + rest) == lines[1..] && Rest(Unlines(lines[1..]) + rest) == rest
    ensures Lines(Unlines(lines) + rest) == lines && Rest(Unlines(lines) + rest) == rest
  {
    var l, tail := lines[0], Unlines(lines[1..]) + rest;
    assert Unlines(lines) + rest == l + ("\n" + tail);
    FirstLine(l, tail, Unlines(lines) + rest);
    assert lines == [l] + lines[1..];
  }

  /** A text that starts with a break-free line and a break splits into that line and the rest. */
  lemma FirstLine(l: string, tail: string, t: string)
    requires '\n' !in l && t == l + ("\n" + tail)
    ensures Lines(t) == [l] + Lines(tail) && Rest(t) == Rest(tail)
  {
    NewlineAfter(l, tail);
    assert t[..|l|] == l && t[|l| + 1..] == tail;
    SplitStep(t, |l|);
  }

  lemma {:induction false} NewlineAfter(l: string, tail: string)
    requires '\n' !in l
    ensures NewlineAt(l + ("\n" + tail)) == Some(|l|)
  {
    if l != [] {
      assert (l + ("\n" + tail))[1..] == l[1..] + ("\n" + tail);
      NewlineAfter(l[1..], tail);
    }
  }

  lemma {:induction false} NewlineAtPrefix(a: string, b: string)
    requires NewlineAt(a).Some?
    ensures NewlineAt(a + b) == NewlineAt(a)
  {
    if a[0] != '\n' {
      assert (a + b)[1..] == a[1..] + b;
      NewlineAtPrefix(a[1..], b);
    }
  }

  /** Text written in two pieces splits into the same lines as the whole. */
  lemma {:induction false} LinesAppend(a: string, b: string)
    ensures Lines(a + b) == Lines(a) + Lines(Rest(a) + b)
    ensures Rest(a + b) == Rest(Rest(a) + b)
    decreases |a|
  {
    var r := NewlineAt(a);
    if r.Some? {
      var k := r.value;
      LinesAppend(a[k + 1..], b);
      LinesAppendStep(a, b, k);
      RestAppendStep(a, b, k);
    }
  }

  /** The first-line case of `LinesAppend`, given the fact for the text after that line. */
  lemma LinesAppendStep(a: string, b: string, k: nat)
    requires NewlineAt(a) == Some(k)
    requires Lines(a[k + 1..] + b) == Lines(a[k + 1..]) + Lines(Rest(a[k + 1..]) + b)
    ensures Lines(a + b) == Lines(a) + Lines(Rest(a) + b)
  {
    var u := a[k + 1..];
    LinesAppendHead(a, b, k);
    SplitStep(a, k);
    ConsAssoc(a[..k], Lines(u), Lines(Rest(u) + b), Lines(a + b), Lines(a) + Lines(Rest(a) + b));
  }

  lemma LinesAppendHead(a: string, b: string, k: nat)
    requires NewlineAt(a) == Some(k)
    ensures Lines(a + b) == [a[..k]] + Lines(a[k + 1..] + b)
  {
    var t := a + b;
    NewlineAtPrefix(a, b);
    SplitStep(t, k);
    assert t[..k] == a[..k];
    assert t[k + 1..] == a[k + 1..] + b;
  }

  lemma ConsAssoc<T>(x: T, p: seq<T>, q: seq<T>, l: seq<T>, r: seq<T>)
    requires l == [x] + (p + q) && r == ([x] + p) + q
    ensures l == r
  {
  }

  lemma RestAppendStep(a: string, b: string, k: nat)
    requires NewlineAt(a) == Some(k)
    requires Rest(a[k + 1..] + b) == Rest(Rest(a[k + 1..]) + b)
    ensures Rest(a + b) == Rest(Rest(a) + b)
  {
    RestAppendHead(a, b, k);
    SplitStep(a, k);
  }

  lemma RestAppendHead(a: string, b: string, k: nat)
    requires NewlineAt(a) == Some(k)
    ensures Rest(a + b) == Rest(a[k + 1..] + b)
  {
    var t := a + b;
    NewlineAtPrefix(a, b);
    SplitStep(t, k);
    assert t[k + 1..] == a[k + 1..] + b;
  }

  // ---------------------------------------------------------------------------
  // LogCapture

  predicate NonEmpty(l: string) { l != [] }

  /** Appends `lines` to the log of job `id` one after the other. */
  function LogLines(jobs: seq<Job>, id: string, lines: seq<string>): seq<Job>
    decreases |lines|
  {
    if lines == [] then jobs else LogLines(AppendLog(jobs, id, lines[0]), id, lines[1..])
  }

  lemma {:induction false} LogLinesSnoc(jobs: seq<Job>, id: string, lines: seq<string>, l: string)
    ensures LogLines(jobs, id, lines + [l]) == AppendLog(LogLines(jobs, id, lines), id, l)
    decreases |lines|
  {
    if lines == [] {
      assert LogLines(AppendLog(jobs, id, l), id, []) == AppendLog(jobs, id, l);
    } else {
      assert (lines + [l])[1..] == lines[1..] + [l];
      LogLinesSnoc(AppendLog(jobs, id, lines[0]), id, lines[1..], l);
    }
  }

  lemma {:induction false} LogLinesAppend(jobs: seq<Job>, id: string, a: seq<string>, b: seq<string>)
    ensures LogLines(jobs, id, a + b) == LogLines(LogLines(jobs, id, a), id, b)
    decreases |a|
  {
    if a == [] {
      assert a + b == b;
    } else {
      assert (a + b)[1..] == a[1..] + b;
      LogLinesAppend(AppendLog(jobs, id, a[0]), id, a[1..], b);
    }
  }

  /** The lines one `write` logs: the complete non-empty lines of the buffer and the new text. */
  function Logged(buffer: string, s: string): seq<string> {
    Filter(Lines(buffer + s), NonEmpty)
  }

  /**
   * Output split across writes is logged as if written at once: two writes
   * log what one write of both pieces logs and leave the same buffer.
   */
  lemma WritesCompose(buffer: string, s1: string, s2: string)
    ensures Logged(buffer, s1) + Logged(Rest(buffer + s1), s2) == Logged(buffer, s1 + s2)
    ensures Rest(Rest(buffer + s1) + s2) == Rest(buffer + (s1 + s2))
  {
    assert (buffer + s1) + s2 == buffer + (s1 + s2);
    LoggedAppend(buffer + s1, s2, buffer + (s1 + s2));
  }

  /** `WritesCompose` for text `t` followed by `s`, which together make `whole`. */
  lemma LoggedAppend(t: string, s: string, whole: string)
    requires whole == t + s
    ensures Filter(Lines(t), NonEmpty) + Filter(Lines(Rest(t) + s), NonEmpty) == Filter(Lines(whole), NonEmpty)
    ensures Rest(Rest(t) + s) == Rest(whole)
  {
    LinesAppend(t, s);
    FilterAppend(Lines(t), Lines(Rest(t) + s), NonEmpty);
  }

  class LogCapture {
    const jobId: string
    /** The incomplete last line written so far. */
    var buffer: string

    ghost predicate Valid()
      reads this
    {
      '\n' !in buffer
    }

    constructor(jobId: string)
      ensures Valid() && this.jobId == jobId && buffer == []
    {
      this.jobId := jobId;
      buffer := [];
    }

    /**
     * `LogCapture.write(s)`: the complete lines of the buffer and `s` go to the
     * job's log in order, empty ones skipped; the incomplete rest stays
     * buffered; the answer is the length of `s`.
     */
    method Write(s: string, reg: JobRegistry) returns (n: nat)
      requires Valid() && reg.Valid()
      modifies this, reg
      ensures Valid() && reg.Valid() && reg.counter == old(reg.counter)
      ensures n == |s|
      ensures buffer == Rest(old(buffer) + s)
      ensures reg.jobs == LogLines(old(reg.jobs), jobId, Logged(old(buffer), s))
    {
      buffer := buffer + s;
      ghost var text := buffer;
      ghost var done: seq<string> := [];
      while NewlineAt(buffer).Some?
        invariant reg.Valid() && reg.counter == old(reg.counter)
        invariant Lines(text) == done + Lines(buffer) && Rest(text) == Rest(buffer)
        invariant reg.jobs == LogLines(old(reg.jobs), jobId, Filter(done, NonEmpty))
        decreases |buffer|
      {
        var k := NewlineAt(buffer).value;
        var line := buffer[..k];
        var next := buffer[k + 1..];
        SplitStep(buffer, k);
        assert Lines(text) == (done + [line]) + Lines(next) by {
          assert done + ([line] + Lines(next)) == (done + [line]) + Lines(next);
        }
        buffer := next;
        FilterSnoc(done, line, NonEmpty);
        if line != [] {
          LogLinesSnoc(old(reg.jobs), jobId, Filter(done, NonEmpty), line);
          reg.AppendLogLine(jobId, line);
        } else {
          assert Filter(done + [line], NonEmpty) == Filter(done, NonEmpty);
        }
        done := done + [line];
      }
      assert done + Lines(buffer) == done;
      SplitHasNoBreaks(text);
      return |s|;
    }

    /** `LogCapture.flush()`: a non-empty incomplete line is logged, and the buffer emptied. */
    method Flush(reg: JobRegistry)
      requires Valid() && reg.Valid()
      modifies this, reg
      ensures Valid() && reg.Valid() && reg.counter == old(reg.counter)
      ensures buffer == []
      ensures reg.jobs == if old(buffer) != [] then AppendLog(old(reg.jobs), jobId, old(buffer)) else old(reg.jobs)
    {
      if buffer != [] {
        reg.AppendLogLine(jobId, buffer);
      }
      buffer := [];
    }
  }

  // ---------------------------------------------------------------------------
  // The argv a service is started with

  /** Python truthiness of a JSON parameter value. */
  predicate Truthy(p: Param) {
    match p
    case Str(s) => s != []
    case Int(i) => i != 0
    case Bool(b) => b
    case Null => false
  }

  /** `str(value)` for a JSON parameter value. */
  function Render(p: Param): string {
    match p
    case Str(s) => s
    case Int(i) => IntToDecimal(i)
    case Bool(b) => if b then "True" else "False"
    case Null => "None"
  }

  /**
   * The options each service accepts, in the order they are added: the
   * parameter, the flag, and whether the value goes through `str()` (only
   * the SMA windows do; a date is passed on exactly as the request gave it).
   */
  function Options(service: string): seq<(string, string, bool)> {
    if service == "fetch_prices" then [("date", "--date", false)]
    else if service == "daily_report" || service == "thirty_day_report" then [("report_date", "--report-date", false)]
    else if service == "compute_sma_events" then [("short_window", "--short-window", true), ("long_window", "--long-window", true)]
    else []
  }

  /** The value placed after a flag: `str(value)` or the value itself. */
  function ArgValue(stringify: bool, p: Param): Param {
    if stringify then Str(Render(p)) else p
  }

  function OptionArgs(options: seq<(string, string, bool)>, params: map<string, Param>): seq<Param> {
    if options == [] then []
    else
      var (name, flag, stringify) := options[0];
      (if name in params && Truthy(params[name]) then [Str(flag), ArgValue(stringify, params[name])] else [])
      + OptionArgs(options[1..], params)
  }

  /**
   * `sys.argv` for the service: its name, then each option whose parameter is
   * present and truthy. The elements are JSON values, since a date parameter
   * that is not a string stays what it is.
   */
  function Argv(service: string, params: map<string, Param>): (argv: seq<Param>)
    ensures |argv| >= 1 && argv[0] == Str(service)
  {
    [Str(service)] + OptionArgs(Options(service), params)
  }

  /** What argparse sees for `flag` in a list of flag/value pairs. */
  function FlagValue(args: seq<Param>, flag: string): Option<Param>
    decreases |args|
  {
    if |args| < 2 then None
    else if args[0] == Str(flag) then Some(args[1])
    else FlagValue(args[2..], flag)
  }

  ghost predicate DistinctFlags(options: seq<(string, string, bool)>) {
    forall i, j :: 0 <= i < j < |options| ==> options[i].1 != options[j].1
  }

  /** Each option reads back as its (possibly stringified) parameter when present and truthy, and is absent otherwise. */
  lemma {:induction false} OptionArgsRoundTrip(options: seq<(string, string, bool)>, params: map<string, Param>, i: nat)
    requires DistinctFlags(options) && i < |options|
    ensures var (name, flag, stringify) := options[i];
      FlagValue(OptionArgs(options, params), flag)
        == if name in params && Truthy(params[name]) then Some(ArgValue(stringify, params[name])) else None
  {
    var (name0, flag0, stringify0) := options[0];
    var rest := OptionArgs(options[1..], params);
    var args := OptionArgs(options, params);
    var present := name0 in params && Truthy(params[name0]);
    assert args == (if present then [Str(flag0), ArgValue(stringify0, params[name0])] else []) + rest;
    if i == 0 {
      if !present {
        assert args == rest;
        AbsentFlag(options[1..], params, flag0);
      }
    } else {
      assert DistinctFlags(options[1..]) by {
        forall a, b | 0 <= a < b < |options| - 1 ensures options[1..][a].1 != options[1..][b].1 {
          assert options[1..][a] == options[a + 1] && options[1..][b] == options[b + 1];
        }
      }
      OptionArgsRoundTrip(options[1..], params, i - 1);
      assert options[1..][i - 1] == options[i];
      if present {
        assert options[0].1 != options[i].1;
        assert args[0] == Str(flag0) && args[2..] == rest;
      } else {
        assert args == rest;
      }
    }
  }

  /** A flag no option carries never shows up. */
  lemma {:induction false} AbsentFlag(options: seq<(string, string, bool)>, params: map<string, Param>, flag: string)
    requires forall i :: 0 <= i < |options| ==> options[i].1 != flag
    ensures FlagValue(OptionArgs(options, params), flag) == None
  {
    if options != [] {
      AbsentFlag(options[1..], params, flag);
      var (name0, flag0, stringify0) := options[0];
      assert flag0 != flag;
      if name0 in params && Truthy(params[name0]) {
        assert OptionArgs(options, params) == [Str(flag0), ArgValue(stringify0, params[name0])] + OptionArgs(options[1..], params);
        assert OptionArgs(options, params)[2..] == OptionArgs(options[1..], params);
      } else {
        assert OptionArgs(options, params) == OptionArgs(options[1..], params);
      }
    }
  }

  /**
   * For every option a service takes, argparse finds the parameter (after
   * `str()` for the SMA windows, unchanged otherwise) exactly when the
   * parameter is present and truthy.
   */
  lemma ArgvRoundTrip(service: string, params: map<string, Param>, i: nat)
    requires i < |Options(service)|
    ensures var (name, flag, stringify) := Options(service)[i];
      && stringify == (service == "compute_sma_events")
      && FlagValue(Argv(service, params)[1..], flag)
           == if name in params && Truthy(params[name]) then Some(ArgValue(stringify, params[name])) else None
  {
    OptionArgsRoundTrip(Options(service), params, i);
    assert Argv(service, params)[1..] == OptionArgs(Options(service), params);
  }

  /** A non-string date reaches the price service's argv as it is, not as text. */
  lemma RawDateArgument(d: int)
    requires d != 0
    ensures Argv("fetch_prices", map["date" := Int(d)]) == [Str("fetch_prices"), Str("--date"), Int(d)]
  {
    var m := map["date" := Int(d)];
    var options := Options("fetch_prices");
    assert options == [("date", "--date", false)];
    assert "date" in m && Truthy(m["date"]);
    assert OptionArgs(options, m) == [Str("--date"), Int(d)] + OptionArgs(options[1..], m);
  }

  // ---------------------------------------------------------------------------
  // How a job ends

  /** How the service's `main()` came back. */
  datatype Outcome =
    | Returned
    | Exited(code: Option<int>)           // `SystemExit(code)`
    | Raised(message: string, traceback: string)

  /**
   * The status and exit code `execute_job` records: success on a plain
   * return, `SystemExit`'s code with `None` read as 0, and 1 on any other
   * exception.
   */
  function Verdict(outcome: Outcome): (r: (Status, int))
    ensures r.0 != Running
    ensures r.0 == Completed <==> r.1 == 0
    ensures outcome.Returned? || outcome == Exited(None) ==> r == (Completed, 0)
    ensures outcome.Exited? && outcome.code.Some? ==> r.1 == outcome.code.value
    ensures outcome.Raised? ==> r == (Failed, 1)
  {
    match outcome
    case Returned => (Completed, 0)
    case Exited(code) =>
      var c := code.GetOr(0);
      (if c == 0 then Completed else Failed, c)
    case Raised(_, _) => (Failed, 1)
  }

  /** The lines logged when the job ends. */
  function ClosingLines(outcome: Outcome): seq<string> {
    match outcome
    case Returned => ["Service completed successfully"]
    case Exited(code) => ["Service exited with code " + IntToDecimal(code.GetOr(0))]
    case Raised(message, traceback) => ["Error: " + message, "Traceback:", traceback]
  }

  const MissingKeyLines: seq<string> :=
    ["ERROR: Polygon API key not configured!", "Please add your API key to config.yaml under polygon.api_key"]

  /** A `fetch_prices` job without `POLYGON_API_KEY` fails before the service starts. */
  predicate MissingKey(service: string, apiKeySet: bool) {
    service == "fetch_prices" && !apiKeySet
  }

  /** The status and exit code the job ends with. */
  function FinalVerdict(service: string, apiKeySet: bool, outcome: Outcome): (Status, int) {
    if MissingKey(service, apiKeySet) then (Failed, 1) else Verdict(outcome)
  }

  ghost predicate EndedBefore(jobs: seq<Job>, t: nat) {
    forall j :: j in jobs ==> j.endTime.GetOr(0) < t
  }

  /** Logging a line changes neither which ids are present nor any end time. */
  lemma LogKeepsEnds(jobs: seq<Job>, id: string, line: string, t: nat)
    ensures HasId(jobs, id) ==> HasId(AppendLog(jobs, id, line), id)
    ensures EndedBefore(jobs, t) ==> EndedBefore(AppendLog(jobs, id, line), t)
  {
    var r := AppendLog(jobs, id, line);
    if HasId(jobs, id) {
      var j :| j in jobs && j.id == id;
      var i :| 0 <= i < |jobs| && jobs[i] == j;
      assert r[i] in r;
    }
    if EndedBefore(jobs, t) {
      forall j | j in r ensures j.endTime.GetOr(0) < t {
        var i :| 0 <= i < |r| && r[i] == j;
        assert jobs[i] in jobs;
      }
    }
  }

  lemma {:induction false} LogLinesKeepEnds(jobs: seq<Job>, id: string, lines: seq<string>, t: nat)
    ensures HasId(jobs, id) ==> HasId(LogLines(jobs, id, lines), id)
    ensures EndedBefore(jobs, t) ==> EndedBefore(LogLines(jobs, id, lines), t)
    decreases |lines|
  {
    if lines != [] {
      LogKeepsEnds(jobs, id, lines[0], t);
      LogLinesKeepEnds(AppendLog(jobs, id, lines[0]), id, lines[1..], t);
    }
  }

  /** After settling, the job with the id carries the given status, exit code and end time; the others keep theirs. */
  lemma SettledJob(jobs: seq<Job>, id: string, status: Status, code: int, end: nat, lines: seq<string>)
    ensures var r := Settle(jobs, id, status, code, end, lines);
      && (forall j :: j in r && j.id == id ==> j.status == status && j.exitCode == Some(code) && j.endTime == Some(end))
      && (HasId(jobs, id) ==> HasId(r, id))
      && (EndedBefore(jobs, end) ==> forall j :: j in r && j.id != id ==> j.endTime.GetOr(0) < end)
  {
    var r := Settle(jobs, id, status, code, end, lines);
    if HasId(jobs, id) {
      var j :| j in jobs && j.id == id;
      var i :| 0 <= i < |jobs| && jobs[i] == j;
      assert r[i] in r;
    }
    if EndedBefore(jobs, end) {
      forall j | j in r && j.id != id ensures j.endTime.GetOr(0) < end {
        var i :| 0 <= i < |r| && r[i] == j;
        assert jobs[i] in jobs;
      }
    }
  }

  /** In a table with distinct ids, a job is the only one with its id. */
  lemma OnlyOneWithId(b: seq<Job>, x: Job, y: Job)
    requires DistinctIds(b) && x in b && y in b && y != x
    ensures y.id != x.id
  {
    var p :| 0 <= p < |b| && b[p] == x;
    var q :| 0 <= q < |b| && b[q] == y;
    assert p != q;
    if p < q {
      assert b[p].id != b[q].id;
    } else {
      assert b[q].id != b[p].id;
    }
  }

  // ---------------------------------------------------------------------------
  // What a job's log receives

  /** The two lines every job starts with: the service name and the printed params. */
  function StartLines(service: string, paramsText: string): seq<string> {
    ["Starting service: " + service, "Parameters: " + paramsText]
  }

  /**
   * What the service's output, written piece by piece and then flushed,
   * leaves in the log: the complete non-empty lines of all of it, then the
   * unfinished last line when there is one.
   */
  function Captured(output: seq<string>): seq<string> {
    var text := Flatten(output);
    Logged([], text) + (if Rest(text) != [] then [Rest(text)] else [])
  }

  /** Every captured line is non-empty and holds no line break. */
  lemma CapturedLinesAreClean(output: seq<string>)
    ensures forall l :: l in Captured(output) ==> l != [] && '\n' !in l
  {
    var text := Flatten(output);
    assert [] + text == text;
    SplitHasNoBreaks(text);
  }

  /** Output made of non-empty break-free lines, each ended by a break, and a rest is captured as exactly those lines and that rest. */
  lemma CapturedWholeLines(output: seq<string>, lines: seq<string>, rest: string)
    requires forall l :: l in lines ==> l != [] && '\n' !in l
    requires '\n' !in rest
    requires Flatten(output) == Unlines(lines) + rest
    ensures Captured(output) == lines + (if rest != [] then [rest] else [])
  {
    var text := Flatten(output);
    assert [] + text == text;
    UnlinesRoundTrip(lines, rest);
    FilterAll(lines, NonEmpty);
  }

  /** One more piece of output: the log and the buffer after it are those of the longer prefix. */
  lemma CaptureStep(jobs: seq<Job>, id: string, output: seq<string>, i: nat)
    requires i < |output|
    ensures var text := Flatten(output[..i]);
      && LogLines(LogLines(jobs, id, Logged([], text)), id, Logged(Rest(text), output[i]))
           == LogLines(jobs, id, Logged([], Flatten(output[..i + 1])))
      && Rest(Rest(text) + output[i]) == Rest(Flatten(output[..i + 1]))
  {
    var text := Flatten(output[..i]);
    assert output[..i + 1] == output[..i] + [output[i]];
    FlattenAppend(output[..i], output[i]);
    WritesCompose([], text, output[i]);
    assert [] + text == text && [] + (text + output[i]) == text + output[i];
    LogLinesAppend(jobs, id, Logged([], text), Logged(Rest(text), output[i]));
  }

  /** The flush at the end: a non-empty buffer is the last captured line. */
  lemma CaptureFlushed(jobs: seq<Job>, id: string, output: seq<string>)
    ensures var text := Flatten(output);
      LogLines(jobs, id, Captured(output))
        == var logged := LogLines(jobs, id, Logged([], text));
           if Rest(text) != [] then AppendLog(logged, id, Rest(text)) else logged
  {
    var text := Flatten(output);
    var tail := if Rest(text) != [] then [Rest(text)] else [];
    LogLinesAppend(jobs, id, Logged([], text), tail);
    if tail != [] {
      LogLinesSnoc(LogLines(jobs, id, Logged([], text)), id, [], Rest(text));
    }
  }

  /** Logging lines changes only the job with the id: its log is the bounded append of the lines. */
  lemma {:induction false} LogLinesAt(jobs: seq<Job>, id: string, lines: seq<string>, i: nat)
    requires i < |jobs|
    ensures |LogLines(jobs, id, lines)| == |jobs|
    ensures LogLines(jobs, id, lines)[i]
      == if jobs[i].id == id then jobs[i].(logs := BoundedAppendAll(jobs[i].logs, lines)) else jobs[i]
    decreases |lines|
  {
    if lines != [] {
      LogLinesAt(AppendLog(jobs, id, lines[0]), id, lines[1..], i);
    }
  }

  /**
   * Logging lines and then settling a job with closing lines leaves it with
   * the new status, exit code and end time, and with the last
   * `MAX_LOG_LINES` of its old log, the lines and the closing lines.
   */
  lemma SettledLogAt(jobs: seq<Job>, id: string, lines: seq<string>, status: Status, code: int, end: nat,
                     closing: seq<string>, i: nat)
    requires i < |jobs| && jobs[i].id == id && |jobs[i].logs| <= MaxLogLines
    ensures var t := Settle(LogLines(jobs, id, lines), id, status, code, end, closing);
      && |t| == |jobs|
      && t[i] == jobs[i].(status := status, exitCode := Some(code), endTime := Some(end),
                          logs := LastN(jobs[i].logs + lines + closing, MaxLogLines))
  {
    var logs := jobs[i].logs;
    LogLinesAt(jobs, id, lines, i);
    assert LastN(logs, MaxLogLines) == logs;
    LogKeepsLastLines(logs, lines);
    LogKeepsLastLines(logs + lines, closing);
  }

  /**
   * The table `execute_job` leaves before its cleanup: the start lines are
   * logged; without the API key the job fails with the two error lines;
   * otherwise the captured output is logged and the job settled with its
   * verdict and closing lines.
   */
  function RunTable(jobs: seq<Job>, id: string, service: string, paramsText: string, apiKeySet: bool,
                    output: seq<string>, outcome: Outcome, now: nat): seq<Job> {
    if MissingKey(service, apiKeySet) then
      Settle(LogLines(jobs, id, StartLines(service, paramsText)), id, Failed, 1, now, MissingKeyLines)
    else
      Settle(LogLines(jobs, id, StartLines(service, paramsText) + Captured(output)), id,
             Verdict(outcome).0, Verdict(outcome).1, now, ClosingLines(outcome))
  }

  /** The lines a run adds to its job's log after the start lines. */
  function RunLines(service: string, apiKeySet: bool, output: seq<string>, outcome: Outcome): seq<string> {
    if MissingKey(service, apiKeySet) then MissingKeyLines else Captured(output) + ClosingLines(outcome)
  }

  /**
   * The job record a run leaves: only the job's own entry changes, taking
   * the final verdict and end time, and its log becomes the last
   * `MAX_LOG_LINES` of the old log, the start lines and the run's lines.
   */
  lemma RunRecord(jobs: seq<Job>, id: string, service: string, paramsText: string, apiKeySet: bool,
                  output: seq<string>, outcome: Outcome, now: nat, i: nat)
    requires i < |jobs| && |jobs[i].logs| <= MaxLogLines
    ensures var t := RunTable(jobs, id, service, paramsText, apiKeySet, output, outcome, now);
      && |t| == |jobs|
      && t[i] == if jobs[i].id != id then jobs[i] else
           var v := FinalVerdict(service, apiKeySet, outcome);
           jobs[i].(status := v.0, exitCode := Some(v.1), endTime := Some(now),
                    logs := LastN(jobs[i].logs + StartLines(service, paramsText)
                                  + RunLines(service, apiKeySet, output, outcome), MaxLogLines))
  {
    var start := StartLines(service, paramsText);
    if MissingKey(service, apiKeySet) {
      RunRecordOf(jobs, id, start, [], MissingKeyLines, Failed, 1, now, i);
      assert start + [] == start;
    } else {
      RunRecordOf(jobs, id, start, Captured(output), ClosingLines(outcome), Verdict(outcome).0, Verdict(outcome).1, now, i);
    }
  }

  /** `RunRecord` for start lines, then `body` logged and settled with `closing`. */
  lemma RunRecordOf(jobs: seq<Job>, id: string, start: seq<string>, body: seq<string>, closing: seq<string>,
                    status: Status, code: int, now: nat, i: nat)
    requires i < |jobs| && |jobs[i].logs| <= MaxLogLines
    ensures var t := Settle(LogLines(jobs, id, start + body), id, status, code, now, closing);
      && |t| == |jobs|
      && t[i] == if jobs[i].id != id then jobs[i] else
           jobs[i].(status := status, exitCode := Some(code), endTime := Some(now),
                    logs := LastN(jobs[i].logs + start + (body + closing), MaxLogLines))
  {
    if jobs[i].id == id {
      SettledLogAt(jobs, id, start + body, status, code, now, closing, i);
      assert jobs[i].logs + (start + body) + closing == jobs[i].logs + start + (body + closing);
    } else {
      LogLinesAt(jobs, id, start + body, i);
    }
  }

  /**
   * `execute_job(job_id, service, params)`: the start lines, the API key
   * check (which fails the job without a cleanup), the service's output
   * through a `LogCapture`, the closing update and the cleanup. `output` is
   * what the service wrote, piece by piece, `outcome` how it ended, and
   * `paramsText` the printed params.
   */
  method ExecuteJob(reg: JobRegistry, id: string, service: string, paramsText: string, apiKeySet: bool,
                    output: seq<string>, outcome: Outcome, now: nat)
    requires reg.Valid()
    modifies reg
    ensures reg.Valid() && reg.counter == old(reg.counter)
    ensures var t := RunTable(old(reg.jobs), id, service, paramsText, apiKeySet, output, outcome, now);
      reg.jobs == if MissingKey(service, apiKeySet) then t else Cleaned(t)
    ensures forall j :: j in reg.jobs && j.id == id ==>
      && j.status == FinalVerdict(service, apiKeySet, outcome).0
      && j.exitCode == Some(FinalVerdict(service, apiKeySet, outcome).1)
      && j.endTime == Some(now)
    ensures MissingKey(service, apiKeySet) ==> |reg.jobs| == |old(reg.jobs)|
    ensures HasId(old(reg.jobs), id) && EndedBefore(old(reg.jobs), now) ==> HasId(reg.jobs, id)
  {
    ghost var start := reg.jobs;
    LogStartLines(reg, id, service, paramsText, now);
    if MissingKey(service, apiKeySet) {
      ghost var before := reg.jobs;
      reg.SettleJob(id, Failed, 1, now, MissingKeyLines);
      SettledJob(before, id, Failed, 1, now, MissingKeyLines);
      return;
    }
    CaptureAndSettle(reg, id, output, outcome, now);
    LogLinesAppend(start, id, StartLines(service, paramsText), Captured(output));
  }

  /** A job past the key check: its output is captured, then it is settled and old jobs are cleaned up. */
  method CaptureAndSettle(reg: JobRegistry, id: string, output: seq<string>, outcome: Outcome, now: nat)
    requires reg.Valid()
    modifies reg
    ensures reg.Valid() && reg.counter == old(reg.counter)
    ensures reg.jobs == Cleaned(Settle(LogLines(old(reg.jobs), id, Captured(output)), id,
                                       Verdict(outcome).0, Verdict(outcome).1, now, ClosingLines(outcome)))
    ensures forall j :: j in reg.jobs && j.id == id ==>
      && j.status == Verdict(outcome).0
      && j.exitCode == Some(Verdict(outcome).1)
      && j.endTime == Some(now)
    ensures HasId(old(reg.jobs), id) && EndedBefore(old(reg.jobs), now) ==> HasId(reg.jobs, id)
  {
    ghost var start := reg.jobs;
    CaptureOutput(reg, id, output, now);
    var verdict := Verdict(outcome);
    ghost var beforeSettle := reg.jobs;
    reg.SettleJob(id, verdict.0, verdict.1, now, ClosingLines(outcome));
    ghost var settled := reg.jobs;
    SettledJob(beforeSettle, id, verdict.0, verdict.1, now, ClosingLines(outcome));
    var _ := reg.CleanupOldJobs();
    CleanupKeepsRunning(settled);
    if HasId(start, id) && EndedBefore(start, now) {
      SettledSurvives(settled, id, now);
    }
  }

  /** The two start lines go to the job's log. */
  method LogStartLines(reg: JobRegistry, id: string, service: string, paramsText: string, now: nat)
    requires reg.Valid()
    modifies reg
    ensures reg.Valid() && reg.counter == old(reg.counter) && |reg.jobs| == |old(reg.jobs)|
    ensures reg.jobs == LogLines(old(reg.jobs), id, StartLines(service, paramsText))
    ensures HasId(old(reg.jobs), id) ==> HasId(reg.jobs, id)
    ensures EndedBefore(old(reg.jobs), now) ==> EndedBefore(reg.jobs, now)
  {
    ghost var start := reg.jobs;
    reg.AppendLogLine(id, "Starting service: " + service);
    LogKeepsEnds(start, id, "Starting service: " + service, now);
    ghost var started := reg.jobs;
    reg.AppendLogLine(id, "Parameters: " + paramsText);
    LogKeepsEnds(started, id, "Parameters: " + paramsText, now);
    LogLinesSnoc(start, id, ["Starting service: " + service], "Parameters: " + paramsText);
    LogLinesSnoc(start, id, [], "Starting service: " + service);
  }

  /**
   * The service's output, written piece by piece to a `LogCapture` for the
   * job and flushed at the end: the job's log receives the captured lines,
   * so no id goes and no end time moves.
   */
  method CaptureOutput(reg: JobRegistry, id: string, output: seq<string>, now: nat)
    requires reg.Valid()
    modifies reg
    ensures reg.Valid() && reg.counter == old(reg.counter)
    ensures reg.jobs == LogLines(old(reg.jobs), id, Captured(output))
    ensures HasId(old(reg.jobs), id) ==> HasId(reg.jobs, id)
    ensures EndedBefore(old(reg.jobs), now) ==> EndedBefore(reg.jobs, now)
  {
    var capture := new LogCapture(id);
    for i := 0 to |output|
      invariant reg.Valid() && reg.counter == old(reg.counter) && capture.Valid() && capture.jobId == id
      invariant capture.buffer == Rest(Flatten(output[..i]))
      invariant reg.jobs == LogLines(old(reg.jobs), id, Logged([], Flatten(output[..i])))
    {
      var _ := capture.Write(output[i], reg);
      CaptureStep(old(reg.jobs), id, output, i);
    }
    assert output[..|output|] == output;
    capture.Flush(reg);
    CaptureFlushed(old(reg.jobs), id, output);
    LogLinesKeepEnds(old(reg.jobs), id, Captured(output), now);
  }

  /** The job just settled, ending after every other job, survives the cleanup. */
  lemma SettledSurvives(settled: seq<Job>, id: string, now: nat)
    requires DistinctIds(settled) && HasId(settled, id)
    requires forall j :: j in settled && j.id == id ==> j.status != Running && j.endTime == Some(now)
    requires forall j :: j in settled && j.id != id ==> j.endTime.GetOr(0) < now
    ensures HasId(Cleaned(settled), id)
  {
    var x :| x in settled && x.id == id;
    forall y | y in settled && y.status != Running && y != x
      ensures y.endTime.GetOr(0) < x.endTime.GetOr(0)
    {
      OnlyOneWithId(settled, x, y);
    }
    JustFinishedSurvives(settled, x);
  }
}
