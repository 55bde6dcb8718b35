/**
 * The containerd-health check: `crictl ps` (a failure and an empty listing are two
 * independent causes), then the last 30 lines of the containerd log, scanned for
 * lines containing "error" in any letter case.
 */
module ContainerdHealth {
  import opened Command
  import opened Strings
  import opened Outcomes

  const Name := "containerd_health"
  const CrictlParams := ["crictl", "ps"]
  const LogPath := "/var/lib/rancher/rke2/agent/containerd/containerd.log"
  const TailParams := ["tail", "-n", "30", LogPath]
  const ErrorWord := "error"

  /** How the tail subprocess went: its stdout pipe could not be created, it could not
      be started, or it was started and produced lines (scanning or waiting may still fail). */
  datatype Tail =
    | PipeFailed
    | StartFailed
    | Scanned(lines: seq<string>, readFailed: bool, waitFailed: bool)

  const CrictlCall: Call := Exec(ExecuteWith("", Nothing, Buffer, CrictlParams))
  /** tail is built with exec.Command directly, not through the runner: only its stdout is
      set, to a pipe, so its stdin and stderr are the null device. */
  const TailCall: Call := Exec(NewCommand(TailParams).(stdout := Pipe))

  /** A log line is selected when its lower-cased text contains "error". */
  predicate IsErrorLine(line: string) {
    Contains(Lower(line), ErrorWord)
  }

  /** The selected lines, verbatim and in log order. */
  function ErrorLines(lines: seq<string>): seq<string>
    decreases |lines|
  {
    if lines == [] then []
    else
      var last := lines[|lines| - 1];
      ErrorLines(lines[..|lines| - 1]) + (if IsErrorLine(last) then [last] else [])
  }

  /** The causes found by crictl: the failure first, then the empty listing. */
  function CrictlCauses(crictl: Captured): seq<Cause> {
    (if !crictl.ok then [ExecFailure(ListContainers)] else [])
      + (if crictl.output == "" then [Evidence(NoContainers)] else [])
  }

  /** The outcome once tail has been started and its output scanned. */
  function ScannedReport(crictl: Captured, lines: seq<string>, readFailed: bool, waitFailed: bool): (r: Report)
    ensures WellFormed(r.outcome)
    ensures r.calls == [CrictlCall, TailCall]
    ensures readFailed ==> r.outcome == Fail(ExecFailure(TailRead))
  {
    if readFailed then Report(Fail(ExecFailure(TailRead)), [CrictlCall, TailCall])
    else if waitFailed then Report(Fail(ExecFailure(TailWait)), [CrictlCall, TailCall])
    else
      var errLines := ErrorLines(lines);
      var logCauses := if errLines != [] then [Evidence(LogErrors(errLines))] else [];
      Report(Aggregate(CrictlCauses(crictl) + logCauses), [CrictlCall, TailCall])
  }

  /** crictl goes through the runner and its standard error reaches the parent's; tail
      does not, and what it writes to standard error is discarded. */
  lemma CallStreams()
    ensures CrictlCall.inv.Argv() == CrictlParams && CrictlCall.inv.stdout == Buffer
    ensures CrictlCall.inv.stdin == Nothing && CrictlCall.inv.stderr == ParentStderr
    ensures TailCall.inv.Argv() == TailParams && TailCall.inv.stdout == Pipe
    ensures TailCall.inv.stdin == Nothing && TailCall.inv.stderr == Nothing
  {
  }

  /** The specification of Run. */
  function Check(crictl: Captured, tail: Tail): (r: Report)
    ensures WellFormed(r.outcome)
    ensures |CausesOf(r.outcome)| <= 3
  {
    match tail
    case PipeFailed => Report(Fail(ExecFailure(TailPipe)), [CrictlCall])
    case StartFailed => Report(Fail(ExecFailure(TailStart)), [CrictlCall, TailCall])
    case Scanned(lines, readFailed, waitFailed) => ScannedReport(crictl, lines, readFailed, waitFailed)
  }

  /** The scanner loop: the lines containing "error" in any case, kept verbatim. */
  method ScanErrorLines(lines: seq<string>) returns (errLines: seq<string>)
    ensures errLines == ErrorLines(lines)
  {
    errLines := [];
    var i := 0;
    while i < |lines|
      invariant 0 <= i <= |lines|
      invariant errLines == ErrorLines(lines[..i])
    {
      var line := lines[i];
      if IsErrorLine(line) {
        errLines := errLines + [line];
      }
      assert lines[..i + 1][..i] == lines[..i];
      i := i + 1;
    }
    assert lines[..i] == lines;
  }

  /** The check as the source runs it: the crictl causes appended step by step, then
      early returns when tail cannot be piped or started. */
  method Run(crictl: Captured, tail: Tail) returns (report: Report)
    ensures report == Check(crictl, tail)
  {
    var calls := [CrictlCall];
    var errs: seq<Cause> := [];
    if !crictl.ok {
      errs := errs + [ExecFailure(ListContainers)];
    }
    if crictl.output == "" {
      errs := errs + [Evidence(NoContainers)];
    }
    if tail.PipeFailed? {
      return Report(Fail(ExecFailure(TailPipe)), calls);
    }
    calls := calls + [TailCall];
    if tail.StartFailed? {
      return Report(Fail(ExecFailure(TailStart)), calls);
    }
    report := FinishTail(crictl, errs, tail.lines, tail.readFailed, tail.waitFailed);
  }

  /** The rest of the check once tail runs: the scan, then the scan and wait errors, then
      the log evidence appended to the crictl causes. */
  method FinishTail(crictl: Captured, errs: seq<Cause>, lines: seq<string>, readFailed: bool, waitFailed: bool)
    returns (report: Report)
    requires errs == CrictlCauses(crictl)
    ensures report == ScannedReport(crictl, lines, readFailed, waitFailed)
  {
    var calls := [CrictlCall, TailCall];
    var errLines := ScanErrorLines(lines);
    if readFailed {
      return Report(Fail(ExecFailure(TailRead)), calls);
    }
    if waitFailed {
      return Report(Fail(ExecFailure(TailWait)), calls);
    }
    var all := errs;
    if |errLines| > 0 {
      all := all + [Evidence(LogErrors(errLines))];
    }
    report := Report(Aggregate(all), calls);
  }

  /** A line is selected exactly when it is in the log and contains "error" in any case. */
  lemma {:induction false} ErrorLinesMember(lines: seq<string>, x: string)
    ensures x in ErrorLines(lines) <==> x in lines && IsErrorLine(x)
    decreases |lines|
  {
    if lines != [] {
      var init := lines[..|lines| - 1];
      ErrorLinesMember(init, x);
      assert lines == init + [lines[|lines| - 1]];
    }
  }

  /** Selection works line by line, so it keeps the log order. */
  lemma {:induction false} ErrorLinesAppend(a: seq<string>, b: seq<string>)
    ensures ErrorLines(a + b) == ErrorLines(a) + ErrorLines(b)
    decreases |b|
  {
    if b == [] {
      assert a + b == a;
    } else {
      var b' := b[..|b| - 1];
      assert (a + b)[..|a + b| - 1] == a + b';
      ErrorLinesAppend(a, b');
    }
  }

  /** Selection never invents lines: at most as many lines as the log. */
  lemma {:induction false} ErrorLinesShorter(lines: seq<string>)
    ensures |ErrorLines(lines)| <= |lines|
    decreases |lines|
  {
    if lines != [] {
      ErrorLinesShorter(lines[..|lines| - 1]);
    }
  }

  /** Lower-casing twice is lower-casing once, so selection ignores letter case. */
  lemma IsErrorLineIgnoresCase(line: string)
    ensures Lower(Lower(line)) == Lower(line)
    ensures IsErrorLine(Lower(line)) == IsErrorLine(line)
  {
    assert Lower(Lower(line)) == Lower(line);
  }

  /** A line written in capitals is selected. */
  lemma CapitalErrorSelected()
    ensures IsErrorLine("ERROR")
  {
    assert Lower("ERROR") == ErrorWord;
  }

  /** Any tail failure is the only cause: the crictl causes gathered before are dropped. */
  lemma TailFailureDiscardsCrictlCauses(crictl: Captured, tail: Tail)
    requires tail.PipeFailed? || tail.StartFailed? || (tail.Scanned? && (tail.readFailed || tail.waitFailed))
    ensures |CausesOf(Check(crictl, tail).outcome)| == 1
    ensures CausesOf(Check(crictl, tail).outcome)[0].ExecFailure?
    ensures CausesOf(Check(crictl, tail).outcome)[0].step != ListContainers
  {
  }

  /** The check passes exactly when crictl succeeds with some output, tail runs cleanly
      and no log line contains "error". */
  lemma HealthyIff(crictl: Captured, tail: Tail)
    ensures Check(crictl, tail).outcome.Healthy?
        <==> crictl.ok && crictl.output != "" && tail.Scanned? && !tail.readFailed && !tail.waitFailed
             && forall x :: x in tail.lines ==> !IsErrorLine(x)
  {
    if tail.Scanned? {
      if forall x :: x in tail.lines ==> !IsErrorLine(x) {
        if ErrorLines(tail.lines) != [] {
          ErrorLinesMember(tail.lines, ErrorLines(tail.lines)[0]);
        }
      } else {
        var x :| x in tail.lines && IsErrorLine(x);
        ErrorLinesMember(tail.lines, x);
      }
    }
  }

  /** The log evidence is reported exactly when tail ran cleanly and selected some line,
      and it then carries all the selected lines, in log order, as the last cause. */
  lemma LogCauseIff(crictl: Captured, tail: Tail, ls: seq<string>)
    ensures Evidence(LogErrors(ls)) in CausesOf(Check(crictl, tail).outcome)
        <==> tail.Scanned? && !tail.readFailed && !tail.waitFailed && ls != [] && ls == ErrorLines(tail.lines)
    ensures Evidence(LogErrors(ls)) in CausesOf(Check(crictl, tail).outcome) ==>
      CausesOf(Check(crictl, tail).outcome)[|CausesOf(Check(crictl, tail).outcome)| - 1] == Evidence(LogErrors(ls))
  {
  }

  /** The two crictl causes are independent: the failure is reported exactly when crictl
      fails, the empty listing exactly when it printed nothing, each only when tail ran
      cleanly; when both are reported the failure comes first. */
  lemma CrictlCauseIff(crictl: Captured, tail: Tail)
    ensures ExecFailure(ListContainers) in CausesOf(Check(crictl, tail).outcome)
        <==> !crictl.ok && tail.Scanned? && !tail.readFailed && !tail.waitFailed
    ensures Evidence(NoContainers) in CausesOf(Check(crictl, tail).outcome)
        <==> crictl.output == "" && tail.Scanned? && !tail.readFailed && !tail.waitFailed
    ensures (ExecFailure(ListContainers) in CausesOf(Check(crictl, tail).outcome)
             && Evidence(NoContainers) in CausesOf(Check(crictl, tail).outcome)) ==>
      CausesOf(Check(crictl, tail).outcome)[..2] == [ExecFailure(ListContainers), Evidence(NoContainers)]
  {
  }

  /** A failed crictl that printed nothing gives both crictl causes, the failure first. */
  lemma CrictlCausesBoth(tail: Tail)
    requires tail.Scanned? && !tail.readFailed && !tail.waitFailed
    ensures CausesOf(Check(Captured(false, ""), tail).outcome)[..2]
         == [ExecFailure(ListContainers), Evidence(NoContainers)]
  {
  }

  /** No containers and two error lines among the log: two causes, the second listing
      both lines verbatim. */
  lemma EmptyListingAndTwoErrorLines(l0: string, l1: string, l2: string)
    requires !IsErrorLine(l0) && IsErrorLine(l1) && IsErrorLine(l2)
    ensures Check(Captured(true, ""), Scanned([l0, l1, l2], false, false)).outcome
         == Unhealthy([Evidence(NoContainers), Evidence(LogErrors([l1, l2]))])
  {
    assert [l0, l1, l2] == [l0] + [l1] + [l2];
    ErrorLinesAppend([l0] + [l1], [l2]);
    ErrorLinesAppend([l0], [l1]);
    assert [l0][..0] == [] && [l1][..0] == [] && [l2][..0] == [];
    assert ErrorLines([l0]) == [];
    assert ErrorLines([l1]) == [l1];
    assert ErrorLines([l2]) == [l2];
    assert ErrorLines([l0, l1, l2]) == [l1, l2];
    assert CrictlCauses(Captured(true, "")) == [Evidence(NoContainers)];
  }
}
