/**
 * The etcd-alarm check: `etcdctl alarm list` on every etcd pod; an exec failure and
 * any non-empty output (an active alarm) are separate causes of that pod.
 */
module EtcdAlarm {
  import opened Command
  import opened Outcomes
  import opened Etcd

  const Name := "etcd_alarm"
  const Etcdctl := Subcommand(AlarmList)

  function Params(pod: string): seq<string> {
    ExecParams(pod, Etcdctl)
  }

  /** The causes of all pods, pod by pod in list order. */
  function Causes(pods: seq<string>, run: seq<string> -> Captured): seq<Cause> {
    AllCauses(pods, AlarmList, PodRun(AlarmList, run))
  }

  /** The specification of Run. */
  function Check(pods: Listing<string>, run: seq<string> -> Captured): Report {
    CheckPods(pods, AlarmList, run)
  }

  /** The check as the source runs it: one loop over the pods appending causes. */
  method Run(pods: Listing<string>, run: seq<string> -> Captured) returns (report: Report)
    ensures report == Check(pods, run)
  {
    if pods.ListFailed? {
      return Report(Fail(ExecFailure(ListEtcdPods)), [PodQuery]);
    }
    var items := pods.items;
    var causes: seq<Cause> := [];
    var calls := [PodQuery];
    var i := 0;
    while i < |items|
      invariant 0 <= i <= |items|
      invariant causes == Causes(items[..i], run)
      invariant calls == [PodQuery] + ExecCalls(items[..i], Etcdctl)
    {
      var pod := items[i];
      var out := run(Params(pod));
      calls := calls + [Exec(ExecInvocation(pod, Etcdctl))];
      causes := AddPodCauses(causes, pod, out);
      assert out == PodRun(AlarmList, run)(items[i]);
      AllCausesStep(items, i, AlarmList, PodRun(AlarmList, run));
      ExecCallsSnoc(items[..i], pod, Etcdctl);
      assert items[..i + 1] == items[..i] + [pod];
      i := i + 1;
    }
    assert items[..i] == items;
    report := Report(Aggregate(causes), calls);
  }

  /** The appends the loop makes for one pod: its exec failure, then its finding. */
  method AddPodCauses(causes: seq<Cause>, pod: string, out: Captured) returns (r: seq<Cause>)
    ensures r == causes + PodCauses(pod, out, PodFinding(AlarmList, pod, out.output))
  {
    r := causes;
    if !out.ok {
      r := r + [ExecFailure(EtcdCommand(pod))];
    }
    if out.output != "" {
      r := r + [Evidence(PodHasAlarms(pod, out.output))];
    }
  }

  /** The check passes exactly when every pod's exec succeeds with empty output;
      in particular, no pods at all is healthy. */
  lemma HealthyIff(pods: seq<string>, run: seq<string> -> Captured)
    ensures Check(Listed(pods), run).outcome.Healthy?
        <==> forall i :: 0 <= i < |pods| ==> run(Params(pods[i])).ok && run(Params(pods[i])).output == ""
  {
    AllCausesEmptyIff(pods, AlarmList, PodRun(AlarmList, run));
  }

  /** A pod is reported with alarms exactly when it is listed and its output is that
      non-empty text; whitespace alone counts as an alarm. */
  lemma AlarmCauseIff(pods: seq<string>, run: seq<string> -> Captured, p: string, text: string)
    ensures Evidence(PodHasAlarms(p, text)) in Causes(pods, run)
        <==> p in pods && text != "" && run(Params(p)).output == text
  {
    FindingCauseIff(pods, AlarmList, PodRun(AlarmList, run), PodHasAlarms(p, text));
    if p in pods && text != "" && run(Params(p)).output == text {
      var i :| 0 <= i < |pods| && pods[i] == p;
      assert PodFinding(AlarmList, pods[i], run(Params(pods[i])).output) == Some(PodHasAlarms(p, text));
    }
  }

  /** A failed exec that still printed something gives two causes, the failure first. */
  lemma FailedExecWithOutput(pod: string, run: seq<string> -> Captured)
    requires !run(Params(pod)).ok && run(Params(pod)).output != ""
    ensures Check(Listed([pod]), run).outcome
         == Unhealthy([ExecFailure(EtcdCommand(pod)), Evidence(PodHasAlarms(pod, run(Params(pod)).output))])
  {
    AllCausesStep([pod], 0, AlarmList, PodRun(AlarmList, run));
    assert [pod][..1] == [pod] && [pod][..0] == [];
    var out := run(Params(pod));
    assert PodFinding(AlarmList, pod, out.output) == Some(PodHasAlarms(pod, out.output));
  }

  /** The alarm command differs from the health command only in the etcdctl subcommand. */
  lemma SameExecShape(pod: string)
    ensures Params(pod)[..8] == ExecParams(pod, "etcdctl endpoint health")[..8]
    ensures Params(pod)[8] == EtcdctlEnv + Etcdctl
  {
  }
}
