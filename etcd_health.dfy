/**
 * The etcd-health check: `etcdctl endpoint health` on every etcd pod; a pod whose
 * exec fails, or whose output lacks "is healthy", contributes a cause.
 */
module EtcdHealth {
  import opened Command
  import opened Strings
  import opened Outcomes
  import opened Etcd

  const Name := "etcd_health"
  const Etcdctl := Subcommand(EndpointHealth)

  function Params(pod: string): seq<string> {
    ExecParams(pod, Etcdctl)
  }

  /** The causes of all pods, pod by pod in list order. */
  function Causes(pods: seq<string>, run: seq<string> -> Captured): seq<Cause> {
    AllCauses(pods, EndpointHealth, PodRun(EndpointHealth, run))
  }

  /** The specification of Run. */
  function Check(pods: Listing<string>, run: seq<string> -> Captured): Report {
    CheckPods(pods, EndpointHealth, run)
  }

  /** The check as the source runs it: one loop over the pods appending causes. */
  method Run(pods: Listing<string>, run: seq<string> -> Captured) returns (report: Report)
    ensures report == Check(pods, run)
  {
    if pods.ListFailed? {
      return Report(Fail(ExecFailure(ListEtcdPods)), [PodQuery]);
    }
    var items := pods.items;
    var causes: seq<Cause> := [];
    var calls := [PodQuery];
    var i := 0;
    while i < |items|
      invariant 0 <= i <= |items|
      invariant causes == Causes(items[..i], run)
      invariant calls == [PodQuery] + ExecCalls(items[..i], Etcdctl)
    {
      var pod := items[i];
      var out := run(Params(pod));
      calls := calls + [Exec(ExecInvocation(pod, Etcdctl))];
      causes := AddPodCauses(causes, pod, out);
      assert out == PodRun(EndpointHealth, run)(items[i]);
      AllCausesStep(items, i, EndpointHealth, PodRun(EndpointHealth, run));
      ExecCallsSnoc(items[..i], pod, Etcdctl);
      assert items[..i + 1] == items[..i] + [pod];
      i := i + 1;
    }
    assert items[..i] == items;
    report := Report(Aggregate(causes), calls);
  }

  /** The appends the loop makes for one pod: its exec failure, then its finding. */
  method AddPodCauses(causes: seq<Cause>, pod: string, out: Captured) returns (r: seq<Cause>)
    ensures r == causes + PodCauses(pod, out, PodFinding(EndpointHealth, pod, out.output))
  {
    r := causes;
    if !out.ok {
      r := r + [ExecFailure(EtcdCommand(pod))];
    }
    if !Contains(out.output, HealthyMarker) {
      r := r + [Evidence(PodNotHealthy(pod))];
    }
  }

  /** The check passes exactly when every pod's exec succeeds and reports "is healthy";
      in particular, no pods at all is healthy. */
  lemma HealthyIff(pods: seq<string>, run: seq<string> -> Captured)
    ensures Check(Listed(pods), run).outcome.Healthy?
        <==> forall i :: 0 <= i < |pods| ==> run(Params(pods[i])).ok && Contains(run(Params(pods[i])).output, HealthyMarker)
  {
    AllCausesEmptyIff(pods, EndpointHealth, PodRun(EndpointHealth, run));
  }

  /** A pod is reported "not healthy" exactly when it is listed and its output lacks the marker. */
  lemma NotHealthyCauseIff(pods: seq<string>, run: seq<string> -> Captured, p: string)
    ensures Evidence(PodNotHealthy(p)) in Causes(pods, run)
        <==> p in pods && !Contains(run(Params(p)).output, HealthyMarker)
  {
    FindingCauseIff(pods, EndpointHealth, PodRun(EndpointHealth, run), PodNotHealthy(p));
    if p in pods && !Contains(run(Params(p)).output, HealthyMarker) {
      var i :| 0 <= i < |pods| && pods[i] == p;
      assert PodFinding(EndpointHealth, pods[i], run(Params(pods[i])).output) == Some(PodNotHealthy(p));
    }
  }

  /** A failed exec whose output lacks "is healthy" gives two causes, the failure first. */
  lemma FailedExecWithoutMarker(pod: string, run: seq<string> -> Captured)
    requires !run(Params(pod)).ok && !Contains(run(Params(pod)).output, HealthyMarker)
    ensures Check(Listed([pod]), run).outcome
         == Unhealthy([ExecFailure(EtcdCommand(pod)), Evidence(PodNotHealthy(pod))])
  {
    AllCausesStep([pod], 0, EndpointHealth, PodRun(EndpointHealth, run));
    assert [pod][..1] == [pod] && [pod][..0] == [];
    var out := run(Params(pod));
    assert PodFinding(EndpointHealth, pod, out.output) == Some(PodNotHealthy(pod));
  }

  /** Three pods where only the middle one lacks "is healthy": exactly one cause, naming it. */
  lemma OneUnhealthyOfThree(a: string, b: string, c: string, run: seq<string> -> Captured)
    requires run(Params(a)).ok && Contains(run(Params(a)).output, HealthyMarker)
    requires run(Params(b)).ok && !Contains(run(Params(b)).output, HealthyMarker)
    requires run(Params(c)).ok && Contains(run(Params(c)).output, HealthyMarker)
    ensures Check(Listed([a, b, c]), run).outcome == Unhealthy([Evidence(PodNotHealthy(b))])
  {
    var pods := [a, b, c];
    var exec := PodRun(EndpointHealth, run);
    assert PodFinding(EndpointHealth, a, exec(a).output) == None;
    assert PodFinding(EndpointHealth, b, exec(b).output) == Some(PodNotHealthy(b));
    assert PodFinding(EndpointHealth, c, exec(c).output) == None;
    AllCausesStep(pods, 0, EndpointHealth, exec);
    AllCausesStep(pods, 1, EndpointHealth, exec);
    AllCausesStep(pods, 2, EndpointHealth, exec);
    assert pods[..0] == [] && pods[..3] == pods;
  }
}
