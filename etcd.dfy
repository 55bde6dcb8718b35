/**
 * What the two etcd checks share: the pod lookup and the shape of the
 * `kubectl exec ... etcdctl` command run on every etcd pod.
 */
module Etcd {
  import opened Command
  import opened Strings
  import opened Outcomes

  const Namespace := "kube-system"
  const PodSelector: map<string, string> := map["component" := "etcd"]

  /** The List call both checks make first. */
  const PodQuery: Call := ListPods(Namespace, PodSelector)

  /** The etcdctl environment: the local endpoint and the node's etcd client certificates. */
  const EtcdctlEnv := "ETCDCTL_ENDPOINTS='https://127.0.0.1:2379' ETCDCTL_CACERT='/var/lib/rancher/rke2/server/tls/etcd/server-ca.crt' ETCDCTL_CERT='/var/lib/rancher/rke2/server/tls/etcd/server-client.crt' ETCDCTL_KEY='/var/lib/rancher/rke2/server/tls/etcd/server-client.key' ETCDCTL_API=3 "

  /** `kubectl -n kube-system exec <pod> -- sh -c "<env> <etcdctl>"`. */
  function ExecParams(pod: string, etcdctl: string): (argv: seq<string>)
    ensures |argv| == 9 && argv[..8] == ["kubectl", "-n", "kube-system", "exec", pod, "--", "sh", "-c"]
    ensures HasPrefix(argv[8], EtcdctlEnv) && argv[8][|EtcdctlEnv|..] == etcdctl
  {
    ["kubectl", "-n", Namespace, "exec", pod, "--", "sh", "-c", EtcdctlEnv + etcdctl]
  }

  /** The invocation: current directory, the parent's stdin, stdout into a buffer. */
  function ExecInvocation(pod: string, etcdctl: string): Invocation {
    ExecuteWith("", ParentStdin, Buffer, ExecParams(pod, etcdctl))
  }

  /** One exec call per pod, in pod order. */
  function ExecCalls(pods: seq<string>, etcdctl: string): seq<Call> {
    seq(|pods|, i requires 0 <= i < |pods| => Exec(ExecInvocation(pods[i], etcdctl)))
  }

  /** Exactly one exec per pod, in pod order, each running etcdctl on that pod. */
  lemma ExecCallsPerPod(pods: seq<string>, etcdctl: string)
    ensures |ExecCalls(pods, etcdctl)| == |pods|
    ensures forall i :: 0 <= i < |pods| ==>
      ExecCalls(pods, etcdctl)[i].Exec? && ExecCalls(pods, etcdctl)[i].inv.Argv() == ExecParams(pods[i], etcdctl)
  {
  }

  /** The last pod is handled last. */
  lemma ExecCallsSnoc(pods: seq<string>, pod: string, etcdctl: string)
    ensures ExecCalls(pods + [pod], etcdctl) == ExecCalls(pods, etcdctl) + [Exec(ExecInvocation(pod, etcdctl))]
  {
    assert ExecCalls(pods + [pod], etcdctl)[..|pods|] == ExecCalls(pods, etcdctl);
  }

  // ---------------------------------------------------------------- the pod loop

  /** Which etcdctl subcommand a check runs on every pod. */
  datatype Probe = EndpointHealth | AlarmList

  const HealthyMarker := "is healthy"

  function Subcommand(probe: Probe): string {
    match probe
    case EndpointHealth => "etcdctl endpoint health"
    case AlarmList => "etcdctl alarm list"
  }

  /** What a check reads from a pod's output: the health check finds the pod not healthy
      unless the output says "is healthy"; the alarm check reports any output verbatim. */
  function PodFinding(probe: Probe, pod: string, output: string): (f: Option<Finding>)
    ensures probe == EndpointHealth ==>
      (f.None? <==> Contains(output, HealthyMarker)) && (f.Some? ==> f.value == PodNotHealthy(pod))
    ensures probe == AlarmList ==>
      (f.None? <==> output == "") && (f.Some? ==> f.value == PodHasAlarms(pod, output))
  {
    match probe
    case EndpointHealth => if !Contains(output, HealthyMarker) then Some(PodNotHealthy(pod)) else None
    case AlarmList => if output != "" then Some(PodHasAlarms(pod, output)) else None
  }

  /** What exec'ing the probe on a pod returns, pod by pod. */
  function PodRun(probe: Probe, run: seq<string> -> Captured): string -> Captured {
    pod => run(ExecParams(pod, Subcommand(probe)))
  }

  /** The causes one pod adds: its exec failure first, then what the check reads from
      the output, if anything. */
  function PodCauses(pod: string, out: Captured, finding: Option<Finding>): (cs: seq<Cause>)
    ensures |cs| <= 2
    ensures cs == [] <==> out.ok && finding.None?
    ensures !out.ok ==> cs[0] == ExecFailure(EtcdCommand(pod))
    ensures finding.Some? ==> cs[|cs| - 1] == Evidence(finding.value)
  {
    (if !out.ok then [ExecFailure(EtcdCommand(pod))] else [])
      + (if finding.Some? then [Evidence(finding.value)] else [])
  }

  /** The causes of all pods, pod by pod in list order; `exec` gives what exec'ing the
      probe on a pod returns. */
  function AllCauses(pods: seq<string>, probe: Probe, exec: string -> Captured): seq<Cause>
    decreases |pods|
  {
    if pods == [] then []
    else
      var last := pods[|pods| - 1];
      var out := exec(last);
      AllCauses(pods[..|pods| - 1], probe, exec) + PodCauses(last, out, PodFinding(probe, last, out.output))
  }

  /** Both etcd checks: a pod-list failure is returned at once; otherwise every pod is
      exec'd and the causes are aggregated. */
  function CheckPods(pods: Listing<string>, probe: Probe, run: seq<string> -> Captured): (r: Report)
    ensures WellFormed(r.outcome)
    ensures |r.calls| >= 1 && r.calls[0] == PodQuery
  {
    match pods
    case ListFailed => Report(Fail(ExecFailure(ListEtcdPods)), [PodQuery])
    case Listed(items) =>
      Report(Aggregate(AllCauses(items, probe, PodRun(probe, run))), [PodQuery] + ExecCalls(items, Subcommand(probe)))
  }

  lemma AllCausesStep(pods: seq<string>, i: nat, probe: Probe, exec: string -> Captured)
    requires i < |pods|
    ensures AllCauses(pods[..i + 1], probe, exec)
         == AllCauses(pods[..i], probe, exec)
            + PodCauses(pods[i], exec(pods[i]), PodFinding(probe, pods[i], exec(pods[i]).output))
  {
    assert pods[..i + 1][..i] == pods[..i];
  }

  /** Causes are collected pod by pod: the causes of a concatenation are the concatenation. */
  lemma {:induction false} AllCausesAppend(a: seq<string>, b: seq<string>, probe: Probe, exec: string -> Captured)
    ensures AllCauses(a + b, probe, exec) == AllCauses(a, probe, exec) + AllCauses(b, probe, exec)
    decreases |b|
  {
    if b == [] {
      assert a + b == a;
    } else {
      var b' := b[..|b| - 1];
      var last := b[|b| - 1];
      var tail := PodCauses(last, exec(last), PodFinding(probe, last, exec(last).output));
      assert (a + b)[..|a + b| - 1] == a + b' && (a + b)[|a + b| - 1] == last;
      assert AllCauses(a + b, probe, exec) == AllCauses(a + b', probe, exec) + tail;
      assert AllCauses(b, probe, exec) == AllCauses(b', probe, exec) + tail;
      AllCausesAppend(a, b', probe, exec);
    }
  }

  /** No cause is gathered exactly when every pod's exec succeeds and the check reads
      nothing wrong from its output. */
  lemma {:induction false} AllCausesEmptyIff(pods: seq<string>, probe: Probe, exec: string -> Captured)
    ensures AllCauses(pods, probe, exec) == []
        <==> forall i :: 0 <= i < |pods| ==>
               exec(pods[i]).ok && PodFinding(probe, pods[i], exec(pods[i]).output).None?
    decreases |pods|
  {
    if pods != [] {
      var init := pods[..|pods| - 1];
      AllCausesEmptyIff(init, probe, exec);
      assert forall i :: 0 <= i < |init| ==> init[i] == pods[i];
    }
  }

  /** A pod's exec failure is reported exactly when it is listed and its exec fails. */
  lemma {:induction false} ExecFailureCauseIff(pods: seq<string>, probe: Probe, exec: string -> Captured, p: string)
    ensures ExecFailure(EtcdCommand(p)) in AllCauses(pods, probe, exec) <==> p in pods && !exec(p).ok
    decreases |pods|
  {
    if pods != [] {
      var init := pods[..|pods| - 1];
      ExecFailureCauseIff(init, probe, exec, p);
      assert pods == init + [pods[|pods| - 1]];
    }
  }

  /** A finding is reported exactly when the check reads it from some listed pod's output. */
  lemma {:induction false} FindingCauseIff(pods: seq<string>, probe: Probe, exec: string -> Captured, f: Finding)
    ensures Evidence(f) in AllCauses(pods, probe, exec)
        <==> exists i :: 0 <= i < |pods| && PodFinding(probe, pods[i], exec(pods[i]).output) == Some(f)
    decreases |pods|
  {
    if pods != [] {
      var init := pods[..|pods| - 1];
      var last := pods[|pods| - 1];
      FindingCauseIff(init, probe, exec, f);
      if Evidence(f) in AllCauses(pods, probe, exec) {
        if Evidence(f) in AllCauses(init, probe, exec) {
          var i :| 0 <= i < |init| && PodFinding(probe, init[i], exec(init[i]).output) == Some(f);
          assert init[i] == pods[i];
        } else {
          assert PodFinding(probe, last, exec(last).output) == Some(f);
        }
      }
      if exists i :: 0 <= i < |pods| && PodFinding(probe, pods[i], exec(pods[i]).output) == Some(f) {
        var i :| 0 <= i < |pods| && PodFinding(probe, pods[i], exec(pods[i]).output) == Some(f);
        if i < |init| {
          assert init[i] == pods[i];
        }
      }
    }
  }

  /** A pod-list failure is the only cause, and no pod is exec'd. */
  lemma ListFailureExecsNothing(probe: Probe, run: seq<string> -> Captured)
    ensures CausesOf(CheckPods(ListFailed, probe, run).outcome) == [ExecFailure(ListEtcdPods)]
    ensures forall c :: c in CheckPods(ListFailed, probe, run).calls ==> !c.Exec?
  {
  }
}
