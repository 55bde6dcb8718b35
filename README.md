# infra doctor — a Dafny model of the diagnostic core

`infra doctor` runs a set of diagnostic checks ("executors") against an rke2 Kubernetes
node and its cluster. It records each check's result in a map keyed by the executor
name. This project models the decision logic of that command in Dafny:

- which executors the flags select, and the interactive selector shown when none is set;
- the five diagnostic checks whose source is available (etcd health, etcd alarm,
  containerd health, rke2 systemd health, prometheus alarm);
- the pool that runs the executors and fills the result map;
- the kubeconfig path resolution.

Every external effect is an input to the model:

- a subprocess is a function `run` from its argument vector to a `Captured` value (did it
  succeed, what did it write to the capture buffer);
- a cluster `List` call is a `Listing` (the items, or a failure);
- the containerd `tail` pipe is a `Tail` value (pipe, start, scan and wait outcomes plus the
  lines read);
- the HTTP GET with JSON decoding is a function from URL to an optional decoded response;
- whether the `rke2` binary or the rke2 kubeconfig file exists is a boolean.

A check returns a `Report`, which has two parts:

- an `Outcome`: `Healthy`, or `Unhealthy` with the causes in the order they were found;
- the ordered list of external calls the check made.

Each cause is an execution failure, a piece of evidence, or a refusal (precondition).
Causes are datatypes, not message text, so the properties are stated over structure.

Where the source changes state step by step, the model does too:

- the etcd, containerd and prometheus checks are methods with loops, each proved equal to a
  specification function;
- the pool is a class whose `Run` writes the result map;
- the selector is a class whose `Update` moves the cursor, toggles the selection and
  appends executors on enter.

The rke2 systemd check and the kubeconfig choice are straight-line decisions and are
modelled as functions.

The two etcd checks differ only in the etcdctl subcommand and in what they read from a
pod's output. Their specification is one per-pod fold (`Etcd.AllCauses`), given the check's
probe: the subcommand it runs and what it reads from the output (`Etcd.PodFinding`). Each
check keeps its own loop, as in the source.

Some behaviour documented for the tool differs from the code. The model follows the code
each time:

- The prometheus endpoint is the **last** ingress rule host starting with "prometheus",
  not the first, because the scan never stops (`PrometheusAlarm.LastPrometheusHostIff`).
- Alerts are reported **per rule**, not grouped by rule name. Two rules with the same name
  give two entries (`PrometheusAlarm.SameNamedRulesNotMerged`).
- The containerd check does abort early. A failure of the `tail` pipe, start, scan or wait
  returns one error and drops the crictl causes already gathered
  (`ContainerdHealth.TailFailureDiscardsCrictlCauses`).

In the rke2 systemd check, an `is-active` run that exits with an error is reported as a
status failure before its output is looked at. `systemctl is-active` exits non-zero for
an inactive unit. So on a real host the "inactive" branch, which reads the journal, is
reached only if `is-active` prints "inactive" and still succeeds
(`RkeSystemdHealth.FailingStatusHidesInactive`).

## Model

| member | source | states |
|---|---|---|
| Command.ExecuteWith | internal/command/command.go:25-31 | the invocation runs `params[0]` with the remaining parameters, in the given directory, with the given stdin and stdout, and standard error on the parent's |
| Command.NewCommand | internal/executor/executor_containerd_health.go:39 | a bare `exec.Command` runs `params[0]` with the remaining parameters in the current directory, with stdin, stdout and stderr all on the null device |
| Command.Execute | internal/command/command.go:21-23 | `Execute`'s first parameter is the working directory and the rest is the argument vector, passed through unchanged |
| Command.ExecuteCrossesStreams | internal/command/command.go:21-23 | as written, `Execute` gives the child the parent's stdout as stdin and the parent's stdin as stdout, for every call |
| Command.ExecuteIntended | internal/command/command.go:21-23 | the corrected `Execute`: the child reads the parent's stdin and writes the parent's stdout; directory and argument vector pass through unchanged |
| Strings.ContainsIff | internal/executor/executor_etcd_health.go:57 | the substring test holds exactly when the pattern occurs at some position |
| Outcomes.Aggregate | internal/executor/executor_etcd_health.go:62 | folding the causes gives no error exactly when no cause was added, and otherwise keeps every cause in order |
| Outcomes.AggregateCausesOf | internal/executor/executor_etcd_health.go:62 | folding and taking the causes apart are inverse on every outcome a check can produce |
| Outcomes.Fail | internal/executor/executor_etcd_health.go:36 | an error returned directly is an outcome with exactly that one cause |
| Etcd.ExecParams | internal/executor/executor_etcd_health.go:42-52 | the exec is `kubectl -n kube-system exec <pod> -- sh -c` followed by one last argument, the fixed etcdctl environment and then the etcdctl subcommand |
| Etcd.ExecCallsPerPod | internal/executor/executor_etcd_health.go:40-53 | exactly one exec per listed pod, in pod order, each running etcdctl on that pod |
| Etcd.PodCauses | internal/executor/executor_etcd_health.go:53-59 | a pod adds at most two causes, its exec failure first and the check's finding last, and none exactly when the exec succeeds and nothing is found |
| Etcd.CheckPods | internal/executor/executor_etcd_health.go:27-63 | every outcome of either etcd check is well formed, and the pod listing is always the first call |
| Etcd.AllCausesAppend | internal/executor/executor_etcd_health.go:40-60 | causes are gathered pod by pod: the causes of two runs of pods are concatenated in list order |
| Etcd.AllCausesEmptyIff | internal/executor/executor_etcd_health.go:40-62 | no cause is gathered exactly when every pod's exec succeeds and nothing is found in its output |
| Etcd.ExecFailureCauseIff | internal/executor/executor_etcd_health.go:53-56 | a pod's exec failure is reported exactly when it is listed and its exec fails |
| Etcd.FindingCauseIff | internal/executor/executor_etcd_health.go:57-59 | a finding is reported exactly when the check reads it from some listed pod's output |
| Etcd.ListFailureExecsNothing | internal/executor/executor_etcd_health.go:28-37 | a pod-list failure is the only cause and no exec is made |
| Etcd.PodFinding | internal/executor/executor_etcd_health.go:57-59 | for the health probe, a pod's output yields "not healthy" for that pod exactly when it lacks "is healthy"; for the alarm probe, an alarm carrying the output verbatim exactly when it is non-empty |
| EtcdHealth.Run | internal/executor/executor_etcd_health.go:27-63 | the pod loop returns exactly the specified outcome and call trace |
| EtcdHealth.AddPodCauses | internal/executor/executor_etcd_health.go:54-59 | the two appends for one pod add exactly that pod's causes: the exec failure, then "not healthy" |
| EtcdHealth.HealthyIff | internal/executor/executor_etcd_health.go:39-62 | the check passes exactly when every pod's exec succeeds with "is healthy" in its output; zero pods pass |
| EtcdHealth.NotHealthyCauseIff | internal/executor/executor_etcd_health.go:57-59 | a pod is reported not healthy exactly when it is listed and its output lacks "is healthy" |
| EtcdHealth.FailedExecWithoutMarker | internal/executor/executor_etcd_health.go:53-59 | a failed exec whose output lacks "is healthy" gives two causes, the failure first |
| EtcdHealth.OneUnhealthyOfThree | internal/executor/executor_etcd_health.go:40-62 | of three pods where only the middle one lacks "is healthy", exactly that pod is reported |
| EtcdAlarm.Run | internal/executor/executor_etcd_alarm.go:27-62 | the pod loop returns exactly the specified outcome and call trace |
| EtcdAlarm.AddPodCauses | internal/executor/executor_etcd_alarm.go:54-59 | the two appends for one pod add exactly that pod's causes: the exec failure, then the alarm text |
| EtcdAlarm.HealthyIff | internal/executor/executor_etcd_alarm.go:39-61 | the check passes exactly when every pod's exec succeeds with empty output; zero pods pass |
| EtcdAlarm.AlarmCauseIff | internal/executor/executor_etcd_alarm.go:57-59 | a pod is reported with alarms exactly when it is listed and its output is that non-empty text (whitespace counts) |
| EtcdAlarm.FailedExecWithOutput | internal/executor/executor_etcd_alarm.go:53-59 | a failed exec that printed something gives two causes, the failure first |
| EtcdAlarm.SameExecShape | internal/executor/executor_etcd_alarm.go:42-52 | the exec matches the health check's in its first eight arguments and ends with "etcdctl alarm list" |
| ContainerdHealth.Check | internal/executor/executor_containerd_health.go:27-72 | every outcome is well formed and has at most three causes |
| ContainerdHealth.ScannedReport | internal/executor/executor_containerd_health.go:50-71 | once tail runs, the outcome is well formed, both commands are in the trace, and a scan error is the only cause |
| ContainerdHealth.Run | internal/executor/executor_containerd_health.go:27-48 | the crictl causes appended step by step and the early returns on pipe and start failures give exactly the specified outcome and call trace |
| ContainerdHealth.FinishTail | internal/executor/executor_containerd_health.go:50-71 | the scan, the read and wait errors and the appended log evidence give exactly the specified outcome once tail runs |
| ContainerdHealth.ScanErrorLines | internal/executor/executor_containerd_health.go:50-56 | the scanner loop keeps exactly the selected lines, verbatim and in log order |
| ContainerdHealth.ErrorLinesMember | internal/executor/executor_containerd_health.go:49-56 | a line is selected exactly when it is in the log and its lower-cased text contains "error" |
| ContainerdHealth.ErrorLinesAppend | internal/executor/executor_containerd_health.go:49-56 | selection works line by line, so the selected lines keep log order |
| ContainerdHealth.ErrorLinesShorter | internal/executor/executor_containerd_health.go:49-56 | no more lines are selected than were read |
| ContainerdHealth.IsErrorLineIgnoresCase | internal/executor/executor_containerd_health.go:53 | lower-casing is idempotent, so selecting a line does not depend on its letter case |
| ContainerdHealth.CapitalErrorSelected | internal/executor/executor_containerd_health.go:53 | a line reading "ERROR" is selected |
| ContainerdHealth.TailFailureDiscardsCrictlCauses | internal/executor/executor_containerd_health.go:39-65 | a tail pipe, start, scan or wait failure is the only cause, and any crictl causes are dropped |
| ContainerdHealth.CallStreams | internal/executor/executor_containerd_health.go:29-40 | crictl goes through the runner (buffered stdout, standard error on the parent's); tail is a bare command whose stdout is a pipe and whose stdin and stderr are the null device |
| ContainerdHealth.LogCauseIff | internal/executor/executor_containerd_health.go:49-69 | the log evidence is reported exactly when tail ran cleanly and some line was selected; it then lists all selected lines in log order and is the last cause |
| ContainerdHealth.HealthyIff | internal/executor/executor_containerd_health.go:27-71 | the check passes exactly when crictl succeeds with output, tail runs cleanly and no line contains "error" |
| ContainerdHealth.CrictlCauseIff | internal/executor/executor_containerd_health.go:29-37 | the crictl failure is a cause exactly when crictl fails and tail ran cleanly, the empty listing exactly when crictl printed nothing and tail ran cleanly; when both are causes the failure comes first |
| ContainerdHealth.CrictlCausesBoth | internal/executor/executor_containerd_health.go:29-37 | a failed crictl with empty output gives both causes, the failure first |
| ContainerdHealth.EmptyListingAndTwoErrorLines | internal/executor/executor_containerd_health.go:29-69 | empty crictl output plus two error lines gives exactly two causes, the second listing both lines verbatim |
| RkeSystemdHealth.NodeUnit | internal/executor/executor_rke_systemd_health.go:35-42 | the server unit whenever it is listed; the agent unit only when the server unit is not; none when neither is |
| RkeSystemdHealth.Check | internal/executor/executor_rke_systemd_health.go:25-58 | at most one cause; without rke2 no command runs; with rke2 `systemctl list-units` runs first and at most three commands run |
| RkeSystemdHealth.NotRancherRunsNothing | internal/executor/executor_rke_systemd_health.go:26-28 | without the rke2 binary the result is exactly the "not a rancher environment" refusal, with no call |
| RkeSystemdHealth.UnknownNodeTypeIff | internal/executor/executor_rke_systemd_health.go:35-42 | the "failed to determine rke2 node type" refusal is given exactly when rke2 is present, list-units succeeds and its output names neither unit; it is then the only cause and list-units the only call |
| RkeSystemdHealth.ListFailureStopsEarly | internal/executor/executor_rke_systemd_health.go:30-34 | a list-units failure is reported before any role is determined, after one call |
| RkeSystemdHealth.ServerPreferredOverAgent | internal/executor/executor_rke_systemd_health.go:35-40 | a node listing both units is treated as a server |
| RkeSystemdHealth.SameUnitQueried | internal/executor/executor_rke_systemd_health.go:36-51 | is-active and journalctl are asked about exactly the unit resolved from the list-units output (server or agent); the journal request is for 10 lines |
| RkeSystemdHealth.HealthyIff | internal/executor/executor_rke_systemd_health.go:25-57 | the check passes exactly when rke2 is present, the role resolves, is-active succeeds and its output lacks "inactive" |
| RkeSystemdHealth.InactiveCauseIff | internal/executor/executor_rke_systemd_health.go:49-55 | the inactive-service cause occurs exactly on an "inactive" status with a successful journal read, and carries that unit's journal output |
| RkeSystemdHealth.FailedUnitPasses | internal/executor/executor_rke_systemd_health.go:49-57 | a unit reported "failed" passes, since only "inactive" is looked for |
| RkeSystemdHealth.FailingStatusHidesInactive | internal/executor/executor_rke_systemd_health.go:44-48 | an is-active run that fails is a status failure even when it printed "inactive"; the journal is not read |
| PrometheusAlarm.LastPrometheusHostIff | internal/executor/executor_prometheus_alarm.go:40-46 | the chosen host is the one matching "prometheus" with no matching host after it |
| PrometheusAlarm.NoEndpointIff | internal/executor/executor_prometheus_alarm.go:40-54 | no endpoint is found exactly when no ingress host starts with "prometheus" |
| PrometheusAlarm.ResolveEndpoint | internal/executor/executor_prometheus_alarm.go:40-46 | the nested ingress and rule loop leaves "https://" plus the last matching host, or "" |
| PrometheusAlarm.ScanHosts | internal/executor/executor_prometheus_alarm.go:41-45 | the inner loop over one ingress's hosts carries the endpoint on: from the endpoint of the hosts seen so far to that of those hosts followed by this ingress's hosts |
| PrometheusAlarm.KeptDescriptions | internal/executor/executor_prometheus_alarm.go:64-70 | the alert loop collects the descriptions of the kept alerts, in alert order |
| PrometheusAlarm.CollectFiring | internal/executor/executor_prometheus_alarm.go:60-75 | the group and rule walk yields one entry per rule with a kept alert, in group and rule order |
| PrometheusAlarm.DescriptionsMember | internal/executor/executor_prometheus_alarm.go:64-71 | a description is kept exactly when some firing, non-sentinel alert of the rule carries it |
| PrometheusAlarm.DescriptionsAppend | internal/executor/executor_prometheus_alarm.go:64-71 | the kept descriptions of a split alert list are those of the first part followed by those of the second, so alert order is kept |
| PrometheusAlarm.DescriptionsEmptyIff | internal/executor/executor_prometheus_alarm.go:64-71 | a rule contributes nothing exactly when none of its alerts is firing and non-sentinel |
| PrometheusAlarm.RuleEntryIff | internal/executor/executor_prometheus_alarm.go:62-73 | a rule's entry carries the rule's name and kept descriptions, and exists exactly when some alert of the rule is kept |
| PrometheusAlarm.EntriesAppend | internal/executor/executor_prometheus_alarm.go:60-75 | entries follow rule order, one rule at a time |
| PrometheusAlarm.EntriesMember | internal/executor/executor_prometheus_alarm.go:60-75 | an entry is reported exactly when it is the entry of some rule |
| PrometheusAlarm.EntryHasKeptRule | internal/executor/executor_prometheus_alarm.go:71-79 | every reported entry comes from a rule that keeps some alert |
| PrometheusAlarm.KeptRuleHasEntry | internal/executor/executor_prometheus_alarm.go:71-79 | a rule that keeps some alert always has its entry, with its name and kept descriptions, among the reported ones |
| PrometheusAlarm.EntriesEmptyIff | internal/executor/executor_prometheus_alarm.go:71-79 | there is no entry exactly when no rule keeps an alert |
| PrometheusAlarm.SameNamedRulesNotMerged | internal/executor/executor_prometheus_alarm.go:60-75 | two rules in different groups each keeping an alert are two entries |
| PrometheusAlarm.RuleStateIgnored | internal/executor/executor_prometheus_alarm.go:62-73 | a rule's own state does not affect its entry |
| PrometheusAlarm.PortForwardRunsWrongProgram | internal/executor/executor_prometheus_alarm.go:48 | as written, the port-forward starts the program "port-forward" in a directory named "kubectl", with crossed streams |
| PrometheusAlarm.PortForwardAsWritten | internal/executor/executor_prometheus_alarm.go:48 | the argument vector the source starts is `port-forward <prometheus pod> -n monitoring`: "kubectl" is not part of it |
| PrometheusAlarm.PortForward | internal/executor/executor_prometheus_alarm.go:48 | the corrected port-forward runs `kubectl port-forward <prometheus pod> -n monitoring` in the current directory with the parent's streams |
| PrometheusAlarm.Check | internal/executor/executor_prometheus_alarm.go:29-80 | every outcome is well formed and has at most one cause |
| PrometheusAlarm.Run | internal/executor/executor_prometheus_alarm.go:29-80 | endpoint resolution, fetch and the alert walk return exactly the specified outcome and call trace |
| PrometheusAlarm.IngressPathEndpoint | internal/executor/executor_prometheus_alarm.go:40-56 | without rke2, alerts are fetched from "https://" plus the last matching host |
| PrometheusAlarm.LocalPathEndpoint | internal/executor/executor_prometheus_alarm.go:47-56 | with rke2, the port-forward as the source issues it (program "port-forward", directory "kubectl") is followed by a fetch from http://localhost:9090, whatever the ingresses |
| PrometheusAlarm.FetchUrlHasRulesPath | internal/executor/executor_prometheus_alarm.go:86-87 | every fetch is the last call and asks for "/api/v1/rules?type=alert" below a non-empty endpoint |
| PrometheusAlarm.NoFetchWithoutEndpoint | internal/executor/executor_prometheus_alarm.go:36-54 | an ingress-list failure, or no matching host, is the only cause and no alert fetch is made |
| PrometheusAlarm.HealthyIff | internal/executor/executor_prometheus_alarm.go:56-79 | once fetched, the check passes exactly when no alert of any rule is firing and non-sentinel |
| PrometheusAlarm.SentinelExcluded | internal/executor/executor_prometheus_alarm.go:66 | with a firing Watchdog and a firing PodCrashLooping alert, only PodCrashLooping is reported |
| PrometheusAlarm.AllSentinelsPass | internal/executor/executor_prometheus_alarm.go:66-79 | rules whose alerts are all Watchdog or InfoInhibitor give no entry |
| ExecutorPool.Pool.constructor | internal/executor/pool.go:15-17 | a new pool holds the given executors and an empty result map |
| ExecutorPool.Pool.Run | internal/executor/pool.go:19-39 | running a schedule writes each executor's outcome under its name; the key set becomes the old keys plus every executor name |
| ExecutorPool.RecordKeys | internal/executor/pool.go:21-38 | after any schedule the keys are the old keys plus every executor name; no failure stops the others being recorded |
| ExecutorPool.RecordLastWrite | internal/executor/pool.go:33-35 | the value stored under a name is the outcome written last under that name |
| ExecutorPool.UniqueNameGetsOwnResult | internal/executor/pool.go:26-35 | an executor whose name is unique gets its own outcome, under every schedule |
| ExecutorPool.ScheduleIndependent | internal/executor/pool.go:19-39 | with distinct names, the result map does not depend on the order the executors finish in |
| ExecutorPool.DuplicatesCollapse | internal/executor/pool.go:34 | two executors of the same name leave one key, holding the outcome written last |
| ExecutorPool.EmptyPoolRecordsNothing | internal/executor/pool.go:21-38 | an empty executor list leaves the result map empty |
| ExecutorPool.NamedScheduleIndependent | internal/executor/pool.go:19-38 | five executors carrying the five check names, which are pairwise different, leave the same map under every schedule: exactly the five names, each with its own executor's outcome |
| ExecutorPool.ChecksScheduleIndependent | internal/executor/pool.go:19-38 | a pool of the five checks run on one node leaves the same map under every schedule, with exactly the five names as keys, and under `EtcdHealth.Name` the outcome of `EtcdHealth.Check` on that node, and likewise for the etcd alarm, rke2 systemd, prometheus alarm and containerd checks |
| Doctor.ExecutorsFromFlags | cmd/doctor.go:29-47 | the six flag tests build exactly the specified executor list |
| Doctor.PickIff | cmd/doctor.go:29-47 | a check is in the list exactly when it is a candidate and its flag is set |
| Doctor.PickOrdered | cmd/doctor.go:29-47 | the list keeps the candidates' order |
| Doctor.EnabledIff | cmd/doctor.go:29-47 | one entry per set flag, none twice, in the order etcd-health, etcd-alarm, etcd-perf, rke-systemd, prometheus, containerd |
| Doctor.EnabledEmptyIff | cmd/doctor.go:48-53 | the list is empty, and so the selector is shown, exactly when no flag is set |
| Doctor.RunCommand | cmd/doctor.go:28-55 | the selector is shown exactly when the flag list is empty; otherwise the flag list is the executor list. Through the selector, a session without enter, or whose first quitting key is "q" or "ctrl+c", runs no check; one whose first quitting key is enter runs exactly the checks selected at that moment |
| Doctor.SelectorSession | cmd/doctor.go:48-53 | fed messages until the first that quits, the selector schedules nothing unless that message is enter, and then exactly the checks selected by the messages before it |
| Doctor.Feed | cmd/doctor.go:95-138 | one message to a selector that has not quit: either it does not quit and the pane advances by the transition function with nothing scheduled, or it quits and the checks selected so far are scheduled exactly when it is enter |
| Doctor.SelectedCheck | cmd/doctor.go:118-133 | exactly the indices 0 to 5 schedule a check |
| Doctor.SelectedCheckBijective | cmd/doctor.go:118-133 | distinct indices schedule distinct checks, and every check has an index |
| Doctor.NextInRange | cmd/doctor.go:101-108 | no message moves the cursor off the six choices or selects anything outside them |
| Doctor.ReplayInRange | cmd/doctor.go:95-138 | no run of messages moves the cursor off the choices |
| Doctor.ToggleTwice | cmd/doctor.go:109-115 | space changes the selection, and pressing it twice restores it |
| Doctor.UnknownKeysIgnored | cmd/doctor.go:98-137 | "q", "ctrl+c", unknown keys and other messages leave the selector state unchanged |
| Doctor.DownThenUp | cmd/doctor.go:101-108 | below the last choice, down then up returns to the same choice |
| Doctor.Line | cmd/doctor.go:143-151 | a choice line is the cursor mark, " [", the check mark, "] ", the label and a newline |
| Doctor.LinesMarks | cmd/doctor.go:140-155 | one line per choice, with ">" exactly on the cursor line and "x" exactly on the selected lines |
| Doctor.Selector.constructor | cmd/doctor.go:76-89 | the selector starts at the first choice, with nothing selected, starting from the executor list it was given |
| Doctor.Selector.Update | cmd/doctor.go:95-138 | the state follows the transition function; "q", "ctrl+c" and enter quit; only enter appends, one check per selected index, in any order |
| Doctor.Selector.ConfirmSelection | cmd/doctor.go:116-133 | the enter loop appends exactly the checks of the selected indices, each once, to the existing list |
| Doctor.Selector.View | cmd/doctor.go:140-155 | the rendering is the question, one line per choice in order, and the quit hint |
| K8s.KubeConfigPath | internal/k8s/k8s.go:13-21 | the rke2 file if it exists, else a non-empty $KUBECONFIG, else home + "/.kube/config"; never empty |
| K8s.PathPrecedence | internal/k8s/k8s.go:14-21 | the rke2 file makes $KUBECONFIG and home irrelevant; a set $KUBECONFIG makes home irrelevant |
| K8s.Rke2HostReadsRke2File | internal/k8s/k8s.go:15-17 | on an rke2 host the rke2 file is read whatever $KUBECONFIG says |
| K8s.GetKubeConfig | internal/k8s/k8s.go:13-29 | the builder is asked for the rke2 file if it exists, else for a non-empty $KUBECONFIG, else for home + "/.kube/config", and its answer is returned |
| K8s.CtrlClientConfig | internal/k8s/k8s.go:31-34 | a given config is used unchanged |
| K8s.CtrlClientRederives | internal/k8s/k8s.go:23-34 | without a config the client re-derives one from the resolved path; a build failure leaves it without a config |

## Left out

- Concurrency in the pool. The goroutines, wait group and mutex are left out, and so are the emoji progress lines. The order in which results are written is a schedule parameter, any permutation of the executors.
- ExecutorPool.Pool.Run: assumes each goroutine runs its own executor. At internal/executor/pool.go:21-36 the goroutine closure captures the `range` variable `executor`, and Go gives each iteration its own copy of that variable only from Go 1.22 on. Which rule applies depends on the `go` line of go.mod, which is not part of this model. Under the older rule all goroutines share one variable. One executor may then run several times and other names never reach `Results`, and `ExecutorPool.RecordKeys` and `ExecutorPool.UniqueNameGetsOwnResult` would not hold for that program.
- The etcd-perf executor. Its source is not part of this model, so it appears only as a name in the flag list and the selector.
- The bubbletea runtime. The model feeds the selector a finite sequence of messages and stops at the first one that quits.
- The shared executor list. The source hands the selector a pointer to the command's executor slice, and the appends on enter reach the command through it. The model gives the selector a copy of the (empty) list and has `Doctor.RunCommand` read the selector's list back after it quits, which yields the same list; aliasing itself is not modelled.
- Flag parsing (cobra) is left out.
- Terminal output beyond the string `View` returns is left out.
- `log.Fatalln` on a selector failure is left out.
- Building the controller-runtime client and `helper.MustReturn`'s exit on error are not part of this model. `K8s.CtrlClientConfig` stops at the config.
- Error message texts. Causes are typed values; messages wrap the underlying Go errors, which are not modelled.
- The process runner's `SilentExecute` is not used by the modelled checks and is left out.
- What a child writes to standard error is not recorded. The invocation records only where it goes: to the parent's for calls through `ExecuteWith`, to the null device for the containerd `tail`, which is built with a bare `exec.Command`.
- Every external call is assumed to return. The source sets no timeout on any subprocess, cluster `List` or HTTP GET, so a hung kubectl, tail or GET blocks its check, and `Pool.Run`'s `wg.Wait`, forever. The model's `run`, `get` and `Listing` inputs always answer.
- `Strings.Lower`: lower-cases ASCII letters only. Go's `strings.ToLower` also folds other Unicode letters; that only matters for lines whose non-ASCII letters would fold into "error".
- HTTP and JSON decoding are an input function. A failed request and a failed decode are the same `None`.
- The JSON field `status` is carried but never inspected, as in the source.
- What the port-forward does once started is left out. The call as written starts the program "port-forward" in a directory named "kubectl", which normally fails to start, and the source ignores its error. The check's trace records exactly that call (`PrometheusAlarm.PortForwardAsWritten`) and then goes on to the fixed local URL.
- `helper.CommandExists` (a PATH lookup) and the `os.Stat` of the rke2 kubeconfig are boolean inputs.
- `$HOME` and `$KUBECONFIG` are string inputs.
- The `ctx` parameters are unused by the modelled logic and left out.

## Findings

| source | as written | input that shows it | evidently intended | confidence | as-written member | corrected member |
|---|---|---|---|---|---|---|
| internal/command/command.go:21-23 | `Execute` passes the parent's stdout as the child's stdin and the parent's stdin as the child's stdout | any call, e.g. the prometheus port-forward on an rke2 host | the child reads the parent's stdin and writes to the parent's stdout | high; not executed | Command.ExecuteCrossesStreams | Command.ExecuteIntended |
| internal/executor/executor_prometheus_alarm.go:48 | "kubectl" is passed as the working directory, so the program started is "port-forward" | any host where the rke2 binary is present | run `kubectl port-forward prometheus-prometheus-monitoring-kube-prometheus-0 -n monitoring` in the current directory. `Execute` waits for the child to exit, and the port-forward keeps running, so the corrected call must also be started in the background for the check to go on to the fetch | high; not executed | PrometheusAlarm.PortForwardRunsWrongProgram | PrometheusAlarm.PortForward |
