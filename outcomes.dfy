/**
 * The evidence model shared by all checks: typed causes, the outcome of one check
 * (go-multierror's `ErrorOrNil` folds the causes into nil or one error), and the
 * trace of external calls a check makes.
 */
module Outcomes {
  import opened Command

  /** An operation that could not be started or did not complete. */
  datatype Step =
    | ListEtcdPods                  // listing the etcd pods
    | EtcdCommand(pod: string)      // kubectl exec of etcdctl on one pod
    | ListContainers                // crictl ps
    | TailPipe                      // creating the stdout pipe of tail
    | TailStart                     // starting tail
    | TailRead                      // scanning tail's output
    | TailWait                      // waiting for tail to exit
    | ListUnits                     // systemctl list-units
    | UnitStatus                    // systemctl is-active
    | JournalLogs                   // journalctl
    | ListIngressesStep             // listing the monitoring ingresses
    | FetchAlerts                   // HTTP GET and JSON decoding of the alerting rules

  /** The alerts of one rule that count as failures, by description. */
  datatype RuleAlerts = RuleAlerts(rule: string, descriptions: seq<string>)

  /** Evidence that the operation completed and its result shows a problem. */
  datatype Finding =
    | PodNotHealthy(pod: string)
    | PodHasAlarms(pod: string, alarms: string)
    | NoContainers
    | LogErrors(lines: seq<string>)
    | ServiceInactive(unit: string, journal: string)
    | AlertsFiring(rules: seq<RuleAlerts>)

  /** A check that declines to run on this host. */
  datatype Refusal =
    | NotRancher                    // "this is not a rancher environment"
    | UnknownNodeType               // "failed to determine rke2 node type"
    | NoPrometheusEndpoint          // "failed to find alertmanager ingress"

  datatype Cause =
    | ExecFailure(step: Step)
    | Evidence(finding: Finding)
    | Precondition(refusal: Refusal)

  /** A nil error is Healthy; a non-nil error carries its causes in discovery order. */
  datatype Outcome = Healthy | Unhealthy(causes: seq<Cause>)

  /** Every outcome a check can produce: an error always has at least one cause. */
  predicate WellFormed(o: Outcome) {
    o.Unhealthy? ==> o.causes != []
  }

  function CausesOf(o: Outcome): seq<Cause> {
    if o.Healthy? then [] else o.causes
  }

  /** The aggregator: nil when no cause was added, otherwise every cause in order. */
  function Aggregate(causes: seq<Cause>): (o: Outcome)
    ensures WellFormed(o)
    ensures CausesOf(o) == causes
    ensures o.Healthy? <==> causes == []
  {
    if causes == [] then Healthy else Unhealthy(causes)
  }

  /** Aggregate and CausesOf are inverse on well-formed outcomes. */
  lemma AggregateCausesOf(o: Outcome)
    requires WellFormed(o)
    ensures Aggregate(CausesOf(o)) == o
  {
  }

  /** A single error returned directly (fmt.Errorf / errors.New). */
  function Fail(c: Cause): (o: Outcome)
    ensures WellFormed(o) && o.Unhealthy?
    ensures CausesOf(o) == [c]
  {
    Unhealthy([c])
  }

  /** An external call made by a check, in the order it is made. */
  datatype Call =
    | Exec(inv: Invocation)
    | ListPods(namespace: string, selector: map<string, string>)
    | ListIngresses(namespace: string)
    | HttpGet(url: string)

  /** What a run of a check produced and which external calls it made. */
  datatype Report = Report(outcome: Outcome, calls: seq<Call>)

  datatype Option<T> = None | Some(value: T)

  /** The result of a cluster List call. */
  datatype Listing<T> = Listed(items: seq<T>) | ListFailed
}
