/**
 * The prometheus-alarm check. Endpoint: on a host without rke2, "https://" + the last
 * ingress rule host in namespace monitoring that starts with "prometheus"; with rke2, a
 * port-forward and the fixed local URL. Then the alerting rules are fetched and every
 * rule keeping at least one firing, non-sentinel alert becomes one entry of the report.
 */
module PrometheusAlarm {
  import opened Command
  import opened Strings
  import opened Outcomes

  const Name := "prometheus_alarm"
  const MonitoringNamespace := "monitoring"
  const HostPrefix := "prometheus"
  const Scheme := "https://"
  const LocalEndpoint := "http://localhost:9090"
  const RulesPath := "/api/v1/rules?type=alert"
  const PrometheusPod := "prometheus-prometheus-monitoring-kube-prometheus-0"
  const Firing := "firing"
  const Watchdog := "Watchdog"
  const InfoInhibitor := "InfoInhibitor"

  /** An ingress, reduced to the hosts of its rules. */
  datatype Ingress = Ingress(hosts: seq<string>)

  /** The decoded body of GET /api/v1/rules?type=alert. */
  datatype Alert = Alert(labels: map<string, string>, annotations: map<string, string>, state: string)
  datatype Rule = Rule(name: string, state: string, alerts: seq<Alert>)
  datatype Group = Group(rules: seq<Rule>)
  datatype AlertsResponse = AlertsResponse(status: string, groups: seq<Group>)

  /** Go map indexing: a missing key reads as the empty string. */
  function Get(m: map<string, string>, key: string): string {
    if key in m then m[key] else ""
  }

  // ---------------------------------------------------------------- endpoint

  /** All rule hosts, ingress by ingress. */
  function Hosts(ingresses: seq<Ingress>): seq<string>
    decreases |ingresses|
  {
    if ingresses == [] then []
    else Hosts(ingresses[..|ingresses| - 1]) + ingresses[|ingresses| - 1].hosts
  }

  /** The last host starting with "prometheus", if any. */
  function LastPrometheusHost(hosts: seq<string>): Option<string>
    decreases |hosts|
  {
    if hosts == [] then None
    else if HasPrefix(hosts[|hosts| - 1], HostPrefix) then Some(hosts[|hosts| - 1])
    else LastPrometheusHost(hosts[..|hosts| - 1])
  }

  /** The endpoint the ingress scan leaves behind; "" when no host matched. */
  function IngressEndpoint(hosts: seq<string>): string {
    match LastPrometheusHost(hosts)
    case None => ""
    case Some(h) => Scheme + h
  }

  /** Position k holds a matching host and no later host matches. */
  predicate IsLastMatch(hosts: seq<string>, k: int) {
    0 <= k < |hosts| && HasPrefix(hosts[k], HostPrefix)
    && forall j :: k < j < |hosts| ==> !HasPrefix(hosts[j], HostPrefix)
  }

  /** The scan never stops early: the host chosen is the last matching one. */
  lemma {:induction false} LastPrometheusHostIff(hosts: seq<string>, h: string)
    ensures LastPrometheusHost(hosts) == Some(h) <==> exists k :: IsLastMatch(hosts, k) && hosts[k] == h
    decreases |hosts|
  {
    if hosts != [] {
      var n := |hosts| - 1;
      var init := hosts[..n];
      if HasPrefix(hosts[n], HostPrefix) {
        assert IsLastMatch(hosts, n);
        forall k | IsLastMatch(hosts, k) ensures k == n {
        }
      } else {
        LastPrometheusHostIff(init, h);
        forall k ensures IsLastMatch(hosts, k) <==> k < n && IsLastMatch(init, k) {
          if IsLastMatch(hosts, k) {
            assert k != n;
            assert forall j :: k < j < n ==> init[j] == hosts[j];
          }
          if k < n && IsLastMatch(init, k) {
            assert forall j :: k < j < n ==> init[j] == hosts[j];
          }
        }
      }
    }
  }

  /** No endpoint is found exactly when no host starts with "prometheus". */
  lemma {:induction false} NoEndpointIff(hosts: seq<string>)
    ensures IngressEndpoint(hosts) == "" <==> forall k :: 0 <= k < |hosts| ==> !HasPrefix(hosts[k], HostPrefix)
    decreases |hosts|
  {
    if hosts != [] {
      var init := hosts[..|hosts| - 1];
      NoEndpointIff(init);
      assert forall k :: 0 <= k < |init| ==> init[k] == hosts[k];
    }
  }

  lemma EndpointStep(hosts: seq<string>, h: string)
    ensures IngressEndpoint(hosts + [h]) == if HasPrefix(h, HostPrefix) then Scheme + h else IngressEndpoint(hosts)
  {
    assert (hosts + [h])[..|hosts|] == hosts;
  }

  lemma HostsStep(ingresses: seq<Ingress>, i: nat)
    requires i < |ingresses|
    ensures Hosts(ingresses[..i + 1]) == Hosts(ingresses[..i]) + ingresses[i].hosts
  {
    assert ingresses[..i + 1][..i] == ingresses[..i];
  }

  lemma ScanStep(done: seq<string>, hosts: seq<string>, j: nat)
    requires j < |hosts|
    ensures IngressEndpoint(done + hosts[..j + 1])
         == if HasPrefix(hosts[j], HostPrefix) then Scheme + hosts[j] else IngressEndpoint(done + hosts[..j])
  {
    EndpointStep(done + hosts[..j], hosts[j]);
    assert done + hosts[..j + 1] == (done + hosts[..j]) + [hosts[j]];
  }

  /** The inner loop over one ingress's hosts, carrying on from the endpoint found so far. */
  method ScanHosts(done: seq<string>, hosts: seq<string>, found: string) returns (endpoint: string)
    requires found == IngressEndpoint(done)
    ensures endpoint == IngressEndpoint(done + hosts)
  {
    endpoint := found;
    assert done + hosts[..0] == done;
    var j := 0;
    while j < |hosts|
      invariant 0 <= j <= |hosts|
      invariant endpoint == IngressEndpoint(done + hosts[..j])
    {
      if HasPrefix(hosts[j], HostPrefix) {
        endpoint := Scheme + hosts[j];
      }
      ScanStep(done, hosts, j);
      j := j + 1;
    }
    assert hosts[..j] == hosts;
  }

  /** The ingress scan as the source writes it: every matching host overwrites the endpoint. */
  method ResolveEndpoint(ingresses: seq<Ingress>) returns (endpoint: string)
    ensures endpoint == IngressEndpoint(Hosts(ingresses))
  {
    endpoint := "";
    var i := 0;
    while i < |ingresses|
      invariant 0 <= i <= |ingresses|
      invariant endpoint == IngressEndpoint(Hosts(ingresses[..i]))
    {
      endpoint := ScanHosts(Hosts(ingresses[..i]), ingresses[i].hosts, endpoint);
      HostsStep(ingresses, i);
      i := i + 1;
    }
    assert ingresses[..i] == ingresses;
  }

  // ---------------------------------------------------------------- alerts

  /** An alert counts when it is firing and is neither sentinel; the rule's own state is
      never looked at. */
  predicate Kept(a: Alert) {
    a.state == Firing && Get(a.labels, "alertname") != Watchdog && Get(a.labels, "alertname") != InfoInhibitor
  }

  /** The descriptions of the kept alerts of one rule, in alert order. */
  function Descriptions(alerts: seq<Alert>): seq<string>
    decreases |alerts|
  {
    if alerts == [] then []
    else
      var last := alerts[|alerts| - 1];
      Descriptions(alerts[..|alerts| - 1]) + (if Kept(last) then [Get(last.annotations, "description")] else [])
  }

  /** The entry one rule contributes: none, or its name with its kept descriptions. */
  function RuleEntry(r: Rule): seq<RuleAlerts> {
    var ds := Descriptions(r.alerts);
    if ds != [] then [RuleAlerts(r.name, ds)] else []
  }

  /** All rules, group by group. */
  function RulesOf(groups: seq<Group>): seq<Rule>
    decreases |groups|
  {
    if groups == [] then []
    else RulesOf(groups[..|groups| - 1]) + groups[|groups| - 1].rules
  }

  /** The entries of a run of rules, in rule order. */
  function Entries(rules: seq<Rule>): seq<RuleAlerts>
    decreases |rules|
  {
    if rules == [] then []
    else Entries(rules[..|rules| - 1]) + RuleEntry(rules[|rules| - 1])
  }

  lemma DescriptionsStep(alerts: seq<Alert>, i: nat)
    requires i < |alerts|
    ensures Descriptions(alerts[..i + 1])
         == Descriptions(alerts[..i]) + (if Kept(alerts[i]) then [Get(alerts[i].annotations, "description")] else [])
  {
    assert alerts[..i + 1][..i] == alerts[..i];
  }

  lemma EntriesStep(rules: seq<Rule>, r: Rule)
    ensures Entries(rules + [r]) == Entries(rules) + RuleEntry(r)
  {
    assert (rules + [r])[..|rules|] == rules;
  }

  lemma RulesOfStep(groups: seq<Group>, i: nat)
    requires i < |groups|
    ensures RulesOf(groups[..i + 1]) == RulesOf(groups[..i]) + groups[i].rules
  {
    assert groups[..i + 1][..i] == groups[..i];
  }

  lemma CollectStep(done: seq<Rule>, rules: seq<Rule>, r: nat, ruleAlerts: seq<string>, alerts: seq<RuleAlerts>)
    requires r < |rules|
    requires alerts == Entries(done + rules[..r]) && ruleAlerts == Descriptions(rules[r].alerts)
    ensures Entries(done + rules[..r + 1])
         == if |ruleAlerts| > 0 then alerts + [RuleAlerts(rules[r].name, ruleAlerts)] else alerts
  {
    assert rules[..r + 1] == rules[..r] + [rules[r]];
    assert done + rules[..r + 1] == (done + rules[..r]) + [rules[r]];
    EntriesStep(done + rules[..r], rules[r]);
    assert RuleEntry(rules[r]) == if |ruleAlerts| > 0 then [RuleAlerts(rules[r].name, ruleAlerts)] else [];
  }

  /** The innermost loop of the walk: the kept alerts of one rule. */
  method KeptDescriptions(alerts: seq<Alert>) returns (ruleAlerts: seq<string>)
    ensures ruleAlerts == Descriptions(alerts)
  {
    ruleAlerts := [];
    var a := 0;
    while a < |alerts|
      invariant 0 <= a <= |alerts|
      invariant ruleAlerts == Descriptions(alerts[..a])
    {
      var alert := alerts[a];
      if Kept(alert) {
        ruleAlerts := ruleAlerts + [Get(alert.annotations, "description")];
      }
      DescriptionsStep(alerts, a);
      a := a + 1;
    }
    assert alerts[..a] == alerts;
  }

  /** The group / rule walk as the source writes it, with one entry per rule that keeps
      an alert. */
  method CollectFiring(groups: seq<Group>) returns (alerts: seq<RuleAlerts>)
    ensures alerts == Entries(RulesOf(groups))
  {
    alerts := [];
    var g := 0;
    while g < |groups|
      invariant 0 <= g <= |groups|
      invariant alerts == Entries(RulesOf(groups[..g]))
    {
      var rules := groups[g].rules;
      var done := RulesOf(groups[..g]);
      assert done + rules[..0] == done;
      var r := 0;
      while r < |rules|
        invariant 0 <= r <= |rules|
        invariant alerts == Entries(done + rules[..r])
      {
        var rule := rules[r];
        var ruleAlerts := KeptDescriptions(rule.alerts);
        CollectStep(done, rules, r, ruleAlerts, alerts);
        if |ruleAlerts| > 0 {
          alerts := alerts + [RuleAlerts(rule.name, ruleAlerts)];
        }
        r := r + 1;
      }
      assert rules[..r] == rules;
      RulesOfStep(groups, g);
      g := g + 1;
    }
    assert groups[..g] == groups;
  }

  /** A rule contributes nothing exactly when none of its alerts is kept. */
  lemma {:induction false} DescriptionsEmptyIff(alerts: seq<Alert>)
    ensures Descriptions(alerts) == [] <==> forall i :: 0 <= i < |alerts| ==> !Kept(alerts[i])
    decreases |alerts|
  {
    if alerts != [] {
      var init := alerts[..|alerts| - 1];
      DescriptionsEmptyIff(init);
      assert forall i :: 0 <= i < |init| ==> init[i] == alerts[i];
    }
  }

  /** A description is reported exactly when some kept alert carries it. */
  lemma {:induction false} DescriptionsMember(alerts: seq<Alert>, d: string)
    ensures d in Descriptions(alerts)
        <==> exists i :: 0 <= i < |alerts| && Kept(alerts[i]) && Get(alerts[i].annotations, "description") == d
    decreases |alerts|
  {
    if alerts != [] {
      var init := alerts[..|alerts| - 1];
      DescriptionsMember(init, d);
      assert forall i :: 0 <= i < |init| ==> init[i] == alerts[i];
    }
  }

  /** Descriptions follow alert order: those of a split list are those of each part, in turn. */
  lemma {:induction false} DescriptionsAppend(a: seq<Alert>, b: seq<Alert>)
    ensures Descriptions(a + b) == Descriptions(a) + Descriptions(b)
    decreases |b|
  {
    if b == [] {
      assert a + b == a;
    } else {
      var b' := b[..|b| - 1];
      assert (a + b)[..|a + b| - 1] == a + b';
      DescriptionsAppend(a, b');
    }
  }

  /** Entries follow rule order, one rule at a time: no merging across rules. */
  lemma {:induction false} EntriesAppend(a: seq<Rule>, b: seq<Rule>)
    ensures Entries(a + b) == Entries(a) + Entries(b)
    decreases |b|
  {
    if b == [] {
      assert a + b == a;
    } else {
      var b' := b[..|b| - 1];
      assert (a + b)[..|a + b| - 1] == a + b';
      EntriesAppend(a, b');
    }
  }

  /** An entry is reported exactly for a rule that keeps some alert, with that rule's
      name and kept descriptions. */
  lemma {:induction false} EntriesMember(rules: seq<Rule>, e: RuleAlerts)
    ensures e in Entries(rules) <==> exists i :: 0 <= i < |rules| && e in RuleEntry(rules[i])
    decreases |rules|
  {
    if rules != [] {
      var n := |rules| - 1;
      var init := rules[..n];
      assert Entries(rules) == Entries(init) + RuleEntry(rules[n]);
      EntriesMember(init, e);
      assert forall i :: 0 <= i < n ==> init[i] == rules[i];
    }
  }

  /** The entry of one rule names the rule and carries its kept descriptions, and is
      there exactly when some alert of the rule is kept. */
  lemma RuleEntryIff(r: Rule, e: RuleAlerts)
    ensures e in RuleEntry(r) <==> e == RuleAlerts(r.name, Descriptions(r.alerts)) && exists j :: 0 <= j < |r.alerts| && Kept(r.alerts[j])
  {
    DescriptionsEmptyIff(r.alerts);
  }

  /** Every entry comes from a rule that keeps some alert. */
  lemma EntryHasKeptRule(rules: seq<Rule>)
    requires Entries(rules) != []
    ensures exists i :: 0 <= i < |rules| && Descriptions(rules[i].alerts) != []
  {
    EntriesMember(rules, Entries(rules)[0]);
  }

  /** A rule that keeps some alert always yields an entry. */
  lemma KeptRuleHasEntry(rules: seq<Rule>, i: int)
    requires 0 <= i < |rules| && Descriptions(rules[i].alerts) != []
    ensures RuleAlerts(rules[i].name, Descriptions(rules[i].alerts)) in Entries(rules)
  {
    EntriesMember(rules, RuleAlerts(rules[i].name, Descriptions(rules[i].alerts)));
  }

  /** No entry at all exactly when no rule keeps an alert. */
  lemma EntriesEmptyIff(rules: seq<Rule>)
    ensures Entries(rules) == [] <==> forall i :: 0 <= i < |rules| ==> Descriptions(rules[i].alerts) == []
  {
    if Entries(rules) != [] {
      EntryHasKeptRule(rules);
    } else {
      forall i | 0 <= i < |rules| ensures Descriptions(rules[i].alerts) == [] {
        if Descriptions(rules[i].alerts) != [] {
          KeptRuleHasEntry(rules, i);
        }
      }
    }
  }

  /** Two same-named rules in different groups are two entries. */
  lemma SameNamedRulesNotMerged(r1: Rule, r2: Rule)
    requires Descriptions(r1.alerts) != [] && Descriptions(r2.alerts) != []
    ensures |Entries(RulesOf([Group([r1]), Group([r2])]))| == 2
  {
    var gs := [Group([r1]), Group([r2])];
    assert gs[..1] == [Group([r1])];
    assert gs[..1][..0] == [];
    assert RulesOf(gs[..1]) == [r1];
    assert RulesOf(gs) == [r1, r2];
    EntriesStep([r1], r2);
    EntriesStep([], r1);
    assert [r1] == [] + [r1];
  }

  /** The rule-level state does not influence the entry of a rule. */
  lemma RuleStateIgnored(r: Rule, state: string)
    ensures RuleEntry(r.(state := state)) == RuleEntry(r)
  {
  }

  // ---------------------------------------------------------------- the check

  /** The URL fetched from an endpoint. */
  function AlertsUrl(base: string): string {
    base + RulesPath
  }

  /** The port-forward AS WRITTEN: "kubectl" lands in the working-directory slot. */
  function PortForwardAsWritten(): (inv: Invocation)
    ensures inv.Argv() == ["port-forward", PrometheusPod, "-n", MonitoringNamespace]
  {
    Execute("kubectl", ["port-forward", PrometheusPod, "-n", MonitoringNamespace])
  }

  /** As written, the program started is "port-forward", run inside a directory named
      "kubectl", with its streams crossed: kubectl is never run. */
  lemma PortForwardRunsWrongProgram()
    ensures PortForwardAsWritten().program == "port-forward"
    ensures PortForwardAsWritten().dir == "kubectl"
    ensures PortForwardAsWritten().stdout == ParentStdin
  {
  }

  /** The port-forward as evidently intended: kubectl, in the current directory. */
  function PortForward(): (inv: Invocation)
    ensures inv.program == "kubectl" && inv.dir == ""
    ensures inv.args == ["port-forward", PrometheusPod, "-n", MonitoringNamespace]
    ensures inv.stdin == ParentStdin && inv.stdout == ParentStdout
  {
    ExecuteIntended("", ["kubectl", "port-forward", PrometheusPod, "-n", MonitoringNamespace])
  }

  /** Fetch and evaluate once an endpoint (possibly "") is known. */
  function Evaluate(endpoint: string, get: string -> Option<AlertsResponse>, calls: seq<Call>): Report {
    if endpoint == "" then
      Report(Fail(Precondition(NoPrometheusEndpoint)), calls)
    else
      var url := AlertsUrl(endpoint);
      match get(url)
      case None => Report(Fail(ExecFailure(FetchAlerts)), calls + [HttpGet(url)])
      case Some(resp) =>
        var entries := Entries(RulesOf(resp.groups));
        Report(if entries == [] then Healthy else Fail(Evidence(AlertsFiring(entries))), calls + [HttpGet(url)])
  }

  /** The specification of Run; `get` is the HTTP GET with JSON decoding, None on failure. */
  function Check(rke2Installed: bool, ingresses: Listing<Ingress>, get: string -> Option<AlertsResponse>): (r: Report)
    ensures WellFormed(r.outcome)
    ensures |CausesOf(r.outcome)| <= 1
  {
    if !rke2Installed then
      match ingresses
      case ListFailed => Report(Fail(ExecFailure(ListIngressesStep)), [ListIngresses(MonitoringNamespace)])
      case Listed(items) => Evaluate(IngressEndpoint(Hosts(items)), get, [ListIngresses(MonitoringNamespace)])
    else
      Evaluate(LocalEndpoint, get, [Exec(PortForwardAsWritten())])
  }

  /** The check as the source runs it. */
  method Run(rke2Installed: bool, ingresses: Listing<Ingress>, get: string -> Option<AlertsResponse>) returns (report: Report)
    ensures report == Check(rke2Installed, ingresses, get)
  {
    var endpoint := "";
    var calls: seq<Call>;
    if !rke2Installed {
      calls := [ListIngresses(MonitoringNamespace)];
      if ingresses.ListFailed? {
        return Report(Fail(ExecFailure(ListIngressesStep)), calls);
      }
      endpoint := ResolveEndpoint(ingresses.items);
    } else {
      calls := [Exec(PortForwardAsWritten())];
      endpoint := LocalEndpoint;
    }
    if endpoint == "" {
      return Report(Fail(Precondition(NoPrometheusEndpoint)), calls);
    }
    var url := AlertsUrl(endpoint);
    var res := get(url);
    calls := calls + [HttpGet(url)];
    if res.None? {
      return Report(Fail(ExecFailure(FetchAlerts)), calls);
    }
    var alerts := CollectFiring(res.value.groups);
    if |alerts| > 0 {
      return Report(Fail(Evidence(AlertsFiring(alerts))), calls);
    }
    report := Report(Healthy, calls);
  }

  /** Without rke2 the endpoint is https:// plus the last matching ingress host. */
  lemma IngressPathEndpoint(items: seq<Ingress>, h: string, get: string -> Option<AlertsResponse>)
    requires exists k :: IsLastMatch(Hosts(items), k) && Hosts(items)[k] == h
    ensures HttpGet(AlertsUrl(Scheme + h)) in Check(false, Listed(items), get).calls
  {
    LastPrometheusHostIff(Hosts(items), h);
  }

  /** Every alert fetch asks for the alerting rules below the resolved endpoint, and it
      is always the last call of the check. */
  lemma FetchUrlHasRulesPath(rke2Installed: bool, ingresses: Listing<Ingress>, get: string -> Option<AlertsResponse>)
    ensures forall k :: 0 <= k < |Check(rke2Installed, ingresses, get).calls|
                        && Check(rke2Installed, ingresses, get).calls[k].HttpGet? ==>
      k == |Check(rke2Installed, ingresses, get).calls| - 1
      && exists base :: base != "" && Check(rke2Installed, ingresses, get).calls[k].url == base + RulesPath
  {
  }

  /** With rke2 the fixed local endpoint is always used, after the port-forward exactly
      as the source issues it: "port-forward" started in a directory named "kubectl". */
  lemma LocalPathEndpoint(ingresses: Listing<Ingress>, get: string -> Option<AlertsResponse>)
    ensures Check(true, ingresses, get).calls == [Exec(PortForwardAsWritten()), HttpGet(LocalEndpoint + RulesPath)]
  {
  }

  /** A failed ingress listing, or an ingress list with no prometheus host, fails before
      any alert is fetched. */
  lemma NoFetchWithoutEndpoint(ingresses: Listing<Ingress>, get: string -> Option<AlertsResponse>)
    requires ingresses.Listed? ==> forall k :: 0 <= k < |Hosts(ingresses.items)| ==> !HasPrefix(Hosts(ingresses.items)[k], HostPrefix)
    ensures forall c :: c in Check(false, ingresses, get).calls ==> !c.HttpGet?
    ensures CausesOf(Check(false, ingresses, get).outcome)
         == [if ingresses.ListFailed? then ExecFailure(ListIngressesStep) else Precondition(NoPrometheusEndpoint)]
  {
    if ingresses.Listed? {
      NoEndpointIff(Hosts(ingresses.items));
    }
  }

  /** Once alerts are fetched, the check passes exactly when no rule of any group keeps
      a firing, non-sentinel alert. */
  lemma HealthyIff(endpoint: string, get: string -> Option<AlertsResponse>, calls: seq<Call>)
    requires endpoint != "" && get(AlertsUrl(endpoint)).Some?
    ensures Evaluate(endpoint, get, calls).outcome.Healthy?
        <==> var rules := RulesOf(get(AlertsUrl(endpoint)).value.groups);
             forall i, j :: 0 <= i < |rules| && 0 <= j < |rules[i].alerts| ==> !Kept(rules[i].alerts[j])
  {
    var rules := RulesOf(get(AlertsUrl(endpoint)).value.groups);
    EntriesEmptyIff(rules);
    forall i | 0 <= i < |rules| {
      DescriptionsEmptyIff(rules[i].alerts);
    }
  }

  /** A firing Watchdog next to a firing PodCrashLooping alert: only PodCrashLooping is reported. */
  lemma SentinelExcluded(desc: string)
    ensures var watchdog := Rule("Watchdog", Firing, [Alert(map["alertname" := Watchdog], map[], Firing)]);
            var crash := Rule("PodCrashLooping", Firing,
                              [Alert(map["alertname" := "PodCrashLooping"], map["description" := desc], Firing)]);
            Entries(RulesOf([Group([watchdog, crash])])) == [RuleAlerts("PodCrashLooping", [desc])]
  {
    var watchdog := Rule("Watchdog", Firing, [Alert(map["alertname" := Watchdog], map[], Firing)]);
    var crash := Rule("PodCrashLooping", Firing,
                      [Alert(map["alertname" := "PodCrashLooping"], map["description" := desc], Firing)]);
    var gs := [Group([watchdog, crash])];
    assert gs[..0] == [];
    assert RulesOf(gs) == [watchdog, crash];
    assert Descriptions(watchdog.alerts) == [] by { assert watchdog.alerts[..0] == []; }
    assert Descriptions(crash.alerts) == [desc] by { assert crash.alerts[..0] == []; }
    EntriesStep([watchdog], crash);
    EntriesStep([], watchdog);
    assert [watchdog] == [] + [watchdog];
    assert [watchdog, crash] == [watchdog] + [crash];
  }

  /** A response whose only firing alerts are sentinels passes. */
  lemma AllSentinelsPass(rules: seq<Rule>)
    requires forall i, j :: 0 <= i < |rules| && 0 <= j < |rules[i].alerts| ==>
      Get(rules[i].alerts[j].labels, "alertname") in {Watchdog, InfoInhibitor}
    ensures Entries(rules) == []
  {
    EntriesEmptyIff(rules);
    forall i | 0 <= i < |rules| ensures Descriptions(rules[i].alerts) == [] {
      DescriptionsEmptyIff(rules[i].alerts);
    }
  }
}
