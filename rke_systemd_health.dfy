/**
 * The rke2-systemd-health check: a decision tree. Without the rke2 binary it refuses at
 * once; otherwise it resolves the node's rke2 unit from `systemctl list-units`, asks
 * `systemctl is-active` about it, and on "inactive" reports the unit's last 10 journal lines.
 */
module RkeSystemdHealth {
  import opened Command
  import opened Strings
  import opened Outcomes

  const Name := "rke2_systemd_health"
  const ServerUnit := "rke2-server.service"
  const AgentUnit := "rke2-agent.service"
  const InactiveWord := "inactive"
  const ListUnitsParams := ["systemctl", "list-units", "--type=service"]

  function IsActiveParams(unit: string): seq<string> {
    ["systemctl", "is-active", unit]
  }

  function JournalParams(unit: string): seq<string> {
    ["journalctl", "-u", unit, "--no-pager", "-n", "10"]
  }

  /** Every command of this check runs in the current directory with no stdin and its
      stdout captured in a buffer. */
  function Captures(params: seq<string>): Call
    requires |params| >= 1
  {
    Exec(ExecuteWith("", Nothing, Buffer, params))
  }

  /** The node role from the list-units output: the server unit whenever it is listed,
      the agent unit only when the server unit is not, and nothing when neither is. */
  function NodeUnit(units: string): (u: Option<string>)
    ensures u == Some(ServerUnit) <==> Contains(units, ServerUnit)
    ensures u == Some(AgentUnit) <==> !Contains(units, ServerUnit) && Contains(units, AgentUnit)
    ensures u.None? <==> !Contains(units, ServerUnit) && !Contains(units, AgentUnit)
  {
    if Contains(units, ServerUnit) then Some(ServerUnit)
    else if Contains(units, AgentUnit) then Some(AgentUnit)
    else None
  }

  /** The check: every failure returns at once, so there is never more than one cause,
      and without rke2 no command is run. */
  function Check(rke2Installed: bool, run: seq<string> -> Captured): (r: Report)
    ensures WellFormed(r.outcome)
    ensures |CausesOf(r.outcome)| <= 1
    ensures !rke2Installed ==> r.calls == []
    ensures rke2Installed ==> 1 <= |r.calls| <= 3 && r.calls[0] == Captures(ListUnitsParams)
  {
    if !rke2Installed then
      Report(Fail(Precondition(NotRancher)), [])
    else
      var listed := run(ListUnitsParams);
      var calls := [Captures(ListUnitsParams)];
      if !listed.ok then
        Report(Fail(ExecFailure(ListUnits)), calls)
      else
        match NodeUnit(listed.output)
        case None => Report(Fail(Precondition(UnknownNodeType)), calls)
        case Some(unit) =>
          var status := run(IsActiveParams(unit));
          var calls := calls + [Captures(IsActiveParams(unit))];
          if !status.ok then
            Report(Fail(ExecFailure(UnitStatus)), calls)
          else if !Contains(status.output, InactiveWord) then
            Report(Healthy, calls)
          else
            var journal := run(JournalParams(unit));
            var calls := calls + [Captures(JournalParams(unit))];
            if !journal.ok then Report(Fail(ExecFailure(JournalLogs)), calls)
            else Report(Fail(Evidence(ServiceInactive(unit, journal.output))), calls)
  }

  /** Without rke2 the result is exactly the "not a rancher environment" refusal. */
  lemma NotRancherRunsNothing(run: seq<string> -> Captured)
    ensures Check(false, run) == Report(Unhealthy([Precondition(NotRancher)]), [])
  {
  }

  /** A list-units failure is reported before any role is determined. */
  lemma ListFailureStopsEarly(run: seq<string> -> Captured)
    requires !run(ListUnitsParams).ok
    ensures Check(true, run).outcome == Unhealthy([ExecFailure(ListUnits)])
    ensures |Check(true, run).calls| == 1
  {
  }

  /** A node whose listed units name neither rke2 unit is refused as of unknown type,
      after list-units and before any unit is queried; nothing else gives that refusal. */
  lemma UnknownNodeTypeIff(rke2Installed: bool, run: seq<string> -> Captured)
    ensures Precondition(UnknownNodeType) in CausesOf(Check(rke2Installed, run).outcome)
        <==> rke2Installed && run(ListUnitsParams).ok
             && !Contains(run(ListUnitsParams).output, ServerUnit)
             && !Contains(run(ListUnitsParams).output, AgentUnit)
    ensures rke2Installed && run(ListUnitsParams).ok && NodeUnit(run(ListUnitsParams).output).None? ==>
      Check(rke2Installed, run) == Report(Unhealthy([Precondition(UnknownNodeType)]), [Captures(ListUnitsParams)])
  {
  }

  /** A node that lists both units is treated as a server. */
  lemma ServerPreferredOverAgent(units: string)
    requires Contains(units, ServerUnit) && Contains(units, AgentUnit)
    ensures NodeUnit(units) == Some(ServerUnit)
  {
  }

  /** is-active and journalctl are asked about the unit resolved from the list-units
      output, the server or the agent unit, and the journal request is for its last 10 lines. */
  lemma SameUnitQueried(run: seq<string> -> Captured)
    ensures |Check(true, run).calls| >= 2 ==>
      run(ListUnitsParams).ok && NodeUnit(run(ListUnitsParams).output).Some?
      && NodeUnit(run(ListUnitsParams).output).value in {ServerUnit, AgentUnit}
      && Check(true, run).calls[1] == Captures(IsActiveParams(NodeUnit(run(ListUnitsParams).output).value))
      && (|Check(true, run).calls| == 3 ==>
            Check(true, run).calls[2] == Captures(JournalParams(NodeUnit(run(ListUnitsParams).output).value)))
  {
  }

  /** The check passes exactly when rke2 is present, the role resolves, is-active
      succeeds and its output does not contain "inactive". */
  lemma HealthyIff(rke2Installed: bool, run: seq<string> -> Captured)
    ensures Check(rke2Installed, run).outcome.Healthy?
        <==> rke2Installed && run(ListUnitsParams).ok
             && NodeUnit(run(ListUnitsParams).output).Some?
             && run(IsActiveParams(NodeUnit(run(ListUnitsParams).output).value)).ok
             && !Contains(run(IsActiveParams(NodeUnit(run(ListUnitsParams).output).value)).output, InactiveWord)
  {
  }

  /** Only an "inactive" status gives the inactive-service cause, and it carries the
      journal output of that same unit. */
  lemma InactiveCauseIff(rke2Installed: bool, run: seq<string> -> Captured, unit: string, journal: string)
    ensures Evidence(ServiceInactive(unit, journal)) in CausesOf(Check(rke2Installed, run).outcome)
        <==> rke2Installed && run(ListUnitsParams).ok
             && NodeUnit(run(ListUnitsParams).output) == Some(unit)
             && run(IsActiveParams(unit)).ok && Contains(run(IsActiveParams(unit)).output, InactiveWord)
             && run(JournalParams(unit)).ok && run(JournalParams(unit)).output == journal
  {
  }

  /** A "failed" unit passes the check: only the word "inactive" is looked for. */
  lemma FailedUnitPasses(run: seq<string> -> Captured)
    requires run(ListUnitsParams).ok && NodeUnit(run(ListUnitsParams).output).Some?
    requires run(IsActiveParams(NodeUnit(run(ListUnitsParams).output).value)) == Captured(true, "failed\n")
    ensures Check(true, run).outcome.Healthy?
  {
    ShorterDoesNotContain("failed\n", InactiveWord);
  }

  /** An is-active run that exits with an error is reported as a status failure even when
      its output says "inactive"; the journal is then never read. */
  lemma FailingStatusHidesInactive(run: seq<string> -> Captured)
    requires run(ListUnitsParams).ok && NodeUnit(run(ListUnitsParams).output).Some?
    requires run(IsActiveParams(NodeUnit(run(ListUnitsParams).output).value)) == Captured(false, "inactive\n")
    ensures Check(true, run).outcome == Unhealthy([ExecFailure(UnitStatus)])
    ensures |Check(true, run).calls| == 2
  {
  }
}
