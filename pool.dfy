/**
 * The executor pool: every executor is run once and its outcome is stored in the
 * result map under the executor's name. The source runs the executors concurrently and
 * serialises the map writes with a mutex; the model takes the order in which the writes
 * happen as a schedule, any permutation of the executor indices.
 */
module ExecutorPool {
  import opened Command
  import opened Outcomes
  import EtcdHealth
  import EtcdAlarm
  import RkeSystemdHealth
  import PrometheusAlarm
  import ContainerdHealth

  /** An executor, reduced to its name and the outcome its Run returns. */
  datatype Executor = Executor(name: string, result: Outcome)

  /** A schedule of n executors: n writes, each naming an executor, every executor
      among them; so each index 0..n-1 occurs exactly once. */
  predicate IsSchedule(order: seq<nat>, n: nat) {
    |order| == n
    && (forall k :: 0 <= k < |order| ==> order[k] < n)
    && (forall i :: 0 <= i < n ==> i in order)
  }

  /** The result map after the writes of `order` on top of `m`; a later write to the same
      name replaces an earlier one. */
  function Record(m: map<string, Outcome>, execs: seq<Executor>, order: seq<nat>): map<string, Outcome>
    requires forall k :: 0 <= k < |order| ==> order[k] < |execs|
    decreases |order|
  {
    if order == [] then m
    else
      var e := execs[order[|order| - 1]];
      Record(m, execs, order[..|order| - 1])[e.name := e.result]
  }

  /** The names of a list of executors. */
  function Names(execs: seq<Executor>): set<string> {
    set i | 0 <= i < |execs| :: execs[i].name
  }

  class Pool {
    const executors: seq<Executor>
    var results: map<string, Outcome>

    /** A new pool starts with an empty result map. */
    constructor (executors: seq<Executor>)
      ensures this.executors == executors
      ensures results == map[]
    {
      this.executors := executors;
      results := map[];
    }

    /** Runs every executor once, in the order of `order`, recording each outcome. */
    method Run(order: seq<nat>)
      requires IsSchedule(order, |executors|)
      modifies this
      ensures results == Record(old(results), executors, order)
      ensures results.Keys == old(results).Keys + Names(executors)
    {
      var i := 0;
      while i < |order|
        invariant 0 <= i <= |order|
        invariant results == Record(old(results), executors, order[..i])
      {
        var e := executors[order[i]];
        results := results[e.name := e.result];
        assert order[..i + 1][..i] == order[..i];
        i := i + 1;
      }
      assert order[..i] == order;
      RecordKeys(old(results), executors, order);
    }
  }

  /** The writes of a schedule add exactly the executor names to the keys. */
  lemma {:induction false} RecordKeysPartial(m: map<string, Outcome>, execs: seq<Executor>, order: seq<nat>)
    requires forall k :: 0 <= k < |order| ==> order[k] < |execs|
    ensures Record(m, execs, order).Keys == m.Keys + (set k | 0 <= k < |order| :: execs[order[k]].name)
    decreases |order|
  {
    if order != [] {
      var init := order[..|order| - 1];
      RecordKeysPartial(m, execs, init);
      var last := |order| - 1;
      var s := set k | 0 <= k < |order| :: execs[order[k]].name;
      var s' := set k | 0 <= k < |init| :: execs[init[k]].name;
      assert s == s' + {execs[order[last]].name} by {
        forall x | x in s ensures x in s' + {execs[order[last]].name} {
          var k :| 0 <= k < |order| && execs[order[k]].name == x;
          if k < last {
            assert init[k] == order[k];
          }
        }
        forall x | x in s' ensures x in s {
          var k :| 0 <= k < |init| && execs[init[k]].name == x;
          assert init[k] == order[k];
        }
      }
    }
  }

  /** After a full schedule the key set is the old one plus every executor name,
      whatever the order; a failing executor does not stop the others being recorded. */
  lemma RecordKeys(m: map<string, Outcome>, execs: seq<Executor>, order: seq<nat>)
    requires IsSchedule(order, |execs|)
    ensures Record(m, execs, order).Keys == m.Keys + Names(execs)
  {
    RecordKeysPartial(m, execs, order);
    var s := set k | 0 <= k < |order| :: execs[order[k]].name;
    forall x | x in Names(execs) ensures x in s {
      var i :| 0 <= i < |execs| && execs[i].name == x;
      assert i in order;
      var k :| 0 <= k < |order| && order[k] == i;
    }
  }

  /** The stored value under a name is the outcome written last under that name: a write
      at position k survives when every later write of the same name carries the same outcome. */
  lemma {:induction false} RecordLastWrite(m: map<string, Outcome>, execs: seq<Executor>, order: seq<nat>, k: nat)
    requires forall j :: 0 <= j < |order| ==> order[j] < |execs|
    requires k < |order|
    requires forall j :: k < j < |order| && execs[order[j]].name == execs[order[k]].name ==>
      execs[order[j]].result == execs[order[k]].result
    ensures execs[order[k]].name in Record(m, execs, order)
    ensures Record(m, execs, order)[execs[order[k]].name] == execs[order[k]].result
    decreases |order|
  {
    if k < |order| - 1 {
      var init := order[..|order| - 1];
      assert forall j :: 0 <= j < |init| ==> init[j] == order[j];
      RecordLastWrite(m, execs, init, k);
    }
  }

  /** An executor whose name no other executor shares gets its own outcome, under every
      schedule. */
  lemma UniqueNameGetsOwnResult(m: map<string, Outcome>, execs: seq<Executor>, order: seq<nat>, i: nat)
    requires IsSchedule(order, |execs|) && i < |execs|
    requires forall j :: 0 <= j < |execs| && j != i ==> execs[j].name != execs[i].name
    ensures execs[i].name in Record(m, execs, order)
    ensures Record(m, execs, order)[execs[i].name] == execs[i].result
  {
    assert i in order;
    var k :| 0 <= k < |order| && order[k] == i;
    RecordLastWrite(m, execs, order, k);
  }

  /** With distinct names the result map does not depend on the schedule. */
  lemma ScheduleIndependent(execs: seq<Executor>, o1: seq<nat>, o2: seq<nat>)
    requires IsSchedule(o1, |execs|) && IsSchedule(o2, |execs|)
    requires forall i, j :: 0 <= i < j < |execs| ==> execs[i].name != execs[j].name
    ensures Record(map[], execs, o1) == Record(map[], execs, o2)
  {
    RecordKeys(map[], execs, o1);
    RecordKeys(map[], execs, o2);
    forall x | x in Record(map[], execs, o1) ensures Record(map[], execs, o1)[x] == Record(map[], execs, o2)[x] {
      var i :| 0 <= i < |execs| && execs[i].name == x;
      UniqueNameGetsOwnResult(map[], execs, o1, i);
      UniqueNameGetsOwnResult(map[], execs, o2, i);
    }
  }

  /** Two executors of the same name collapse to one entry, holding the outcome of
      whichever was written last. */
  lemma DuplicatesCollapse(a: Outcome, b: Outcome, order: seq<nat>)
    requires IsSchedule(order, 2)
    ensures Record(map[], [Executor("x", a), Executor("x", b)], order).Keys == {"x"}
    ensures Record(map[], [Executor("x", a), Executor("x", b)], order)["x"] == if order[1] == 1 then b else a
  {
    var execs := [Executor("x", a), Executor("x", b)];
    RecordKeys(map[], execs, order);
    assert Names(execs) == {"x"} by {
      assert execs[0].name == "x";
    }
    RecordLastWrite(map[], execs, order, 1);
    if order[1] != 1 {
      assert order[1] == 0;
    }
  }

  /** An empty pool records nothing. */
  lemma EmptyPoolRecordsNothing(order: seq<nat>)
    requires IsSchedule(order, 0)
    ensures Record(map[], [], order) == map[]
  {
  }

  /** The names the five modelled checks give themselves. */
  const CheckNames: seq<string> :=
    [EtcdHealth.Name, EtcdAlarm.Name, RkeSystemdHealth.Name, PrometheusAlarm.Name, ContainerdHealth.Name]

  /** What the five checks observe on one node: whether the rke2 binary is on the PATH,
      the etcd pod and ingress listings, the answers of the subprocesses, the containerd
      tail, and the HTTP GETs. */
  datatype Node = Node(
    rke2Installed: bool,
    etcdPods: Listing<string>,
    ingresses: Listing<PrometheusAlarm.Ingress>,
    run: seq<string> -> Captured,
    tail: ContainerdHealth.Tail,
    get: string -> Option<PrometheusAlarm.AlertsResponse>)

  /** The outcomes of the five modelled checks run on one node, in the order of
      `CheckNames`. */
  function CheckOutcomes(node: Node): (outs: seq<Outcome>)
    ensures |outs| == |CheckNames|
  {
    [ EtcdHealth.Check(node.etcdPods, node.run).outcome,
      EtcdAlarm.Check(node.etcdPods, node.run).outcome,
      RkeSystemdHealth.Check(node.rke2Installed, node.run).outcome,
      PrometheusAlarm.Check(node.rke2Installed, node.ingresses, node.get).outcome,
      ContainerdHealth.Check(node.run(ContainerdHealth.CrictlParams), node.tail).outcome ]
  }

  /** The five checks, named, each with the given outcome. */
  function NamedChecks(outs: seq<Outcome>): (execs: seq<Executor>)
    requires |outs| == |CheckNames|
    ensures |execs| == |CheckNames|
    ensures forall i, j :: 0 <= i < j < |execs| ==> execs[i].name != execs[j].name
  {
    seq(|CheckNames|, i requires 0 <= i < |CheckNames| => Executor(CheckNames[i], outs[i]))
  }

  /** The pool of the five checks run on one node. */
  function CheckExecutors(node: Node): seq<Executor> {
    NamedChecks(CheckOutcomes(node))
  }

  /** Whatever the order of the writes, the map holds exactly the five names, each with
      its own outcome, so any two orders give the same map. */
  lemma NamedScheduleIndependent(outs: seq<Outcome>, o1: seq<nat>, o2: seq<nat>)
    requires |outs| == |CheckNames|
    requires IsSchedule(o1, |CheckNames|) && IsSchedule(o2, |CheckNames|)
    ensures Record(map[], NamedChecks(outs), o1) == Record(map[], NamedChecks(outs), o2)
    ensures Record(map[], NamedChecks(outs), o1).Keys == set i | 0 <= i < |CheckNames| :: CheckNames[i]
    ensures forall i :: 0 <= i < |CheckNames| ==>
      CheckNames[i] in Record(map[], NamedChecks(outs), o1)
      && Record(map[], NamedChecks(outs), o1)[CheckNames[i]] == outs[i]
  {
    var execs := NamedChecks(outs);
    ScheduleIndependent(execs, o1, o2);
    RecordKeys(map[], execs, o1);
    assert forall i :: 0 <= i < |execs| ==> execs[i].name == CheckNames[i];
    assert Names(execs) == set i | 0 <= i < |CheckNames| :: CheckNames[i];
    forall i | 0 <= i < |CheckNames|
      ensures CheckNames[i] in Record(map[], execs, o1) && Record(map[], execs, o1)[CheckNames[i]] == outs[i]
    {
      UniqueNameGetsOwnResult(map[], execs, o1, i);
    }
  }

  /** Whatever order the five checks finish in, the result map is the same, holds exactly
      the five names, and holds under each name the outcome of that check on the node. */
  lemma ChecksScheduleIndependent(node: Node, o1: seq<nat>, o2: seq<nat>)
    requires IsSchedule(o1, |CheckNames|) && IsSchedule(o2, |CheckNames|)
    ensures Record(map[], CheckExecutors(node), o1) == Record(map[], CheckExecutors(node), o2)
    ensures Record(map[], CheckExecutors(node), o1).Keys == set i | 0 <= i < |CheckNames| :: CheckNames[i]
    ensures EtcdHealth.Name in Record(map[], CheckExecutors(node), o1)
      && Record(map[], CheckExecutors(node), o1)[EtcdHealth.Name] == EtcdHealth.Check(node.etcdPods, node.run).outcome
    ensures EtcdAlarm.Name in Record(map[], CheckExecutors(node), o1)
      && Record(map[], CheckExecutors(node), o1)[EtcdAlarm.Name] == EtcdAlarm.Check(node.etcdPods, node.run).outcome
    ensures RkeSystemdHealth.Name in Record(map[], CheckExecutors(node), o1)
      && Record(map[], CheckExecutors(node), o1)[RkeSystemdHealth.Name]
         == RkeSystemdHealth.Check(node.rke2Installed, node.run).outcome
    ensures PrometheusAlarm.Name in Record(map[], CheckExecutors(node), o1)
      && Record(map[], CheckExecutors(node), o1)[PrometheusAlarm.Name]
         == PrometheusAlarm.Check(node.rke2Installed, node.ingresses, node.get).outcome
    ensures ContainerdHealth.Name in Record(map[], CheckExecutors(node), o1)
      && Record(map[], CheckExecutors(node), o1)[ContainerdHealth.Name]
         == ContainerdHealth.Check(node.run(ContainerdHealth.CrictlParams), node.tail).outcome
  {
    var outs := CheckOutcomes(node);
    NamedScheduleIndependent(outs, o1, o2);
    assert CheckNames[0] == EtcdHealth.Name && CheckNames[1] == EtcdAlarm.Name;
    assert CheckNames[2] == RkeSystemdHealth.Name && CheckNames[3] == PrometheusAlarm.Name;
    assert CheckNames[4] == ContainerdHealth.Name;
  }
}
