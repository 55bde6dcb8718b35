/**
 * The doctor command: the executor list built from the six flags, and, when no flag is
 * set, the interactive selector (cursor, toggled selection, quit and confirm keys) and
 * its text rendering.
 */
module Doctor {
  import opened Outcomes

  /** The six checks the command can schedule. */
  datatype CheckName =
    | EtcdHealthCheck
    | EtcdAlarmCheck
    | EtcdPerfCheck
    | RkeSystemdHealthCheck
    | PrometheusAlarmCheck
    | ContainerdHealthCheck

  /** The boolean flags --etcd-health ... --containerd-health. */
  datatype Flags = Flags(
    etcdHealth: bool, etcdAlarm: bool, etcdPerf: bool,
    rkeSystemdHealth: bool, prometheusAlarm: bool, containerdHealth: bool)

  /** The order in which the flags are tested. */
  const FlagOrder: seq<CheckName> :=
    [EtcdHealthCheck, EtcdAlarmCheck, EtcdPerfCheck, RkeSystemdHealthCheck, PrometheusAlarmCheck, ContainerdHealthCheck]

  predicate FlagSet(flags: Flags, c: CheckName) {
    match c
    case EtcdHealthCheck => flags.etcdHealth
    case EtcdAlarmCheck => flags.etcdAlarm
    case EtcdPerfCheck => flags.etcdPerf
    case RkeSystemdHealthCheck => flags.rkeSystemdHealth
    case PrometheusAlarmCheck => flags.prometheusAlarm
    case ContainerdHealthCheck => flags.containerdHealth
  }

  /** The checks of `cs` whose flag is set, in the order of `cs`. */
  function Pick(flags: Flags, cs: seq<CheckName>): seq<CheckName>
    decreases |cs|
  {
    if cs == [] then []
    else Pick(flags, cs[..|cs| - 1]) + (if FlagSet(flags, cs[|cs| - 1]) then [cs[|cs| - 1]] else [])
  }

  /** The executor list the flags ask for. */
  function Enabled(flags: Flags): seq<CheckName> {
    Pick(flags, FlagOrder)
  }

  /** Position in the flag order. */
  function Rank(c: CheckName): nat {
    match c
    case EtcdHealthCheck => 0
    case EtcdAlarmCheck => 1
    case EtcdPerfCheck => 2
    case RkeSystemdHealthCheck => 3
    case PrometheusAlarmCheck => 4
    case ContainerdHealthCheck => 5
  }

  /** The six flag tests as the source writes them, one append each. */
  method ExecutorsFromFlags(flags: Flags) returns (execs: seq<CheckName>)
    ensures execs == Enabled(flags)
  {
    execs := [];
    if flags.etcdHealth { execs := execs + [EtcdHealthCheck]; }
    assert execs == Pick(flags, FlagOrder[..1]);
    if flags.etcdAlarm { execs := execs + [EtcdAlarmCheck]; }
    assert FlagOrder[..2][..1] == FlagOrder[..1];
    assert execs == Pick(flags, FlagOrder[..2]);
    if flags.etcdPerf { execs := execs + [EtcdPerfCheck]; }
    assert FlagOrder[..3][..2] == FlagOrder[..2];
    assert execs == Pick(flags, FlagOrder[..3]);
    if flags.rkeSystemdHealth { execs := execs + [RkeSystemdHealthCheck]; }
    assert FlagOrder[..4][..3] == FlagOrder[..3];
    assert execs == Pick(flags, FlagOrder[..4]);
    if flags.prometheusAlarm { execs := execs + [PrometheusAlarmCheck]; }
    assert FlagOrder[..5][..4] == FlagOrder[..4];
    assert execs == Pick(flags, FlagOrder[..5]);
    if flags.containerdHealth { execs := execs + [ContainerdHealthCheck]; }
    assert FlagOrder[..6][..5] == FlagOrder[..5];
    assert FlagOrder[..6] == FlagOrder;
  }

  /** A check is picked exactly when it is among the candidates and its flag is set. */
  lemma {:induction false} PickIff(flags: Flags, cs: seq<CheckName>, c: CheckName)
    ensures c in Pick(flags, cs) <==> c in cs && FlagSet(flags, c)
    decreases |cs|
  {
    if cs != [] {
      PickIff(flags, cs[..|cs| - 1], c);
      assert cs == cs[..|cs| - 1] + [cs[|cs| - 1]];
    }
  }

  /** Picking keeps the candidates' order: ranks strictly increase when they do in `cs`. */
  lemma {:induction false} PickOrdered(flags: Flags, cs: seq<CheckName>)
    requires forall i, j :: 0 <= i < j < |cs| ==> Rank(cs[i]) < Rank(cs[j])
    ensures forall i, j :: 0 <= i < j < |Pick(flags, cs)| ==> Rank(Pick(flags, cs)[i]) < Rank(Pick(flags, cs)[j])
    decreases |cs|
  {
    if cs != [] {
      var init := cs[..|cs| - 1];
      var last := cs[|cs| - 1];
      PickOrdered(flags, init);
      forall x | x in Pick(flags, init) ensures Rank(x) < Rank(last) {
        PickIff(flags, init, x);
        var i :| 0 <= i < |init| && init[i] == x;
        assert cs[i] == x;
      }
    }
  }

  /** Exactly one entry per set flag, each once, in the fixed flag order. */
  lemma EnabledIff(flags: Flags)
    ensures forall c :: c in Enabled(flags) <==> FlagSet(flags, c)
    ensures forall i, j :: 0 <= i < j < |Enabled(flags)| ==> Rank(Enabled(flags)[i]) < Rank(Enabled(flags)[j])
  {
    forall c ensures c in Enabled(flags) <==> FlagSet(flags, c) {
      PickIff(flags, FlagOrder, c);
      assert FlagOrder[Rank(c)] == c;
    }
    PickOrdered(flags, FlagOrder);
  }

  /** The list is empty, and the selector is shown, exactly when no flag is set. */
  lemma EnabledEmptyIff(flags: Flags)
    ensures Enabled(flags) == [] <==> flags == Flags(false, false, false, false, false, false)
  {
    EnabledIff(flags);
    if Enabled(flags) == [] {
      assert !FlagSet(flags, EtcdHealthCheck) && !FlagSet(flags, EtcdAlarmCheck) && !FlagSet(flags, EtcdPerfCheck);
      assert !FlagSet(flags, RkeSystemdHealthCheck) && !FlagSet(flags, PrometheusAlarmCheck);
      assert !FlagSet(flags, ContainerdHealthCheck);
    } else {
      assert FlagSet(flags, Enabled(flags)[0]);
    }
  }

  // ---------------------------------------------------------------- the selector

  const Choices: seq<string> :=
    ["Etcd Health", "Etcd Alarm", "Etcd Perf", "Prometheus Alerts", "RKE Systemd Health", "Containerd Health"]

  /** The check a confirmed selection index schedules. The selector's order differs from
      the flag order: index 3 is prometheus and index 4 is rke-systemd. */
  function SelectedCheck(i: int): (c: Option<CheckName>)
    ensures c.Some? <==> 0 <= i < |Choices|
  {
    if i == 0 then Some(EtcdHealthCheck)
    else if i == 1 then Some(EtcdAlarmCheck)
    else if i == 2 then Some(EtcdPerfCheck)
    else if i == 3 then Some(PrometheusAlarmCheck)
    else if i == 4 then Some(RkeSystemdHealthCheck)
    else if i == 5 then Some(ContainerdHealthCheck)
    else None
  }

  /** Distinct indices schedule distinct checks, and every check has an index. */
  lemma SelectedCheckBijective(i: int, j: int, c: CheckName)
    ensures SelectedCheck(i).Some? && SelectedCheck(i) == SelectedCheck(j) ==> i == j
    ensures exists k :: 0 <= k < |Choices| && SelectedCheck(k) == Some(c)
  {
    match c
    case EtcdHealthCheck => assert SelectedCheck(0) == Some(c);
    case EtcdAlarmCheck => assert SelectedCheck(1) == Some(c);
    case EtcdPerfCheck => assert SelectedCheck(2) == Some(c);
    case PrometheusAlarmCheck => assert SelectedCheck(3) == Some(c);
    case RkeSystemdHealthCheck => assert SelectedCheck(4) == Some(c);
    case ContainerdHealthCheck => assert SelectedCheck(5) == Some(c);
  }

  /** The checks a set of selected indices schedules. */
  function Chosen(selected: set<int>): set<CheckName> {
    set i | i in selected && SelectedCheck(i).Some? :: SelectedCheck(i).value
  }

  /** A terminal event: a key press, or anything else the runtime delivers. */
  datatype Msg = Key(key: string) | Other

  predicate IsKey(msg: Msg, k: string) {
    msg.Key? && msg.key == k
  }

  /** The selector's state apart from the executor list. */
  datatype Pane = Pane(cursor: int, selected: set<int>, quitting: bool)

  /** The cursor is on a choice and only choices are selected. */
  predicate InRange(p: Pane) {
    0 <= p.cursor < |Choices| && forall i :: i in p.selected ==> 0 <= i < |Choices|
  }

  /** The effect of one message on the pane. */
  function Next(p: Pane, msg: Msg): Pane {
    if IsKey(msg, "ctrl+c") || IsKey(msg, "q") then p
    else if IsKey(msg, "up") || IsKey(msg, "k") then
      (if p.cursor > 0 then p.(cursor := p.cursor - 1) else p)
    else if IsKey(msg, "down") || IsKey(msg, "j") then
      (if p.cursor < |Choices| - 1 then p.(cursor := p.cursor + 1) else p)
    else if IsKey(msg, " ") then
      (if p.cursor in p.selected then p.(selected := p.selected - {p.cursor})
       else p.(selected := p.selected + {p.cursor}))
    else if IsKey(msg, "enter") then p.(quitting := true)
    else p
  }

  /** Whether the message ends the program. */
  predicate Quits(msg: Msg) {
    IsKey(msg, "ctrl+c") || IsKey(msg, "q") || IsKey(msg, "enter")
  }

  /** The cursor never leaves the choices and nothing outside them is ever selected. */
  lemma NextInRange(p: Pane, msg: Msg)
    requires InRange(p)
    ensures InRange(Next(p, msg))
  {
  }

  /** The pane after a run of messages. */
  function Replay(p: Pane, msgs: seq<Msg>): Pane
    decreases |msgs|
  {
    if msgs == [] then p else Next(Replay(p, msgs[..|msgs| - 1]), msgs[|msgs| - 1])
  }

  /** From the initial pane, no run of key presses moves the cursor off the choices. */
  lemma {:induction false} ReplayInRange(p: Pane, msgs: seq<Msg>)
    requires InRange(p)
    ensures InRange(Replay(p, msgs))
    decreases |msgs|
  {
    if msgs != [] {
      ReplayInRange(p, msgs[..|msgs| - 1]);
      NextInRange(Replay(p, msgs[..|msgs| - 1]), msgs[|msgs| - 1]);
    }
  }

  /** Space toggles: pressing it twice restores the selection. */
  lemma ToggleTwice(p: Pane)
    ensures Next(p, Key(" ")).selected != p.selected
    ensures Next(Next(p, Key(" ")), Key(" ")) == p
  {
    if p.cursor in p.selected {
      assert p.cursor !in Next(p, Key(" ")).selected;
      assert p.selected - {p.cursor} + {p.cursor} == p.selected;
    } else {
      assert p.cursor in Next(p, Key(" ")).selected;
      assert p.selected + {p.cursor} - {p.cursor} == p.selected;
    }
  }

  /** Quitting keys and unknown keys leave the pane as it is. */
  lemma UnknownKeysIgnored(p: Pane, msg: Msg)
    requires !msg.Key? || msg.key !in {"up", "k", "down", "j", " ", "enter"}
    ensures Next(p, msg) == p
  {
  }

  /** Down then up returns to the same choice when the cursor is not on the last one. */
  lemma DownThenUp(p: Pane)
    requires InRange(p) && p.cursor < |Choices| - 1
    ensures Next(Next(p, Key("down")), Key("up")) == p
  {
  }

  /** The rendered selector: the question, one line per choice, and the quit hint. */
  const Header := "Which one do you want to check?\n\n"
  const Footer := "\nPress ctrl+c or q to quit.\n"

  /** One choice line: cursor mark, checkbox, label. */
  function Line(choice: string, atCursor: bool, isSelected: bool): (l: string)
    ensures |l| == |choice| + 7
    ensures l[0] == (if atCursor then '>' else ' ')
    ensures l[1..3] == " [" && l[4..6] == "] "
    ensures l[3] == (if isSelected then 'x' else ' ')
    ensures l[6..|l| - 1] == choice && l[|l| - 1] == '\n'
  {
    [if atCursor then '>' else ' '] + " [" + [if isSelected then 'x' else ' '] + "] " + choice + "\n"
  }

  function Lines(choices: seq<string>, cursor: int, selected: set<int>): seq<string> {
    seq(|choices|, i requires 0 <= i < |choices| => Line(choices[i], i == cursor, i in selected))
  }

  /** The concatenation of a run of lines. */
  function Join(lines: seq<string>): string
    decreases |lines|
  {
    if lines == [] then "" else Join(lines[..|lines| - 1]) + lines[|lines| - 1]
  }

  /** Exactly the cursor line carries '>' and exactly the selected lines carry 'x'. */
  lemma LinesMarks(choices: seq<string>, cursor: int, selected: set<int>)
    ensures |Lines(choices, cursor, selected)| == |choices|
    ensures forall i :: 0 <= i < |choices| ==>
      (Lines(choices, cursor, selected)[i][0] == '>' <==> i == cursor)
      && (Lines(choices, cursor, selected)[i][3] == 'x' <==> i in selected)
      && Lines(choices, cursor, selected)[i][6..|choices[i]| + 6] == choices[i]
  {
    forall i | 0 <= i < |choices|
      ensures (Lines(choices, cursor, selected)[i][0] == '>' <==> i == cursor)
      ensures (Lines(choices, cursor, selected)[i][3] == 'x' <==> i in selected)
      ensures Lines(choices, cursor, selected)[i][6..|choices[i]| + 6] == choices[i]
    {
      var l := Line(choices[i], i == cursor, i in selected);
      assert Lines(choices, cursor, selected)[i] == l;
    }
  }

  class Selector {
    const choices: seq<string>
    var cursor: int
    var selected: set<int>
    var quitting: bool
    var execs: seq<CheckName>

    predicate Valid()
      reads this
    {
      choices == Choices && InRange(Pane(cursor, selected, quitting))
    }

    function State(): Pane
      reads this
    {
      Pane(cursor, selected, quitting)
    }

    /** The initial selector, starting from the (empty) executor list built from the flags.
        `RunCommand` reads the list back once the selector has quit. */
    constructor (execs: seq<CheckName>)
      ensures Valid()
      ensures cursor == 0 && selected == {} && !quitting
      ensures this.execs == execs
    {
      choices := Choices;
      cursor := 0;
      selected := {};
      quitting := false;
      this.execs := execs;
    }

    /** One message. Returns whether the runtime is told to quit. On enter, one executor
        is appended per selected index, in an order the model leaves open. */
    method Update(msg: Msg) returns (quit: bool)
      requires Valid()
      modifies this
      ensures Valid()
      ensures State() == Next(old(State()), msg)
      ensures quit == Quits(msg)
      ensures IsKey(msg, "enter") ==>
        |execs| >= |old(execs)| && execs[..|old(execs)|] == old(execs)
        && multiset(execs[|old(execs)|..]) == multiset(Chosen(old(selected)))
      ensures !IsKey(msg, "enter") ==> execs == old(execs)
    {
      quit := false;
      if msg.Key? {
        var k := msg.key;
        if k == "ctrl+c" || k == "q" {
          return true;
        } else if k == "up" || k == "k" {
          if cursor > 0 {
            cursor := cursor - 1;
          }
        } else if k == "down" || k == "j" {
          if cursor < |choices| - 1 {
            cursor := cursor + 1;
          }
        } else if k == " " {
          if cursor in selected {
            selected := selected - {cursor};
          } else {
            selected := selected + {cursor};
          }
        } else if k == "enter" {
          quitting := true;
          ConfirmSelection();
          return true;
        }
      }
    }

    /** The enter branch's loop over the selected indices, in any order. */
    method ConfirmSelection()
      modifies this`execs
      ensures |execs| >= |old(execs)| && execs[..|old(execs)|] == old(execs)
      ensures multiset(execs[|old(execs)|..]) == multiset(Chosen(selected))
    {
      var remaining := selected;
      ghost var added: seq<CheckName> := [];
      while remaining != {}
        invariant remaining <= selected
        invariant execs == old(execs) + added
        invariant multiset(added) == multiset(Chosen(selected - remaining))
        decreases remaining
      {
        HasElement(remaining);
        var i :| i in remaining;
        var c := SelectedCheck(i);
        if c.Some? {
          execs := execs + [c.value];
          added := added + [c.value];
        }
        ChosenStep(selected - remaining, i);
        assert (selected - remaining) + {i} == selected - (remaining - {i});
        remaining := remaining - {i};
      }
      assert selected - remaining == selected;
      assert execs[|old(execs)|..] == added;
    }

    /** The rendering loop: one formatted line per choice between the header and footer. */
    method View() returns (s: string)
      ensures s == Header + Join(Lines(choices, cursor, selected)) + Footer
    {
      var body := "";
      var i := 0;
      while i < |choices|
        invariant 0 <= i <= |choices|
        invariant body == Join(Lines(choices, cursor, selected)[..i])
      {
        body := body + Line(choices[i], cursor == i, i in selected);
        JoinStep(choices, cursor, selected, i);
        i := i + 1;
      }
      assert Lines(choices, cursor, selected)[..i] == Lines(choices, cursor, selected);
      s := Header + body + Footer;
    }
  }

  lemma JoinStep(choices: seq<string>, cursor: int, selected: set<int>, i: nat)
    requires i < |choices|
    ensures Join(Lines(choices, cursor, selected)[..i + 1])
         == Join(Lines(choices, cursor, selected)[..i]) + Line(choices[i], cursor == i, i in selected)
  {
    var lines := Lines(choices, cursor, selected);
    assert lines[..i + 1][..i] == lines[..i];
    assert lines[i] == Line(choices[i], i == cursor, i in selected);
  }

  /** A non-empty set of indices has an element to visit next. */
  lemma HasElement(s: set<int>)
    ensures s != {} ==> exists x :: x in s
  {
    if forall x :: x !in s {
      assert s == {};
    }
  }

  /** Selecting one more index adds its check, once, to the confirmed multiset. */
  lemma ChosenStep(done: set<int>, i: int)
    ensures i !in done ==>
      multiset(Chosen(done + {i}))
        == multiset(Chosen(done)) + (if SelectedCheck(i).Some? then multiset{SelectedCheck(i).value} else multiset{})
  {
    if i !in done {
      if SelectedCheck(i).Some? {
        var c := SelectedCheck(i).value;
        assert Chosen(done + {i}) == Chosen(done) + {c};
        if c in Chosen(done) {
          var j :| j in done && SelectedCheck(j).Some? && SelectedCheck(j).value == c;
          SelectedCheckBijective(i, j, c);
        }
      } else {
        assert Chosen(done + {i}) == Chosen(done);
      }
    }
  }

  /** None of the first k messages quits. */
  predicate Quiet(session: seq<Msg>, k: int) {
    forall j :: 0 <= j < k && j < |session| ==> !Quits(session[j])
  }

  /** Message k is the first one of the session that quits. */
  predicate FirstQuit(session: seq<Msg>, k: int) {
    0 <= k < |session| && Quits(session[k]) && Quiet(session, k)
  }

  /** A session has at most one first quitting message. */
  lemma FirstQuitUnique(session: seq<Msg>, k: int, k': int)
    requires FirstQuit(session, k) && FirstQuit(session, k')
    ensures k == k'
  {
  }

  /** The pane the selector starts with. */
  const Start := Pane(0, {}, false)

  lemma ReplayStep(msgs: seq<Msg>, k: nat)
    requires k < |msgs|
    ensures Replay(Start, msgs[..k + 1]) == Next(Replay(Start, msgs[..k]), msgs[k])
  {
    assert msgs[..k + 1][..k] == msgs[..k];
  }

  /** One message of a session to a selector that has not quit yet. */
  method Feed(selector: Selector, session: seq<Msg>, k: nat) returns (quit: bool)
    requires k < |session| && selector.Valid()
    requires selector.State() == Replay(Start, session[..k]) && selector.execs == []
    modifies selector
    ensures selector.Valid()
    ensures quit == Quits(session[k])
    ensures !quit ==> selector.State() == Replay(Start, session[..k + 1]) && selector.execs == []
    ensures quit && !IsKey(session[k], "enter") ==> selector.execs == []
    ensures quit && IsKey(session[k], "enter") ==>
      multiset(selector.execs) == multiset(Chosen(Replay(Start, session[..k]).selected))
  {
    ReplayStep(session, k);
    quit := selector.Update(session[k]);
  }

  /** The selector run over a session, stopping at the first message that quits. The
      checks scheduled are those selected when enter is pressed; a session that quits
      otherwise, or never presses enter, schedules none. */
  method SelectorSession(session: seq<Msg>) returns (execs: seq<CheckName>)
    ensures (forall j :: 0 <= j < |session| ==> !IsKey(session[j], "enter")) ==> execs == []
    ensures forall k :: FirstQuit(session, k) && !IsKey(session[k], "enter") ==> execs == []
    ensures forall k :: FirstQuit(session, k) && IsKey(session[k], "enter") ==>
      multiset(execs) == multiset(Chosen(Replay(Start, session[..k]).selected))
  {
    var selector := new Selector([]);
    var k := 0;
    var quit := false;
    assert session[..0] == [];
    while k < |session| && !quit
      invariant 0 <= k <= |session|
      invariant selector.Valid()
      invariant !quit ==> Quiet(session, k)
      invariant !quit ==> selector.State() == Replay(Start, session[..k]) && selector.execs == []
      invariant quit ==> 1 <= k && FirstQuit(session, k - 1)
      invariant quit && !IsKey(session[k - 1], "enter") ==> selector.execs == []
      invariant quit && IsKey(session[k - 1], "enter") ==>
        multiset(selector.execs) == multiset(Chosen(Replay(Start, session[..k - 1]).selected))
      modifies selector
    {
      quit := Feed(selector, session, k);
      k := k + 1;
    }
    execs := selector.execs;
    forall i | FirstQuit(session, i) ensures quit && i == k - 1 {
      if quit {
        FirstQuitUnique(session, i, k - 1);
      }
    }
  }

  /** The whole command up to the pool: flags first; the selector only when no flag is
      set, fed the session's messages until one of them quits. */
  method RunCommand(flags: Flags, session: seq<Msg>) returns (execs: seq<CheckName>, selectorShown: bool)
    ensures selectorShown <==> Enabled(flags) == []
    ensures !selectorShown ==> execs == Enabled(flags)
    ensures selectorShown && (forall j :: 0 <= j < |session| ==> !IsKey(session[j], "enter")) ==> execs == []
    ensures selectorShown ==> forall k :: FirstQuit(session, k) && !IsKey(session[k], "enter") ==> execs == []
    ensures selectorShown ==> forall k :: FirstQuit(session, k) && IsKey(session[k], "enter") ==>
      multiset(execs) == multiset(Chosen(Replay(Start, session[..k]).selected))
  {
    execs := ExecutorsFromFlags(flags);
    selectorShown := false;
    if |execs| == 0 {
      selectorShown := true;
      execs := SelectorSession(session);
    }
  }
}
