/** The signals by the names of the alarms, as one hears them across edits of the list. */
module AlarmNames {
  import opened AlarmCondition
  import opened AlarmManagement
  import opened AlarmSignals
  import opened AlarmDisplay

  /** Of the signals, those of alarms of a name: true for raised, false for cleared. */
  function SignalsNamed(log: seq<Signal>, name: string): seq<bool> {
    if log == [] then []
    else
      var rest := SignalsNamed(log[..|log| - 1], name);
      var last := log[|log| - 1];
      if last.alarm.name == name then rest + [last.Rose?] else rest
  }

  lemma {:induction false} SignalsNamedConcat(log: seq<Signal>, more: seq<Signal>, name: string)
    ensures SignalsNamed(log + more, name) == SignalsNamed(log, name) + SignalsNamed(more, name)
  {
    if more == [] {
      assert log + more == log;
    } else {
      assert (log + more)[..|log + more| - 1] == log + more[..|more| - 1];
      SignalsNamedConcat(log, more[..|more| - 1], name);
    }
  }

  ghost predicate HasName(alarms: seq<Alarm>, name: string) {
    exists i :: 0 <= i < |alarms| && alarms[i].name == name
  }

  /** With distinct names the signals of a name are those of its alarm. */
  lemma {:induction false} NamedIsOwn(log: seq<Signal>, alarms: seq<Alarm>, i: nat)
    requires LogOf(log, alarms) && DistinctNames(alarms) && i < |alarms|
    ensures SignalsNamed(log, alarms[i].name) == SignalsOf(log, i)
  {
    if log == [] {
    } else {
      NamedIsOwn(log[..|log| - 1], alarms, i);
    }
  }

  lemma {:induction false} NamedIsNone(log: seq<Signal>, alarms: seq<Alarm>, name: string)
    requires LogOf(log, alarms) && !HasName(alarms, name)
    ensures SignalsNamed(log, name) == []
  {
    if log == [] {
    } else {
      NamedIsNone(log[..|log| - 1], alarms, name);
    }
  }

  ghost predicate ActiveName(m: Manager, name: string)
    requires m.WellFormed()
  {
    exists i: nat :: i < |m.alarms| && m.alarms[i].name == name && Active(m.state[i])
  }

  /** The signals of every name alternate, the first a raise, and the last one tells whether an alarm
      of the name is raised. */
  ghost predicate Tells(m: Manager)
    requires m.WellFormed()
  {
    forall name :: InTurns(SignalsNamed(m.log, name), false, ActiveName(m, name))
  }

  lemma ActiveIsOwn(m: Manager, i: nat)
    requires m.WellFormed() && DistinctNames(m.alarms) && i < |m.alarms|
    ensures ActiveName(m, m.alarms[i].name) <==> Active(m.state[i])
  {
  }

  lemma NamedStep(m: Manager, x: Input, name: string)
    requires m.WellFormed() && !x.SetAlarms?
    ensures SignalsNamed(Apply(m, x).log, name) == SignalsNamed(m.log, name) + SignalsNamed(Emitted(m, x), name)
    ensures LogOf(Emitted(m, x), m.alarms) && Apply(m, x).alarms == m.alarms
  {
    hide SignalsNamed;
    ApplyLog(m, x);
    ApplyAlarms(m, x);
    SignalsNamedConcat(m.log, Emitted(m, x), name);
    SentIsLogOf(m.alarms, Outcomes(m, x), |m.alarms|);
  }

  /** What every run without a bad edit keeps. */
  ghost predicate Good(m: Manager) {
    m.WellFormed() && DistinctNames(m.alarms) && DisabledAreOff(m) && NoSilencePending(m) && Tells(m)
  }

  lemma TellsStep(m: Manager, x: Input, name: string)
    requires Good(m) && !x.SetAlarms?
    ensures InTurns(SignalsNamed(Apply(m, x).log, name), false, ActiveName(Apply(m, x), name))
  {
    hide Apply, Emitted, SignalsNamed, SignalsOf, InTurns;
    var r, before := Apply(m, x), SignalsNamed(m.log, name);
    NamedStep(m, x, name);
    assert InTurns(before, false, ActiveName(m, name));
    if HasName(m.alarms, name) {
      var i :| 0 <= i < |m.alarms| && m.alarms[i].name == name;
      NamedIsOwn(Emitted(m, x), m.alarms, i);
      ActiveIsOwn(m, i);
      ActiveIsOwn(r, i);
      OneInput(m, x, i);
      Onward(before, Sends(m, x, i), Active(m.state[i]), Active(r.state[i]));
    } else {
      NamedIsNone(Emitted(m, x), m.alarms, name);
      Onward(before, [], false, false);
    }
  }

  lemma Onward(before: seq<bool>, one: seq<bool>, was: bool, now: bool)
    requires InTurns(before, false, was) && one == if was == now then [] else [now]
    ensures InTurns(before + one, false, now)
  {
    OneMore(before, one, false, now);
  }

  lemma GoodStep(m: Manager, x: Input)
    requires Good(m) && !x.SetAlarms?
    ensures Good(Apply(m, x))
  {
    hide Apply, InTurns, SignalsNamed;
    ApplyAlarms(m, x);
    DisabledStayOffStep(m, x);
    NoSilencePendingStep(m, x);
    forall name
      ensures InTurns(SignalsNamed(Apply(m, x).log, name), false, ActiveName(Apply(m, x), name))
    {
      TellsStep(m, x, name);
    }
  }

  lemma {:induction false} GoodRun(m: Manager, more: seq<Input>)
    requires m.WellFormed() && Good(m) && NoEdit(more)
    ensures Good(Run(m, more))
  {
    hide Apply, Good;
    if more == [] {
    } else {
      var before := more[..|more| - 1];
      assert more[|more| - 1] in more && forall y :: y in before ==> y in more;
      GoodRun(m, before);
      GoodStep(Run(m, before), more[|more| - 1]);
    }
  }

  // ---------------------------------------------------------------- edits

  /** An edit that leaves no enabled alarm of the name of a raised one. */
  ghost predicate DropsActive(m: Manager, list: seq<Alarm>)
    requires m.WellFormed()
  {
    exists i: nat :: i < |m.alarms| && Active(m.state[i]) && !EnabledName(list, m.alarms[i].name)
  }

  ghost predicate EnabledName(list: seq<Alarm>, name: string) {
    exists j: nat :: j < |list| && list[j].name == name && list[j].enabled
  }

  lemma ActiveAfterEdit(m: Manager, list: seq<Alarm>, name: string)
    requires m.WellFormed() && DistinctNames(m.alarms)
    ensures ActiveName(Apply(m, SetAlarms(list)), name) <==> ActiveName(m, name) && EnabledName(list, name)
  {
    var r := Apply(m, SetAlarms(list));
    assert m.alarms[..|m.alarms|] == m.alarms;
    forall j: nat | j < |list| && list[j].name == name
      ensures Active(r.state[j]) <==> ActiveName(m, name) && list[j].enabled
    {
      if list[j].enabled {
        CarriedFromLast(m, list[j], |m.alarms|);
        forall i: nat | i < |m.alarms| && m.alarms[i].name == name
          ensures LastNamed(m.alarms, i, name)
        {
        }
      } else {
        CarriedDisabled(m, list[j], |m.alarms|);
      }
    }
  }

  /** An edit keeps what the signals tell exactly when it drops and disables no raised alarm. */
  lemma EditTells(m: Manager, list: seq<Alarm>)
    requires m.WellFormed() && DistinctNames(m.alarms) && Tells(m)
    ensures Tells(Apply(m, SetAlarms(list))) <==> !DropsActive(m, list)
  {
    hide SignalsNamed, Alternates, Count;
    var r := Apply(m, SetAlarms(list));
    forall name
      ensures ActiveName(r, name) <==> ActiveName(m, name) && EnabledName(list, name)
    {
      ActiveAfterEdit(m, list, name);
    }
    assert forall name :: InTurns(SignalsNamed(m.log, name), false, ActiveName(m, name));
    if DropsActive(m, list) {
      var i: nat :| i < |m.alarms| && Active(m.state[i]) && !EnabledName(list, m.alarms[i].name);
      var name := m.alarms[i].name;
      assert ActiveName(m, name) && !ActiveName(r, name);
      assert !InTurns(SignalsNamed(r.log, name), false, ActiveName(r, name));
    }
  }

  ghost predicate DistinctLists(ins: seq<Input>) {
    forall x :: x in ins && x.SetAlarms? ==> DistinctNames(x.alarms)
  }

  /** No edit of a run drops or disables a raised alarm or makes a pending one one on silence. */
  ghost predicate EditsTell(ins: seq<Input>) {
    forall n: nat :: n < |ins| && ins[n].SetAlarms? ==>
      var p := Run(FRESH, ins[..n]);
      !SilencesPending(p, ins[n].alarms) && !DropsActive(p, ins[n].alarms)
  }

  lemma GoodEdit(m: Manager, list: seq<Alarm>)
    requires Good(m) && DistinctNames(list) && !SilencesPending(m, list) && !DropsActive(m, list)
    ensures Good(Apply(m, SetAlarms(list)))
  {
    hide Apply, SilencesPending, DropsActive, Tells, DisabledAreOff, NoSilencePending;
    ApplyAlarms(m, SetAlarms(list));
    DisabledStayOffStep(m, SetAlarms(list));
    EditKeepsAlternation(m, list);
    EditTells(m, list);
  }

  lemma FreshIsGood()
    ensures Good(Run(FRESH, []))
  {
    forall name
      ensures InTurns(SignalsNamed(FRESH.log, name), false, ActiveName(FRESH, name))
    {
    }
  }

  lemma {:induction false} EditsTellKeeps(ins: seq<Input>)
    requires DistinctLists(ins) && EditsTell(ins)
    ensures Good(Run(FRESH, ins))
  {
    hide Apply, Good, SilencesPending, DropsActive, DistinctNames;
    if ins == [] {
      FreshIsGood();
    } else {
      var before, last := ins[..|ins| - 1], |ins| - 1;
      assert ins[last] in ins && forall y :: y in before ==> y in ins;
      forall n: nat | n < last
        ensures before[..n] == ins[..n] && before[n] == ins[n]
      {
      }
      EditsTellKeeps(before);
      if ins[last].SetAlarms? {
        GoodEdit(Run(FRESH, before), ins[last].alarms);
      } else {
        GoodStep(Run(FRESH, before), ins[last]);
      }
    }
  }

  /** After any part of a run, and after that without further edits, the signals tell. */
  ghost predicate AllTell(ins: seq<Input>) {
    forall n: nat, more :: n <= |ins| && NoEdit(more) ==> Tells(Run(Run(FRESH, ins[..n]), more))
  }

  lemma ListsOfRun(ins: seq<Input>)
    requires DistinctLists(ins)
    ensures DistinctNames(Run(FRESH, ins).alarms)
  {
    if ins == [] {
    } else {
      var before := ins[..|ins| - 1];
      assert ins[|ins| - 1] in ins && forall y :: y in before ==> y in ins;
      ListsOfRun(before);
      ApplyAlarms(Run(FRESH, before), ins[|ins| - 1]);
    }
  }

  /** A pending alarm on silence will send a clear that its name does not expect. */
  lemma SilencedMisleads(m: Manager) returns (x: Input)
    requires m.WellFormed() && DistinctNames(m.alarms) && Tells(m) && !NoSilencePending(m)
    ensures !x.SetAlarms? && !Tells(Apply(m, x))
  {
    hide Apply, Emitted, SignalsNamed, SignalsOf, Count;
    var i: nat :| i < |m.alarms| && m.alarms[i].condition == NoReadings && m.state[i] == Pending;
    x := Feed(0.0, false, 0, 0, "");
    var name := m.alarms[i].name;
    NamedStep(m, x, name);
    NamedIsOwn(Emitted(m, x), m.alarms, i);
    SendsOwnEmission(m, x, i);
    ActiveIsOwn(m, i);
    var before, all := SignalsNamed(m.log, name), SignalsNamed(Apply(m, x).log, name);
    assert InTurns(before, false, ActiveName(m, name));
    assert all[|before|] == false && |before| % 2 == 0;
    assert !InTurns(all, false, ActiveName(Apply(m, x), name));
  }

  /** By name and across edits, with distinct names in every list, the signals alternate and tell the
      raised alarms exactly when no edit drops or disables a raised alarm or silences a pending one. */
  lemma AllTellExactly(ins: seq<Input>)
    requires DistinctLists(ins)
    ensures AllTell(ins) <==> EditsTell(ins)
  {
    hide Run, Apply, Good, Tells, SilencesPending, DropsActive, DistinctNames, NoSilencePending;
    if EditsTell(ins) {
      forall n: nat, more | n <= |ins| && NoEdit(more)
        ensures Tells(Run(Run(FRESH, ins[..n]), more))
      {
        PrefixTells(ins, n);
        EditsTellKeeps(ins[..n]);
        GoodRun(Run(FRESH, ins[..n]), more);
        GoodTells(Run(Run(FRESH, ins[..n]), more));
      }
    }
    if AllTell(ins) {
      forall n: nat | n < |ins| && ins[n].SetAlarms?
        ensures !SilencesPending(Run(FRESH, ins[..n]), ins[n].alarms)
        ensures !DropsActive(Run(FRESH, ins[..n]), ins[n].alarms)
      {
        TellingEdit(ins, n);
      }
    }
  }

  lemma GoodTells(m: Manager)
    requires Good(m)
    ensures m.WellFormed() && Tells(m)
  {
  }

  lemma PrefixTells(ins: seq<Input>, n: nat)
    requires DistinctLists(ins) && EditsTell(ins) && n <= |ins|
    ensures DistinctLists(ins[..n]) && EditsTell(ins[..n])
  {
    hide Run, SilencesPending, DropsActive, DistinctNames;
    assert forall y :: y in ins[..n] ==> y in ins;
    forall k: nat | k < n
      ensures ins[..n][..k] == ins[..k] && ins[..n][k] == ins[k]
    {
    }
  }

  lemma TellsAt(ins: seq<Input>, n: nat)
    requires AllTell(ins) && n <= |ins|
    ensures Tells(Run(FRESH, ins[..n]))
    ensures forall x: Input :: !x.SetAlarms? ==> Tells(Apply(Run(FRESH, ins[..n]), x))
  {
    hide Tells, Apply;
    var p := Run(FRESH, ins[..n]);
    assert NoEdit([]) && Run(p, []) == p;
    forall x: Input | !x.SetAlarms?
      ensures Tells(Apply(p, x))
    {
      assert NoEdit([x]);
      RunOne(p, [], x);
      assert [] + [x] == [x];
    }
  }

  lemma TellingEdit(ins: seq<Input>, n: nat)
    requires DistinctLists(ins) && AllTell(ins) && n < |ins| && ins[n].SetAlarms?
    ensures !SilencesPending(Run(FRESH, ins[..n]), ins[n].alarms)
    ensures !DropsActive(Run(FRESH, ins[..n]), ins[n].alarms)
  {
    hide Run, Apply, Tells, SilencesPending, DropsActive, NoSilencePending, DistinctNames;
    var p, list := Run(FRESH, ins[..n]), ins[n].alarms;
    assert ins[..n + 1] == ins[..n] + [ins[n]];
    RunOne(FRESH, ins[..n], ins[n]);
    var r := Apply(p, ins[n]);
    TellsAt(ins, n);
    TellsAt(ins, n + 1);
    assert forall y :: y in ins[..n] ==> y in ins;
    ListsOfRun(ins[..n]);
    EditTells(p, list);
    EditKeepsAlternation(p, list);
    assert ins[n] in ins;
    ApplyAlarms(p, ins[n]);
    if !NoSilencePending(r) {
      var x := SilencedMisleads(r);
      assert false;
    }
  }

  // -------------------------------------------------------- a run that shows it

  const COLD := Alarm("cold", true, ValueRef("", 0), Below, 5.0, 0.0, 0.0, 0.0, 0, true)

  /** An alarm raised and taken off the list: its name has a raise, and no clear is ever sent. */
  lemma DroppedUncleared()
    ensures var p := Run(FRESH, [SetAlarms([COLD]), Feed(4.0, false, 0, 0, ""), SetAlarms([])]);
            p.log == [Rose(0, COLD, 4.0)] && p.alarms == [] && !Tells(p)
  {
    hide Run, Apply;
    var start, reading := SetAlarms([COLD]), Feed(4.0, false, 0, 0, "");
    RunTwo(FRESH, start, reading);
    RunOne(FRESH, [start, reading], SetAlarms([]));
    assert [start, reading] + [SetAlarms([])] == [start, reading, SetAlarms([])];
    RaisedByOne(COLD, reading);
    Unheard(Apply(Apply(FRESH, start), reading));
  }

  lemma Unheard(m: Manager)
    requires m.WellFormed() && m.log == [Rose(0, COLD, 4.0)]
    ensures var p := Apply(m, SetAlarms([])); p.log == m.log && p.alarms == [] && !Tells(p)
  {
    var p := Apply(m, SetAlarms([]));
    assert p.log[..0] == [];
    assert SignalsNamed(p.log, COLD.name) == [true];
    assert !ActiveName(p, COLD.name) && !InTurns([true], false, false);
  }
}
