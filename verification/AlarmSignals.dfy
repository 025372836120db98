/** The signals of every alarm over whole runs: they alternate, and they say which alarms are raised. */
module AlarmSignals {
  import opened AlarmCondition
  import opened AlarmManagement
  import opened Text

  // ------------------------------------------------- the signals of one alarm

  /** Of the signals, those of the alarm at index i: true for raised, false for cleared. */
  function SignalsOf(log: seq<Signal>, i: nat): seq<bool> {
    if log == [] then []
    else
      var rest := SignalsOf(log[..|log| - 1], i);
      var last := log[|log| - 1];
      if last.index == i then rest + [last.Rose?] else rest
  }

  /** Signals of one alarm in turns, the first a raise exactly when the alarm was not active. */
  predicate Alternates(signals: seq<bool>, active: bool) {
    forall k :: 0 <= k < |signals| ==> signals[k] == (active == (k % 2 == 1))
  }

  function Count(signals: seq<bool>, kind: bool): nat {
    if signals == [] then 0
    else Count(signals[..|signals| - 1], kind) + (if signals[|signals| - 1] == kind then 1 else 0)
  }

  lemma {:induction false} SignalsOfConcat(log: seq<Signal>, more: seq<Signal>, i: nat)
    ensures SignalsOf(log + more, i) == SignalsOf(log, i) + SignalsOf(more, i)
  {
    if more == [] {
      assert log + more == log;
    } else {
      assert (log + more)[..|log + more| - 1] == log + more[..|more| - 1];
      SignalsOfConcat(log, more[..|more| - 1], i);
    }
  }

  /** An input makes each alarm send its own emission, no more. */
  lemma {:induction false} SentByOne(alarms: seq<Alarm>, outs: seq<Outcome>, n: nat, i: nat)
    requires n <= |alarms| == |outs|
    ensures SignalsOf(SentUpTo(alarms, outs, n), i) ==
            if i < n && outs[i].emission != Nothing then [outs[i].emission.Raise?] else []
  {
    hide SignalsOf, Sent, SentUpTo;
    if n == 0 {
      NoneSent(alarms, outs, i);
    } else {
      SentByOne(alarms, outs, n - 1, i);
      SentByNext(alarms, outs, n, i);
      var one := Sent(n - 1, alarms[n - 1], outs[n - 1].emission);
      AtMostOne(SignalsOf(SentUpTo(alarms, outs, n - 1), i), SignalsOf(one, i));
    }
  }

  lemma NoneSent(alarms: seq<Alarm>, outs: seq<Outcome>, i: nat)
    requires |alarms| == |outs|
    ensures SignalsOf(SentUpTo(alarms, outs, 0), i) == []
  {
  }

  lemma SentByNext(alarms: seq<Alarm>, outs: seq<Outcome>, n: nat, i: nat)
    requires 0 < n <= |alarms| == |outs|
    ensures var e := outs[n - 1].emission;
            var one := SignalsOf(Sent(n - 1, alarms[n - 1], e), i);
            && SignalsOf(SentUpTo(alarms, outs, n), i) == SignalsOf(SentUpTo(alarms, outs, n - 1), i) + one
            && one == if n - 1 == i && e != Nothing then [e.Raise?] else []
  {
    hide SignalsOf, Sent, SentUpTo;
    var e := outs[n - 1].emission;
    SentStep(alarms, outs, n);
    SignalsOfConcat(SentUpTo(alarms, outs, n - 1), Sent(n - 1, alarms[n - 1], e), i);
    SentAlone(n - 1, alarms[n - 1], e, i);
  }

  lemma AtMostOne(a: seq<bool>, b: seq<bool>)
    ensures a == [] ==> a + b == b
    ensures b == [] ==> a + b == a
  {
  }

  lemma SentAlone(k: nat, al: Alarm, e: Emission, i: nat)
    ensures SignalsOf(Sent(k, al, e), i) == if k == i && e != Nothing then [e.Raise?] else []
  {
    var one := Sent(k, al, e);
    if one != [] {
      assert one[..0] == [];
    }
  }

  /** A raise among the outcomes is among the signals. */
  lemma {:induction false} SentBy(alarms: seq<Alarm>, outs: seq<Outcome>, n: nat, i: nat)
    requires i < n <= |alarms| == |outs| && outs[i].emission.Raise?
    ensures Rose(i, alarms[i], outs[i].emission.value) in SentUpTo(alarms, outs, n)
  {
    if i == n - 1 {
    } else {
      SentBy(alarms, outs, n - 1, i);
    }
  }

  ghost predicate InOrder(sent: seq<Signal>) {
    forall j, k :: 0 <= j < k < |sent| ==> sent[j].index < sent[k].index
  }

  /** The alarms send in the order of the list, each at most once. */
  lemma {:induction false} SentInOrder(alarms: seq<Alarm>, outs: seq<Outcome>, n: nat)
    requires n <= |alarms| == |outs|
    ensures var sent := SentUpTo(alarms, outs, n);
            && (forall k :: 0 <= k < |sent| ==> sent[k].index < n && sent[k].alarm == alarms[sent[k].index])
            && InOrder(sent)
  {
    if n == 0 {
    } else {
      SentInOrder(alarms, outs, n - 1);
      SentStep(alarms, outs, n);
    }
  }

  /** The signals an input sends. */
  function Emitted(m: Manager, input: Input): seq<Signal>
    requires m.WellFormed()
  {
    if input.SetAlarms? then [] else SentUpTo(m.alarms, Outcomes(m, input), |m.alarms|)
  }

  lemma ApplyLog(m: Manager, input: Input)
    requires m.WellFormed()
    ensures Apply(m, input).log == m.log + Emitted(m, input)
  {
  }

  /** The signals a run adds to the log. */
  function NewLog(m: Manager, ins: seq<Input>): seq<Signal>
    requires m.WellFormed()
  {
    if ins == [] then []
    else NewLog(m, ins[..|ins| - 1]) + Emitted(Run(m, ins[..|ins| - 1]), ins[|ins| - 1])
  }

  lemma {:induction false} LogGrows(m: Manager, ins: seq<Input>)
    requires m.WellFormed()
    ensures Run(m, ins).log == m.log + NewLog(m, ins)
  {
    if ins == [] {
    } else {
      var before, x := ins[..|ins| - 1], ins[|ins| - 1];
      LogGrows(m, before);
      var p := Run(m, before);
      ApplyLog(p, x);
      Assoc(m.log, NewLog(m, before), Emitted(p, x));
    }
  }

  /** What the alarm at index i sends on an input. */
  function Sends(m: Manager, input: Input, i: nat): seq<bool>
    requires m.WellFormed()
  {
    SignalsOf(Emitted(m, input), i)
  }

  lemma SendsOwnEmission(m: Manager, input: Input, i: nat)
    requires m.WellFormed() && !input.SetAlarms? && i < |m.alarms|
    ensures Sends(m, input, i) ==
            (var e := OutcomeAt(m, input, i).emission; if e == Nothing then [] else [e.Raise?])
  {
    SentByOne(m.alarms, Outcomes(m, input), |m.alarms|, i);
  }

  lemma NewLogOne(m: Manager, x: Input)
    requires m.WellFormed()
    ensures NewLog(m, [x]) == Emitted(m, x)
  {
    assert [x][..0] == [];
    assert NewLog(m, []) == [];
    assert [] + Emitted(m, x) == Emitted(m, x);
  }

  lemma EmittedInOrder(m: Manager, x: Input)
    requires m.WellFormed()
    ensures InOrder(Emitted(m, x))
  {
    if !x.SetAlarms? {
      SentInOrder(m.alarms, Outcomes(m, x), |m.alarms|);
    }
  }

  /** A disabled alarm that is not off, which no run brings about, is cleared by a reading of its
      value. */
  lemma DisabledIsCleared(m: Manager, x: Input, i: nat)
    requires m.WellFormed() && i < |m.alarms| && !m.alarms[i].enabled && m.alarms[i].condition != NoReadings
    requires x.Feed? && x.id == m.alarms[i].value.id && x.source == m.alarms[i].value.source
    ensures Sends(m, x, i) == (if m.state[i] == Off then [] else [false]) && Apply(m, x).state[i] == Off
  {
    ApplyAt(m, x, i);
    SendsOwnEmission(m, x, i);
  }

  // ---------------------------------------------------------- the invariant

  ghost predicate DisabledAreOff(m: Manager)
    requires m.WellFormed()
  {
    forall i :: 0 <= i < |m.alarms| && !m.alarms[i].enabled ==> m.state[i] == Off
  }

  ghost predicate NoSilencePending(m: Manager)
    requires m.WellFormed()
  {
    forall i :: 0 <= i < |m.alarms| && m.alarms[i].condition == NoReadings ==> m.state[i] != Pending
  }

  lemma CarriedDisabled(m: Manager, al: Alarm, n: nat)
    requires m.WellFormed() && n <= |m.alarms| && !al.enabled
    ensures Carried(m, al, n) == Slot(Off, 0)
  {
  }

  lemma DisabledStayOffStep(m: Manager, input: Input)
    requires m.WellFormed() && DisabledAreOff(m)
    ensures DisabledAreOff(Apply(m, input))
  {
    var r := Apply(m, input);
    forall i | 0 <= i < |r.alarms| && !r.alarms[i].enabled
      ensures r.state[i] == Off
    {
      if input.SetAlarms? {
        CarriedDisabled(m, input.alarms[i], |m.alarms|);
      } else {
        assert r.state[i] == OutcomeAt(m, input, i).slot.state;
      }
    }
  }

  /** In every run, edits included, an alarm that is disabled is off. */
  lemma {:induction false} DisabledStayOff(ins: seq<Input>)
    ensures DisabledAreOff(Run(FRESH, ins))
  {
    if ins == [] {
    } else {
      DisabledStayOff(ins[..|ins| - 1]);
      DisabledStayOffStep(Run(FRESH, ins[..|ins| - 1]), ins[|ins| - 1]);
    }
  }

  lemma {:induction false} AlarmsStay(m: Manager, ins: seq<Input>)
    requires m.WellFormed() && NoEdit(ins)
    ensures Run(m, ins).alarms == m.alarms
  {
    if ins == [] {
    } else {
      var before := ins[..|ins| - 1];
      assert ins[|ins| - 1] in ins && forall x :: x in before ==> x in ins;
      hide Apply;
      AlarmsStay(m, before);
      ApplyAlarms(Run(m, before), ins[|ins| - 1]);
    }
  }

  lemma ApplyAlarms(m: Manager, x: Input)
    requires m.WellFormed()
    ensures Apply(m, x).alarms == if x.SetAlarms? then x.alarms else m.alarms
  {
  }

  /** One input of the alarm at index i: what it sends fits its state before and after. */
  lemma OneInput(m: Manager, input: Input, i: nat)
    requires m.WellFormed() && !input.SetAlarms? && i < |m.alarms|
    requires m.alarms[i].enabled || m.state[i] == Off
    requires m.alarms[i].condition == NoReadings ==> m.state[i] != Pending
    ensures var was, now, sent := Active(m.state[i]), Active(Apply(m, input).state[i]), Sends(m, input, i);
            if was == now then sent == [] else sent == [now]
    ensures var r := Apply(m, input);
            && (r.alarms[i].enabled || r.state[i] == Off)
            && (r.alarms[i].condition == NoReadings ==> r.state[i] != Pending)
  {
    hide SignalsOf, Emitted, SlotStep, Active;
    SendsOwnEmission(m, input, i);
    assert Apply(m, input).state[i] == OutcomeAt(m, input, i).slot.state;
    SlotFits(m.alarms[i], i, m.env, Slot(m.state[i], m.since[i]), input);
  }

  /** One alarm's outcome fits its state before and after. */
  lemma SlotFits(al: Alarm, i: nat, env: Env, s: Slot, input: Input)
    requires !input.SetAlarms? && (al.enabled || s.state == Off) && (al.condition == NoReadings ==> s.state != Pending)
    ensures var o := SlotStep(al, i, env, s, input);
            && (Active(s.state) == Active(o.slot.state) <==> o.emission == Nothing)
            && (o.emission != Nothing ==> o.emission.Raise? == Active(o.slot.state))
            && (al.enabled || o.slot.state == Off)
            && (al.condition == NoReadings ==> o.slot.state != Pending)
  {
  }

  /** Signals in turns from one activity to another, with the raises one ahead of the clears
      when the alarm became active, level when it stayed as it was. */
  predicate InTurns(sent: seq<bool>, was: bool, now: bool) {
    && Alternates(sent, was)
    && (now <==> was == (|sent| % 2 == 0))
    && Count(sent, true) - Count(sent, false) == (if now then 1 else 0) - (if was then 1 else 0)
  }

  lemma OneMore(sent: seq<bool>, one: seq<bool>, was: bool, now: bool)
    requires var mid := was == (|sent| % 2 == 0);
             InTurns(sent, was, mid) && one == if mid == now then [] else [now]
    ensures InTurns(sent + one, was, now)
  {
    if one == [] {
      assert sent + one == sent;
    } else {
      assert (sent + one)[..|sent + one| - 1] == sent;
    }
  }

  /** While the list of alarms is not edited, the signals of an alarm alternate, the first a
      raise when it was not active; the raises exceed the clears by one exactly when it is
      active and was not. */
  lemma {:induction false} SignalsAlternate(m: Manager, ins: seq<Input>, i: nat)
    requires m.WellFormed() && NoEdit(ins) && i < |m.alarms|
    requires m.alarms[i].enabled || m.state[i] == Off
    requires m.alarms[i].condition == NoReadings ==> m.state[i] != Pending
    ensures var r := Run(m, ins);
            && r.alarms == m.alarms && (m.alarms[i].enabled || r.state[i] == Off)
            && (m.alarms[i].condition == NoReadings ==> r.state[i] != Pending)
    ensures var was, now, sent := Active(m.state[i]), Active(Run(m, ins).state[i]), SignalsOf(NewLog(m, ins), i);
            InTurns(sent, was, now)
  {
    AlarmsStay(m, ins);
    if ins == [] {
    } else {
      var before, x := ins[..|ins| - 1], ins[|ins| - 1];
      assert forall y :: y in before ==> y in ins;
      SignalsAlternate(m, before, i);
      var p := Run(m, before);
      OneInput(p, x, i);
      SignalsOfConcat(NewLog(m, before), Emitted(p, x), i);
      OneMore(SignalsOf(NewLog(m, before), i), Sends(p, x, i), Active(m.state[i]), Active(Apply(p, x).state[i]));
    }
  }

  /** The signals of all alarms alternate in every run of the list from a state. */
  ghost predicate AlternatesFrom(m: Manager)
    requires m.WellFormed()
  {
    forall ins, i: nat ::
      NoEdit(ins) && i < |m.alarms| ==> Alternates(SignalsOf(NewLog(m, ins), i), Active(m.state[i]))
  }

  /** They do exactly when no alarm on silence starts out pending; such an alarm would send a clear
      it never raised. */
  lemma AlternationExactly(m: Manager)
    requires m.WellFormed() && DisabledAreOff(m)
    ensures AlternatesFrom(m) <==> NoSilencePending(m)
  {
    if NoSilencePending(m) {
      forall ins, i: nat | NoEdit(ins) && i < |m.alarms|
        ensures Alternates(SignalsOf(NewLog(m, ins), i), Active(m.state[i]))
      {
        SignalsAlternate(m, ins, i);
      }
    } else {
      var i: nat :| i < |m.alarms| && m.alarms[i].condition == NoReadings && m.state[i] == Pending;
      SpuriousClear(m, i);
    }
  }

  /** A pending alarm on silence sends a clear on the next main reading. */
  lemma SpuriousClear(m: Manager, i: nat)
    requires m.WellFormed() && i < |m.alarms|
    requires m.alarms[i].condition == NoReadings && m.state[i] == Pending
    ensures exists ins :: NoEdit(ins) && !Alternates(SignalsOf(NewLog(m, ins), i), Active(m.state[i]))
  {
    hide SignalsOf, Emitted, NewLog;
    var x := Feed(0.0, false, 0, 0, "");
    NewLogOne(m, x);
    SendsOwnEmission(m, x, i);
    assert SignalsOf(NewLog(m, [x]), i) == [false];
    assert [false][0] == false;
    assert NoEdit([x]);
  }

  lemma Alone(m: Manager, x: Input)
    requires m.WellFormed() && |m.alarms| == 1 && !x.SetAlarms?
    ensures var r, o := Apply(m, x), SlotStep(m.alarms[0], 0, m.env, Slot(m.state[0], m.since[0]), x);
            && r.alarms == m.alarms && r.state == [o.slot.state] && r.since == [o.slot.since]
            && r.env == EnvStep(m.env, x)
            && Sends(m, x, 0) == (if o.emission == Nothing then [] else [o.emission.Raise?])
            && r.log == m.log + Sent(0, m.alarms[0], o.emission)
  {
    SendsOwnEmission(m, x, 0);
    var outs := Outcomes(m, x);
    SentStep(m.alarms, outs, 1);
    assert [] + Sent(0, m.alarms[0], outs[0].emission) == Sent(0, m.alarms[0], outs[0].emission);
  }

  lemma StartOne(al: Alarm)
    ensures var first := Apply(FRESH, SetAlarms([al]));
            && first.alarms == [al] && first.state == [Off] && first.since == [0] && first.log == []
            && first.env == FRESH.env
  {
  }

  /** A reading that raises the one alarm at once. */
  lemma RaisedByOne(al: Alarm, x: Input)
    requires x.Feed? && al.enabled && al.condition != NoReadings && al.value.Matches(x.id, x.source)
    requires Matches(al, x.value, x.overload) && al.seconds <= 0.0
    ensures var p := Run(FRESH, [SetAlarms([al]), x]);
            p.alarms == [al] && p.state == [Raised] && p.log == [Rose(0, al, x.value)]
  {
    hide Apply, Run;
    StartOne(al);
    var first := Apply(FRESH, SetAlarms([al]));
    Alone(first, x);
    RunTwo(FRESH, SetAlarms([al]), x);
    assert [] + [Rose(0, al, x.value)] == [Rose(0, al, x.value)];
  }

  const HIGH := Alarm("high", true, ValueRef("", 0), Above, 10.0, 0.0, 2.0, 0.0, 0, true)

  /** An alarm above ten, a reading above ten, and the alarm edited. */
  function Editing(edited: Alarm): seq<Input> {
    [SetAlarms([HIGH]), Feed(20.0, false, 0, 0, "")] + [SetAlarms([edited])]
  }

  /** The edited alarm of the same name is pending, nothing has been sent. */
  lemma PendingCarried(edited: Alarm)
    requires edited.name == HIGH.name && edited.enabled
    ensures var p := Run(FRESH, Editing(edited));
            p.alarms == [edited] && p.state == [Pending] && p.since == [0] && p.log == []
  {
    hide Run;
    var start, reading := SetAlarms([HIGH]), Feed(20.0, false, 0, 0, "");
    var first := Apply(FRESH, start);
    assert first.alarms == [HIGH] && first.state == [Off] && first.log == [];
    Alone(first, reading);
    RunTwo(FRESH, start, reading);
    RunOne(FRESH, [start, reading], SetAlarms([edited]));
    assert Judge(HIGH, Slot(Off, first.since[0]), true, false, 20.0, 0) == Outcome(Slot(Pending, 0), Nothing);
    Renamed(Apply(first, reading), edited);
  }

  lemma Renamed(m: Manager, edited: Alarm)
    requires m.WellFormed() && m.alarms == [HIGH] && m.state == [Pending] && m.since == [0]
    requires edited.name == HIGH.name && edited.enabled
    ensures var r := Apply(m, SetAlarms([edited]));
            r.alarms == [edited] && r.state == [Pending] && r.since == [0] && r.log == m.log
  {
    assert Carried(m, edited, 1) == Slot(Pending, 0);
  }

  // ------------------------------------------------------ editing the list

  /** The alarm an edited one takes its state from: the last of its name. */
  ghost predicate LastNamed(alarms: seq<Alarm>, i: nat, name: string) {
    && i < |alarms| && alarms[i].name == name
    && forall k :: i < k < |alarms| ==> alarms[k].name != name
  }

  lemma {:induction false} CarriedFromLast(m: Manager, al: Alarm, n: nat)
    requires m.WellFormed() && n <= |m.alarms| && al.enabled
    ensures forall i: nat :: LastNamed(m.alarms[..n], i, al.name) ==> Carried(m, al, n) == Slot(m.state[i], m.since[i])
    ensures Carried(m, al, n) != Slot(Off, 0) ==> exists i: nat :: LastNamed(m.alarms[..n], i, al.name)
  {
    if n == 0 {
    } else {
      CarriedFromLast(m, al, n - 1);
      var before, upTo := m.alarms[..n - 1], m.alarms[..n];
      if upTo[n - 1].name == al.name {
        assert LastNamed(upTo, n - 1, al.name);
      } else {
        forall i: nat
          ensures LastNamed(upTo, i, al.name) <==> LastNamed(before, i, al.name)
        {
          if LastNamed(before, i, al.name) {
            assert upTo[i] == before[i];
            assert forall k :: i < k < n - 1 ==> upTo[k] == before[k];
          }
          if LastNamed(upTo, i, al.name) {
            assert forall k :: i < k < n - 1 ==> upTo[k] == before[k];
          }
        }
      }
    }
  }

  /** An edit that makes a pending alarm one on silence. */
  ghost predicate SilencesPending(m: Manager, list: seq<Alarm>)
    requires m.WellFormed()
  {
    exists j: nat, i: nat ::
      && j < |list| && list[j].condition == NoReadings && list[j].enabled
      && LastNamed(m.alarms, i, list[j].name) && m.state[i] == Pending
  }

  /** An edit keeps the signals alternating exactly when it makes no pending alarm one on silence. */
  lemma EditKeepsAlternation(m: Manager, list: seq<Alarm>)
    requires m.WellFormed()
    ensures NoSilencePending(Apply(m, SetAlarms(list))) <==> !SilencesPending(m, list)
  {
    var r := Apply(m, SetAlarms(list));
    assert m.alarms[..|m.alarms|] == m.alarms;
    forall j: nat | j < |list|
      ensures r.state[j] == Pending <==>
              list[j].enabled && exists i: nat :: LastNamed(m.alarms, i, list[j].name) && m.state[i] == Pending
    {
      if list[j].enabled {
        CarriedFromLast(m, list[j], |m.alarms|);
      } else {
        CarriedDisabled(m, list[j], |m.alarms|);
      }
    }
  }

  ghost predicate SilencesNone(ins: seq<Input>) {
    forall n: nat :: n < |ins| && ins[n].SetAlarms? ==> !SilencesPending(Run(FRESH, ins[..n]), ins[n].alarms)
  }

  lemma NoSilencePendingStep(m: Manager, x: Input)
    requires m.WellFormed() && DisabledAreOff(m) && NoSilencePending(m) && !x.SetAlarms?
    ensures NoSilencePending(Apply(m, x))
  {
    hide SlotStep;
    forall i: nat | i < |m.alarms| && m.alarms[i].condition == NoReadings
      ensures Apply(m, x).state[i] != Pending
    {
      ApplyAt(m, x, i);
      SlotFits(m.alarms[i], i, m.env, Slot(m.state[i], m.since[i]), x);
    }
  }

  lemma NothingPending()
    ensures NoSilencePending(Run(FRESH, []))
  {
  }

  lemma {:induction false} SilencesNoneKeeps(ins: seq<Input>)
    requires SilencesNone(ins)
    ensures NoSilencePending(Run(FRESH, ins))
  {
    hide Apply, SilencesPending, NoSilencePending, DisabledAreOff;
    if ins == [] {
      NothingPending();
    } else {
      var before, last := ins[..|ins| - 1], |ins| - 1;
      forall n: nat | n < last
        ensures before[..n] == ins[..n] && before[n] == ins[n]
      {
      }
      SilencesNoneKeeps(before);
      DisabledStayOff(before);
      if ins[last].SetAlarms? {
        EditKeepsAlternation(Run(FRESH, before), ins[last].alarms);
      } else {
        NoSilencePendingStep(Run(FRESH, before), ins[last]);
      }
    }
  }

  /** The signals of all alarms alternate from any part of a run on, until the next edit. */
  ghost predicate AllAlternate(ins: seq<Input>) {
    forall n: nat :: n <= |ins| ==> AlternatesFrom(Run(FRESH, ins[..n]))
  }

  /** They do in exactly the runs in which no edit makes a pending alarm one on silence. */
  lemma AllAlternateExactly(ins: seq<Input>)
    ensures AllAlternate(ins) <==> SilencesNone(ins)
  {
    hide Run, NoSilencePending, SilencesPending, AlternatesFrom, DisabledAreOff;
    forall n: nat | n <= |ins|
      ensures NoSilencePending(Run(FRESH, ins[..n])) <==> AlternatesFrom(Run(FRESH, ins[..n]))
    {
      DisabledStayOff(ins[..n]);
      AlternationExactly(Run(FRESH, ins[..n]));
    }
    if SilencesNone(ins) {
      forall n: nat | n <= |ins|
        ensures NoSilencePending(Run(FRESH, ins[..n]))
      {
        forall k: nat | k < n
          ensures ins[..n][..k] == ins[..k] && ins[..n][k] == ins[k]
        {
        }
        SilencesNoneKeeps(ins[..n]);
      }
    }
    if AllAlternate(ins) {
      forall n: nat | n < |ins| && ins[n].SetAlarms?
        ensures !SilencesPending(Run(FRESH, ins[..n]), ins[n].alarms)
      {
        assert ins[..n + 1] == ins[..n] + [ins[n]];
        RunOne(FRESH, ins[..n], ins[n]);
        EditKeepsAlternation(Run(FRESH, ins[..n]), ins[n].alarms);
        assert AlternatesFrom(Run(FRESH, ins[..n + 1]));
      }
    }
  }

  ghost predicate DistinctNames(alarms: seq<Alarm>) {
    forall i, j :: 0 <= i < j < |alarms| ==> alarms[i].name != alarms[j].name
  }

  /** Setting the same list again changes nothing an alarm shows: with distinct names every
      state stays (a disabled alarm is off in every reachable state). */
  lemma SameListAgain(m: Manager)
    requires m.WellFormed() && DistinctNames(m.alarms) && DisabledAreOff(m)
    ensures var r := Apply(m, SetAlarms(m.alarms));
            && r.alarms == m.alarms && r.state == m.state
            && r.env == m.env && r.raiseOrder == m.raiseOrder && r.log == m.log
            && forall i :: 0 <= i < |m.alarms| && m.alarms[i].enabled ==> r.since[i] == m.since[i]
  {
    var r := Apply(m, SetAlarms(m.alarms));
    assert m.alarms[..|m.alarms|] == m.alarms;
    forall i: nat | i < |m.alarms|
      ensures r.state[i] == m.state[i] && (m.alarms[i].enabled ==> r.since[i] == m.since[i])
    {
      if m.alarms[i].enabled {
        CarriedFromLast(m, m.alarms[i], |m.alarms|);
        assert LastNamed(m.alarms, i, m.alarms[i].name);
      } else {
        CarriedDisabled(m, m.alarms[i], |m.alarms|);
      }
    }
  }

  // ----------------------------------------------------------- acknowledging

  /** Acknowledging sends nothing and changes raised alarms only, to acknowledged. */
  lemma AcknowledgeIsSilent(m: Manager, input: Input)
    requires m.WellFormed() && (input.Acknowledge? || input.AcknowledgeAll?)
    ensures var r := Apply(m, input);
            && r.(state := m.state) == m
            && forall i :: 0 <= i < |m.alarms| ==>
                 if m.state[i] == Raised && (input.AcknowledgeAll? || input.index == i)
                 then r.state[i] == Acknowledged else r.state[i] == m.state[i]
  {
    NothingSent(m.alarms, Outcomes(m, input), |m.alarms|);
    assert Apply(m, input).since == m.since;
  }
}
