/** Alarms on silence over whole runs: where the silence is measured from, what raises and ends it. */
module AlarmSilence {
  import opened AlarmCondition
  import opened AlarmManagement
  import opened AlarmSignals
  import opened Results

  predicate MainReading(x: Input) { x.Feed? && x.id == 0 }

  /** Since when the meter has been connected, if it is; calls that change nothing count for nothing. */
  function ConnectedSince(ins: seq<Input>): Option<int> {
    if ins == [] then None
    else
      var before, x := ConnectedSince(ins[..|ins| - 1]), ins[|ins| - 1];
      if !x.Connect? || x.on == before.Some? then before
      else if x.on then Some(x.now) else None
  }

  /** The last main reading since the connection last changed. */
  function LastMain(ins: seq<Input>): Option<int> {
    if ins == [] then None
    else
      var before, x := ins[..|ins| - 1], ins[|ins| - 1];
      if MainReading(x) then Some(x.now)
      else if x.Connect? && x.on != ConnectedSince(before).Some? then None
      else LastMain(before)
  }

  function SilentSince(ins: seq<Input>): Option<int> {
    if LastMain(ins).Some? then LastMain(ins) else ConnectedSince(ins)
  }

  predicate Timed(x: Input) { x.Feed? || x.Connect? || x.Tick? }

  /** Times count from an epoch, as the program's clock does. */
  predicate Clocked(ins: seq<Input>) {
    forall x :: x in ins && Timed(x) ==> x.now >= 0
  }

  /** Time never runs backwards. */
  predicate InTime(ins: seq<Input>) {
    forall j, k :: 0 <= j < k < |ins| && Timed(ins[j]) && Timed(ins[k]) ==> ins[j].now <= ins[k].now
  }

  function OrNever(t: Option<int>): int { if t.Some? then t.value else -1 }

  lemma {:induction false} TimesAreClocked(ins: seq<Input>)
    requires Clocked(ins)
    ensures ConnectedSince(ins).Some? ==> ConnectedSince(ins).value >= 0
    ensures LastMain(ins).Some? ==> LastMain(ins).value >= 0
  {
    if ins == [] {
    } else {
      var before := ins[..|ins| - 1];
      assert ins[|ins| - 1] in ins && forall y :: y in before ==> y in ins;
      TimesAreClocked(before);
    }
  }

  /** The two fields of the manager hold what the run says, edits of the list included. */
  lemma {:induction false} EnvFollowsRun(ins: seq<Input>)
    requires Clocked(ins)
    ensures var env := Run(FRESH, ins).env;
            && env.silenceFrom == OrNever(ConnectedSince(ins))
            && env.lastReading == OrNever(LastMain(ins))
            && SilenceStart(env) == OrNever(SilentSince(ins))
  {
    TimesAreClocked(ins);
    if ins == [] {
    } else {
      var before, x := ins[..|ins| - 1], ins[|ins| - 1];
      assert x in ins && forall y :: y in before ==> y in ins;
      TimesAreClocked(before);
      EnvFollowsRun(before);
      ApplyEnv(Run(FRESH, before), x);
    }
  }

  lemma ApplyEnv(m: Manager, x: Input)
    requires m.WellFormed()
    ensures Apply(m, x).env == EnvStep(m.env, x)
  {
  }

  /** An alarm on silence, enabled, at index i. */
  ghost predicate OnSilence(m: Manager, i: nat) {
    m.WellFormed() && i < |m.alarms| && m.alarms[i].enabled && m.alarms[i].condition == NoReadings
  }

  // ------------------------------------------------------------ the raise

  /** An alarm on silence raises exactly on a tick, while it is off, when its duration has passed
      since the last main reading, or since the connection when none came. */
  lemma SilenceRaisesExactly(ins: seq<Input>, x: Input, i: nat)
    requires Clocked(ins) && OnSilence(Run(FRESH, ins), i) && !x.SetAlarms?
    ensures var p, seconds := Run(FRESH, ins), Run(FRESH, ins).alarms[i].seconds;
            Sends(p, x, i) == [true] <==>
            && x.Tick? && p.state[i] == Off && SilentSince(ins).Some?
            && var elapsed := (x.now - SilentSince(ins).value) as real;
               if seconds > 0.0 then elapsed + 1.0 > 1000.0 * seconds else elapsed >= 1000.0 * seconds
  {
    hide Millis;
    EnvFollowsRun(ins);
    TimesAreClocked(ins);
    SendsOwnEmission(Run(FRESH, ins), x, i);
    if x.Tick? && SilentSince(ins).Some? {
      MillisPass(Run(FRESH, ins).alarms[i].seconds, x.now - SilentSince(ins).value);
    }
  }

  /** No main reading is younger than the duration when an alarm on silence raises, and no
      connection either. */
  lemma SilenceIsReal(ins: seq<Input>, x: Input, i: nat)
    requires Clocked(ins) && InTime(ins) && OnSilence(Run(FRESH, ins), i) && !x.SetAlarms?
    requires Sends(Run(FRESH, ins), x, i) == [true]
    ensures x.Tick?
    ensures var seconds := Run(FRESH, ins).alarms[i].seconds;
            && (forall k :: 0 <= k < |ins| && MainReading(ins[k]) ==>
                  (x.now - ins[k].now) as real + 1.0 > 1000.0 * seconds)
            && (ConnectedSince(ins).Some? ==> (x.now - ConnectedSince(ins).value) as real + 1.0 > 1000.0 * seconds)
  {
    SilenceRaisesExactly(ins, x, i);
    SilentSinceIsLatest(ins);
  }

  /** The value of the last main reading, 0 without one. */
  function LastValue(ins: seq<Input>): real {
    if ins == [] then 0.0
    else if MainReading(ins[|ins| - 1]) then ins[|ins| - 1].value
    else LastValue(ins[..|ins| - 1])
  }

  lemma {:induction false} ValueFollowsRun(ins: seq<Input>)
    ensures Run(FRESH, ins).env.lastValue == LastValue(ins)
  {
    if ins == [] {
    } else {
      hide Apply;
      var before := ins[..|ins| - 1];
      ValueFollowsRun(before);
      ApplyEnv(Run(FRESH, before), ins[|ins| - 1]);
    }
  }

  lemma EmittedOnTick(m: Manager, t: int)
    requires m.WellFormed()
    ensures Emitted(m, Tick(t)) == SentUpTo(m.alarms, Outcomes(m, Tick(t)), |m.alarms|)
  {
  }

  /** The signal of a raise on silence carries the last main value. */
  lemma SilenceTellsLastValue(ins: seq<Input>, t: int, i: nat)
    requires OnSilence(Run(FRESH, ins), i) && Sends(Run(FRESH, ins), Tick(t), i) == [true]
    ensures var p := Run(FRESH, ins); Rose(i, p.alarms[i], LastValue(ins)) in Emitted(p, Tick(t))
  {
    hide Run, Emitted, SignalsOf;
    var p := Run(FRESH, ins);
    ValueFollowsRun(ins);
    SendsOwnEmission(p, Tick(t), i);
    EmittedOnTick(p, t);
    SentBy(p.alarms, Outcomes(p, Tick(t)), |p.alarms|, i);
  }

  /** With time in order, the silence is measured from the later of the connection and the last
      main reading. */
  lemma {:induction false} SilentSinceIsLatest(ins: seq<Input>)
    requires InTime(ins)
    ensures ConnectedSince(ins).Some? ==> SilentSince(ins).Some? && ConnectedSince(ins).value <= SilentSince(ins).value
    ensures SilentSince(ins).Some? ==>
              forall k :: 0 <= k < |ins| && MainReading(ins[k]) ==> ins[k].now <= SilentSince(ins).value
    ensures SilentSince(ins).Some? ==>
              exists k :: 0 <= k < |ins| && Timed(ins[k]) && ins[k].now == SilentSince(ins).value
    ensures ConnectedSince(ins).Some? ==>
              exists k :: 0 <= k < |ins| && Timed(ins[k]) && ins[k].now == ConnectedSince(ins).value
  {
    if ins == [] {
    } else {
      var before, n := ins[..|ins| - 1], |ins| - 1;
      var x := ins[n];
      assert forall k :: 0 <= k < n ==> before[k] == ins[k];
      SilentSinceIsLatest(before);
    }
  }

  // --------------------------------------------------- without a connection

  /** A run in which the meter was never connected. */
  predicate NeverConnected(ins: seq<Input>) {
    forall x :: x in ins && x.Connect? ==> !x.on
  }

  lemma {:induction false} NeverConnectedMeans(ins: seq<Input>)
    requires NeverConnected(ins)
    ensures ConnectedSince(ins).None?
    ensures LastMain(ins).Some? <==> exists x :: x in ins && MainReading(x)
  {
    if ins == [] {
    } else {
      var before := ins[..|ins| - 1];
      assert ins[|ins| - 1] in ins && forall y :: y in before ==> y in ins;
      assert forall y :: y in ins ==> y in before || y == ins[|ins| - 1];
      NeverConnectedMeans(before);
    }
  }

  /** Without a connection an alarm on silence that is off raises on no tick exactly when no main
      reading has come; the documented "never" holds for these runs only. */
  lemma UnconnectedSilence(ins: seq<Input>, i: nat)
    requires Clocked(ins) && NeverConnected(ins) && OnSilence(Run(FRESH, ins), i) && Run(FRESH, ins).state[i] == Off
    ensures (forall t :: Sends(Run(FRESH, ins), Tick(t), i) != [true]) <==> !exists x :: x in ins && MainReading(x)
  {
    NeverConnectedMeans(ins);
    forall t
      ensures Sends(Run(FRESH, ins), Tick(t), i) == [true] <==>
              LastMain(ins).Some? && t - LastMain(ins).value >= Millis(Run(FRESH, ins).alarms[i].seconds)
    {
      SilenceRaisesExactly(ins, Tick(t), i);
      if LastMain(ins).Some? {
        MillisPass(Run(FRESH, ins).alarms[i].seconds, t - LastMain(ins).value);
      }
    }
    if LastMain(ins).Some? {
      var t := LastMain(ins).value + Millis(Run(FRESH, ins).alarms[i].seconds);
      assert Sends(Run(FRESH, ins), Tick(t), i) == [true];
    }
  }

  // ------------------------------------------------------------- the end

  /** What ends the silence: a main reading, or a disconnection of a connected meter. Nothing else
      clears an alarm on silence, and both clear every one. */
  lemma SilenceEndsExactly(m: Manager, x: Input, i: nat)
    requires OnSilence(m, i) && m.state[i] != Pending && !x.SetAlarms?
    ensures Sends(m, x, i) == [false] <==>
            Active(m.state[i]) && (MainReading(x) || (x.Connect? && !x.on && m.env.silenceFrom >= 0))
    ensures Sends(m, x, i) == [false] ==> Apply(m, x).state[i] == Off
    ensures MainReading(x) ==> Apply(m, x).since[i] == x.now
  {
    ApplyAt(m, x, i);
    SendsOwnEmission(m, x, i);
    OneInput(m, x, i);
  }

  /** A pending one (an edit can leave it) a main reading clears without a raise before; a
      disconnection of a connected meter turns it off and sends nothing. */
  lemma PendingSilenceEnds(m: Manager, x: Input, i: nat)
    requires OnSilence(m, i) && m.state[i] == Pending && !x.SetAlarms?
    ensures Sends(m, x, i) == if MainReading(x) then [false] else []
    ensures Apply(m, x).state[i] ==
            if MainReading(x) || (x.Connect? && !x.on && m.env.silenceFrom >= 0) then Off else Pending
  {
    ApplyAt(m, x, i);
    SendsOwnEmission(m, x, i);
  }

  /** Readings of the other values leave the silence and the alarms on it alone. */
  lemma OtherValuesAreSilence(m: Manager, x: Input, i: nat)
    requires OnSilence(m, i) && x.Feed? && x.id != 0
    ensures Apply(m, x).env == m.env && Apply(m, x).state[i] == m.state[i] && Sends(m, x, i) == []
  {
    SendsOwnEmission(m, x, i);
  }

  /** A disconnection leaves every alarm on silence off exactly when the meter was connected or
      they were all off already. */
  lemma DisconnectClears(m: Manager, now: int)
    requires m.WellFormed()
    ensures (forall i :: 0 <= i < |m.alarms| && m.alarms[i].condition == NoReadings ==>
               Apply(m, Connect(false, now)).state[i] == Off)
            <==>
            (m.env.silenceFrom >= 0 ||
             forall i :: 0 <= i < |m.alarms| && m.alarms[i].condition == NoReadings ==> m.state[i] == Off)
  {
    var r := Apply(m, Connect(false, now));
    forall i: nat | i < |m.alarms|
      ensures r.state[i] == OutcomeAt(m, Connect(false, now), i).slot.state
    {
    }
  }

  /** A pending alarm on silence (an edit can leave one) raises in no run without a main reading
      and a disconnection, however long. */
  lemma {:induction false} PendingSilenceIsDeaf(m: Manager, ins: seq<Input>, i: nat)
    requires OnSilence(m, i) && m.state[i] == Pending && NoEdit(ins)
    requires forall x :: x in ins ==> !MainReading(x) && !(x.Connect? && !x.on)
    ensures Run(m, ins).alarms == m.alarms && Run(m, ins).state[i] == Pending
  {
    AlarmsStay(m, ins);
    if ins == [] {
    } else {
      var before, x := ins[..|ins| - 1], ins[|ins| - 1];
      assert x in ins && forall y :: y in before ==> y in ins;
      hide Apply;
      PendingSilenceIsDeaf(m, before, i);
      DeafStep(Run(m, before), x, i);
    }
  }

  lemma DeafStep(m: Manager, x: Input, i: nat)
    requires OnSilence(m, i) && m.state[i] == Pending && !x.SetAlarms? && !MainReading(x) && !(x.Connect? && !x.on)
    ensures Apply(m, x).state[i] == Pending
  {
    ApplyAt(m, x, i);
  }

  // -------------------------------------------------------- runs that show it

  const DEAF := HIGH.(condition := NoReadings)

  /** A run that leaves an alarm on silence pending. It has sent nothing, the next main reading
      makes it send a clear, and it raises on no tick until then or a disconnection. */
  lemma PendingSilenceReached()
    ensures var p := Run(FRESH, Editing(DEAF));
            && OnSilence(p, 0) && p.state == [Pending] && p.log == []
            && (forall x :: MainReading(x) ==> Sends(p, x, 0) == [false])
            && forall ins, t ::
                 NoEdit(ins) && (forall x :: x in ins ==> !MainReading(x) && !(x.Connect? && !x.on)) ==>
                 Sends(Run(p, ins), Tick(t), 0) == []
  {
    hide Run, Apply, Emitted, SignalsOf;
    PendingCarried(DEAF);
    var p := Run(FRESH, Editing(DEAF));
    forall x | MainReading(x)
      ensures Sends(p, x, 0) == [false]
    {
      SendsOwnEmission(p, x, 0);
    }
    forall ins, t | NoEdit(ins) && forall x :: x in ins ==> !MainReading(x) && !(x.Connect? && !x.on)
      ensures Sends(Run(p, ins), Tick(t), 0) == []
    {
      PendingSilenceIsDeaf(p, ins, 0);
      SendsOwnEmission(Run(p, ins), Tick(t), 0);
    }
  }

  const SILENT := Alarm("silent", true, ValueRef("", 0), NoReadings, 0.0, 0.0, 3.0, 0.0, 0, true)

  const SILENT_READ := [SetAlarms([SILENT]), Feed(1.0, false, 0, 0, "")]

  lemma SilentRead()
    ensures var p := Run(FRESH, SILENT_READ);
            p.alarms == [SILENT] && p.state == [Off] && p.env.lastReading == 0 && p.env.silenceFrom == -1
  {
    var m := Apply(FRESH, SILENT_READ[0]);
    assert m.alarms == [SILENT] && m.state == [Off];
    Alone(m, SILENT_READ[1]);
    RunTwo(FRESH, SILENT_READ[0], SILENT_READ[1]);
  }

  /** A meter never connected whose main value was read once: the alarm raises, and the
      disconnection does not clear it. */
  lemma RaisesUnconnected()
    ensures var all := SILENT_READ + [Tick(3000), Connect(false, 4000)];
            && NeverConnected(all)
            && Sends(Run(FRESH, SILENT_READ), Tick(3000), 0) == [true]
            && Run(FRESH, all).state == [Raised]
  {
    hide Apply, Emitted, SignalsOf, Run;
    SilentRead();
    var p, tick, off := Run(FRESH, SILENT_READ), Tick(3000), Connect(false, 4000);
    Alone(p, tick);
    Alone(Apply(p, tick), off);
    RunOne(FRESH, SILENT_READ, tick);
    RunOne(FRESH, SILENT_READ + [tick], off);
    assert SILENT_READ + [tick] + [off] == SILENT_READ + [tick, off];
  }
}
