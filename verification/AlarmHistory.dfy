/** Value and overload alarms over whole runs: what raises one, what clears it, and what keeps it. */
module AlarmHistory {
  import opened AlarmCondition
  import opened AlarmManagement
  import opened AlarmSignals
  import opened Results

  /** A reading of the value the alarm watches. */
  predicate Watched(al: Alarm, x: Input) {
    x.Feed? && al.condition != NoReadings && al.value.Matches(x.id, x.source)
  }

  predicate Holds(al: Alarm, x: Input) {
    Watched(al, x) && Matches(al, x.value, x.overload)
  }

  predicate Ends(al: Alarm, x: Input) {
    Watched(al, x) && Released(al, x.value, x.overload)
  }

  /** Since when the condition has held without a watched reading against it, if it holds. */
  function HoldingSince(al: Alarm, ins: seq<Input>): Option<int> {
    if ins == [] then None
    else
      var before, x := HoldingSince(al, ins[..|ins| - 1]), ins[|ins| - 1];
      if !Watched(al, x) then before
      else if !Holds(al, x) then None
      else if before.Some? then before
      else Some(x.now)
  }

  /** From reading j on, every watched reading satisfies the condition, the one at j itself too. */
  ghost predicate HoldsFrom(al: Alarm, ins: seq<Input>, j: nat) {
    && j < |ins| && Holds(al, ins[j])
    && forall k :: j <= k < |ins| && Watched(al, ins[k]) ==> Holds(al, ins[k])
  }

  /** `HoldingSince` is the time of the first reading of the unbroken stretch at the end. */
  lemma {:induction false} HoldingSinceIsStretch(al: Alarm, ins: seq<Input>)
    ensures HoldingSince(al, ins).Some? <==> exists j: nat :: HoldsFrom(al, ins, j)
    ensures HoldingSince(al, ins).Some? ==> exists j: nat ::
              && HoldsFrom(al, ins, j) && ins[j].now == HoldingSince(al, ins).value
              && forall i: nat :: HoldsFrom(al, ins, i) ==> j <= i
  {
    if ins == [] {
    } else {
      var before, n := ins[..|ins| - 1], |ins| - 1;
      HoldingSinceIsStretch(al, before);
      forall j: nat | j < n
        ensures HoldsFrom(al, ins, j) <==> HoldsFrom(al, before, j) && (Watched(al, ins[n]) ==> Holds(al, ins[n]))
      {
        StretchGrows(al, ins, j);
      }
      if Holds(al, ins[n]) && HoldingSince(al, before).None? {
        assert HoldsFrom(al, ins, n);
      } else if HoldingSince(al, ins).Some? {
        var j: nat :| && HoldsFrom(al, before, j) && before[j].now == HoldingSince(al, before).value
                      && forall i: nat :: HoldsFrom(al, before, i) ==> j <= i;
        assert HoldsFrom(al, ins, j);
      }
    }
  }

  lemma StretchGrows(al: Alarm, ins: seq<Input>, j: nat)
    requires j < |ins| - 1
    ensures HoldsFrom(al, ins, j) <==>
            HoldsFrom(al, ins[..|ins| - 1], j) && (Watched(al, ins[|ins| - 1]) ==> Holds(al, ins[|ins| - 1]))
  {
    var before := ins[..|ins| - 1];
    assert forall k :: 0 <= k < |before| ==> before[k] == ins[k];
  }

  // ------------------------------------------------------- one alarm's state

  function SlotAt(m: Manager, i: nat): Slot
    requires m.WellFormed() && i < |m.alarms|
  {
    Slot(m.state[i], m.since[i])
  }

  /** The alarm at index i is one on a value or on overload, and enabled. */
  ghost predicate OnValue(m: Manager, i: nat) {
    m.WellFormed() && i < |m.alarms| && m.alarms[i].enabled && m.alarms[i].condition != NoReadings
  }

  /** A state that the readings since the alarm was off account for. */
  predicate Accounted(al: Alarm, s: Slot, since: Option<int>) {
    !Active(s.state) ==>
      && (s.state == Pending <==> since.Some?)
      && (s.state == Pending ==> s.since == since.value && al.seconds > 0.0)
  }

  lemma AccountedStep(al: Alarm, i: nat, env: Env, s: Slot, x: Input, before: Option<int>, after: Option<int>)
    requires al.enabled && al.condition != NoReadings && !x.SetAlarms? && Accounted(al, s, before)
    requires after == if !Watched(al, x) then before else if !Holds(al, x) then None
                      else if before.Some? then before else Some(x.now)
    ensures Accounted(al, SlotStep(al, i, env, s, x).slot, after)
  {
    if Ends(al, x) {
      MatchOrRelease(al, x.value, x.overload);
    }
  }

  lemma {:induction false} HoldingMore(al: Alarm, past: seq<Input>, ins: seq<Input>)
    requires ins != []
    ensures var all := past + ins; all[..|all| - 1] == past + ins[..|ins| - 1] && all[|all| - 1] == ins[|ins| - 1]
  {
  }

  /** The account of the readings is kept through every run: an alarm that is not raised is pending
      exactly while its condition holds, since the first reading of the stretch. What came before
      the run is `past`, nothing for an alarm that is not pending. */
  lemma {:induction false} StateFollowsReadings(m: Manager, past: seq<Input>, ins: seq<Input>, i: nat)
    requires OnValue(m, i) && NoEdit(ins)
    requires Accounted(m.alarms[i], SlotAt(m, i), HoldingSince(m.alarms[i], past))
    ensures var r, al := Run(m, ins), m.alarms[i];
            && r.alarms == m.alarms
            && Accounted(al, Slot(r.state[i], r.since[i]), HoldingSince(al, past + ins))
  {
    hide Apply, SlotStep;
    AlarmsStay(m, ins);
    if ins == [] {
      assert past + ins == past;
    } else {
      var before, x := ins[..|ins| - 1], ins[|ins| - 1];
      assert x in ins && forall y :: y in before ==> y in ins;
      StateFollowsReadings(m, past, before, i);
      var p, al := Run(m, before), m.alarms[i];
      ApplyAt(p, x, i);
      HoldingMore(al, past, ins);
      var since := HoldingSince(al, past + before);
      AccountedStep(al, i, p.env, SlotAt(p, i), x, since, HoldingSince(al, past + ins));
    }
  }

  /** Nothing has to be accounted for of an alarm that is not pending. */
  lemma FreshIsAccounted(al: Alarm, s: Slot)
    requires s.state != Pending
    ensures Accounted(al, s, HoldingSince(al, []))
  {
  }

  // --------------------------------------------------------- raise and clear

  /** An alarm raises exactly on a reading of its value that matches, when it is not raised yet
      and the condition has already held for its duration (at once without a duration). */
  lemma RaisesExactly(m: Manager, past: seq<Input>, ins: seq<Input>, x: Input, i: nat)
    requires OnValue(m, i) && NoEdit(ins) && !x.SetAlarms?
    requires Accounted(m.alarms[i], SlotAt(m, i), HoldingSince(m.alarms[i], past))
    ensures Run(m, ins).alarms == m.alarms
    ensures var p, al, since := Run(m, ins), m.alarms[i], HoldingSince(m.alarms[i], past + ins);
            Sends(p, x, i) == [true] <==>
            && Holds(al, x) && !Active(p.state[i])
            && (al.seconds <= 0.0 || (since.Some? && (x.now - since.value) as real + 1.0 > 1000.0 * al.seconds))
  {
    hide Apply, Emitted, SignalsOf, SlotStep, HoldingSince, Accounted, Millis;
    StateFollowsReadings(m, past, ins, i);
    var p, al := Run(m, ins), m.alarms[i];
    if x.Feed? && HoldingSince(al, past + ins).Some? {
      MillisPass(al.seconds, x.now - HoldingSince(al, past + ins).value);
    }
    SendsOwnEmission(p, x, i);
    RaiseOf(al, i, p.env, Slot(p.state[i], p.since[i]), x, HoldingSince(al, past + ins));
  }

  lemma RaiseOf(al: Alarm, i: nat, env: Env, s: Slot, x: Input, since: Option<int>)
    requires al.enabled && al.condition != NoReadings && !x.SetAlarms? && Accounted(al, s, since)
    ensures SlotStep(al, i, env, s, x).emission.Raise? <==>
            && Holds(al, x) && !Active(s.state)
            && (al.seconds <= 0.0 || (since.Some? && x.now - since.value >= Millis(al.seconds)))
  {
  }

  /** After any run, edits included, the readings since then decide alone about an alarm that is
      not pending. */
  lemma RaisesExactlySince(ins: seq<Input>, more: seq<Input>, x: Input, i: nat)
    requires OnValue(Run(FRESH, ins), i) && Run(FRESH, ins).state[i] != Pending && NoEdit(more) && !x.SetAlarms?
    ensures var m, p := Run(FRESH, ins), Run(Run(FRESH, ins), more);
            var al, since := m.alarms[i], HoldingSince(m.alarms[i], more);
            && p.alarms == m.alarms
            && (Sends(p, x, i) == [true] <==>
                && Holds(al, x) && !Active(p.state[i])
                && (al.seconds <= 0.0 || (since.Some? && (x.now - since.value) as real + 1.0 > 1000.0 * al.seconds)))
  {
    hide Run, Sends, HoldingSince;
    var m := Run(FRESH, ins);
    FreshIsAccounted(m.alarms[i], SlotAt(m, i));
    RaisesExactly(m, [], more, x, i);
    assert [] + more == more;
  }

  /** The signal of a raise carries the reading that raised. */
  lemma RaiseTellsReading(m: Manager, x: Input, i: nat)
    requires OnValue(m, i) && !x.SetAlarms? && Sends(m, x, i) == [true]
    ensures x.Feed? && Rose(i, m.alarms[i], x.value) in Emitted(m, x)
  {
    SendsOwnEmission(m, x, i);
    var outs := Outcomes(m, x);
    assert outs[i].emission == Raise(x.value);
    SentBy(m.alarms, outs, |m.alarms|, i);
  }

  /** An alarm clears exactly on a released reading of its value while it is raised: one that is in
      range and, but for an alarm on overload, no closer to the condition than the hysteresis. */
  lemma ClearsExactly(m: Manager, x: Input, i: nat)
    requires OnValue(m, i) && !x.SetAlarms?
    ensures Sends(m, x, i) == [false] <==> Active(m.state[i]) && Ends(m.alarms[i], x)
    ensures var al := m.alarms[i];
            var h := if al.hysteresis < 0.0 then -al.hysteresis else al.hysteresis;
            Ends(al, x) <==>
            && x.Feed? && x.id == al.value.id && (al.value.source == "" || x.source == al.value.source)
            && !x.overload
            && (al.condition != Overload ==> forall v :: -h <= v - x.value <= h ==> !Matches(al, v, false))
  {
    SendsOwnEmission(m, x, i);
    if x.Feed? {
      ReleasedExactly(m.alarms[i], x.value);
    }
  }

  // ------------------------------------------------- whose readings it takes

  /** The readings of other values, and of other meters when it has one of its own, an alarm does
      not take. */
  lemma OthersAreIgnored(m: Manager, x: Input, i: nat)
    requires OnValue(m, i) && x.Feed?
    requires x.id != m.alarms[i].value.id || (m.alarms[i].value.source != "" && x.source != m.alarms[i].value.source)
    ensures SlotAt(Apply(m, x), i) == SlotAt(m, i) && Sends(m, x, i) == []
  {
    ApplyAt(m, x, i);
    SendsOwnEmission(m, x, i);
  }

  /** Without a meter of its own it takes those of all meters alike. */
  lemma AnyMeterAlike(m: Manager, x: Input, from: string, i: nat)
    requires OnValue(m, i) && x.Feed? && m.alarms[i].value.source == ""
    ensures var y := x.(source := from);
            SlotAt(Apply(m, x), i) == SlotAt(Apply(m, y), i) && Sends(m, x, i) == Sends(m, y, i)
  {
    var y := x.(source := from);
    ApplyAt(m, x, i);
    ApplyAt(m, y, i);
    SendsOwnEmission(m, x, i);
    SendsOwnEmission(m, y, i);
  }

  /** With one it takes that meter's as it would take any without one. */
  lemma OwnMeterAsAny(m: Manager, x: Input, i: nat)
    requires OnValue(m, i) && x.Feed? && x.source == m.alarms[i].value.source
    ensures var any := m.(alarms := m.alarms[i := m.alarms[i].(value := ValueRef("", m.alarms[i].value.id))]);
            SlotAt(Apply(m, x), i) == SlotAt(Apply(any, x), i) && Sends(m, x, i) == Sends(any, x, i)
  {
    hide Apply, SlotStep, Emitted, SignalsOf;
    var al := m.alarms[i];
    var any := m.(alarms := m.alarms[i := al.(value := ValueRef("", al.value.id))]);
    OwnSlotAsAny(al, i, m.env, SlotAt(m, i), x);
    ApplyAt(m, x, i);
    ApplyAt(any, x, i);
    SendsOwnEmission(m, x, i);
    SendsOwnEmission(any, x, i);
  }

  lemma OwnSlotAsAny(al: Alarm, i: nat, env: Env, s: Slot, x: Input)
    requires x.Feed? && x.source == al.value.source
    ensures SlotStep(al, i, env, s, x) == SlotStep(al.(value := ValueRef("", al.value.id)), i, env, s, x)
  {
  }

  lemma StaysRaised(m: Manager, x: Input, i: nat)
    requires OnValue(m, i) && Active(m.state[i]) && !x.SetAlarms? && !Ends(m.alarms[i], x)
    ensures Active(Apply(m, x).state[i]) && Sends(m, x, i) == []
  {
    ApplyAt(m, x, i);
    OneInput(m, x, i);
  }

  /** Raised once, an alarm stays raised and silent through any inputs without a released reading. */
  lemma {:induction false} HysteresisHolds(m: Manager, ins: seq<Input>, i: nat)
    requires OnValue(m, i) && Active(m.state[i]) && NoEdit(ins)
    requires forall x :: x in ins ==> !Ends(m.alarms[i], x)
    ensures Run(m, ins).alarms == m.alarms && Active(Run(m, ins).state[i])
    ensures SignalsOf(NewLog(m, ins), i) == []
  {
    AlarmsStay(m, ins);
    if ins == [] {
    } else {
      var before, x := ins[..|ins| - 1], ins[|ins| - 1];
      assert x in ins && forall y :: y in before ==> y in ins;
      hide Apply, Emitted, SignalsOf, SlotStep;
      HysteresisHolds(m, before, i);
      var p := Run(m, before);
      StaysRaised(p, x, i);
      SignalsOfConcat(NewLog(m, before), Emitted(p, x), i);
    }
  }

  /** So it does through any readings out of range or within the hysteresis of a value that
      satisfies its condition. */
  lemma StaysWithinHysteresis(m: Manager, ins: seq<Input>, i: nat)
    requires OnValue(m, i) && Active(m.state[i]) && NoEdit(ins) && m.alarms[i].condition != Overload
    requires var al := m.alarms[i];
             var h := if al.hysteresis < 0.0 then -al.hysteresis else al.hysteresis;
             forall x :: x in ins && x.Feed? && x.id == al.value.id ==>
               x.overload || exists v :: -h <= v - x.value <= h && Matches(al, v, false)
    ensures Run(m, ins).alarms == m.alarms && Active(Run(m, ins).state[i])
    ensures SignalsOf(NewLog(m, ins), i) == []
  {
    hide Run, SignalsOf, NewLog, Released, Matches;
    forall x | x in ins
      ensures !Ends(m.alarms[i], x)
    {
      if x.Feed? {
        ReleasedExactly(m.alarms[i], x.value);
      }
    }
    HysteresisHolds(m, ins, i);
  }

  /** An alarm outside a range narrower than two hystereses never clears again. */
  lemma NeverClears(m: Manager, ins: seq<Input>, i: nat)
    requires OnValue(m, i) && Active(m.state[i]) && NoEdit(ins) && BandSwallowsRange(m.alarms[i])
    ensures Run(m, ins).alarms == m.alarms && Active(Run(m, ins).state[i])
  {
    ReleasePossible(m.alarms[i]);
    HysteresisHolds(m, ins, i);
  }

  const STUCK := Alarm("stuck", true, ValueRef("", 0), Outside, 0.0, 1.0, 0.0, 1.0, 0, true)

  /** Such an alarm, raised by one reading, stays raised and silent in every run after it. */
  lemma StuckForEver(ins: seq<Input>)
    requires NoEdit(ins)
    ensures var p := Run(FRESH, [SetAlarms([STUCK]), Feed(5.0, false, 0, 0, "")]);
            && OnValue(p, 0) && p.state == [Raised] && BandSwallowsRange(STUCK)
            && Run(p, ins).alarms == [STUCK] && Active(Run(p, ins).state[0]) && SignalsOf(NewLog(p, ins), 0) == []
  {
    hide Run, Emitted, SignalsOf, NewLog;
    RaisedByOne(STUCK, Feed(5.0, false, 0, 0, ""));
    ReleasePossible(STUCK);
    HysteresisHolds(Run(FRESH, [SetAlarms([STUCK]), Feed(5.0, false, 0, 0, "")]), ins, 0);
  }

  // ----------------------------------------------------------- earned raises

  /** Behind an input lies a reading at least the duration back that matched, as did every later
      one of the alarm's value. */
  ghost predicate Earned(al: Alarm, past: seq<Input>, x: Input) {
    x.Feed? && exists j: nat ::
      HoldsFrom(al, past + [x], j) && (x.now - (past + [x])[j].now) as real + 1.0 > 1000.0 * al.seconds
  }

  /** A reading no later than the given time from which on the condition has held. */
  ghost predicate HeldBy(al: Alarm, past: seq<Input>, time: int) {
    exists k: nat :: HoldsFrom(al, past, k) && past[k].now <= time
  }

  /** A pending state whose time the readings bear out. */
  ghost predicate Based(al: Alarm, s: Slot, past: seq<Input>) {
    s.state == Pending ==> HeldBy(al, past, s.since)
  }

  /** An alarm without a duration of a millisecond needs no such reading. */
  ghost predicate Backed(al: Alarm, s: Slot, past: seq<Input>) {
    1000.0 * al.seconds < 1.0 || Based(al, s, past)
  }

  lemma HoldsMore(al: Alarm, past: seq<Input>, x: Input, k: nat)
    requires k < |past|
    ensures HoldsFrom(al, past + [x], k) <==> HoldsFrom(al, past, k) && (Watched(al, x) ==> Holds(al, x))
    ensures (past + [x])[k] == past[k]
  {
    var all := past + [x];
    assert all[..|all| - 1] == past && all[|all| - 1] == x;
    StretchGrows(al, all, k);
  }

  lemma BasedStep(al: Alarm, i: nat, env: Env, s: Slot, past: seq<Input>, x: Input)
    requires al.enabled && al.condition != NoReadings && !x.SetAlarms? && Based(al, s, past)
    ensures Based(al, SlotStep(al, i, env, s, x).slot, past + [x])
  {
    var r := SlotStep(al, i, env, s, x).slot;
    if r.state == Pending {
      if s.state == Pending {
        var k: nat :| HoldsFrom(al, past, k) && past[k].now <= s.since;
        HoldsMore(al, past, x, k);
      } else {
        assert HoldsFrom(al, past + [x], |past|);
      }
    }
  }

  lemma RaiseEarned(al: Alarm, i: nat, env: Env, s: Slot, past: seq<Input>, x: Input)
    requires al.enabled && al.condition != NoReadings && !x.SetAlarms? && Backed(al, s, past)
    requires SlotStep(al, i, env, s, x).emission.Raise?
    ensures Earned(al, past, x)
  {
    hide Millis;
    MillisPass(al.seconds, x.now - s.since);
    if 1000.0 * al.seconds < 1.0 || s.state != Pending {
      assert HoldsFrom(al, past + [x], |past|);
    } else {
      var k: nat :| HoldsFrom(al, past, k) && past[k].now <= s.since;
      HoldsMore(al, past, x, k);
    }
  }

  lemma {:induction false} BasedInRun(m: Manager, past: seq<Input>, ins: seq<Input>, i: nat)
    requires OnValue(m, i) && NoEdit(ins) && Based(m.alarms[i], SlotAt(m, i), past)
    ensures var r := Run(m, ins); r.alarms == m.alarms && Based(m.alarms[i], SlotAt(r, i), past + ins)
  {
    hide Apply, SlotStep, Based;
    AlarmsStay(m, ins);
    if ins == [] {
      assert past + ins == past;
    } else {
      var before, x := ins[..|ins| - 1], ins[|ins| - 1];
      assert x in ins && forall y :: y in before ==> y in ins;
      BasedInRun(m, past, before, i);
      var p := Run(m, before);
      BasedStep(m.alarms[i], i, p.env, SlotAt(p, i), past + before, x);
      ApplyAt(p, x, i);
      assert past + before + [x] == past + ins;
    }
  }

  /** A reading that matches. */
  function Matching(al: Alarm, now: int): (x: Input)
    requires al.condition != NoReadings
    ensures Holds(al, x) && x.now == now
  {
    var value := match al.condition
      case Below => al.a - 1.0
      case Above => al.a + 1.0
      case Outside => Max(al.a, al.b) + 1.0
      case _ => Min(al.a, al.b);
    Feed(value, al.condition == Overload, now, al.value.id, al.value.source)
  }

  /** Every raise of an alarm is earned, in all runs from a state while its list is not edited,
      exactly when the alarm is not pending, has no duration, or its time is borne out. */
  lemma EarnedExactly(m: Manager, past: seq<Input>, i: nat)
    requires OnValue(m, i)
    ensures (forall ins, x :: NoEdit(ins) && Sends(Run(m, ins), x, i) == [true] ==>
               Earned(m.alarms[i], past + ins, x))
            <==> Backed(m.alarms[i], SlotAt(m, i), past)
  {
    hide Earned, Backed, Sends;
    var al := m.alarms[i];
    if Backed(al, SlotAt(m, i), past) {
      forall ins, x | NoEdit(ins) && Sends(Run(m, ins), x, i) == [true]
        ensures Earned(al, past + ins, x)
      {
        BackedRaise(m, past, ins, x, i);
      }
    } else {
      var x := Matching(al, m.since[i] + Millis(al.seconds));
      UnbackedRaise(m, past, x, i);
      assert Run(m, []) == m && past + [] == past && NoEdit([]);
    }
  }

  lemma BackedRaise(m: Manager, past: seq<Input>, ins: seq<Input>, x: Input, i: nat)
    requires OnValue(m, i) && NoEdit(ins) && Backed(m.alarms[i], SlotAt(m, i), past)
    requires Sends(Run(m, ins), x, i) == [true]
    ensures Earned(m.alarms[i], past + ins, x)
  {
    hide Run, SlotStep, Earned, Based, Emitted, SignalsOf;
    var p, al := Run(m, ins), m.alarms[i];
    AlarmsStay(m, ins);
    if 1000.0 * al.seconds >= 1.0 {
      BasedInRun(m, past, ins, i);
    }
    EditsSendNothing(p, x, i);
    SendsOwnEmission(p, x, i);
    RaiseEarned(al, i, p.env, SlotAt(p, i), past + ins, x);
  }

  lemma EditsSendNothing(m: Manager, x: Input, i: nat)
    requires m.WellFormed() && Sends(m, x, i) != []
    ensures !x.SetAlarms?
  {
  }

  lemma UnbackedRaise(m: Manager, past: seq<Input>, x: Input, i: nat)
    requires OnValue(m, i) && !Backed(m.alarms[i], SlotAt(m, i), past)
    requires Holds(m.alarms[i], x) && x.now == m.since[i] + Millis(m.alarms[i].seconds)
    ensures Sends(m, x, i) == [true] && !Earned(m.alarms[i], past, x)
  {
    var al := m.alarms[i];
    SendsOwnEmission(m, x, i);
    forall j: nat | HoldsFrom(al, past + [x], j)
      ensures (x.now - (past + [x])[j].now) as real + 1.0 <= 1000.0 * al.seconds
    {
      MillisPass(al.seconds, x.now - (past + [x])[j].now);
      if j < |past| {
        HoldsMore(al, past, x, j);
      }
    }
  }

  // ------------------------------------------------------------- edited lists

  /** What an edit carries over to an alarm is borne out by the readings before it: no pending
      state, or one the readings bear out for the new condition; or there is no duration. */
  ghost predicate EditBacked(m: Manager, past: seq<Input>, al: Alarm)
    requires m.WellFormed()
  {
    || 1000.0 * al.seconds < 1.0
    || forall i: nat :: LastNamed(m.alarms, i, al.name) && m.state[i] == Pending ==> HeldBy(al, past, m.since[i])
  }

  lemma BackedByEdit(m: Manager, past: seq<Input>, list: seq<Alarm>, j: nat)
    requires m.WellFormed() && j < |list| && list[j].enabled && list[j].condition != NoReadings
    ensures Backed(list[j], SlotAt(Apply(m, SetAlarms(list)), j), past + [SetAlarms(list)])
            <==> EditBacked(m, past, list[j])
  {
    var al, s := list[j], SlotAt(Apply(m, SetAlarms(list)), j);
    CarriedFromLast(m, al, |m.alarms|);
    assert m.alarms[..|m.alarms|] == m.alarms;
    EditHoldsNothing(al, past, list, s.since);
  }

  lemma EditHoldsNothing(al: Alarm, past: seq<Input>, list: seq<Alarm>, time: int)
    ensures HeldBy(al, past + [SetAlarms(list)], time) <==> HeldBy(al, past, time)
  {
    var all := past + [SetAlarms(list)];
    forall k: nat | k < |past|
      ensures HoldsFrom(al, all, k) <==> HoldsFrom(al, past, k)
      ensures all[k] == past[k]
    {
      HoldsMore(al, past, SetAlarms(list), k);
    }
  }

  /** After an edit every raise of an alarm is earned, over the readings before and after it,
      exactly when the edit carries nothing over that the readings do not bear out. */
  lemma EditEarnsExactly(m: Manager, past: seq<Input>, list: seq<Alarm>, j: nat)
    requires m.WellFormed() && j < |list| && list[j].enabled && list[j].condition != NoReadings
    ensures (forall ins, x ::
               NoEdit(ins) && Sends(Run(Apply(m, SetAlarms(list)), ins), x, j) == [true] ==>
               Earned(list[j], past + [SetAlarms(list)] + ins, x))
            <==> EditBacked(m, past, list[j])
  {
    EarnedExactly(Apply(m, SetAlarms(list)), past + [SetAlarms(list)], j);
    BackedByEdit(m, past, list, j);
  }

  /** Every edit of a run carries over only what its readings bear out. */
  ghost predicate EditsBacked(ins: seq<Input>) {
    forall n: nat, al ::
      n < |ins| && ins[n].SetAlarms? && al in ins[n].alarms && al.enabled && al.condition != NoReadings ==>
      EditBacked(Run(FRESH, ins[..n]), ins[..n], al)
  }

  ghost predicate AllBacked(m: Manager, past: seq<Input>) {
    forall i: nat :: OnValue(m, i) ==> Backed(m.alarms[i], SlotAt(m, i), past)
  }

  lemma AllBackedStep(m: Manager, past: seq<Input>, x: Input)
    requires m.WellFormed() && AllBacked(m, past)
    requires x.SetAlarms? ==> forall al ::
               al in x.alarms && al.enabled && al.condition != NoReadings ==> EditBacked(m, past, al)
    ensures AllBacked(Apply(m, x), past + [x])
  {
    hide Apply, Backed, EditBacked;
    var r := Apply(m, x);
    forall i: nat | OnValue(r, i)
      ensures Backed(r.alarms[i], SlotAt(r, i), past + [x])
    {
      ApplyAlarms(m, x);
      if x.SetAlarms? {
        assert x.alarms[i] in x.alarms;
        BackedByEdit(m, past, x.alarms, i);
      } else {
        BackedStep(m, past, x, i);
      }
    }
  }

  lemma BackedStep(m: Manager, past: seq<Input>, x: Input, i: nat)
    requires OnValue(m, i) && !x.SetAlarms? && Backed(m.alarms[i], SlotAt(m, i), past)
    ensures Apply(m, x).alarms == m.alarms && Backed(m.alarms[i], SlotAt(Apply(m, x), i), past + [x])
  {
    hide Apply, SlotStep, Based;
    ApplyAlarms(m, x);
    ApplyAt(m, x, i);
    if 1000.0 * m.alarms[i].seconds >= 1.0 {
      BasedStep(m.alarms[i], i, m.env, SlotAt(m, i), past, x);
    }
  }

  lemma {:induction false} BackedRun(ins: seq<Input>)
    requires EditsBacked(ins)
    ensures AllBacked(Run(FRESH, ins), ins)
  {
    hide Apply, AllBacked, EditBacked;
    if ins == [] {
      NoneBacked();
    } else {
      var before, last := ins[..|ins| - 1], |ins| - 1;
      forall n: nat | n < last
        ensures before[..n] == ins[..n] && before[n] == ins[n]
      {
      }
      BackedRun(before);
      AllBackedStep(Run(FRESH, before), before, ins[last]);
      assert before + [ins[last]] == ins;
    }
  }

  lemma NoneBacked()
    ensures AllBacked(Run(FRESH, []), [])
  {
  }

  /** Every raise is earned in every run whose edits carry over only what the readings bear out. */
  lemma RaiseIsEarned(ins: seq<Input>, x: Input, i: nat)
    requires EditsBacked(ins) && OnValue(Run(FRESH, ins), i)
    requires Sends(Run(FRESH, ins), x, i) == [true]
    ensures Earned(Run(FRESH, ins).alarms[i], ins, x)
  {
    hide Sends, Earned, Backed;
    var m := Run(FRESH, ins);
    BackedRun(ins);
    assert Run(m, []) == m && ins + [] == ins && NoEdit([]);
    BackedRaise(m, ins, [], x, i);
  }

  /** Every raise after any part of a run, and after that without further edits, is earned. */
  ghost predicate AllEarned(ins: seq<Input>) {
    forall n: nat, more, x, i: nat ::
      n <= |ins| && NoEdit(more) && OnValue(Run(FRESH, ins[..n]), i)
      && Sends(Run(Run(FRESH, ins[..n]), more), x, i) == [true] ==>
      Earned(Run(FRESH, ins[..n]).alarms[i], ins[..n] + more, x)
  }

  /** And only in those runs: an edit that carries over more has a run with a raise not earned. */
  lemma AllEarnedExactly(ins: seq<Input>)
    ensures AllEarned(ins) <==> EditsBacked(ins)
  {
    hide Run, Sends, Earned, Backed, EditBacked;
    if EditsBacked(ins) {
      forall n: nat, i: nat | n <= |ins| && OnValue(Run(FRESH, ins[..n]), i)
        ensures Backed(Run(FRESH, ins[..n]).alarms[i], SlotAt(Run(FRESH, ins[..n]), i), ins[..n])
      {
        PrefixBacked(ins, n);
        BackedRun(ins[..n]);
      }
      forall n: nat, more, x, i: nat |
        n <= |ins| && NoEdit(more) && OnValue(Run(FRESH, ins[..n]), i)
        && Sends(Run(Run(FRESH, ins[..n]), more), x, i) == [true]
        ensures Earned(Run(FRESH, ins[..n]).alarms[i], ins[..n] + more, x)
      {
        BackedRaise(Run(FRESH, ins[..n]), ins[..n], more, x, i);
      }
    }
    if AllEarned(ins) {
      forall n: nat, al |
        n < |ins| && ins[n].SetAlarms? && al in ins[n].alarms && al.enabled && al.condition != NoReadings
        ensures EditBacked(Run(FRESH, ins[..n]), ins[..n], al)
      {
        var j: nat :| j < |ins[n].alarms| && ins[n].alarms[j] == al;
        EarnedEdit(ins, n, j);
      }
    }
  }

  lemma PrefixBacked(ins: seq<Input>, n: nat)
    requires EditsBacked(ins) && n <= |ins|
    ensures EditsBacked(ins[..n])
  {
    hide Run, EditBacked;
    forall k: nat | k < n
      ensures ins[..n][..k] == ins[..k] && ins[..n][k] == ins[k]
    {
    }
  }

  lemma EarnedEdit(ins: seq<Input>, n: nat, j: nat)
    requires AllEarned(ins) && n < |ins| && ins[n].SetAlarms? && j < |ins[n].alarms|
    requires ins[n].alarms[j].enabled && ins[n].alarms[j].condition != NoReadings
    ensures EditBacked(Run(FRESH, ins[..n]), ins[..n], ins[n].alarms[j])
  {
    hide Sends, Earned, EditBacked, Apply;
    var m, past := Run(FRESH, ins[..n]), ins[..n];
    assert ins[..n + 1] == past + [ins[n]];
    RunOne(FRESH, past, ins[n]);
    ApplyAlarms(m, ins[n]);
    var r := Apply(m, ins[n]);
    assert Run(FRESH, ins[..n + 1]) == r && OnValue(r, j);
    hide Run;
    forall more, x | NoEdit(more) && Sends(Run(r, more), x, j) == [true]
      ensures Earned(ins[n].alarms[j], past + [ins[n]] + more, x)
    {
    }
    EditEarnsExactly(m, past, ins[n].alarms, j);
  }

  // ------------------------------------------- edits that keep the condition

  /** Two alarms that judge every reading alike. */
  predicate SameCondition(al: Alarm, other: Alarm) {
    && al.value == other.value && al.condition == other.condition
    && al.a == other.a && al.b == other.b
  }

  /** No edit of a run changes the condition of an alarm that is pending. */
  ghost predicate PendingKept(ins: seq<Input>) {
    forall n: nat, al, i: nat ::
      n < |ins| && ins[n].SetAlarms? && al in ins[n].alarms && al.enabled && al.condition != NoReadings
      && LastNamed(Run(FRESH, ins[..n]).alarms, i, al.name) && Run(FRESH, ins[..n]).state[i] == Pending ==>
      SameCondition(Run(FRESH, ins[..n]).alarms[i], al)
  }

  ghost predicate AllBased(m: Manager, past: seq<Input>) {
    forall i: nat :: OnValue(m, i) ==> Based(m.alarms[i], SlotAt(m, i), past)
  }

  lemma SameHeld(al: Alarm, other: Alarm, past: seq<Input>, time: int)
    requires SameCondition(al, other)
    ensures HeldBy(al, past, time) <==> HeldBy(other, past, time)
  {
    forall k: nat
      ensures HoldsFrom(al, past, k) <==> HoldsFrom(other, past, k)
    {
    }
  }

  /** Such edits carry over only what the readings bear out: every raise of the run is earned. */
  lemma {:induction false} PendingKeptEarns(ins: seq<Input>)
    requires PendingKept(ins)
    ensures AllBased(Run(FRESH, ins), ins) && EditsBacked(ins)
  {
    hide Apply, AllBased, EditBacked, SameCondition, DisabledAreOff;
    if ins == [] {
      NoneBased();
    } else {
      var before, last := ins[..|ins| - 1], |ins| - 1;
      forall n: nat | n < last
        ensures before[..n] == ins[..n] && before[n] == ins[n]
      {
      }
      PendingKeptEarns(before);
      var m := Run(FRESH, before);
      DisabledStayOff(before);
      if ins[last].SetAlarms? {
        KeptEdit(m, before, ins[last].alarms);
      } else {
        KeptStep(m, before, ins[last]);
      }
      assert before + [ins[last]] == ins;
    }
  }

  lemma NoneBased()
    ensures AllBased(Run(FRESH, []), [])
  {
  }

  lemma KeptStep(m: Manager, past: seq<Input>, x: Input)
    requires m.WellFormed() && AllBased(m, past) && !x.SetAlarms?
    ensures AllBased(Apply(m, x), past + [x])
  {
    hide Apply, SlotStep, Based;
    ApplyAlarms(m, x);
    forall i: nat | OnValue(m, i)
      ensures Based(m.alarms[i], SlotAt(Apply(m, x), i), past + [x])
    {
      ApplyAt(m, x, i);
      BasedStep(m.alarms[i], i, m.env, SlotAt(m, i), past, x);
    }
  }

  lemma KeptEdit(m: Manager, past: seq<Input>, list: seq<Alarm>)
    requires m.WellFormed() && AllBased(m, past) && DisabledAreOff(m)
    requires forall al, i: nat ::
               && al in list && al.enabled && al.condition != NoReadings
               && LastNamed(m.alarms, i, al.name) && m.state[i] == Pending ==>
                 SameCondition(m.alarms[i], al)
    ensures AllBased(Apply(m, SetAlarms(list)), past + [SetAlarms(list)])
    ensures forall al :: al in list && al.enabled && al.condition != NoReadings ==> EditBacked(m, past, al)
  {
    forall al, i: nat | al in list && al.enabled && al.condition != NoReadings
                        && LastNamed(m.alarms, i, al.name) && m.state[i] == Pending
      ensures HeldBy(al, past, m.since[i])
    {
      SameHeld(m.alarms[i], al, past, m.since[i]);
      assert OnValue(m, i);
    }
    var r := Apply(m, SetAlarms(list));
    assert m.alarms[..|m.alarms|] == m.alarms;
    forall j: nat | OnValue(r, j)
      ensures Based(r.alarms[j], SlotAt(r, j), past + [SetAlarms(list)])
    {
      assert list[j] in list;
      CarriedFromLast(m, list[j], |m.alarms|);
      EditHoldsNothing(list[j], past, list, r.since[j]);
    }
  }

  lemma {:induction false} SameHolding(al: Alarm, other: Alarm, ins: seq<Input>)
    requires SameCondition(al, other)
    ensures HoldingSince(al, ins) == HoldingSince(other, ins)
  {
    if ins == [] {
    } else {
      SameHolding(al, other, ins[..|ins| - 1]);
    }
  }

  /** An edit that leaves the condition alone keeps the account of the alarm, for a new duration
      too, exactly when it does not leave a pending one without a duration. */
  lemma EditKeepsAccount(m: Manager, past: seq<Input>, list: seq<Alarm>, i: nat, j: nat)
    requires OnValue(m, i) && j < |list| && list[j].enabled
    requires LastNamed(m.alarms, i, list[j].name) && SameCondition(m.alarms[i], list[j])
    requires Accounted(m.alarms[i], SlotAt(m, i), HoldingSince(m.alarms[i], past))
    ensures var r := Apply(m, SetAlarms(list));
            Accounted(list[j], SlotAt(r, j), HoldingSince(list[j], past + [SetAlarms(list)]))
            <==> (m.state[i] == Pending ==> list[j].seconds > 0.0)
  {
    hide HoldingSince;
    SameHolding(m.alarms[i], list[j], past);
    HoldingPastEdit(list[j], past, list);
    CarriedFromLast(m, list[j], |m.alarms|);
    assert m.alarms[..|m.alarms|] == m.alarms;
  }

  lemma HoldingPastEdit(al: Alarm, past: seq<Input>, list: seq<Alarm>)
    ensures HoldingSince(al, past + [SetAlarms(list)]) == HoldingSince(al, past)
  {
    var all := past + [SetAlarms(list)];
    assert all[..|all| - 1] == past;
  }

  // -------------------------------------------------------- a run that shows it

  const LOW := HIGH.(condition := Below, a := 5.0)

  /** Two seconds after a reading above ten the first one below five raises an alarm edited to
      values below five for two seconds. */
  lemma EditedRaiseIsNotEarned()
    ensures var p, x := Run(FRESH, Editing(LOW)), Feed(4.0, false, 2000, 0, "");
            && p.alarms == [LOW] && Sends(p, x, 0) == [true] && !Earned(LOW, Editing(LOW), x)
            && forall y :: y in Editing(LOW) ==> !Holds(LOW, y)
  {
    hide Run, Apply, Emitted, SignalsOf;
    var p, x := Run(FRESH, Editing(LOW)), Feed(4.0, false, 2000, 0, "");
    PendingCarried(LOW);
    Alone(p, x);
    var all := Editing(LOW) + [x];
    forall j: nat | HoldsFrom(LOW, all, j)
      ensures all[j].now == 2000
    {
      assert j == 3;
    }
  }
}
