/** The alarm manager: alarms run against timed readings. The class works as the program does;
    the functions on the datatype Manager are its specification. */
module AlarmManagement {
  import opened AlarmCondition
  import opened Results

  datatype State = Off | Pending | Raised | Acknowledged

  /** Raised, acknowledged or not. */
  predicate Active(s: State) { s == Raised || s == Acknowledged }

  /** The signals the manager sends, with the index of the alarm. */
  datatype Signal =
    | Rose(index: nat, alarm: Alarm, value: real)
    | Cleared(index: nat, alarm: Alarm)

  datatype Input =
    | Feed(value: real, overload: bool, now: int, id: int, source: string)
    | Connect(on: bool, now: int)
    | Tick(now: int)
    | Acknowledge(index: int)
    | AcknowledgeAll
    | SetAlarms(alarms: seq<Alarm>)

  /** What all alarms share: when the last main reading arrived and when the meter was
      connected (-1 for not at all), and the last main value. */
  datatype Env = Env(lastReading: int, silenceFrom: int, lastValue: real, lastOverload: bool)

  datatype Manager = Manager(
    alarms: seq<Alarm>, state: seq<State>, since: seq<int>,
    env: Env, raiseOrder: seq<string>, log: seq<Signal>)
  {
    predicate WellFormed() { |state| == |alarms| == |since| }
  }

  const FRESH := Manager([], [], [], Env(-1, -1, 0.0, false), [], [])

  // -------------------------------------------------- one alarm, one input

  datatype Slot = Slot(state: State, since: int)

  datatype Emission = Nothing | Raise(value: real) | Clear

  datatype Outcome = Outcome(slot: Slot, emission: Emission)

  function Judge(al: Alarm, s: Slot, matches: bool, released: bool, value: real, now: int): Outcome {
    if !al.enabled then
      Outcome(s.(state := Off), if s.state != Off then Clear else Nothing)
    else match s.state
      case Off =>
        if !matches then Outcome(s, Nothing)
        else if al.seconds <= 0.0 then Outcome(Slot(Raised, now), Raise(value))
        else Outcome(Slot(Pending, now), Nothing)
      case Pending =>
        if !matches then Outcome(s.(state := Off), Nothing)
        else if now - s.since >= Millis(al.seconds) then Outcome(s.(state := Raised), Raise(value))
        else Outcome(s, Nothing)
      case _ =>
        if released then Outcome(s.(state := Off), Clear) else Outcome(s, Nothing)
  }

  function ReadingStep(al: Alarm, s: Slot, value: real, overload: bool, now: int, id: int, source: string): Outcome {
    if al.condition == NoReadings then
      if id != 0 then Outcome(s, Nothing)
      else Outcome(Slot(Off, now), if s.state != Off then Clear else Nothing)
    else if !al.value.Matches(id, source) then Outcome(s, Nothing)
    else Judge(al, s, Matches(al, value, overload), Released(al, value, overload), value, now)
  }

  /** Where the silence is measured from, negative for nowhere. */
  function SilenceStart(env: Env): int {
    if env.lastReading >= 0 then env.lastReading else env.silenceFrom
  }

  /** What an input does to the alarm at index i; `env` is the one before the input. */
  function SlotStep(al: Alarm, i: nat, env: Env, s: Slot, input: Input): Outcome {
    match input
    case Feed(value, overload, now, id, source) =>
      ReadingStep(al, s, value, overload, now, id, source)
    case Connect(on, now) =>
      if on || env.silenceFrom < 0 || al.condition != NoReadings || s.state == Off then Outcome(s, Nothing)
      else Outcome(s.(state := Off), if s.state != Pending then Clear else Nothing)
    case Tick(now) =>
      if al.condition == NoReadings && al.enabled && s.state == Off
         && SilenceStart(env) >= 0 && now - SilenceStart(env) >= Millis(al.seconds)
      then Outcome(s.(state := Raised), Raise(env.lastValue))
      else Outcome(s, Nothing)
    case Acknowledge(index) =>
      Outcome(if i == index && s.state == Raised then s.(state := Acknowledged) else s, Nothing)
    case AcknowledgeAll =>
      Outcome(if s.state == Raised then s.(state := Acknowledged) else s, Nothing)
    case SetAlarms(_) => Outcome(s, Nothing)
  }

  function EnvStep(env: Env, input: Input): Env {
    match input
    case Feed(value, overload, now, id, _) =>
      if id == 0 then env.(lastReading := now, lastValue := value, lastOverload := overload) else env
    case Connect(on, now) =>
      if on == (env.silenceFrom >= 0) then env
      else env.(silenceFrom := if on then now else -1, lastReading := -1)
    case _ => env
  }

  // ------------------------------------------------------- all the alarms

  function OutcomeAt(m: Manager, input: Input, i: nat): Outcome
    requires m.WellFormed() && i < |m.alarms|
  {
    SlotStep(m.alarms[i], i, m.env, Slot(m.state[i], m.since[i]), input)
  }

  function Sent(i: nat, al: Alarm, e: Emission): (s: seq<Signal>)
    ensures |s| <= 1
  {
    match e
    case Nothing => []
    case Raise(value) => [Rose(i, al, value)]
    case Clear => [Cleared(i, al)]
  }

  /** What an input does to every alarm. */
  function Outcomes(m: Manager, input: Input): (outs: seq<Outcome>)
    requires m.WellFormed()
    ensures |outs| == |m.alarms|
    ensures forall i :: 0 <= i < |outs| ==> outs[i] == OutcomeAt(m, input, i)
  {
    seq(|m.alarms|, i requires 0 <= i < |m.alarms| => OutcomeAt(m, input, i))
  }

  /** The signals of the first n alarms, in the order of the alarms. */
  function SentUpTo(alarms: seq<Alarm>, outs: seq<Outcome>, n: nat): seq<Signal>
    requires n <= |alarms| == |outs|
  {
    if n == 0 then [] else SentUpTo(alarms, outs, n - 1) + Sent(n - 1, alarms[n - 1], outs[n - 1].emission)
  }

  lemma SentStep(alarms: seq<Alarm>, outs: seq<Outcome>, n: nat)
    requires 0 < n <= |alarms| == |outs|
    ensures SentUpTo(alarms, outs, n)
            == SentUpTo(alarms, outs, n - 1) + Sent(n - 1, alarms[n - 1], outs[n - 1].emission)
  {
  }

  function RemoveAll(names: seq<string>, name: string): (r: seq<string>)
    ensures name !in r
    ensures forall x :: x in r <==> x in names && x != name
  {
    if names == [] then []
    else if names[0] == name then RemoveAll(names[1..], name)
    else [names[0]] + RemoveAll(names[1..], name)
  }

  /** The order of the raises after more signals: a raise moves its name to the end. */
  function Reorder(order: seq<string>, sent: seq<Signal>): seq<string> {
    if sent == [] then order
    else
      var o := Reorder(order, sent[..|sent| - 1]);
      match sent[|sent| - 1]
      case Rose(_, al, _) => RemoveAll(o, al.name) + [al.name]
      case Cleared(_, _) => o
  }

  lemma ReorderOne(order: seq<string>, sent: seq<Signal>, more: seq<Signal>)
    requires |more| <= 1
    ensures Reorder(order, sent + more) == Reorder(Reorder(order, sent), more)
  {
    if more == [] {
      assert sent + more == sent;
    } else {
      assert (sent + more)[..|sent + more| - 1] == sent;
      assert more[..0] == [];
    }
  }

  /** The state an edited list gives an alarm: that of the last old alarm of its name when it is
      enabled, else off. */
  function Carried(m: Manager, al: Alarm, n: nat): Slot
    requires m.WellFormed() && n <= |m.alarms|
  {
    if n == 0 then Slot(Off, 0)
    else if m.alarms[n - 1].name == al.name && al.enabled then Slot(m.state[n - 1], m.since[n - 1])
    else Carried(m, al, n - 1)
  }

  function Apply(m: Manager, input: Input): (r: Manager)
    requires m.WellFormed()
    ensures r.WellFormed()
  {
    match input
    case SetAlarms(alarms) =>
      Manager(alarms,
              seq(|alarms|, i requires 0 <= i < |alarms| => Carried(m, alarms[i], |m.alarms|).state),
              seq(|alarms|, i requires 0 <= i < |alarms| => Carried(m, alarms[i], |m.alarms|).since),
              m.env, m.raiseOrder, m.log)
    case _ =>
      var outs := Outcomes(m, input);
      var sent := SentUpTo(m.alarms, outs, |m.alarms|);
      Manager(m.alarms,
              seq(|outs|, i requires 0 <= i < |outs| => outs[i].slot.state),
              seq(|outs|, i requires 0 <= i < |outs| => outs[i].slot.since),
              EnvStep(m.env, input), Reorder(m.raiseOrder, sent), m.log + sent)
  }

  function Run(m: Manager, ins: seq<Input>): (r: Manager)
    requires m.WellFormed()
    ensures r.WellFormed()
  {
    if ins == [] then m else Apply(Run(m, ins[..|ins| - 1]), ins[|ins| - 1])
  }

  /** The alarms as one list, never edited. */
  predicate NoEdit(ins: seq<Input>) { forall x :: x in ins ==> !x.SetAlarms? }

  lemma ApplyAt(m: Manager, x: Input, i: nat)
    requires m.WellFormed() && !x.SetAlarms? && i < |m.alarms|
    ensures var o := SlotStep(m.alarms[i], i, m.env, Slot(m.state[i], m.since[i]), x).slot;
            Apply(m, x).state[i] == o.state && Apply(m, x).since[i] == o.since
  {
  }

  lemma RunOne(m: Manager, ins: seq<Input>, x: Input)
    requires m.WellFormed()
    ensures Run(m, ins + [x]) == Apply(Run(m, ins), x)
  {
    assert (ins + [x])[..|ins + [x]| - 1] == ins;
  }

  lemma RunTwo(m: Manager, x: Input, y: Input)
    requires m.WellFormed()
    ensures Run(m, [x, y]) == Apply(Apply(m, x), y)
  {
    hide Apply;
    RunOne(m, [], x);
    RunOne(m, [x], y);
    assert [] + [x] == [x] && [x] + [y] == [x, y];
  }

  // --------------------------------------------------------- the display

  predicate Tints(m: Manager, i: nat)
    requires m.WellFormed() && i < |m.alarms|
  {
    m.alarms[i].tintDisplay && Active(m.state[i])
  }

  /** The first alarm of a name that tints the display. */
  function FirstTinting(m: Manager, name: string, from: nat): (r: nat)
    requires m.WellFormed() && from <= |m.alarms|
    ensures from <= r <= |m.alarms|
    ensures r < |m.alarms| ==> m.alarms[r].name == name && Tints(m, r)
    ensures forall i :: from <= i < r ==> !(m.alarms[i].name == name && Tints(m, i))
    decreases |m.alarms| - from
  {
    if from == |m.alarms| || (m.alarms[from].name == name && Tints(m, from)) then from
    else FirstTinting(m, name, from + 1)
  }

  /** The colour of the newest name of the first n of the raise order that tints. */
  function ColorUpTo(m: Manager, n: nat): Option<Color>
    requires m.WellFormed() && n <= |m.raiseOrder|
  {
    if n == 0 then None
    else
      var i := FirstTinting(m, m.raiseOrder[n - 1], 0);
      if i < |m.alarms| then Some(m.alarms[i].color) else ColorUpTo(m, n - 1)
  }

  function ShownColor(m: Manager): Option<Color>
    requires m.WellFormed()
  {
    ColorUpTo(m, |m.raiseOrder|)
  }

  /** Partway through an input: the first n alarms of `m` have taken their outcomes. */
  ghost predicate Partway(m: Manager, outs: seq<Outcome>, n: nat, p: Manager)
    requires m.WellFormed() && n <= |m.alarms| == |outs|
  {
    && p.alarms == m.alarms && p.WellFormed()
    && (forall k :: 0 <= k < n ==> p.state[k] == outs[k].slot.state && p.since[k] == outs[k].slot.since)
    && (forall k :: n <= k < |m.alarms| ==> p.state[k] == m.state[k] && p.since[k] == m.since[k])
    && p.log == m.log + SentUpTo(m.alarms, outs, n)
    && p.raiseOrder == Reorder(m.raiseOrder, SentUpTo(m.alarms, outs, n))
  }

  /** `after` is `before` with the outcome of the alarm at index i written into it. */
  ghost predicate Took(before: Manager, i: nat, o: Outcome, after: Manager)
    requires before.WellFormed() && i < |before.alarms|
  {
    var sent := Sent(i, before.alarms[i], o.emission);
    && after.alarms == before.alarms
    && after.state == before.state[i := o.slot.state]
    && after.since == before.since[i := o.slot.since]
    && after.log == before.log + sent
    && after.raiseOrder == Reorder(before.raiseOrder, sent)
  }

  lemma Advance(m: Manager, outs: seq<Outcome>, i: nat, before: Manager, after: Manager)
    requires m.WellFormed() && i < |m.alarms| == |outs|
    requires Partway(m, outs, i, before) && Took(before, i, outs[i], after)
    ensures Partway(m, outs, i + 1, after)
  {
    var sent, one := SentUpTo(m.alarms, outs, i), Sent(i, m.alarms[i], outs[i].emission);
    ReorderOne(m.raiseOrder, sent, one);
    assert m.log + sent + one == m.log + (sent + one);
  }

  lemma NothingSent(alarms: seq<Alarm>, outs: seq<Outcome>, n: nat)
    requires n <= |alarms| == |outs|
    requires forall i :: 0 <= i < n ==> outs[i].emission == Nothing
    ensures SentUpTo(alarms, outs, n) == []
  {
  }

  lemma Finish(m: Manager, input: Input, p: Manager)
    requires m.WellFormed() && !input.SetAlarms?
    requires Partway(m, Outcomes(m, input), |m.alarms|, p) && p.env == EnvStep(m.env, input)
    ensures p == Apply(m, input)
  {
  }

  lemma Connected(m: Manager, on: bool, now: int)
    requires m.WellFormed() && (on || m.env.silenceFrom < 0)
    ensures Apply(m, Connect(on, now)) == m.(env := EnvStep(m.env, Connect(on, now)))
  {
    NothingSent(m.alarms, Outcomes(m, Connect(on, now)), |m.alarms|);
  }

  lemma AllAcknowledged(m: Manager, state: seq<State>)
    requires m.WellFormed() && |state| == |m.state|
    requires forall k :: 0 <= k < |state| ==>
               state[k] == if m.state[k] == Raised then State.Acknowledged else m.state[k]
    ensures m.(state := state) == Apply(m, Input.AcknowledgeAll)
  {
    NothingSent(m.alarms, Outcomes(m, Input.AcknowledgeAll), |m.alarms|);
  }

  // ----------------------------------------------------------- the program

  class AlarmManager {
    var alarms: seq<Alarm>
    var state: seq<State>
    var since: seq<int>
    var lastReading: int
    var silenceFrom: int
    var lastValue: real
    var lastOverload: bool
    var raiseOrder: seq<string>
    ghost var log: seq<Signal>

    ghost function Model(): (m: Manager)
      reads this
    {
      Manager(alarms, state, since, Env(lastReading, silenceFrom, lastValue, lastOverload), raiseOrder, log)
    }

    constructor ()
      ensures Model() == FRESH
    {
      alarms, state, since := [], [], [];
      lastReading, silenceFrom, lastValue, lastOverload := -1, -1, 0.0, false;
      raiseOrder, log := [], [];
    }

    method AnyRaised() returns (any: bool)
      ensures any <==> Raised in state
    {
      for i := 0 to |state|
        invariant Raised !in state[..i]
      {
        if state[i] == Raised {
          return true;
        }
      }
      assert state[..|state|] == state;
      return false;
    }

    method DisplayColor() returns (c: Option<Color>)
      requires Model().WellFormed()
      ensures c == ShownColor(Model())
    {
      var k := |raiseOrder|;
      while k > 0
        invariant 0 <= k <= |raiseOrder|
        invariant ColorUpTo(Model(), k) == ShownColor(Model())
      {
        k := k - 1;
        for i := 0 to |alarms|
          invariant FirstTinting(Model(), raiseOrder[k], i) == FirstTinting(Model(), raiseOrder[k], 0)
        {
          if alarms[i].name == raiseOrder[k] && alarms[i].tintDisplay
             && (state[i] == Raised || state[i] == Acknowledged)
          {
            return Some(alarms[i].color);
          }
        }
      }
      return None;
    }

    /** The manager's own handler of the raised signal runs first: it notes the name. */
    method EmitRaised(i: nat, value: real)
      requires i < |alarms|
      modifies `raiseOrder, `log
      ensures log == old(log) + Sent(i, alarms[i], Raise(value))
      ensures raiseOrder == Reorder(old(raiseOrder), Sent(i, alarms[i], Raise(value)))
    {
      raiseOrder := RemoveAll(raiseOrder, alarms[i].name) + [alarms[i].name];
      log := log + [Rose(i, alarms[i], value)];
    }

    method EmitCleared(i: nat)
      requires i < |alarms|
      modifies `log
      ensures log == old(log) + Sent(i, alarms[i], Clear)
    {
      log := log + [Cleared(i, alarms[i])];
    }

    method Evaluate(i: nat, matches: bool, releasedNow: bool, value: real, nowMs: int)
      requires Model().WellFormed() && i < |alarms|
      modifies `state, `since, `raiseOrder, `log
      ensures var o := Judge(alarms[i], old(Slot(state[i], since[i])), matches, releasedNow, value, nowMs);
              Took(old(Model()), i, o, Model())
    {
      var al := alarms[i];
      if !al.enabled {
        if state[i] != Off {
          state := state[i := Off];
          EmitCleared(i);
        }
        return;
      }
      match state[i]
      case Off =>
        if matches {
          since := since[i := nowMs];
          state := state[i := Pending];
          if al.seconds <= 0.0 {
            state := state[i := Raised];
            EmitRaised(i, value);
          }
        }
      case Pending =>
        if !matches {
          state := state[i := Off];
        } else if nowMs - since[i] >= Millis(al.seconds) {
          state := state[i := Raised];
          EmitRaised(i, value);
        }
      case _ =>
        if releasedNow {
          state := state[i := Off];
          EmitCleared(i);
        }
    }

    method Feed(value: real, overload: bool, nowMs: int, id: int, source: string)
      requires Model().WellFormed()
      modifies this
      ensures Model() == Apply(old(Model()), Input.Feed(value, overload, nowMs, id, source))
    {
      ghost var m, input := Model(), Input.Feed(value, overload, nowMs, id, source);
      ghost var outs := Outcomes(m, input);
      if id == 0 {
        lastReading, lastValue, lastOverload := nowMs, value, overload;
      }
      for i := 0 to |alarms|
        invariant Partway(m, outs, i, Model())
        invariant Model().env == EnvStep(m.env, input)
      {
        ghost var before := Model();
        assert outs[i] == ReadingStep(alarms[i], Slot(state[i], since[i]), value, overload, nowMs, id, source);
        FeedOne(i, value, overload, nowMs, id, source);
        Advance(m, outs, i, before, Model());
      }
      Finish(m, input, Model());
    }

    /** The part of a reading for one alarm. */
    method FeedOne(i: nat, value: real, overload: bool, nowMs: int, id: int, source: string)
      requires Model().WellFormed() && i < |alarms|
      modifies `state, `since, `raiseOrder, `log
      ensures var o := ReadingStep(alarms[i], old(Slot(state[i], since[i])), value, overload, nowMs, id, source);
              Took(old(Model()), i, o, Model())
    {
      var al := alarms[i];
      if al.condition == NoReadings {
        if id != 0 {
          return;
        }
        if state[i] != Off {
          state := state[i := Off];
          EmitCleared(i);
        }
        since := since[i := nowMs];
        return;
      }
      if !al.value.Matches(id, source) {
        return;
      }
      Evaluate(i, Matches(al, value, overload), Released(al, value, overload), value, nowMs);
    }

    method SetConnected(on: bool, nowMs: int)
      requires Model().WellFormed()
      modifies this
      ensures Model() == Apply(old(Model()), Connect(on, nowMs))
    {
      hide Apply;
      ghost var m, input := Model(), Connect(on, nowMs);
      ghost var outs := Outcomes(m, input);
      if on == (silenceFrom >= 0) {
        Connected(m, on, nowMs);
        return;
      }
      silenceFrom := if on then nowMs else -1;
      lastReading := -1;
      if on {
        Connected(m, on, nowMs);
        return;
      }
      for i := 0 to |alarms|
        invariant Partway(m, outs, i, Model())
        invariant Model().env == EnvStep(m.env, input)
      {
        ghost var before := Model();
        DisconnectOne(i, m.env, nowMs);
        Advance(m, outs, i, before, Model());
      }
      Finish(m, input, Model());
    }

    /** The part of a disconnection for one alarm. */
    method DisconnectOne(i: nat, ghost env: Env, ghost nowMs: int)
      requires Model().WellFormed() && i < |alarms| && env.silenceFrom >= 0
      modifies `state, `raiseOrder, `log
      ensures var o := SlotStep(alarms[i], i, env, old(Slot(state[i], since[i])), Connect(false, nowMs));
              Took(old(Model()), i, o, Model())
    {
      assert since == since[i := since[i]];
      if alarms[i].condition == NoReadings && state[i] != Off {
        var wasRaised := state[i] != Pending;
        state := state[i := Off];
        if wasRaised {
          EmitCleared(i);
        }
      }
    }

    method Tick(nowMs: int)
      requires Model().WellFormed()
      modifies this
      ensures Model() == Apply(old(Model()), Input.Tick(nowMs))
    {
      ghost var m, input := Model(), Input.Tick(nowMs);
      ghost var outs := Outcomes(m, input);
      for i := 0 to |alarms|
        invariant Partway(m, outs, i, Model())
        invariant Model().env == m.env
      {
        ghost var before := Model();
        TickOne(i, nowMs);
        Advance(m, outs, i, before, Model());
      }
      Finish(m, input, Model());
    }

    /** The part of a tick for one alarm. */
    method TickOne(i: nat, nowMs: int)
      requires Model().WellFormed() && i < |alarms|
      modifies `state, `raiseOrder, `log
      ensures Took(old(Model()), i, old(OutcomeAt(Model(), Input.Tick(nowMs), i)), Model())
    {
      var al := alarms[i];
      if al.condition != NoReadings || !al.enabled {
        return;
      }
      var from := if lastReading >= 0 then lastReading else silenceFrom;
      if from < 0 {
        return;
      }
      var silent := nowMs - from >= Millis(al.seconds);
      if silent && state[i] == Off {
        state := state[i := Raised];
        EmitRaised(i, lastValue);
      }
    }

    method Acknowledge(index: int)
      requires Model().WellFormed()
      modifies `state
      ensures Model() == Apply(old(Model()), Input.Acknowledge(index))
      ensures state == if 0 <= index < |old(state)| && old(state[index]) == Raised
                       then old(state)[index := State.Acknowledged] else old(state)
    {
      ghost var m, input := Model(), Input.Acknowledge(index);
      if 0 <= index < |state| && state[index] == Raised {
        state := state[index := State.Acknowledged];
      }
      NothingSent(m.alarms, Outcomes(m, input), |m.alarms|);
    }

    method AcknowledgeAll()
      requires Model().WellFormed()
      modifies `state
      ensures Model() == Apply(old(Model()), Input.AcknowledgeAll)
    {
      hide Apply;
      ghost var m := Model();
      for i := 0 to |state|
        invariant Model() == m.(state := state) && |state| == |m.state|
        invariant forall k :: 0 <= k < i ==> state[k] == if m.state[k] == Raised then State.Acknowledged else m.state[k]
        invariant forall k :: i <= k < |state| ==> state[k] == m.state[k]
      {
        Acknowledge(i);
      }
      AllAcknowledged(m, state);
    }

    method SetAlarms(list: seq<Alarm>)
      requires Model().WellFormed()
      modifies this
      ensures Model() == Apply(old(Model()), Input.SetAlarms(list))
    {
      ghost var m := Model();
      var st: seq<State>, times: seq<int> := [], [];
      for j := 0 to |list|
        invariant |st| == |times| == j
        invariant forall k :: 0 <= k < j ==> Slot(st[k], times[k]) == Carried(m, list[k], |alarms|)
      {
        var s, t := Off, 0;
        for i := 0 to |alarms|
          invariant Slot(s, t) == Carried(m, list[j], i)
        {
          if alarms[i].name == list[j].name && list[j].enabled {
            s, t := state[i], since[i];
          }
        }
        st, times := st + [s], times + [t];
      }
      alarms, state, since := list, st, times;
    }
  }
}
