/** The colour of the display over whole runs: that of the alarm raised last. */
module AlarmDisplay {
  import opened AlarmCondition
  import opened AlarmManagement
  import opened AlarmSignals
  import opened Results

  /** When a name was raised last: an index into the log, -1 for never. */
  function LastRise(log: seq<Signal>, name: string): (k: int)
    ensures -1 <= k < |log|
    ensures k >= 0 ==> log[k].Rose? && log[k].alarm.name == name
    ensures forall j :: k < j < |log| ==> !(log[j].Rose? && log[j].alarm.name == name)
  {
    if log == [] then -1
    else
      var n := |log| - 1;
      if log[n].Rose? && log[n].alarm.name == name then n else LastRise(log[..n], name)
  }

  lemma LastRiseOfMore(log: seq<Signal>, s: Signal, name: string)
    ensures LastRise(log + [s], name) == if s.Rose? && s.alarm.name == name then |log| else LastRise(log, name)
  {
    assert (log + [s])[..|log|] == log;
  }

  lemma {:induction false} LastRiseStays(log: seq<Signal>, more: seq<Signal>, name: string)
    ensures LastRise(log, name) <= LastRise(log + more, name)
  {
    if more == [] {
      assert log + more == log;
    } else {
      var n := |more| - 1;
      LastRiseStays(log, more[..n], name);
      assert log + more == (log + more[..n]) + [more[n]];
      LastRiseOfMore(log + more[..n], more[n], name);
    }
  }

  // ------------------------------------------------------- the raise order

  /** The names from the one raised longest ago to the newest. */
  ghost predicate Rising(order: seq<string>, log: seq<Signal>) {
    forall p, q :: 0 <= p < q < |order| ==> LastRise(log, order[p]) < LastRise(log, order[q])
  }

  /** The list holds the names raised so far, each once, by their latest raise. */
  ghost predicate OrdersRaises(order: seq<string>, log: seq<Signal>) {
    Rising(order, log) && forall x :: x in order <==> LastRise(log, x) >= 0
  }

  lemma {:induction false} RemovalKeepsRising(order: seq<string>, name: string, log: seq<Signal>)
    requires Rising(order, log)
    ensures Rising(RemoveAll(order, name), log)
  {
    if order == [] {
    } else {
      hide LastRise;
      var rest := order[1..];
      RisingCons(order[0], rest, log);
      assert order == [order[0]] + rest;
      RemovalKeepsRising(rest, name, log);
      RisingCons(order[0], RemoveAll(rest, name), log);
    }
  }

  lemma RisingCons(name: string, rest: seq<string>, log: seq<Signal>)
    ensures Rising([name] + rest, log) <==>
            Rising(rest, log) && forall x :: x in rest ==> LastRise(log, name) < LastRise(log, x)
  {
    hide LastRise;
    var all := [name] + rest;
    if Rising(all, log) {
      RisingTail(all, log);
      assert all[1..] == rest;
    }
    if Rising(rest, log) && forall x :: x in rest ==> LastRise(log, name) < LastRise(log, x) {
      forall p, q | 0 <= p < q < |all|
        ensures LastRise(log, all[p]) < LastRise(log, all[q])
      {
        assert all[q] == rest[q - 1] && rest[q - 1] in rest;
        if p > 0 {
          assert all[p] == rest[p - 1];
        }
      }
    }
  }

  lemma RisingTail(all: seq<string>, log: seq<Signal>)
    requires all != [] && Rising(all, log)
    ensures Rising(all[1..], log) && forall x :: x in all[1..] ==> LastRise(log, all[0]) < LastRise(log, x)
  {
    hide LastRise;
    forall p, q | 0 <= p < q < |all| - 1
      ensures LastRise(log, all[1..][p]) < LastRise(log, all[1..][q])
    {
      assert LastRise(log, all[p + 1]) < LastRise(log, all[q + 1]);
    }
    forall x | x in all[1..]
      ensures LastRise(log, all[0]) < LastRise(log, x)
    {
      var k :| 0 < k < |all| && all[k] == x;
    }
  }

  lemma RaiseReorders(order: seq<string>, log: seq<Signal>, s: Signal)
    requires OrdersRaises(order, log)
    ensures OrdersRaises(Reorder(order, [s]), log + [s])
  {
    assert [s][..0] == [];
    assert Reorder(order, []) == order;
    forall x
      ensures LastRise(log + [s], x) == if s.Rose? && s.alarm.name == x then |log| else LastRise(log, x)
    {
      LastRiseOfMore(log, s, x);
    }
    if s.Rose? {
      MovedToEnd(order, log, log + [s], s.alarm.name);
    }
  }

  lemma MovedToEnd(order: seq<string>, log: seq<Signal>, more: seq<Signal>, name: string)
    requires OrdersRaises(order, log)
    requires forall x :: LastRise(more, x) == if x == name then |log| else LastRise(log, x)
    ensures OrdersRaises(RemoveAll(order, name) + [name], more)
  {
    RemovalKeepsRising(order, name, log);
    var kept := RemoveAll(order, name);
    var moved := kept + [name];
    forall p, q | 0 <= p < q < |moved|
      ensures LastRise(more, moved[p]) < LastRise(more, moved[q])
    {
      assert moved[p] == kept[p] && kept[p] in kept;
      if q < |kept| {
        assert moved[q] == kept[q] && kept[q] in kept;
      }
    }
    forall x
      ensures x in moved <==> LastRise(more, x) >= 0
    {
      assert x in moved <==> x in kept || x == name;
    }
  }

  lemma {:induction false} SignalsReorder(order: seq<string>, log: seq<Signal>, sent: seq<Signal>)
    requires OrdersRaises(order, log)
    ensures OrdersRaises(Reorder(order, sent), log + sent)
  {
    if sent == [] {
      assert log + sent == log;
    } else {
      var n := |sent| - 1;
      SignalsReorder(order, log, sent[..n]);
      RaiseReorders(Reorder(order, sent[..n]), log + sent[..n], sent[n]);
      assert sent == sent[..n] + [sent[n]];
      ReorderOne(order, sent[..n], [sent[n]]);
      assert log + sent == log + sent[..n] + [sent[n]];
    }
  }

  // ------------------------------------------------- every reachable state

  /** Every alarm that is raised, acknowledged or not, has a raise of its name in the log. */
  ghost predicate RaisesLogged(m: Manager)
    requires m.WellFormed()
  {
    forall i :: 0 <= i < |m.alarms| && Active(m.state[i]) ==> LastRise(m.log, m.alarms[i].name) >= 0
  }

  lemma {:induction false} RaiseIsSent(alarms: seq<Alarm>, outs: seq<Outcome>, n: nat, i: nat)
    requires i < n <= |alarms| == |outs| && outs[i].emission.Raise?
    ensures LastRise(SentUpTo(alarms, outs, n), alarms[i].name) >= 0
  {
    hide LastRise;
    var before, one := SentUpTo(alarms, outs, n - 1), Sent(n - 1, alarms[n - 1], outs[n - 1].emission);
    if i == n - 1 {
      var rose := Rose(i, alarms[i], outs[i].emission.value);
      LastRiseOfMore(before, rose, alarms[i].name);
      assert one == [rose];
    } else {
      RaiseIsSent(alarms, outs, n - 1, i);
      LastRiseStays(before, one, alarms[i].name);
    }
  }

  lemma {:induction false} LastRiseOfConcat(log: seq<Signal>, more: seq<Signal>, name: string)
    ensures LastRise(more, name) >= 0 ==> LastRise(log + more, name) >= 0
  {
    var k := LastRise(more, name);
    if k < 0 {
    } else {
      assert (log + more)[|log| + k] == more[k];
    }
  }

  lemma CarriedName(m: Manager, al: Alarm, n: nat)
    requires m.WellFormed() && n <= |m.alarms|
    ensures Carried(m, al, n).state != Off ==>
              exists i :: 0 <= i < n && m.alarms[i].name == al.name && m.state[i] == Carried(m, al, n).state
  {
    if n == 0 || (m.alarms[n - 1].name == al.name && al.enabled) {
    } else {
      CarriedName(m, al, n - 1);
    }
  }

  lemma RaisesLoggedStep(m: Manager, x: Input, i: nat)
    requires m.WellFormed() && RaisesLogged(m) && i < |Apply(m, x).alarms| && Active(Apply(m, x).state[i])
    ensures LastRise(Apply(m, x).log, Apply(m, x).alarms[i].name) >= 0
  {
    if x.SetAlarms? {
      CarriedName(m, x.alarms[i], |m.alarms|);
    } else {
      var outs, name := Outcomes(m, x), m.alarms[i].name;
      ApplyLog(m, x);
      if Active(m.state[i]) {
        LastRiseStays(m.log, Emitted(m, x), name);
      } else {
        ActivationRaises(m.alarms[i], i, m.env, Slot(m.state[i], m.since[i]), x);
        RaiseIsSent(m.alarms, outs, |m.alarms|, i);
        LastRiseOfConcat(m.log, Emitted(m, x), name);
      }
    }
  }

  lemma ActivationRaises(al: Alarm, i: nat, env: Env, s: Slot, x: Input)
    requires !Active(s.state) && Active(SlotStep(al, i, env, s, x).slot.state)
    ensures SlotStep(al, i, env, s, x).emission.Raise?
  {
  }

  lemma OrderStep(m: Manager, x: Input)
    requires m.WellFormed() && OrdersRaises(m.raiseOrder, m.log)
    ensures OrdersRaises(Apply(m, x).raiseOrder, Apply(m, x).log)
  {
    if !x.SetAlarms? {
      SignalsReorder(m.raiseOrder, m.log, SentUpTo(m.alarms, Outcomes(m, x), |m.alarms|));
    }
  }

  /** In every run, edits included, the raise order is the log's and knows every raised alarm. */
  lemma {:induction false} RaiseOrderFollowsLog(ins: seq<Input>)
    ensures var m := Run(FRESH, ins); OrdersRaises(m.raiseOrder, m.log) && RaisesLogged(m)
  {
    if ins == [] {
    } else {
      var before, x := ins[..|ins| - 1], ins[|ins| - 1];
      RaiseOrderFollowsLog(before);
      var p := Run(FRESH, before);
      OrderStep(p, x);
      forall i: nat | i < |Apply(p, x).alarms| && Active(Apply(p, x).state[i])
        ensures LastRise(Apply(p, x).log, Apply(p, x).alarms[i].name) >= 0
      {
        RaisesLoggedStep(p, x, i);
      }
    }
  }

  // ------------------------------------------------------------ the colour

  /** The search from the newest name down: nothing tints among the names passed. */
  lemma {:induction false} ColorSearch(m: Manager, n: nat)
    requires m.WellFormed() && n <= |m.raiseOrder|
    ensures ColorUpTo(m, n).None? ==>
              forall p, i :: 0 <= p < n && 0 <= i < |m.alarms| && m.alarms[i].name == m.raiseOrder[p] ==> !Tints(m, i)
    ensures ColorUpTo(m, n).Some? ==>
              exists p :: 0 <= p < n && ColorAt(m, n, p)
  {
    if n == 0 {
    } else {
      ColorSearch(m, n - 1);
      if FirstTinting(m, m.raiseOrder[n - 1], 0) < |m.alarms| {
        assert ColorAt(m, n, n - 1);
      } else if ColorUpTo(m, n).Some? {
        var p :| 0 <= p < n - 1 && ColorAt(m, n - 1, p);
        assert ColorAt(m, n, p);
      }
    }
  }

  /** The search over the first n names stops at position p. */
  ghost predicate ColorAt(m: Manager, n: nat, p: nat)
    requires m.WellFormed() && p < n <= |m.raiseOrder|
  {
    var i := FirstTinting(m, m.raiseOrder[p], 0);
    && i < |m.alarms| && ColorUpTo(m, n) == Some(m.alarms[i].color)
    && forall q, k :: p < q < n && 0 <= k < |m.alarms| && m.alarms[k].name == m.raiseOrder[q] ==> !Tints(m, k)
  }

  /** The alarm whose colour shows by the names: it tints, no name that tints was raised later,
      and it is the first tinting one of its name. */
  ghost predicate NewestByName(m: Manager, i: nat)
    requires m.WellFormed()
  {
    && i < |m.alarms| && Tints(m, i)
    && (forall j: nat :: j < |m.alarms| && Tints(m, j) ==>
          LastRise(m.log, m.alarms[j].name) <= LastRise(m.log, m.alarms[i].name))
    && forall j: nat :: j < i && m.alarms[j].name == m.alarms[i].name ==> !Tints(m, j)
  }

  /** In every reachable state, edits included, the display has a colour exactly when an alarm
      tints it, and then that of the newest by name. */
  lemma DisplayFollowsLog(ins: seq<Input>)
    ensures var m := Run(FRESH, ins);
            && (ShownColor(m).Some? <==> exists i: nat ::
                  i < |m.alarms| && m.alarms[i].tintDisplay && (m.state[i] == Raised || m.state[i] == Acknowledged))
            && (ShownColor(m).Some? ==> exists i: nat :: NewestByName(m, i) && ShownColor(m) == Some(m.alarms[i].color))
  {
    hide ShownColor;
    var m := Run(FRESH, ins);
    RaiseOrderFollowsLog(ins);
    DisplayFollowsOrder(m);
    forall i: nat | i < |m.alarms|
      ensures Tints(m, i) <==> m.alarms[i].tintDisplay && (m.state[i] == Raised || m.state[i] == Acknowledged)
    {
    }
  }

  lemma {:induction false} FirstTintingStays(m: Manager, r: Manager, name: string, from: nat)
    requires m.WellFormed() && r.WellFormed() && r.alarms == m.alarms && from <= |m.alarms|
    requires forall i: nat :: i < |m.alarms| ==> Tints(r, i) == Tints(m, i)
    ensures FirstTinting(r, name, from) == FirstTinting(m, name, from)
    decreases |m.alarms| - from
  {
    if from == |m.alarms| {
    } else {
      FirstTintingStays(m, r, name, from + 1);
    }
  }

  lemma {:induction false} ColorStays(m: Manager, r: Manager, n: nat)
    requires m.WellFormed() && r.WellFormed() && r.alarms == m.alarms && r.raiseOrder == m.raiseOrder
    requires n <= |m.raiseOrder| && forall i: nat :: i < |m.alarms| ==> Tints(r, i) == Tints(m, i)
    ensures ColorUpTo(r, n) == ColorUpTo(m, n)
  {
    if n == 0 {
    } else {
      FirstTintingStays(m, r, m.raiseOrder[n - 1], 0);
      ColorStays(m, r, n - 1);
    }
  }

  /** Acknowledging changes no colour. */
  lemma AcknowledgeKeepsColor(m: Manager, input: Input)
    requires m.WellFormed() && (input.Acknowledge? || input.AcknowledgeAll?)
    ensures ShownColor(Apply(m, input)) == ShownColor(m)
  {
    hide Apply;
    AcknowledgeIsSilent(m, input);
    ColorStays(m, Apply(m, input), |m.raiseOrder|);
  }

  lemma DisplayFollowsOrder(m: Manager)
    requires m.WellFormed() && OrdersRaises(m.raiseOrder, m.log) && RaisesLogged(m)
    ensures ShownColor(m).Some? <==> exists i: nat :: i < |m.alarms| && Tints(m, i)
    ensures ShownColor(m).Some? ==> exists i: nat :: NewestByName(m, i) && ShownColor(m) == Some(m.alarms[i].color)
  {
    var n := |m.raiseOrder|;
    assert forall i: nat :: i < |m.alarms| && Tints(m, i) ==> m.alarms[i].name in m.raiseOrder;
    ColorSearch(m, n);
    if ShownColor(m).Some? {
      var p :| 0 <= p < n && ColorAt(m, n, p);
      var i := FirstTinting(m, m.raiseOrder[p], 0);
      forall j: nat | j < |m.alarms| && Tints(m, j)
        ensures LastRise(m.log, m.alarms[j].name) <= LastRise(m.log, m.alarms[i].name)
      {
        var name := m.alarms[j].name;
        assert name in m.raiseOrder;
        var q :| 0 <= q < n && m.raiseOrder[q] == name;
        assert q <= p;
      }
      assert NewestByName(m, i);
    }
  }

  // ------------------------------------------------- distinct names, exactly

  /** When the alarm at index i was raised last. */
  function LastRiseAt(log: seq<Signal>, i: nat): int {
    if log == [] then -1
    else
      var n := |log| - 1;
      if log[n].Rose? && log[n].index == i then n else LastRiseAt(log[..n], i)
  }

  /** The alarm raised last of those that tint the display: what the display is to show. */
  ghost predicate Newest(m: Manager, i: nat)
    requires m.WellFormed()
  {
    && i < |m.alarms| && Tints(m, i)
    && forall j: nat :: j < |m.alarms| && Tints(m, j) ==> LastRiseAt(m.log, j) <= LastRiseAt(m.log, i)
  }

  /** The display shows the alarm raised last, and nothing when none tints it. */
  ghost predicate ShowsNewest(m: Manager)
    requires m.WellFormed()
  {
    && ((forall i: nat :: i < |m.alarms| ==> !Tints(m, i)) ==> ShownColor(m) == None)
    && forall i: nat :: Newest(m, i) ==> ShownColor(m) == Some(m.alarms[i].color)
  }

  /** A manager just given its list. */
  function Start(alarms: seq<Alarm>): (m: Manager)
    ensures m.WellFormed() && m.alarms == alarms && m.log == [] && m.raiseOrder == []
    ensures forall i :: 0 <= i < |alarms| ==> m.state[i] == Off
  {
    Apply(FRESH, SetAlarms(alarms))
  }

  /** The log names the alarms of the list. */
  ghost predicate LogOf(log: seq<Signal>, alarms: seq<Alarm>) {
    forall k :: 0 <= k < |log| ==> log[k].index < |alarms| && log[k].alarm == alarms[log[k].index]
  }

  lemma {:induction false} SentIsLogOf(alarms: seq<Alarm>, outs: seq<Outcome>, n: nat)
    requires n <= |alarms| == |outs|
    ensures LogOf(SentUpTo(alarms, outs, n), alarms)
  {
    if n == 0 {
    } else {
      SentIsLogOf(alarms, outs, n - 1);
    }
  }

  lemma {:induction false} RunIsLogOf(alarms: seq<Alarm>, ins: seq<Input>)
    requires NoEdit(ins)
    ensures Run(Start(alarms), ins).alarms == alarms && LogOf(Run(Start(alarms), ins).log, alarms)
  {
    AlarmsStay(Start(alarms), ins);
    if ins == [] {
    } else {
      var before, x := ins[..|ins| - 1], ins[|ins| - 1];
      assert x in ins && forall y :: y in before ==> y in ins;
      RunIsLogOf(alarms, before);
      var p := Run(Start(alarms), before);
      SentIsLogOf(alarms, Outcomes(p, x), |alarms|);
      ApplyLog(p, x);
    }
  }

  lemma {:induction false} DistinctNamesAgree(log: seq<Signal>, alarms: seq<Alarm>, i: nat)
    requires LogOf(log, alarms) && DistinctNames(alarms) && i < |alarms|
    ensures LastRiseAt(log, i) == LastRise(log, alarms[i].name)
  {
    if log == [] {
    } else {
      DistinctNamesAgree(log[..|log| - 1], alarms, i);
    }
  }

  /** Runs of one list behind the fresh manager's. */
  lemma {:induction false} RunFromStart(alarms: seq<Alarm>, ins: seq<Input>)
    ensures Run(FRESH, [SetAlarms(alarms)] + ins) == Run(Start(alarms), ins)
  {
    hide Apply;
    var all := [SetAlarms(alarms)] + ins;
    if ins == [] {
      RunOne(FRESH, [], SetAlarms(alarms));
      assert all == [] + [SetAlarms(alarms)];
    } else {
      RunFromStart(alarms, ins[..|ins| - 1]);
      assert all[..|all| - 1] == [SetAlarms(alarms)] + ins[..|ins| - 1];
    }
  }

  lemma DistinctNamesShow(alarms: seq<Alarm>, ins: seq<Input>)
    requires DistinctNames(alarms) && NoEdit(ins)
    ensures ShowsNewest(Run(Start(alarms), ins))
  {
    hide Run, Start;
    var all := [SetAlarms(alarms)] + ins;
    RunIsLogOf(alarms, ins);
    RunFromStart(alarms, ins);
    RaiseOrderFollowsLog(all);
    NewestAgrees(Run(FRESH, all));
  }

  lemma NewestAgrees(m: Manager)
    requires m.WellFormed() && DistinctNames(m.alarms) && LogOf(m.log, m.alarms)
    requires OrdersRaises(m.raiseOrder, m.log) && RaisesLogged(m)
    ensures ShowsNewest(m)
  {
    hide LastRise, LastRiseAt, ShownColor;
    DisplayFollowsOrder(m);
    forall i: nat | Newest(m, i)
      ensures ShownColor(m) == Some(m.alarms[i].color)
    {
      var k: nat :| NewestByName(m, k) && ShownColor(m) == Some(m.alarms[k].color);
      DistinctNamesAgree(m.log, m.alarms, i);
      DistinctNamesAgree(m.log, m.alarms, k);
      assert LastRise(m.log, m.alarms[i].name) == LastRise(m.log, m.alarms[k].name) >= 0;
      assert m.alarms[i].name == m.alarms[k].name;
    }
  }

  ghost predicate Named(alarms: seq<Alarm>, names: seq<string>) {
    |alarms| == |names| && forall i :: 0 <= i < |names| ==> alarms[i].name == names[i]
  }

  ghost predicate AllDistinct(names: seq<string>) {
    forall i, j :: 0 <= i < j < |names| ==> names[i] != names[j]
  }

  /** The display shows the alarm raised last, whatever the alarms of these names and whatever the
      run, exactly when the names are distinct. */
  lemma DistinctNamesExactly(names: seq<string>)
    ensures (forall alarms, ins :: Named(alarms, names) && NoEdit(ins) ==> ShowsNewest(Run(Start(alarms), ins)))
            <==> AllDistinct(names)
  {
    if AllDistinct(names) {
      forall alarms, ins | Named(alarms, names) && NoEdit(ins)
        ensures ShowsNewest(Run(Start(alarms), ins))
      {
        DistinctNamesShow(alarms, ins);
      }
    } else {
      var i: nat, j: nat :| i < j < |names| && names[i] == names[j];
      TwinsConfuse(names, i, j);
    }
  }

  // ------------------------------------------------ two alarms of one name

  /** Alarms of the given names, the ones at i and j alike but for the colour, the rest disabled. */
  function Twins(names: seq<string>, i: nat, j: nat): (alarms: seq<Alarm>)
    ensures Named(alarms, names)
  {
    seq(|names|, k requires 0 <= k < |names| =>
      Alarm(names[k], k == i || k == j, ValueRef("", 0), Below, 5.0, 0.0, 0.0, 0.0, k, true))
  }

  const LOW := Feed(4.0, false, 0, 0, "")

  lemma {:induction false} TwoSent(alarms: seq<Alarm>, outs: seq<Outcome>, i: nat, j: nat, n: nat)
    requires n <= |alarms| == |outs| && i < j < |alarms|
    requires forall k :: 0 <= k < |outs| ==> outs[k].emission == if k == i || k == j then Raise(4.0) else Nothing
    ensures var ri, rj := Rose(i, alarms[i], 4.0), Rose(j, alarms[j], 4.0);
            SentUpTo(alarms, outs, n) == FirstOf(ri, rj, i, j, n)
  {
    if n == 0 {
    } else {
      hide SentUpTo, FirstOf;
      TwoSent(alarms, outs, i, j, n - 1);
      SentStep(alarms, outs, n);
      OneSentMore(Rose(i, alarms[i], 4.0), Rose(j, alarms[j], 4.0), i, j, n);
    }
  }

  function FirstOf(a: Signal, b: Signal, i: nat, j: nat, n: nat): seq<Signal> {
    if n <= i then [] else if n <= j then [a] else [a, b]
  }

  lemma OneSentMore(a: Signal, b: Signal, i: nat, j: nat, n: nat)
    requires 0 < n && i < j
    ensures FirstOf(a, b, i, j, n - 1) + (if n - 1 == i then [a] else if n - 1 == j then [b] else [])
            == FirstOf(a, b, i, j, n)
  {
  }

  lemma TwinOutcome(names: seq<string>, i: nat, j: nat, k: nat)
    requires i < j < |names| && k < |names|
    ensures Outcomes(Start(Twins(names, i, j)), LOW)[k].emission == if k == i || k == j then Raise(4.0) else Nothing
  {
  }

  lemma TwinsRaise(names: seq<string>, i: nat, j: nat)
    requires i < j < |names|
    ensures var alarms := Twins(names, i, j);
            SentUpTo(alarms, Outcomes(Start(alarms), LOW), |names|)
            == [Rose(i, alarms[i], 4.0), Rose(j, alarms[j], 4.0)]
  {
    hide Start, Outcomes, OutcomeAt, SentUpTo;
    var alarms := Twins(names, i, j);
    forall k | 0 <= k < |names|
      ensures Outcomes(Start(alarms), LOW)[k].emission == if k == i || k == j then Raise(4.0) else Nothing
    {
      TwinOutcome(names, i, j, k);
    }
    TwoSent(alarms, Outcomes(Start(alarms), LOW), i, j, |names|);
  }

  lemma TwinsConfuse(names: seq<string>, i: nat, j: nat)
    requires i < j < |names| && names[i] == names[j]
    ensures exists alarms, ins :: Named(alarms, names) && NoEdit(ins) && !ShowsNewest(Run(Start(alarms), ins))
  {
    hide ShowsNewest, Apply, Start;
    var alarms := Twins(names, i, j);
    RunOne(Start(alarms), [], LOW);
    assert [] + [LOW] == [LOW];
    TwinsState(names, i, j);
    TwinsShow(alarms, Apply(Start(alarms), LOW), i, j);
    assert NoEdit([LOW]) && !ShowsNewest(Run(Start(alarms), [LOW]));
  }

  /** Both alarms raised by one reading, the one at j last. */
  lemma TwinsState(names: seq<string>, i: nat, j: nat)
    requires i < j < |names| && names[i] == names[j]
    ensures var alarms := Twins(names, i, j);
            var m, ri, rj := Apply(Start(alarms), LOW), Rose(i, alarms[i], 4.0), Rose(j, alarms[j], 4.0);
            && m.alarms == alarms && m.log == [ri, rj] && m.raiseOrder == Reorder([], [ri, rj])
            && forall k :: 0 <= k < |names| ==> m.state[k] == if k == i || k == j then Raised else Off
  {
    hide Reorder;
    TwinsRaise(names, i, j);
  }

  lemma TwinsShow(alarms: seq<Alarm>, m: Manager, i: nat, j: nat)
    requires m.WellFormed() && m.alarms == alarms && i < j < |alarms|
    requires alarms[i].name == alarms[j].name && alarms[i].color != alarms[j].color
    requires alarms[i].tintDisplay && alarms[j].tintDisplay
    requires var ri, rj := Rose(i, alarms[i], 4.0), Rose(j, alarms[j], 4.0);
             m.log == [ri, rj] && m.raiseOrder == Reorder([], [ri, rj])
    requires forall k :: 0 <= k < |alarms| ==> m.state[k] == if k == i || k == j then Raised else Off
    ensures !ShowsNewest(m)
  {
    var ri, rj := Rose(i, alarms[i], 4.0), Rose(j, alarms[j], 4.0);
    TwinOrder(alarms[i], i, j, alarms[j]);
    assert LastRiseAt([ri], i) == 0 && LastRiseAt([ri, rj], i) == 0 && LastRiseAt([ri, rj], j) == 1;
    assert Newest(m, j);
    assert FirstTinting(m, alarms[i].name, 0) == i;
    assert ColorUpTo(m, 1) == Some(alarms[i].color);
  }

  lemma TwinOrder(a: Alarm, i: nat, j: nat, b: Alarm)
    requires a.name == b.name && i != j
    ensures var ri, rj := Rose(i, a, 4.0), Rose(j, b, 4.0);
            && Reorder([], [ri, rj]) == [a.name]
            && [ri, rj][..1] == [ri] && [ri][..0] == []
  {
    var ri, rj := Rose(i, a, 4.0), Rose(j, b, 4.0);
    assert [ri, rj][..1] == [ri] && [ri][..0] == [];
    assert Reorder([], []) == [];
    assert RemoveAll([], a.name) == [];
    assert Reorder([], [ri]) == [a.name];
    assert [a.name][1..] == [];
    assert RemoveAll([a.name], a.name) == [];
  }
}
