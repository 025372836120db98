/** The client's tools that read lists and blocks, against what the server prints. */
module ScpiTools {
  import opened Results
  import opened Text
  import opened SplitLists
  import opened ScpiStream
  import opened ScpiBlocks
  import opened AlarmManagement
  import opened ScpiMessages

  /** What a wrong number of items, or an item that is no number, raises. */
  datatype BadAnswer = BadAnswer

  // ----------------------------------------------------- lists of the server

  lemma {:induction false} JoinPrints(items: seq<Item>)
    ensures Join(Prints(items), ",") == Print(items)
    decreases |items|
  {
    if |items| <= 1 {
    } else {
      assert Prints(items)[1..] == Prints(items[1..]);
      JoinPrints(items[1..]);
    }
  }

  function Prints(items: seq<Item>): seq<string> {
    seq(|items|, i requires 0 <= i < |items| => items[i].Print())
  }

  function InQuotes(s: string): Item { Quoted("", s, "") }

  lemma InQuotesIs(s: string)
    ensures InQuotes(s).Print() == Quote(s) && InQuotes(s).Text() == s && InQuotes(s).Valid()
  {
    assert "" + Quote(s) + "" == Quote(s) && "" + s == s;
  }

  // ------------------------------------------------------------- channels

  datatype Channel = Channel(number: nat, measures: Entry, unit: Entry)

  function Triples(items: seq<Entry>): Result<seq<Channel>, BadAnswer> {
    if |items| < 3 then Ok([])
    else if items[0].None? || !IsNumber(items[0].value) then Err(BadAnswer)
    else
      var rest := Triples(items[3..]);
      if rest.Err? then rest
      else Ok([Channel(ToNat(items[0].value), items[1], items[2])] + rest.value)
  }

  /** The tool channels, on the answer's text. */
  function Channels(text: string): Result<seq<Channel>, BadAnswer> {
    var items := Split(text);
    if items.Err? then Err(BadAnswer) else Triples(items.value)
  }

  /** The server's catalogue of the values from number c on: number, what it measures, unit. */
  function Catalogue(values: seq<(string, string)>, c: nat): seq<string> {
    if values == [] then []
    else [OfNat(c), Quote(values[0].0), Quote(values[0].1)] + Catalogue(values[1..], c + 1)
  }

  function Numbered(values: seq<(string, string)>, c: nat): seq<Channel> {
    if values == [] then []
    else [Channel(c, Some(values[0].0), Some(values[0].1))] + Numbered(values[1..], c + 1)
  }

  function CatalogueItems(values: seq<(string, string)>, c: nat): seq<Item> {
    if values == [] then []
    else [Bare(OfNat(c)), InQuotes(values[0].0), InQuotes(values[0].1)] + CatalogueItems(values[1..], c + 1)
  }

  lemma NumberIsBare(n: nat)
    ensures Plain(OfNat(n)) && Strip(OfNat(n)) == OfNat(n)
  {
    var s := OfNat(n);
    assert s[0] in s && s[|s| - 1] in s;
    TightStays(s);
    assert forall c :: c in s ==> IsDigit(c);
  }

  lemma OneAndTwo<T>(x: T, y: T, z: T, rest: seq<T>)
    ensures [x] + ([y, z] + rest) == [x, y, z] + rest
  {
  }

  lemma OneAndOne<T>(x: T, y: T, rest: seq<T>)
    ensures [x] + ([y] + rest) == [x, y] + rest
  {
  }

  lemma OneEntry(item: Item, rest: seq<Item>)
    requires !item.Dropped() || rest != []
    ensures EntriesOf([item] + rest) == [Some(item.Text())] + EntriesOf(rest)
  {
    assert ([item] + rest)[1..] == rest;
  }

  /** Three entries in front of what the rest of a list leaves. */
  lemma ThreeEntries(a: Item, b: Item, c: Item, rest: seq<Item>)
    requires !c.Dropped() || rest != []
    ensures EntriesOf([a, b, c] + rest) == [Some(a.Text()), Some(b.Text()), Some(c.Text())] + EntriesOf(rest)
  {
    hide EntriesOf, Item.Text, Item.Dropped;
    TwoEntries(b, c, rest);
    OneEntry(a, [b, c] + rest);
    OneAndTwo(a, b, c, rest);
    OneAndTwo(Some(a.Text()), Some(b.Text()), Some(c.Text()), EntriesOf(rest));
  }

  lemma {:induction false} CatalogueReads(values: seq<(string, string)>, c: nat)
    ensures ValidList(CatalogueItems(values, c))
    ensures Prints(CatalogueItems(values, c)) == Catalogue(values, c)
    ensures Triples(EntriesOf(CatalogueItems(values, c))) == Ok(Numbered(values, c))
    decreases |values|
  {
    if values == [] {
    } else {
      var a, b, d := Bare(OfNat(c)), InQuotes(values[0].0), InQuotes(values[0].1);
      var rest := CatalogueItems(values[1..], c + 1);
      CatalogueReads(values[1..], c + 1);
      NumberIsBare(c);
      NumberRoundTrip(c);
      InQuotesIs(values[0].0);
      InQuotesIs(values[0].1);
      ThreeEntries(a, b, d, rest);
      PrintsCons(a, b, d, rest);
      var head := [Some(a.Text()), Some(b.Text()), Some(d.Text())];
      assert (head + EntriesOf(rest))[3..] == EntriesOf(rest);
    }
  }

  lemma PrintsCons(a: Item, b: Item, c: Item, rest: seq<Item>)
    requires a.Valid() && b.Valid() && c.Valid() && a.Closed() && b.Closed() && c.Closed() && ValidList(rest)
    ensures Prints([a, b, c] + rest) == [a.Print(), b.Print(), c.Print()] + Prints(rest)
    ensures ValidList([a, b, c] + rest)
  {
    var all := [a, b, c] + rest;
    assert forall i :: 3 <= i < |all| ==> all[i] == rest[i - 3];
  }

  /** The tool gives back the values of the meter, whatever they measure and their units are. */
  lemma ChannelsRoundTrip(values: seq<(string, string)>)
    ensures Channels(Join(Catalogue(values, 1), ",")) == Ok(Numbered(values, 1))
  {
    var items := CatalogueItems(values, 1);
    CatalogueReads(values, 1);
    JoinPrints(items);
    SplitUndoesPrint(items);
  }

  /** The tool on the line that arrives: up to the first line feed, stripped. */
  function ChannelsReceived(answer: string): Result<seq<Channel>, BadAnswer> {
    Channels(Strip(Line(answer + "\n")))
  }

  lemma {:induction false} CatalogueHolds(values: seq<(string, string)>, c: nat)
    requires forall v :: v in values ==> '\n' !in v.0 && '\n' !in v.1
    ensures forall p :: p in Catalogue(values, c) ==> '\n' !in p && p != "" && Tight(p)
    decreases |values|
  {
    if values == [] {
    } else {
      hide Quote, Tight;
      assert values[0] in values && forall v :: v in values[1..] ==> v in values;
      CatalogueHolds(values[1..], c + 1);
      QuoteHolds(values[0].0);
      QuoteHolds(values[0].1);
      NumberHolds(c);
    }
  }

  lemma NumberHolds(n: nat)
    ensures '\n' !in OfNat(n) && OfNat(n) != "" && Tight(OfNat(n))
  {
    var s := OfNat(n);
    assert s[0] in s && s[|s| - 1] in s;
    assert forall c :: c in s ==> IsDigit(c);
  }

  /** What the tool makes of texts without a character holds it nowhere. */
  lemma {:induction false} TriplesWithout(items: seq<Entry>, c: char)
    requires EntriesWithout(items, c)
    ensures Triples(items).Ok? ==> forall ch :: ch in Triples(items).value ==>
              (ch.measures.Some? ==> c !in ch.measures.value) && (ch.unit.Some? ==> c !in ch.unit.value)
    decreases |items|
  {
    if |items| < 3 {
    } else {
      assert items[1] in items && items[2] in items && forall e :: e in items[3..] ==> e in items;
      TriplesWithout(items[3..], c);
    }
  }

  lemma {:induction false} NumberedHolds(values: seq<(string, string)>, c: nat, k: nat)
    requires k < |values|
    ensures Channel(c + k, Some(values[k].0), Some(values[k].1)) in Numbered(values, c)
    decreases k
  {
    if k == 0 {
    } else {
      NumberedHolds(values[1..], c + 1, k - 1);
    }
  }

  /** Over the line protocol the tool gives back the values of the meter exactly when none of their
      texts holds a line feed. */
  lemma ChannelsReceivedExactly(values: seq<(string, string)>)
    ensures ChannelsReceived(Join(Catalogue(values, 1), ",")) == Ok(Numbered(values, 1))
            <==> forall v :: v in values ==> '\n' !in v.0 && '\n' !in v.1
  {
    hide Catalogue, Numbered, Triples, Split, Strip, Join;
    var answer := Join(Catalogue(values, 1), ",");
    if forall v :: v in values ==> '\n' !in v.0 && '\n' !in v.1 {
      CatalogueHolds(values, 1);
      JoinedHolds(Catalogue(values, 1));
      WholeLine(answer);
      ChannelsRoundTrip(values);
    } else {
      var v :| v in values && ('\n' in v.0 || '\n' in v.1);
      var k :| 0 <= k < |values| && values[k] == v;
      NumberedHolds(values, 1, k);
      LineWithout(answer + "\n");
      StripWithout(Line(answer + "\n"), '\n');
      var line := Strip(Line(answer + "\n"));
      SplitWithout(line, '\n');
      if Split(line).Ok? {
        TriplesWithout(Split(line).value, '\n');
      }
    }
  }

  lemma LineWithout(s: string)
    ensures '\n' !in Line(s)
  {
  }

  lemma JoinedHolds(parts: seq<string>)
    requires forall p :: p in parts ==> '\n' !in p && p != "" && Tight(p)
    ensures '\n' !in Join(parts, ",") && Tight(Join(parts, ","))
  {
    if parts == [] {
    } else {
      JoinHolds(parts);
    }
  }

  // ---------------------------------------------------------------- alarms

  /** An alarm as the client shows it. */
  datatype AlarmInfo = AlarmInfo(name: Entry, state: Entry)

  function StateWord(s: State): string {
    match s
    case Off => "OFF"
    case Pending => "PEND"
    case Raised => "RAIS"
    case Acknowledged => "ACKN"
  }

  function ShownState(s: State): string {
    match s
    case Off => "off"
    case Pending => "pending"
    case Raised => "raised"
    case Acknowledged => "acknowledged"
  }

  /** The client's word for a state; one it does not know stays as it is. */
  function Shown(word: Entry): Entry {
    if word == Some("OFF") then Some("off")
    else if word == Some("PEND") then Some("pending")
    else if word == Some("RAIS") then Some("raised")
    else if word == Some("ACKN") then Some("acknowledged")
    else word
  }

  function Pairs(items: seq<Entry>): (r: seq<AlarmInfo>)
    ensures |r| == |items| / 2
  {
    if |items| < 2 then [] else [AlarmInfo(items[0], Shown(items[1]))] + Pairs(items[2..])
  }

  /** The tool alarms, on the answer's text. */
  function Alarms(text: string): Result<seq<AlarmInfo>, BadAnswer> {
    var items := Split(text);
    if items.Err? then Err(BadAnswer)
    else if items.value == [Some("")] then Ok([])
    else Ok(Pairs(items.value))
  }

  /** The names and states of a manager's alarms. */
  function StatesOf(m: Manager): seq<(string, State)>
    requires m.WellFormed()
  {
    seq(|m.alarms|, i requires 0 <= i < |m.alarms| => (m.alarms[i].name, m.state[i]))
  }

  function AlarmParts(list: seq<(string, State)>): seq<string> {
    if list == [] then [] else [Quote(list[0].0), StateWord(list[0].1)] + AlarmParts(list[1..])
  }

  /** The server's list of alarms, a pair of quotes when there are none. */
  function AlarmList(list: seq<(string, State)>): string {
    if list == [] then "\"\"" else Join(AlarmParts(list), ",")
  }

  function Infos(list: seq<(string, State)>): (r: seq<AlarmInfo>)
    ensures |r| == |list|
  {
    if list == [] then [] else [AlarmInfo(Some(list[0].0), Some(ShownState(list[0].1)))] + Infos(list[1..])
  }

  function AlarmItems(list: seq<(string, State)>): (r: seq<Item>)
    ensures |r| == 2 * |list|
  {
    if list == [] then [] else [InQuotes(list[0].0), Bare(StateWord(list[0].1))] + AlarmItems(list[1..])
  }

  lemma WordIsBare(s: State)
    ensures Plain(StateWord(s)) && Strip(StateWord(s)) == StateWord(s) && StateWord(s) != ""
    ensures Shown(Some(StateWord(s))) == Some(ShownState(s))
    ensures Tight(StateWord(s)) && '\n' !in StateWord(s)
  {
    hide Strip;
    WordIsTight(s);
    TightStays(StateWord(s));
  }

  lemma WordIsTight(s: State)
    ensures Plain(StateWord(s)) && StateWord(s) != "" && Tight(StateWord(s)) && '\n' !in StateWord(s)
  {
  }

  lemma TwoEntries(a: Item, b: Item, rest: seq<Item>)
    requires !b.Dropped() || rest != []
    ensures EntriesOf([a, b] + rest) == [Some(a.Text()), Some(b.Text())] + EntriesOf(rest)
  {
    hide EntriesOf, Item.Text, Item.Dropped;
    OneEntry(b, rest);
    OneEntry(a, [b] + rest);
    OneAndOne(a, b, rest);
    OneAndOne(Some(a.Text()), Some(b.Text()), EntriesOf(rest));
  }

  lemma TwoPrints(a: Item, b: Item, rest: seq<Item>)
    requires a.Valid() && b.Valid() && a.Closed() && b.Closed() && ValidList(rest)
    ensures Prints([a, b] + rest) == [a.Print(), b.Print()] + Prints(rest) && ValidList([a, b] + rest)
  {
    var all := [a, b] + rest;
    assert forall i :: 2 <= i < |all| ==> all[i] == rest[i - 2];
  }

  /** The items of a list of alarms and perhaps one more: they are a list, printed as the server's. */
  lemma {:induction false} AlarmItemsPrint(list: seq<(string, State)>, last: seq<Item>)
    requires |last| <= 1 && ValidList(last)
    ensures ValidList(AlarmItems(list) + last)
    ensures Prints(AlarmItems(list) + last) == AlarmParts(list) + Prints(last)
    decreases |list|
  {
    hide Quote, Strip, Escape, Plain;
    if list == [] {
      assert AlarmItems(list) + last == last && AlarmParts(list) + Prints(last) == Prints(last);
    } else {
      AlarmItemsPrint(list[1..], last);
      FirstAlarm(list, last);
      var a, b := InQuotes(list[0].0), Bare(StateWord(list[0].1));
      TwoPrints(a, b, AlarmItems(list[1..]) + last);
      assert [a.Print(), b.Print()] + (AlarmParts(list[1..]) + Prints(last)) == AlarmParts(list) + Prints(last);
    }
  }

  lemma FirstAlarm(list: seq<(string, State)>, last: seq<Item>)
    requires list != []
    ensures var a, b := InQuotes(list[0].0), Bare(StateWord(list[0].1));
            && AlarmItems(list) + last == [a, b] + (AlarmItems(list[1..]) + last)
            && a.Valid() && b.Valid() && a.Closed() && b.Closed() && !b.Dropped()
            && a.Print() == Quote(list[0].0) && b.Print() == StateWord(list[0].1)
            && a.Text() == list[0].0 && b.Text() == StateWord(list[0].1)
  {
    hide Strip, Escape, Quote, Plain;
    InQuotesIs(list[0].0);
    WordIsBare(list[0].1);
    var a, b := InQuotes(list[0].0), Bare(StateWord(list[0].1));
    Assoc([a, b], AlarmItems(list[1..]), last);
  }

  /** Two entries an alarm, and no more than one of what follows. */
  lemma {:induction false} AlarmItemsCount(list: seq<(string, State)>, last: seq<Item>)
    requires |last| <= 1
    ensures |EntriesOf(AlarmItems(list) + last)| == 2 * |list| + |EntriesOf(last)| && |EntriesOf(last)| <= 1
    decreases |list|
  {
    hide Strip;
    if list == [] {
      assert AlarmItems(list) + last == last;
      AtMostOne(last);
    } else {
      AlarmItemsCount(list[1..], last);
      FirstAlarm(list, last);
      TwoEntries(InQuotes(list[0].0), Bare(StateWord(list[0].1)), AlarmItems(list[1..]) + last);
    }
  }

  lemma AtMostOne(last: seq<Item>)
    requires |last| <= 1
    ensures |EntriesOf(last)| <= 1
  {
    if |last| == 1 {
      NoEntries(last[1..]);
    }
  }

  lemma {:induction false} AlarmItemsPair(list: seq<(string, State)>)
    ensures Pairs(EntriesOf(AlarmItems(list))) == Infos(list)
    decreases |list|
  {
    hide EntriesOf, Strip;
    if list == [] {
      NoEntries(AlarmItems(list));
    } else {
      AlarmItemsPair(list[1..]);
      FirstAlarm(list, []);
      WordIsBare(list[0].1);
      var a, b, rest := InQuotes(list[0].0), Bare(StateWord(list[0].1)), AlarmItems(list[1..]);
      assert AlarmItems(list) + [] == AlarmItems(list) && rest + [] == rest;
      TwoEntries(a, b, rest);
      assert ([Some(a.Text()), Some(b.Text())] + EntriesOf(rest))[2..] == EntriesOf(rest);
    }
  }

  /** The tool shows every alarm by its name and state; an empty list is told from any other. */
  lemma AlarmsRoundTrip(list: seq<(string, State)>)
    ensures Alarms(AlarmList(list)) == Ok(Infos(list))
    ensures Alarms(AlarmList(list)) == Ok([]) <==> list == []
  {
    if list == [] {
      InQuotesIs("");
      var items := [InQuotes("")];
      SplitUndoesPrint(items);
      NoEntries(items[1..]);
      assert AlarmList(list) == Quote("");
    } else {
      hide EntriesOf, Print, Split;
      var items := AlarmItems(list);
      AlarmItemsPrint(list, []);
      AlarmItemsCount(list, []);
      AlarmItemsPair(list);
      assert items + [] == items && AlarmParts(list) + Prints([]) == AlarmParts(list);
      JoinPrints(items);
      SplitUndoesPrint(items);
    }
  }

  // ------------------------------------------------- the alarms as received

  /** The tool on the line that arrives: up to the first line feed, stripped. */
  function AlarmsReceived(answer: string): Result<seq<AlarmInfo>, BadAnswer> {
    Alarms(Strip(Line(answer + "\n")))
  }

  lemma {:induction false} PartsHold(list: seq<(string, State)>)
    requires forall e :: e in list ==> '\n' !in e.0
    ensures forall p :: p in AlarmParts(list) ==> '\n' !in p && p != "" && Tight(p)
    decreases |list|
  {
    if list == [] {
    } else {
      assert list[0] in list && forall e :: e in list[1..] ==> e in list;
      PartsHold(list[1..]);
      QuoteHolds(list[0].0);
      WordIsBare(list[0].1);
    }
  }

  lemma QuoteHolds(s: string)
    ensures Tight(Quote(s)) && ('\n' in Quote(s) <==> '\n' in s)
  {
    EscapeLines(s);
  }

  lemma {:induction false} JoinHolds(parts: seq<string>)
    requires parts != [] && forall p :: p in parts ==> '\n' !in p && p != "" && Tight(p)
    ensures var j := Join(parts, ","); '\n' !in j && j != "" && Tight(j)
    decreases |parts|
  {
    assert parts[0] in parts;
    if |parts| <= 1 {
    } else {
      assert forall p :: p in parts[1..] ==> p in parts;
      JoinHolds(parts[1..]);
    }
  }

  lemma WholeLine(s: string)
    requires '\n' !in s && Tight(s)
    ensures Strip(Line(s + "\n")) == s
  {
    HasLineIsIn(s);
    LineEndIs(s + "\n", |s|);
    TightStays(s);
  }

  lemma {:induction false} StripRightEscaped(head: string, s: string)
    requires head != "" && !IsSpace(head[|head| - 1])
    ensures StripRight(IsSpace, head + Escape(s)) == head + Escape(StripRight(IsSpace, s))
    decreases |s|
  {
    if s == "" {
      assert head + Escape(s) == head;
    } else {
      var n := |s| - 1;
      EscapeLast(s);
      var before := head + Escape(s[..n]);
      if IsSpace(s[n]) {
        assert head + Escape(s) == before + [s[n]];
        assert (before + [s[n]])[..|before|] == before;
        StripRightEscaped(head, s[..n]);
      }
    }
  }

  lemma EscapeLast(s: string)
    requires s != ""
    ensures var n := |s| - 1;
            Escape(s) == Escape(s[..n]) + (if s[n] == '"' then "\"\"" else [s[n]])
  {
    hide Escape;
    var n := |s| - 1;
    assert s == s[..n] + [s[n]];
    EscapeMore(s[..n], s[n]);
  }

  lemma EscapeMore(s: string, c: char)
    ensures Escape(s + [c]) == Escape(s) + (if c == '"' then "\"\"" else [c])
  {
    hide Escape;
    EscapeConcat(s, [c]);
    EscapeChar(c);
  }

  /** Of a list with a line feed in a name an alarm is missing: what arrives are the alarms before
      it and the start of its name. */
  lemma BrokenList(list: seq<(string, State)>)
    requires exists e :: e in list && '\n' in e.0
    ensures AlarmsReceived(AlarmList(list)).Ok? ==> |AlarmsReceived(AlarmList(list)).value| < |list|
  {
    hide Alarms, Line, Strip, Heading, AlarmItems, EntriesOf, Escape, AlarmList;
    var k := FirstBroken(list);
    var whole, name := list[..k], list[k].0;
    var start := name[..LineEnd(name)];
    BrokenLine(list, k);
    HeadingHolds(whole);
    StripHeading(Heading(whole), start);
    var kept := StripRight(IsSpace, start);
    HeadingPrints(whole, kept);
    var items := AlarmItems(whole) + [Open("", kept)];
    AlarmItemsPrint(whole, [Open("", kept)]);
    AlarmItemsCount(whole, [Open("", kept)]);
    AlarmsOfItems(items, k);
  }

  lemma StripHeading(head: string, s: string)
    requires head != "" && head[0] == '"' && head[|head| - 1] == '"'
    ensures Strip(head + Escape(s)) == head + Escape(StripRight(IsSpace, s))
  {
    StripRightEscaped(head, s);
    assert (head + Escape(StripRight(IsSpace, s)))[0] == head[0];
  }

  lemma AlarmsOfItems(items: seq<Item>, k: nat)
    requires ValidList(items) && |EntriesOf(items)| <= 2 * k + 1
    ensures Alarms(Print(items)).Ok? ==> |Alarms(Print(items)).value| <= k
  {
    SplitUndoesPrint(items);
  }

  function FirstBroken(list: seq<(string, State)>): (k: nat)
    requires exists e :: e in list && '\n' in e.0
    ensures k < |list| && '\n' in list[k].0 && forall i :: 0 <= i < k ==> '\n' !in list[i].0
  {
    if '\n' in list[0].0 then 0 else 1 + FirstBroken(list[1..])
  }

  /** What stands before a name: the alarms before it, and its opening quote. */
  function Heading(whole: seq<(string, State)>): string {
    (if whole == [] then "" else Join(AlarmParts(whole), ",") + ",") + "\""
  }

  lemma HeadingPrints(whole: seq<(string, State)>, s: string)
    ensures Heading(whole) + Escape(s) == Print(AlarmItems(whole) + [Open("", s)])
  {
    var last := [Open("", s)];
    OpenPrints(s);
    hide Escape, Print, Prints, Join, AlarmItems;
    AlarmItemsPrint(whole, last);
    JoinPrints(AlarmItems(whole) + last);
    HeadingJoins(AlarmParts(whole), "\"" + Escape(s));
    assert whole == [] <==> AlarmParts(whole) == [];
    var before := if whole == [] then "" else Join(AlarmParts(whole), ",") + ",";
    assert before + ("\"" + Escape(s)) == before + "\"" + Escape(s);
  }

  lemma OpenPrints(s: string)
    ensures Prints([Open("", s)]) == ["\"" + Escape(s)] && ValidList([Open("", s)])
  {
    assert "" + "\"" + Escape(s) == "\"" + Escape(s);
  }

  lemma {:induction false} HeadingJoins(parts: seq<string>, last: string)
    ensures Join(parts + [last], ",") == (if parts == [] then "" else Join(parts, ",") + ",") + last
    decreases |parts|
  {
    if parts == [] {
      assert parts + [last] == [last] && "" + last == last;
    } else {
      assert (parts + [last])[1..] == parts[1..] + [last];
      HeadingJoins(parts[1..], last);
      if |parts| > 1 {
        var tail := Join(parts[1..], ",");
        assert parts[0] + "," + (tail + "," + last) == parts[0] + "," + tail + "," + last;
      }
    }
  }

  /** The line of a list breaks inside the first name with a line feed. */
  lemma BrokenLine(list: seq<(string, State)>, k: nat)
    requires k < |list| && '\n' in list[k].0 && forall i :: 0 <= i < k ==> '\n' !in list[i].0
    ensures var name := list[k].0;
            Line(AlarmList(list) + "\n") == Heading(list[..k]) + Escape(name[..LineEnd(name)])
  {
    hide Heading, Trailing, AlarmList, Escape;
    var name, head, tail := list[k].0, Heading(list[..k]), Trailing(list, k);
    HasLineIsIn(name);
    var start, rest := name[..LineEnd(name)], name[LineEnd(name) + 1..];
    assert name == start + "\n" + rest;
    ListAround(list, k);
    EscapeAround(start, rest);
    HeadingHolds(list[..k]);
    EscapeLines(start);
    AroundFeed(head, Escape(start), Escape(rest), tail);
    FirstFeedAt(head + Escape(start), Escape(rest) + tail + "\n");
  }

  lemma AroundFeed(head: string, a: string, b: string, tail: string)
    ensures head + (a + "\n" + b) + tail + "\n" == head + a + ("\n" + (b + tail + "\n"))
  {
  }

  lemma FirstFeedAt(before: string, more: string)
    requires '\n' !in before
    ensures Line(before + ("\n" + more)) == before
  {
    var all := before + ("\n" + more);
    assert all[|before|] == '\n';
    LineEndIs(all, |before|);
    assert all[..|before|] == before;
  }

  lemma EscapeAround(a: string, b: string)
    ensures Escape(a + "\n" + b) == Escape(a) + "\n" + Escape(b)
  {
    hide Escape;
    EscapeConcat(a + "\n", b);
    EscapeConcat(a, "\n");
    EscapeChar('\n');
  }

  lemma HeadingHolds(whole: seq<(string, State)>)
    requires forall i :: 0 <= i < |whole| ==> '\n' !in whole[i].0
    ensures var h := Heading(whole); '\n' !in h && h != "" && h[0] == '"' && h[|h| - 1] == '"'
  {
    PartsHold(whole);
    if whole != [] {
      JoinHolds(AlarmParts(whole));
      assert AlarmParts(whole)[0] == Quote(whole[0].0);
      assert Join(AlarmParts(whole), ",")[0] == '"';
    }
  }

  /** What follows the name at k: its closing quote, its state, the alarms after it. */
  function Trailing(list: seq<(string, State)>, k: nat): string
    requires k < |list|
  {
    "\"" + ("," + Join([StateWord(list[k].1)] + AlarmParts(list[k + 1..]), ","))
  }

  lemma ListAround(list: seq<(string, State)>, k: nat)
    requires k < |list|
    ensures AlarmList(list) == Heading(list[..k]) + Escape(list[k].0) + Trailing(list, k)
  {
    var before, name := AlarmParts(list[..k]), list[k].0;
    var more := [StateWord(list[k].1)] + AlarmParts(list[k + 1..]);
    PartsAt(list, k);
    JoinAround(before, Quote(name), more);
    assert list[..k] == [] <==> before == [];
    var first := if before == [] then "" else Join(before, ",") + ",";
    Reshape(first, Escape(name), "," + Join(more, ","));
  }

  lemma Reshape(a: string, b: string, c: string)
    ensures a + ("\"" + b + "\"") + c == a + "\"" + b + ("\"" + c)
  {
  }

  lemma {:induction false} PartsAt(list: seq<(string, State)>, k: nat)
    requires k < |list|
    ensures AlarmParts(list) ==
            AlarmParts(list[..k]) + [Quote(list[k].0)] + ([StateWord(list[k].1)] + AlarmParts(list[k + 1..]))
    decreases k
  {
    if k == 0 {
      assert list[..0] == [];
    } else {
      PartsAt(list[1..], k - 1);
      assert list[1..][..k - 1] == list[..k][1..] && list[1..][k..] == list[k + 1..];
    }
  }

  lemma {:induction false} JoinAround(a: seq<string>, x: string, more: seq<string>)
    requires more != []
    ensures Join(a + [x] + more, ",") == (if a == [] then "" else Join(a, ",") + ",") + x + ("," + Join(more, ","))
    decreases |a|
  {
    var all := a + [x] + more;
    if a == [] {
      assert all[1..] == more && all[0] == x;
      assert "" + x == x && x + "," + Join(more, ",") == x + ("," + Join(more, ","));
    } else {
      assert all[1..] == a[1..] + [x] + more;
      JoinAround(a[1..], x, more);
      var tail := "," + Join(more, ",");
      if |a| == 1 {
        assert a[0] + "," + ("" + x + tail) == a[0] + "," + x + tail;
      } else {
        assert a[0] + "," + (Join(a[1..], ",") + "," + x + tail) == a[0] + "," + Join(a[1..], ",") + "," + x + tail;
      }
    }
  }

  /** The tool shows every alarm of a manager, over the wire, exactly when no name holds a line
      feed. */
  lemma AlarmsReceivedExactly(m: Manager)
    requires m.WellFormed()
    ensures AlarmsReceived(AlarmList(StatesOf(m))) == Ok(Infos(StatesOf(m)))
            <==> forall al :: al in m.alarms ==> '\n' !in al.name
  {
    var list := StatesOf(m);
    assert forall i :: 0 <= i < |list| ==> list[i].0 == m.alarms[i].name && list[i] in list && m.alarms[i] in m.alarms;
    if forall al :: al in m.alarms ==> '\n' !in al.name {
      PartsHold(list);
      if list != [] {
        JoinHolds(AlarmParts(list));
      }
      WholeLine(AlarmList(list));
      AlarmsRoundTrip(list);
    } else {
      BrokenList(list);
    }
  }

  // ------------------------------------------------------------ the recording

  /** The part behind the last comma: rsplit with one split. */
  function BehindLastComma(s: string): (r: string)
    ensures ',' !in r && |r| <= |s| && r == s[|s| - |r|..]
    ensures |r| < |s| ==> s[|s| - |r| - 1] == ','
  {
    if s == "" || s[|s| - 1] == ',' then ""
    else
      var r := BehindLastComma(s[..|s| - 1]);
      r + [s[|s| - 1]]
  }

  predicate IsQuote(c: char) { c == '"' }

  function StripQuotes(s: string): string { StripLeft(IsQuote, StripRight(IsQuote, s)) }

  /** The unit as recording_data takes it from the answer. */
  function ShortUnit(answer: string): string { StripQuotes(BehindLastComma(answer)) }

  /** The server's answer to QTDMM:RECord?: three bare fields and the unit. */
  function RecordAnswer(mode: string, seconds: string, count: string, unit: string): string {
    mode + "," + seconds + "," + count + "," + Quote(unit)
  }

  /** The tool recording reads the unit whatever it is. */
  lemma RecordReads(mode: string, seconds: string, count: string, unit: string)
    requires Plain(mode) && Plain(seconds) && Plain(count)
    ensures Split(RecordAnswer(mode, seconds, count, unit)) ==
            Ok([Some(Strip(mode)), Some(Strip(seconds)), Some(Strip(count)), Some(unit)])
  {
    hide EntriesOf, Print, Strip, Escape, Quote, Split;
    var items := [Bare(mode), Bare(seconds), Bare(count), InQuotes(unit)];
    InQuotesIs(unit);
    FourPrinted(Bare(mode), Bare(seconds), Bare(count), InQuotes(unit));
    FourEntries(Bare(mode), Bare(seconds), Bare(count), InQuotes(unit));
    SplitUndoesPrint(items);
  }

  lemma FourPrinted(a: Item, b: Item, c: Item, d: Item)
    ensures Print([a, b, c, d]) == a.Print() + "," + b.Print() + "," + c.Print() + "," + d.Print()
  {
    PrintCons(c, [d]);
    PrintCons(b, [c] + [d]);
    PrintCons(a, [b] + ([c] + [d]));
    assert [a] + ([b] + ([c] + [d])) == [a, b, c, d];
    Commas(a.Print(), b.Print(), c.Print(), d.Print());
  }

  lemma FourEntries(a: Item, b: Item, c: Item, d: Item)
    requires d.Quoted?
    ensures EntriesOf([a, b, c, d]) == [Some(a.Text()), Some(b.Text()), Some(c.Text()), Some(d.Text())]
  {
    assert !d.Dropped();
    OneAlone(d);
    hide EntriesOf, Item.Text, Item.Dropped;
    ThreeEntries(a, b, c, [d]);
    ThreeAndOne(a, b, c, d);
    ThreeAndOne(Some(a.Text()), Some(b.Text()), Some(c.Text()), Some(d.Text()));
  }

  lemma ThreeAndOne<T>(x: T, y: T, z: T, w: T)
    ensures [x, y, z] + [w] == [x, y, z, w]
  {
  }

  lemma OneAlone(d: Item)
    requires !d.Dropped()
    ensures EntriesOf([d]) == [Some(d.Text())]
  {
    hide EntriesOf, Strip;
    OneEntry(d, []);
    NoEntries([]);
    assert [d] + [] == [d];
    assert [Some(d.Text())] + [] == [Some(d.Text())];
  }

  lemma NoEntries(items: seq<Item>)
    requires items == []
    ensures EntriesOf(items) == []
  {
  }

  lemma Commas(a: string, b: string, c: string, d: string)
    ensures a + ("," + (b + ("," + (c + ("," + d))))) == a + "," + b + "," + c + "," + d
  {
  }

  lemma {:induction false} BehindComma(s: string, t: string)
    requires ',' !in t
    ensures BehindLastComma(s + "," + t) == t
    decreases |t|
  {
    var all := s + "," + t;
    if t == "" {
    } else {
      var n := |t| - 1;
      assert all[..|all| - 1] == s + "," + t[..n];
      BehindComma(s, t[..n]);
    }
  }

  lemma {:induction false} StripRightOne(s: string)
    ensures StripRight(IsQuote, s + "\"") == StripRight(IsQuote, s)
  {
    assert (s + "\"")[..|s|] == s;
  }

  lemma StripQuoted(s: string)
    requires s == "" || (s[0] != '"' && s[|s| - 1] != '"')
    ensures StripQuotes("\"" + s + "\"") == s
  {
    var t := "\"" + s;
    StripRightOne(t);
    assert t[1..] == s && t[0] == '"';
    if s == "" {
      assert t[..0] == "";
    } else {
      assert t[|t| - 1] == s[|s| - 1];
      assert StripRight(IsQuote, t) == t && StripLeft(IsQuote, s) == s;
    }
  }

  lemma StripQuotesEnds(s: string)
    ensures var r := StripQuotes(s);
            && (r == "" || (r[0] != '"' && r[|r| - 1] != '"')) && (',' in r ==> ',' in s)
  {
    hide StripLeft, StripRight;
    var t, r := StripRight(IsQuote, s), StripQuotes(s);
    TailOf(t, r);
    assert forall c :: c in r ==> c in t;
    assert t == s[..|t|];
  }

  lemma TailOf(t: string, r: string)
    requires |r| <= |t| && r == t[|t| - |r|..]
    ensures r != "" ==> r[|r| - 1] == t[|t| - 1]
    ensures forall c :: c in r ==> c in t
  {
  }

  lemma QuotesStripped(unit: string)
    ensures StripQuotes(Quote(unit)) == unit <==> '"' !in unit
  {
    hide StripQuotes, Escape;
    EscapeSize(unit);
    StripQuotesEnds(Quote(unit));
    if unit == "" || (unit[0] != '"' && unit[|unit| - 1] != '"') {
      StripQuoted(Escape(unit));
    }
  }

  /** The short way to the unit gives the unit exactly when it holds no comma and no quote. */
  lemma ShortUnitExactly(mode: string, seconds: string, count: string, unit: string)
    requires Plain(mode) && Plain(seconds) && Plain(count)
    ensures ShortUnit(RecordAnswer(mode, seconds, count, unit)) == unit <==> Plain(unit)
  {
    hide StripQuotes, BehindLastComma;
    if ',' in unit {
      StripQuotesEnds(BehindLastComma(RecordAnswer(mode, seconds, count, unit)));
    } else {
      EscapeSize(unit);
      assert ',' !in Quote(unit);
      BehindComma(mode + "," + seconds + "," + count, Quote(unit));
      QuotesStripped(unit);
    }
  }

  // -------------------------------------------- sessions that end in a block

  /** The tool screenshot: a block and nothing else. */
  method Screenshot(conn: Scpi) returns (r: Reply)
    modifies conn
    ensures r == BlockAt(old(conn.Now()).Stream(), conn.end).0
    ensures conn.sent == old(conn.sent) + "HCOPy:SDUMp:DATA?" + "\n"
  {
    BlockReadsStream(conn.Now(), conn.end);
    r := conn.Block("HCOPy:SDUMp:DATA?");
  }

  /** What recording_data finds in a stream: the unit of the first line, the block after it. */
  function RecordedIn(stream: string, end: Failure): Result<(string, string), Failure> {
    if !HasLine(stream) then Err(end)
    else
      var data := BlockAt(AfterLine(stream), end).0;
      if data.Err? then Err(data.error) else Ok((ShortUnit(Strip(Line(stream))), data.value))
  }

  /** One reading at least and ten thousand at most. */
  function Readings(count: int): nat { if count < 1 then 1 else if count > 10000 then 10000 else count }

  /** What is asked for is the number from one to ten thousand that is closest. */
  lemma ReadingsAreClosest(count: int, n: int)
    requires 1 <= n <= 10000
    ensures 1 <= Readings(count) <= 10000
    ensures var far := Readings(count) - count;
            (if far < 0 then -far else far) <= (if n < count then count - n else n - count)
  {
  }

  /** The query for the last readings of a channel. */
  function DataQuery(count: int, channel: int): string {
    "QTDMM:RECord:DATA? " + (OfNat(Readings(count)) + "," + ChannelArgs(channel))
  }

  /** The tool recording_data of the main value: what it gets is in the stream, however the
      stream is cut. */
  method RecordingData(conn: Scpi, count: int) returns (r: Result<(string, string), Failure>)
    modifies conn
    ensures r == RecordedIn(old(conn.Now()).Stream(), conn.end)
    ensures HasLine(old(conn.Now()).Stream()) ==>
              conn.sent == old(conn.sent) + "QTDMM:RECord?" + "\n" + DataQuery(count, 1) + "\n"
  {
    QueryTakesLine(conn.Now(), conn.end);
    var line := conn.Query("QTDMM:RECord?");
    if line.Err? {
      return Err(line.error);
    }
    BlockReadsStream(conn.Now(), conn.end);
    var data := conn.Block(DataQuery(count, 1));
    if data.Err? {
      return Err(data.error);
    }
    return Ok((ShortUnit(line.value), data.value));
  }

  /** Against the server's own answers the tool gets the unit and the data. */
  lemma RecordedRoundTrip(mode: string, seconds: string, count: string, unit: string, data: string, rest: string,
                          end: Failure)
    requires Plain(mode) && Plain(seconds) && Plain(count) && mode != "" && !IsSpace(mode[0])
    requires '\n' !in mode && '\n' !in seconds && '\n' !in count && '\n' !in unit
    requires Plain(unit) && |data| < LIMIT
    ensures RecordedIn(RecordAnswer(mode, seconds, count, unit) + "\n" + (BlockOf(data) + rest), end)
            == Ok((unit, data))
  {
    var answer, more := RecordAnswer(mode, seconds, count, unit), BlockOf(data) + rest;
    AnswerIsLine(mode, seconds, count, unit);
    HasLineIsIn(answer);
    var stream := answer + "\n" + more;
    LineEndIs(stream, |answer|);
    assert stream[..|answer|] == answer && stream[|answer| + 1..] == more;
    TightStays(answer);
    ShortBlockDecodes(data, rest, end);
    ShortUnitExactly(mode, seconds, count, unit);
  }

  lemma AnswerIsLine(mode: string, seconds: string, count: string, unit: string)
    requires mode != "" && !IsSpace(mode[0])
    requires '\n' !in mode && '\n' !in seconds && '\n' !in count && '\n' !in unit
    ensures var answer := RecordAnswer(mode, seconds, count, unit); '\n' !in answer && Tight(answer)
  {
    QuoteHolds(unit);
    var answer := RecordAnswer(mode, seconds, count, unit);
    assert answer[0] == mode[0] && answer[|answer| - 1] == '"';
  }
}
