/** A SCPI answer list such as "a",1.5E+00,"b", read in one pass over its characters. */
module SplitLists {
  import opened Results
  import opened Text

  /** An entry: a text, or none when a second quoted part of one item closed. */
  type Entry = Option<string>

  /** Adding to no text, which the program answers with an exception. */
  datatype Crash = Crash

  type Entries = Result<seq<Entry>, Crash>

  // -------------------------------------------------------------- one pass

  datatype Scanner = Scanner(out: seq<Entry>, cur: Entry, quoted: bool) | Crashed

  const START := Scanner([], Some(""), false)

  function Scan(st: Scanner, text: string): Scanner
    decreases |text|
  {
    if st.Crashed? || text == "" then st
    else if text[0] == '"' then
      if st.quoted && |text| > 1 && text[1] == '"' then
        if st.cur.None? then Crashed else Scan(st.(cur := Some(st.cur.value + "\"")), text[2..])
      else if !st.quoted then Scan(st.(quoted := true), text[1..])
      else Scan(Scanner(st.out + [st.cur], None, false), text[1..])
    else if text[0] == ',' && !st.quoted then
      Scan(Scanner(if st.cur.Some? then st.out + [Some(Strip(st.cur.value))] else st.out, Some(""), false), text[1..])
    else if st.cur.Some? then Scan(st.(cur := Some(st.cur.value + [text[0]])), text[1..])
    else Scan(st, text[1..])
  }

  function Finish(st: Scanner): Entries {
    if st.Crashed? then Err(Crash)
    else if st.cur.Some? && Strip(st.cur.value) != "" then Ok(st.out + [Some(Strip(st.cur.value))])
    else Ok(st.out)
  }

  function Split(text: string): Entries { Finish(Scan(START, text)) }

  method SplitList(text: string) returns (r: Entries)
    ensures r == Split(text)
  {
    hide Strip;
    var out: seq<Entry>, cur: Entry, quoted, i := [], Some(""), false, 0;
    while i < |text|
      invariant 0 <= i <= |text|
      invariant Scan(Scanner(out, cur, quoted), text[i..]) == Scan(START, text)
    {
      ghost var rest := text[i..];
      var c := text[i];
      if c == '"' {
        if quoted && i + 1 < |text| && text[i + 1] == '"' {
          if cur.None? {
            return Err(Crash);
          }
          cur := Some(cur.value + "\"");
          i := i + 1;
          assert rest[2..] == text[i + 1..];
        } else {
          quoted := !quoted;
          if !quoted {
            out := out + [cur];
            cur := None;
          }
        }
      } else if c == ',' && !quoted {
        if cur.Some? {
          out := out + [Some(Strip(cur.value))];
        }
        cur := Some("");
      } else if cur.Some? {
        cur := Some(cur.value + [c]);
      }
      i := i + 1;
    }
    if cur.Some? && Strip(cur.value) != "" {
      out := out + [Some(Strip(cur.value))];
    }
    return Ok(out);
  }

  // ------------------------------------------------------------- the printer

  /** Every quote doubled. */
  function Escape(s: string): string {
    if s == "" then "" else (if s[0] == '"' then "\"\"" else [s[0]]) + Escape(s[1..])
  }

  function Quote(s: string): string { "\"" + Escape(s) + "\"" }

  /** No comma, no quote. */
  predicate Plain(s: string) { ',' !in s && '"' !in s }

  /** An item of a list: bare, or quoted with anything plain around the quotes. The last item of a
      list may be quoted and not closed, or closed and opened again with no further quote. */
  datatype Item =
    | Bare(text: string)
    | Quoted(before: string, text: string, after: string)
    | Open(before: string, text: string)
    | Reopened(before: string, text: string, after: string, rest: string)
  {
    predicate Closed() { Bare? || Quoted? }

    predicate Valid() {
      match this
      case Bare(text) => Plain(text)
      case Quoted(before, _, after) => Plain(before) && Plain(after)
      case Open(before, _) => Plain(before)
      case Reopened(before, _, after, rest) =>
        Plain(before) && Plain(after) && after != "" && '"' !in rest
    }

    function Print(): string {
      match this
      case Bare(text) => text
      case Quoted(before, text, after) => before + Quote(text) + after
      case Open(before, text) => before + "\"" + Escape(text)
      case Reopened(before, text, after, rest) => before + Quote(text) + after + "\"" + rest
    }

    /** The entry the item stands for; quoted text keeps its blanks, and those before the quote. */
    function Text(): string {
      match this
      case Bare(text) => Strip(text)
      case Quoted(before, text, _) => before + text
      case Open(before, text) => Strip(before + text)
      case Reopened(before, text, _, _) => before + text
    }

    /** As the last item it leaves no entry. */
    predicate Dropped() {
      (Bare? || Open?) && Text() == ""
    }
  }

  ghost predicate ValidList(items: seq<Item>) {
    forall i :: 0 <= i < |items| ==> items[i].Valid() && (i < |items| - 1 ==> items[i].Closed())
  }

  function Print(items: seq<Item>): string {
    if items == [] then ""
    else if |items| == 1 then items[0].Print()
    else items[0].Print() + "," + Print(items[1..])
  }

  /** The entries a list of items stands for: one each, but none for a last item that is blank. */
  function EntriesOf(items: seq<Item>): seq<Entry> {
    if items == [] || (|items| == 1 && items[0].Dropped()) then []
    else [Some(items[0].Text())] + EntriesOf(items[1..])
  }

  lemma {:induction false} EscapeLines(s: string)
    ensures forall c :: c != '"' ==> (c in Escape(s) <==> c in s)
  {
    if s == "" {
    } else {
      EscapeLines(s[1..]);
      assert s == [s[0]] + s[1..];
    }
  }

  lemma {:induction false} EscapeSize(s: string)
    ensures |Escape(s)| >= |s| && ('"' !in s ==> Escape(s) == s) && ('"' in s ==> |Escape(s)| > |s|)
    ensures s != "" ==> Escape(s) != "" && Escape(s)[0] == s[0] && Escape(s)[|Escape(s)| - 1] == s[|s| - 1]
    ensures ',' in Escape(s) <==> ',' in s
  {
    if s == "" {
    } else {
      EscapeSize(s[1..]);
      assert s == [s[0]] + s[1..];
    }
  }

  lemma {:induction false} EscapeConcat(a: string, b: string)
    ensures Escape(a + b) == Escape(a) + Escape(b)
  {
    if a == "" {
      assert a + b == b;
    } else {
      assert (a + b)[1..] == a[1..] + b;
      EscapeConcat(a[1..], b);
      Assoc(if a[0] == '"' then "\"\"" else [a[0]], Escape(a[1..]), Escape(b));
    }
  }

  lemma EscapeChar(c: char)
    ensures Escape([c]) == if c == '"' then "\"\"" else [c]
  {
    assert [c][1..] == "";
  }

  // ------------------------------------------------------ what a list holds

  ghost predicate EntriesWithout(out: seq<Entry>, c: char) {
    forall e :: e in out && e.Some? ==> c !in e.value
  }

  lemma {:induction false} ScanWithout(st: Scanner, text: string, c: char)
    requires c != '"' && c !in text
    requires st.Scanner? ==> EntriesWithout(st.out, c) && (st.cur.Some? ==> c !in st.cur.value)
    ensures var r := Scan(st, text);
            r.Scanner? ==> EntriesWithout(r.out, c) && (r.cur.Some? ==> c !in r.cur.value)
    decreases |text|
  {
    hide Strip;
    if st.Crashed? || text == "" {
    } else if text[0] == '"' {
      if st.quoted && |text| > 1 && text[1] == '"' {
        if st.cur.Some? {
          ScanWithout(st.(cur := Some(st.cur.value + "\"")), text[2..], c);
        }
      } else if !st.quoted {
        ScanWithout(st.(quoted := true), text[1..], c);
      } else {
        ScanWithout(Scanner(st.out + [st.cur], None, false), text[1..], c);
      }
    } else if text[0] == ',' && !st.quoted {
      if st.cur.Some? {
        StripWithout(st.cur.value, c);
      }
      var out := if st.cur.Some? then st.out + [Some(Strip(st.cur.value))] else st.out;
      ScanWithout(Scanner(out, Some(""), false), text[1..], c);
    } else if st.cur.Some? {
      ScanWithout(st.(cur := Some(st.cur.value + [text[0]])), text[1..], c);
    } else {
      ScanWithout(st, text[1..], c);
    }
  }

  lemma StripWithout(s: string, c: char)
    requires c !in s
    ensures c !in Strip(s)
  {
    var r := StripRight(IsSpace, s);
    assert r <= s && forall d :: d in r ==> d in s;
  }

  /** The texts of a list hold no character its text does not hold. */
  lemma SplitWithout(text: string, c: char)
    requires c != '"' && c !in text
    ensures Split(text).Ok? ==> EntriesWithout(Split(text).value, c)
  {
    hide Strip;
    ScanWithout(START, text, c);
    var st := Scan(START, text);
    if st.Scanner? && st.cur.Some? {
      StripWithout(st.cur.value, c);
    }
  }

  // ------------------------------------------------- reading what is printed

  lemma {:induction false} ScanPlain(st: Scanner, s: string, rest: string)
    requires st.Scanner? && !st.quoted && Plain(s)
    ensures Scan(st, s + rest) == Scan(if st.cur.Some? then st.(cur := Some(st.cur.value + s)) else st, rest)
    decreases |s|
  {
    if s == "" {
      assert s + rest == rest;
      assert st.cur.Some? ==> st.cur.value + s == st.cur.value;
    } else {
      assert (s + rest)[1..] == s[1..] + rest;
      if st.cur.Some? {
        ScanPlain(st.(cur := Some(st.cur.value + [s[0]])), s[1..], rest);
        assert st.cur.value + [s[0]] + s[1..] == st.cur.value + s;
      } else {
        ScanPlain(st, s[1..], rest);
      }
    }
  }

  lemma {:induction false} ScanEscaped(st: Scanner, s: string, rest: string)
    requires st.Scanner? && st.quoted && st.cur.Some?
    ensures Scan(st, Escape(s) + rest) == Scan(st.(cur := Some(st.cur.value + s)), rest)
    decreases |s|
  {
    if s == "" {
      assert Escape(s) + rest == rest && st.cur.value + s == st.cur.value;
    } else {
      var head := if s[0] == '"' then "\"\"" else [s[0]];
      assert Escape(s) + rest == head + (Escape(s[1..]) + rest);
      assert (head + (Escape(s[1..]) + rest))[|head|..] == Escape(s[1..]) + rest;
      ScanEscaped(st.(cur := Some(st.cur.value + [s[0]])), s[1..], rest);
      assert st.cur.value + [s[0]] + s[1..] == st.cur.value + s;
    }
  }

  lemma QuoteThen(s: string, rest: string)
    ensures Quote(s) + rest == "\"" + (Escape(s) + ("\"" + rest))
  {
  }

  lemma OpensQuote(st: Scanner, rest: string)
    requires st.Scanner? && !st.quoted
    ensures Scan(st, "\"" + rest) == Scan(st.(quoted := true), rest)
  {
    assert ("\"" + rest)[1..] == rest;
  }

  lemma ClosesQuote(st: Scanner, rest: string)
    requires st.Scanner? && st.quoted && (rest == "" || rest[0] != '"')
    ensures Scan(st, "\"" + rest) == Scan(Scanner(st.out + [st.cur], None, false), rest)
  {
    assert ("\"" + rest)[1..] == rest;
  }

  /** Quoted text from the opening quote through the closing one. */
  lemma ScanQuoted(st: Scanner, s: string, rest: string)
    requires st.Scanner? && !st.quoted && st.cur.Some? && (rest == "" || rest[0] != '"')
    ensures Scan(st, Quote(s) + rest) == Scan(Scanner(st.out + [Some(st.cur.value + s)], None, false), rest)
  {
    var tail := "\"" + rest;
    hide Scan, Escape, Quote;
    QuoteThen(s, rest);
    OpensQuote(st, Escape(s) + tail);
    ScanEscaped(st.(quoted := true), s, tail);
    ClosesQuote(Scanner(st.out, Some(st.cur.value + s), true), rest);
  }

  /** The state after an item. */
  function After(out: seq<Entry>, item: Item): Scanner {
    match item
    case Bare(text) => Scanner(out, Some(text), false)
    case Quoted(before, text, _) => Scanner(out + [Some(before + text)], None, false)
    case Open(before, text) => Scanner(out, Some(before + text), true)
    case Reopened(before, text, _, _) => Scanner(out + [Some(before + text)], None, true)
  }

  lemma ScanItem(out: seq<Entry>, item: Item, rest: string)
    requires item.Valid() && (rest == "" || (item.Closed() && rest[0] == ','))
    ensures Scan(Scanner(out, Some(""), false), item.Print() + rest) == Scan(After(out, item), rest)
  {
    match item
    case Bare(text) =>
      ScanPlain(Scanner(out, Some(""), false), text, rest);
      assert "" + text == text;
    case Quoted(before, text, after) => ScanClosed(out, before, text, after, rest);
    case Open(before, text) =>
      ScanOpen(out, before, text);
      assert item.Print() + "" == item.Print();
    case Reopened(before, text, after, more) =>
      ScanReopened(out, before, text, after, more);
      assert item.Print() + "" == item.Print();
  }

  lemma ScanClosed(out: seq<Entry>, before: string, text: string, after: string, rest: string)
    requires Plain(before) && Plain(after) && (rest == "" || rest[0] != '"')
    ensures Scan(Scanner(out, Some(""), false), before + Quote(text) + after + rest)
            == Scan(Scanner(out + [Some(before + text)], None, false), rest)
  {
    hide Scan, Quote;
    ScanBefore(out, before, text, after + rest);
    assert before + Quote(text) + after + rest == before + Quote(text) + (after + rest);
    ScanPlain(Scanner(out + [Some(before + text)], None, false), after, rest);
  }

  lemma ScanOpen(out: seq<Entry>, before: string, text: string)
    requires Plain(before)
    ensures Scan(Scanner(out, Some(""), false), before + "\"" + Escape(text)) == Scanner(out, Some(before + text), true)
  {
    hide Escape;
    var tail := Escape(text) + "";
    assert before + "\"" + Escape(text) == before + ("\"" + tail);
    ScanPlain(Scanner(out, Some(""), false), before, "\"" + tail);
    assert "" + before == before;
    OpensQuote(Scanner(out, Some(before), false), tail);
    ScanEscaped(Scanner(out, Some(before), true), text, "");
  }

  lemma ScanReopened(out: seq<Entry>, before: string, text: string, after: string, more: string)
    requires Plain(before) && Plain(after) && after != "" && '"' !in more
    ensures Scan(Scanner(out, Some(""), false), before + Quote(text) + after + "\"" + more)
            == Scanner(out + [Some(before + text)], None, true)
  {
    hide Scan, Quote;
    var st := Scanner(out + [Some(before + text)], None, false);
    var tail := after + ("\"" + more);
    assert before + Quote(text) + after + "\"" + more == before + Quote(text) + tail;
    assert tail[0] == after[0];
    ScanBefore(out, before, text, tail);
    ScanPlain(st, after, "\"" + more);
    OpensQuote(st, more);
    ScanDeaf(st.out, more);
  }

  lemma ScanBefore(out: seq<Entry>, before: string, text: string, rest: string)
    requires Plain(before) && (rest == "" || rest[0] != '"')
    ensures Scan(Scanner(out, Some(""), false), before + Quote(text) + rest)
            == Scan(Scanner(out + [Some(before + text)], None, false), rest)
  {
    assert before + Quote(text) + rest == before + (Quote(text) + rest);
    ScanPlain(Scanner(out, Some(""), false), before, Quote(text) + rest);
    assert "" + before == before;
    ScanQuoted(Scanner(out, Some(before), false), text, rest);
  }

  /** Inside a second quoted part nothing is kept. */
  lemma {:induction false} ScanDeaf(out: seq<Entry>, s: string)
    requires '"' !in s
    ensures Scan(Scanner(out, None, true), s) == Scanner(out, None, true)
  {
    if s == "" {
    } else {
      ScanDeaf(out, s[1..]);
    }
  }

  lemma ScanComma(out: seq<Entry>, item: Item, rest: string)
    requires item.Valid() && item.Closed()
    ensures Scan(Scanner(out, Some(""), false), item.Print() + ("," + rest))
            == Scan(Scanner(out + [Some(item.Text())], Some(""), false), rest)
  {
    ScanItem(out, item, "," + rest);
    assert ("," + rest)[1..] == rest;
  }

  lemma EntriesCons(items: seq<Item>)
    requires |items| > 1
    ensures Print(items) == items[0].Print() + ("," + Print(items[1..]))
    ensures EntriesOf(items) == [Some(items[0].Text())] + EntriesOf(items[1..])
  {
    Assoc(items[0].Print(), ",", Print(items[1..]));
  }

  lemma {:induction false} ScanList(out: seq<Entry>, items: seq<Item>)
    requires ValidList(items) && items != []
    ensures Finish(Scan(Scanner(out, Some(""), false), Print(items))) == Ok(out + EntriesOf(items))
    decreases |items|
  {
    var item := items[0];
    if |items| == 1 {
      ScanItem(out, item, "");
      assert item.Print() + "" == item.Print();
      assert EntriesOf(items[1..]) == [];
      assert out + [] == out;
      assert [Some(item.Text())] + [] == [Some(item.Text())];
    } else {
      hide Scan, Finish, Item.Print, Item.Text, Item.Valid, Print, EntriesOf;
      EntriesCons(items);
      ScanComma(out, item, Print(items[1..]));
      ScanList(out + [Some(item.Text())], items[1..]);
      Assoc(out, [Some(item.Text())], EntriesOf(items[1..]));
    }
  }

  /** Reading undoes printing: of every list of items the entries come back in order, a blank last
      item that is not quoted left out. */
  lemma SplitUndoesPrint(items: seq<Item>)
    requires ValidList(items)
    ensures Split(Print(items)) == Ok(EntriesOf(items))
  {
    if items != [] {
      ScanList([], items);
      assert [] + EntriesOf(items) == EntriesOf(items);
    }
  }

  // --------------------------------------------------- every text, exactly

  /** The entries are texts, all of them, and the program did not crash. */
  predicate Readable(r: Entries) { r.Ok? && None !in r.value }

  function PlainLength(s: string): (n: nat)
    ensures n <= |s| && Plain(s[..n])
    ensures n < |s| ==> s[n] == ',' || s[n] == '"'
  {
    if s == "" || s[0] == ',' || s[0] == '"' then 0
    else
      var n := PlainLength(s[1..]);
      assert s[..n + 1] == [s[0]] + s[1..][..n];
      n + 1
  }

  lemma EscapeOne(s: string, c: char, body: string, n: nat)
    requires var one := if c == '"' then "\"\"" else [c];
             one <= s && n <= |s| - |one| && Escape(body) == s[|one|..][..n]
    ensures Escape([c] + body) == s[..n + if c == '"' then 2 else 1]
  {
    assert ([c] + body)[1..] == body;
  }

  /** Quoted text up to the closing quote or the end, and how many characters it takes. */
  function Body(s: string): (b: (string, nat))
    ensures b.1 <= |s| && Escape(b.0) == s[..b.1]
    ensures b.1 < |s| ==> s[b.1] == '"' && (b.1 + 1 < |s| ==> s[b.1 + 1] != '"')
    decreases |s|
  {
    if s == "" then ("", 0)
    else if s[0] != '"' then
      var b := Body(s[1..]);
      EscapeOne(s, s[0], b.0, b.1);
      ([s[0]] + b.0, b.1 + 1)
    else if |s| > 1 && s[1] == '"' then
      var b := Body(s[2..]);
      EscapeOne(s, '"', b.0, b.1);
      ("\"" + b.0, b.1 + 2)
    else ("", 0)
  }

  /** The first item of a text and what follows its comma, if anything; no item when its quotes
      open a second time and come to another quote. */
  datatype First =
    | Whole(item: Item)
    | Comma(item: Item, rest: string)
    | Unreadable(before: string, text: string, more: string)
  {
    ghost predicate Of(all: string) {
      match this
      case Whole(item) => item.Valid() && item.Print() == all
      case Comma(item, rest) => item.Valid() && item.Closed() && item.Print() + ("," + rest) == all
      case Unreadable(before, text, more) =>
        Plain(before) && before + Quote(text) + more == all && SecondQuotes(more)
    }
  }

  /** After closed quotes: plain text, an opening quote, and a third one somewhere. */
  ghost predicate SecondQuotes(more: string) {
    var p := PlainLength(more);
    0 < p < |more| && more[p] == '"' && '"' in more[p + 1..]
  }

  function FirstItem(text: string): (f: First)
    ensures f.Of(text)
  {
    var p := PlainLength(text);
    if p == |text| then Whole(Bare(text))
    else
      assert text == text[..p] + ([text[p]] + text[p + 1..]);
      if text[p] == ',' then Comma(Bare(text[..p]), text[p + 1..])
      else FirstQuoted(text[..p], text[p + 1..], text)
  }

  function FirstQuoted(before: string, tail: string, ghost all: string): (f: First)
    requires Plain(before) && all == before + ("\"" + tail)
    ensures f.Of(all)
  {
    var b := Body(tail);
    if b.1 == |tail| then
      Whole(Open(before, b.0))
    else
      CloseQuotes(before, b.0, b.1, tail);
      AfterQuotes(before, b.0, tail[b.1 + 1..], all)
  }

  lemma CloseQuotes(before: string, text: string, n: nat, tail: string)
    requires n < |tail| && Escape(text) == tail[..n] && tail[n] == '"'
    ensures before + ("\"" + tail) == before + Quote(text) + tail[n + 1..]
  {
    assert tail == tail[..n] + "\"" + tail[n + 1..];
  }

  function AfterQuotes(before: string, text: string, more: string, ghost all: string): (f: First)
    requires Plain(before) && all == before + Quote(text) + more && (more == "" || more[0] != '"')
    ensures f.Of(all)
  {
    var p := PlainLength(more);
    if p == |more| then Whole(Quoted(before, text, more))
    else
      Regroup(before + Quote(text), more, p);
      if more[p] == ',' then Comma(Quoted(before, text, more[..p]), more[p + 1..])
      else if '"' in more[p + 1..] then Unreadable(before, text, more)
      else Whole(Reopened(before, text, more[..p], more[p + 1..]))
  }

  lemma Regroup(head: string, more: string, p: nat)
    requires p < |more|
    ensures head + more == head + more[..p] + ([more[p]] + more[p + 1..])
    ensures head + more == head + more[..p] + [more[p]] + more[p + 1..]
  {
    assert more == more[..p] + [more[p]] + more[p + 1..];
  }

  lemma {:induction false} NoneStays(st: Scanner, text: string)
    requires st.Scanner? && None in st.out
    ensures !Readable(Finish(Scan(st, text)))
    decreases |text|
  {
    if text == "" {
    } else {
      if text[0] == '"' {
        if st.quoted && |text| > 1 && text[1] == '"' {
          if st.cur.Some? {
            NoneStays(st.(cur := Some(st.cur.value + "\"")), text[2..]);
          }
        } else if !st.quoted {
          NoneStays(st.(quoted := true), text[1..]);
        } else {
          NoneStays(Scanner(st.out + [st.cur], None, false), text[1..]);
        }
      } else if text[0] == ',' && !st.quoted {
        var out := if st.cur.Some? then st.out + [Some(Strip(st.cur.value))] else st.out;
        NoneStays(Scanner(out, Some(""), false), text[1..]);
      } else if st.cur.Some? {
        NoneStays(st.(cur := Some(st.cur.value + [text[0]])), text[1..]);
      } else {
        NoneStays(st, text[1..]);
      }
    }
  }

  /** A quote inside a second quoted part leaves no text or crashes. */
  lemma {:induction false} SecondQuotesFail(out: seq<Entry>, s: string)
    requires '"' in s
    ensures !Readable(Finish(Scan(Scanner(out, None, true), s)))
  {
    if s[0] != '"' {
      SecondQuotesFail(out, s[1..]);
    } else if !(|s| > 1 && s[1] == '"') {
      NoneStays(Scanner(out + [None], None, false), s[1..]);
    }
  }

  lemma UnreadableFails(out: seq<Entry>, before: string, text: string, more: string)
    requires Plain(before) && SecondQuotes(more)
    ensures !Readable(Finish(Scan(Scanner(out, Some(""), false), before + Quote(text) + more)))
  {
    ScanBefore(out, before, text, more);
    var p, st := PlainLength(more), Scanner(out + [Some(before + text)], None, false);
    assert more == more[..p] + more[p..];
    ScanPlain(st, more[..p], more[p..]);
    assert more[p..][1..] == more[p + 1..];
    SecondQuotesFail(st.out, more[p + 1..]);
  }

  lemma {:induction false} ReadableIsPrinted(out: seq<Entry>, text: string) returns (items: seq<Item>)
    requires Readable(Finish(Scan(Scanner(out, Some(""), false), text)))
    ensures ValidList(items) && items != [] && Print(items) == text
    decreases |text|
  {
    hide Scan, Finish, Readable, Item.Print, Item.Text, SecondQuotes, Escape;
    match FirstItem(text)
    case Whole(item) => items := [item];
    case Unreadable(before, t, more) =>
      UnreadableFails(out, before, t, more);
      items := [];
    case Comma(item, rest) =>
      ScanComma(out, item, rest);
      var more := ReadableIsPrinted(out + [Some(item.Text())], rest);
      items := [item] + more;
      PrintCons(item, more);
  }

  lemma PrintCons(item: Item, more: seq<Item>)
    requires more != []
    ensures Print([item] + more) == item.Print() + ("," + Print(more))
  {
    assert ([item] + more)[1..] == more;
    assert item.Print() + ("," + Print(more)) == item.Print() + "," + Print(more);
  }

  /** On every text: the reader gives texts only, without crashing, exactly when the text is a
      printed list; what it gives then are the texts of the list. */
  lemma SplitExactly(text: string)
    ensures Readable(Split(text)) <==> exists items :: ValidList(items) && Print(items) == text
    ensures forall items :: ValidList(items) && Print(items) == text ==> Split(text) == Ok(EntriesOf(items))
  {
    if Readable(Split(text)) {
      var items := ReadableIsPrinted([], text);
    }
    forall items | ValidList(items) && Print(items) == text
      ensures Split(text) == Ok(EntriesOf(items)) && Readable(Split(text))
    {
      SplitUndoesPrint(items);
      EntriesAreTexts(items);
    }
  }

  lemma {:induction false} EntriesAreTexts(items: seq<Item>)
    ensures None !in EntriesOf(items)
  {
    if items == [] {
    } else {
      EntriesAreTexts(items[1..]);
    }
  }

  /** An item quoted twice is never read. */
  lemma TwiceQuoted(a: string, b: string)
    ensures !Readable(Split(Quote(a) + " " + Quote(b)))
  {
    var more := " " + Quote(b);
    assert more[1..] == "\"" + (Escape(b) + "\"") && more[1] == '"' && more[2..] == Escape(b) + "\"";
    assert PlainLength(more) == 1;
    assert (Escape(b) + "\"")[|Escape(b)|] == '"';
    UnreadableFails([], "", a, more);
    assert "" + Quote(a) + more == Quote(a) + " " + Quote(b);
  }
}
