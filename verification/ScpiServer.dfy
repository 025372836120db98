/** The SCPI server: a message cut into units, units into commands, answers and the error queue. */
module ScpiServer {
  import opened Results
  import opened Text
  import opened ScpiStream
  import opened ScpiInput

  // --------------------------------------------------------------- units

  /** Reading a message: the units so far, the one being read, and the quote that opened a string. */
  datatype Reader = Reader(units: seq<string>, cur: string, quote: Option<char>)

  function ReadChar(r: Reader, c: char): Reader {
    var quote :=
      if r.quote.None? && (c == '"' || c == '\'') then Some(c)
      else if r.quote == Some(c) then None
      else r.quote;
    if c == ';' && quote.None? then Reader(r.units + [r.cur], "", quote)
    else Reader(r.units, r.cur + [c], quote)
  }

  function ReadAll(r: Reader, text: string): Reader
    decreases |text|
  {
    if text == "" then r else ReadAll(ReadChar(r, text[0]), text[1..])
  }

  const READER := Reader([], "", None)

  function Units(text: string): seq<string> {
    var r := ReadAll(READER, text);
    r.units + [r.cur]
  }

  method SplitUnits(text: string) returns (units: seq<string>)
    ensures units == Units(text)
  {
    units := [];
    var cur, quote: Option<char> := "", None;
    for i := 0 to |text|
      invariant ReadAll(Reader(units, cur, quote), text[i..]) == ReadAll(READER, text)
    {
      var c := text[i];
      if quote.None? && (c == '"' || c == '\'') {
        quote := Some(c);
      } else if quote == Some(c) {
        quote := None;
      }
      if c == ';' && quote.None? {
        units := units + [cur];
        cur := "";
      } else {
        cur := cur + [c];
      }
      assert text[i..][1..] == text[i + 1..];
    }
    units := units + [cur];
  }

  // ------------------------------------------------------------ commands

  datatype Command = Command(path: seq<string>, suffix: seq<nat>, query: bool, args: string)

  predicate IsMnemonicChar(c: char) { 'A' <= c <= 'Z' || 'a' <= c <= 'z' || c == '*' || c == '_' }

  function Upper(s: string): (r: string)
    ensures |r| == |s|
  {
    seq(|s|, i requires 0 <= i < |s| => if 'a' <= s[i] <= 'z' then (s[i] as int - 32) as char else s[i])
  }

  function LetterRun(s: string): (n: nat)
    ensures n <= |s| && forall i :: 0 <= i < n ==> IsMnemonicChar(s[i])
    ensures n < |s| ==> !IsMnemonicChar(s[n])
  {
    if s == "" || !IsMnemonicChar(s[0]) then 0 else 1 + LetterRun(s[1..])
  }

  /** Letters and a numeric suffix, 1 without one. */
  function Mnemonic(part: string): Option<(string, nat)> {
    var n := LetterRun(part);
    if n == 0 then None
    else if n == |part| then Some((Upper(part), 1))
    else if IsNumber(part[n..]) then Some((Upper(part[..n]), ToNat(part[n..])))
    else None
  }

  function Mnemonics(parts: seq<string>): Option<seq<(string, nat)>> {
    if parts == [] then Some([])
    else
      var first, rest := Mnemonic(parts[0]), Mnemonics(parts[1..]);
      if first.None? || rest.None? then None else Some([first.value] + rest.value)
  }

  function IndexOf(s: string, c: char): (n: nat)
    ensures n <= |s| && (n < |s| ==> s[n] == c) && forall i :: 0 <= i < n ==> s[i] != c
  {
    if s == "" || s[0] == c then 0 else 1 + IndexOf(s[1..], c)
  }

  /** A unit read at a level of the command tree: blank, not a command, or a command and the level
      it leaves behind. */
  datatype Parsed = Blank | Bad | Parsed(command: Command, level: seq<string>)

  function Names(m: seq<(string, nat)>): seq<string> {
    seq(|m|, i requires 0 <= i < |m| => m[i].0)
  }

  function Ones(n: nat): seq<nat> { seq(n, i => 1) }

  function Suffixes(m: seq<(string, nat)>): seq<nat> {
    seq(|m|, i requires 0 <= i < |m| => m[i].1)
  }

  function ParseUnit(level: seq<string>, raw: string): Parsed {
    var unit := Trim(raw);
    if unit == "" then Blank
    else
      var cut := CutArgs(unit);
      ParseHead(level, cut.0, cut.1)
  }

  /** A unit up to its first blank, and its argument. */
  function CutArgs(unit: string): (string, string) {
    var space := IndexOf(unit, ' ');
    (unit[..space], if space < |unit| then Trim(unit[space + 1..]) else "")
  }

  function ParseHead(level: seq<string>, head: string, args: string): Parsed {
    var query := head != "" && head[|head| - 1] == '?';
    ParseHeader(level, if query then head[..|head| - 1] else head, query, args)
  }

  function ParseHeader(level: seq<string>, header: string, query: bool, args: string): Parsed {
    var colon := header != "" && header[0] == ':';
    var absolute := colon || (header != "" && header[0] == '*');
    var words := Mnemonics(SplitAt(if colon then header[1..] else header, ':'));
    if words.None? || words.value == [] then Bad
    else ParseWords(if absolute then [] else level, level, words.value, query, args)
  }

  function ParseWords(start: seq<string>, level: seq<string>, words: seq<(string, nat)>, query: bool,
                      args: string): Parsed
    requires words != []
  {
    var path := start + Names(words);
    var common := path[0] != "" && path[0][0] == '*';
    Parsed(Command(path, Ones(|start|) + Suffixes(words), query, args),
           if common then level else path[..|path| - 1])
  }

  /** The commands of units read at a level, none for a unit that is not one. */
  function Commands(level: seq<string>, units: seq<string>): seq<Option<Command>>
    decreases |units|
  {
    if units == [] then []
    else
      var p := ParseUnit(level, units[0]);
      CommandOf(p) + Commands(LevelAfter(level, p), units[1..])
  }

  function CommandOf(p: Parsed): seq<Option<Command>> {
    match p
    case Blank => []
    case Bad => [None]
    case Parsed(command, _) => [Some(command)]
  }

  function LevelAfter(level: seq<string>, p: Parsed): seq<string> {
    if p.Parsed? then p.level else level
  }

  // ----------------------------------------------------- the error queue

  type Error = (int, string)

  type Queue = seq<Error>

  const MAX_ERRORS := 20

  const OVERFLOW: Error := (-350, "Queue overflow")

  const COMMAND_ERROR: Error := (-100, "Command error")

  const INPUT_OVERRUN: Error := (-363, "Input buffer overrun")

  const UNDEFINED_HEADER: Error := (-113, "Undefined header")

  /** An error more; a full queue loses its newest and notes the overflow instead. */
  function Pushed(q: Queue, e: Error): (r: Queue)
    ensures |q| <= MAX_ERRORS ==> 0 < |r| <= MAX_ERRORS
    ensures |q| < MAX_ERRORS ==> r == q + [e]
    ensures |q| >= MAX_ERRORS ==> |r| == |q| && r[|r| - 1] == OVERFLOW && r[..|q| - 1] == q[..|q| - 1]
  {
    if |q| >= MAX_ERRORS then q[..|q| - 1] + [OVERFLOW] else q + [e]
  }

  function OfInt(n: int): string { if n < 0 then "-" + OfNat(-n) else OfNat(n) }

  /** An error as the query for it answers. */
  function ErrorText(e: Error): string { OfInt(e.0) + ",\"" + e.1 + "\"" }

  /** What the query answers when there is none. */
  const NONE: Error := (0, "No error")

  // ------------------------------------------------------------- answers

  /** What a command does: its answer, none for a command or a refused query, and the error queue
      after it. */
  type Handler = (Command, Queue) -> (Option<string>, Queue)

  /** A mnemonic in its long or short form. */
  predicate Is(word: string, long: string, short: string) { word == long || word == short }

  /** A header of the error queue, SYSTem:ERRor. */
  predicate OfErrors(c: Command) {
    |c.path| >= 2 && Is(c.path[0], "SYSTEM", "SYST") && Is(c.path[1], "ERROR", "ERR")
  }

  /** What a command of the error queue does: SYSTem:ERRor[:NEXT]? takes the oldest error away. */
  function ErrorAnswer(c: Command, q: Queue): (Option<string>, Queue) {
    if !c.query then (None, Pushed(q, COMMAND_ERROR))
    else if |c.path| == 3 && Is(c.path[2], "COUNT", "COUN") then (Some(OfNat(|q|)), q)
    else if |c.path| == 3 && c.path[2] != "NEXT" then (None, Pushed(q, UNDEFINED_HEADER))
    else if q == [] then (Some(ErrorText(NONE)), q)
    else (Some(ErrorText(q[0])), q[1..])
  }

  /** A command served: those of the error queue and *OPC here, all others by the device. */
  function ServedBy(device: Handler, c: Command, q: Queue): (Option<string>, Queue) {
    if c.path == ["*OPC"] then (if c.query then Some("1") else None, q)
    else if OfErrors(c) then ErrorAnswer(c, q)
    else device(c, q)
  }

  function Served(device: Handler): Handler { (c, q) => ServedBy(device, c, q) }

  /** Commands in turn: the answers of the queries and the errors. */
  function Serve(h: Handler, commands: seq<Option<Command>>, q: Queue): (r: (seq<string>, Queue))
    decreases |commands|
  {
    if commands == [] then ([], q)
    else
      var one := ServeOne(h, commands[0], q);
      var rest := Serve(h, commands[1..], one.1);
      (one.0 + rest.0, rest.1)
  }

  function ServeOne(h: Handler, c: Option<Command>, q: Queue): (seq<string>, Queue) {
    match c
    case None => ([], Pushed(q, COMMAND_ERROR))
    case Some(command) =>
      var r := h(command, q);
      (if r.0.Some? then [r.0.value] else [], r.1)
  }

  /** The answers in one line. The separator goes before an answer unless the line is still empty,
      so empty answers at the front leave no trace. */
  function JoinAnswers(out: string, answers: seq<string>): string
    decreases |answers|
  {
    if answers == [] then out
    else JoinAnswers(out + (if out == "" then "" else ";") + answers[0], answers[1..])
  }

  function Respond(h: Handler, message: string, q: Queue): (string, Queue) {
    var text := Trim(message);
    if text == "" then ("", q)
    else
      var r := Serve(h, Commands([], Units(text)), q);
      (if r.0 == [] then "" else JoinAnswers("", r.0) + "\n", r.1)
  }

  /** What a line gets, or an overrun of the input. */
  function RespondTo(h: Handler, e: Event, q: Queue): (string, Queue) {
    match e
    case GotLine(text) => Respond(h, text, q)
    case Overrun => ("", Pushed(q, INPUT_OVERRUN))
  }

  function RespondToAll(h: Handler, events: seq<Event>, q: Queue): (string, Queue)
    decreases |events|
  {
    if events == [] then ("", q)
    else
      var first := RespondTo(h, events[0], q);
      var rest := RespondToAll(h, events[1..], first.1);
      (first.0 + rest.0, rest.1)
  }

  lemma {:induction false} RespondToMore(h: Handler, events: seq<Event>, more: seq<Event>, q: Queue)
    ensures var first := RespondToAll(h, events, q);
            var rest := RespondToAll(h, more, first.1);
            RespondToAll(h, events + more, q) == (first.0 + rest.0, rest.1)
    decreases |events|
  {
    hide Respond;
    if events == [] {
      assert events + more == more;
      Unchanged(RespondToAll(h, more, q).0);
    } else {
      var first := RespondTo(h, events[0], q);
      assert (events + more)[1..] == events[1..] + more;
      RespondToMore(h, events[1..], more, first.1);
      var rest := RespondToAll(h, events[1..], first.1);
      Assoc(first.0, rest.0, RespondToAll(h, more, rest.1).0);
    }
  }

  /** Commands still to be served bring the answers so far to the result of the message. */
  ghost predicate Pending(h: Handler, commands: seq<Option<Command>>, answers: seq<string>, q: Queue,
                          result: (seq<string>, Queue))
  {
    var rest := Serve(h, commands, q);
    answers + rest.0 == result.0 && rest.1 == result.1
  }

  lemma UnitServed(h: Handler, p: Parsed, later: seq<Option<Command>>, answers: seq<string>, q: Queue,
                   more: seq<string>, next: Queue, result: (seq<string>, Queue))
    requires Pending(h, CommandOf(p) + later, answers, q, result)
    requires match p
             case Blank => more == answers && next == q
             case Bad => more == answers && next == Pushed(q, COMMAND_ERROR)
             case Parsed(command, _) =>
               var r := h(command, q);
               next == r.1 && more == if r.0.Some? then answers + [r.0.value] else answers
    ensures Pending(h, later, more, next, result)
  {
    if p.Blank? {
      assert [] + later == later;
    } else {
      assert (CommandOf(p) + later)[0] == CommandOf(p)[0] && (CommandOf(p) + later)[1..] == later;
      var one, rest := ServeOne(h, CommandOf(p)[0], q), Serve(h, later, next);
      assert answers + (one.0 + rest.0) == answers + one.0 + rest.0;
      assert answers + [] == answers;
    }
  }

  lemma PendingEnds(h: Handler, units: seq<string>, q: Queue, none: seq<string>)
    requires none == []
    ensures Pending(h, Commands([], units[0..]), none, q, Serve(h, Commands([], units), q))
  {
    assert units[0..] == units;
    var all := Serve(h, Commands([], units), q).0;
    assert none + all == all;
  }

  lemma NonePending(h: Handler, level: seq<string>, units: seq<string>, answers: seq<string>, q: Queue,
                    result: (seq<string>, Queue))
    requires Pending(h, Commands(level, units[|units|..]), answers, q, result)
    ensures result == (answers, q)
  {
    assert units[|units|..] == [];
    assert answers + [] == answers;
  }

  lemma CommandsStep(level: seq<string>, units: seq<string>, i: nat, p: Parsed)
    requires i < |units| && p == ParseUnit(level, units[i])
    ensures Commands(level, units[i..]) == CommandOf(p) + Commands(LevelAfter(level, p), units[i + 1..])
  {
    assert units[i..][1..] == units[i + 1..];
  }

  lemma OneEvent(h: Handler, e: Event, q: Queue)
    ensures RespondToAll(h, [e], q) == RespondTo(h, e, q)
  {
    hide Respond;
    var r := RespondTo(h, e, q);
    assert [e][1..] == [] && RespondToAll(h, [], r.1) == ("", r.1);
    Unchanged(r.0);
  }

  lemma NextLine(h: Handler, buf: string, q: Queue)
    requires HasLine(buf)
    ensures var first := Respond(h, Chop(Line(buf)), q);
            var rest := RespondToAll(h, LinesIn(AfterLine(buf)).0, first.1);
            && RespondToAll(h, LinesIn(buf).0, q) == (first.0 + rest.0, rest.1)
            && LinesIn(buf).1 == LinesIn(AfterLine(buf)).1
  {
    hide Respond;
    var e, rest := GotLine(Chop(Line(buf))), LinesIn(AfterLine(buf)).0;
    OneEvent(h, e, q);
    RespondToMore(h, [e], rest, q);
  }

  lemma NextPiece(h: Handler, buf: string, pieces: seq<Chunk>, q: Queue)
    requires pieces != []
    ensures var a := Arrival(buf, pieces[0]);
            var first := RespondToAll(h, a.0, q);
            var rest := RespondToAll(h, Arrivals(a.1, pieces[1..]).0, first.1);
            && RespondToAll(h, Arrivals(buf, pieces).0, q) == (first.0 + rest.0, rest.1)
            && Arrivals(buf, pieces).1 == Arrivals(a.1, pieces[1..]).1
  {
    hide Respond, Arrival;
    var a := Arrival(buf, pieces[0]);
    RespondToMore(h, a.0, Arrivals(a.1, pieces[1..]).0, q);
  }

  class ScpiServer {
    var errors: Queue
    /** What the client has sent and the server not yet read. */
    var inbox: string

    constructor ()
      ensures errors == [] && inbox == ""
    {
      errors, inbox := [], "";
    }

    method PushError(code: int, text: string)
      modifies `errors
      ensures errors == Pushed(old(errors), (code, text))
      ensures errors == if |old(errors)| < 20 then old(errors) + [(code, text)]
                        else old(errors)[..|old(errors)| - 1] + [(-350, "Queue overflow")]
    {
      if |errors| >= MAX_ERRORS {
        errors := errors[|errors| - 1 := OVERFLOW];
        assert errors == old(errors)[..|errors| - 1] + [OVERFLOW];
        return;
      }
      errors := errors + [(code, text)];
    }

    /** The commands of the error queue. */
    method AnswerErrors(c: Command) returns (answer: Option<string>)
      requires OfErrors(c)
      modifies `errors
      ensures (answer, errors) == ErrorAnswer(c, old(errors))
    {
      if !c.query {
        PushError(COMMAND_ERROR.0, COMMAND_ERROR.1);
        return None;
      }
      if |c.path| == 3 && Is(c.path[2], "COUNT", "COUN") {
        return Some(OfNat(|errors|));
      }
      if |c.path| == 3 && c.path[2] != "NEXT" {
        PushError(UNDEFINED_HEADER.0, UNDEFINED_HEADER.1);
        return None;
      }
      if errors == [] {
        return Some(ErrorText(NONE));
      }
      var e := errors[0];
      errors := errors[1..];
      return Some(ErrorText(e));
    }

    method Handle(device: Handler, c: Command) returns (answer: Option<string>)
      modifies `errors
      ensures (answer, errors) == ServedBy(device, c, old(errors))
    {
      if c.path == ["*OPC"] {
        return if c.query then Some("1") else None;
      }
      if OfErrors(c) {
        answer := AnswerErrors(c);
        return;
      }
      var r := device(c, errors);
      errors := r.1;
      return r.0;
    }

    /** The loop over the units of a message. */
    method ServeUnits(device: Handler, units: seq<string>) returns (answers: seq<string>)
      modifies `errors
      ensures (answers, errors) == Serve(Served(device), Commands([], units), old(errors))
    {
      ghost var h := Served(device);
      ghost var result := Serve(h, Commands([], units), errors);
      var level: seq<string> := [];
      answers := [];
      PendingEnds(h, units, errors, answers);
      for i := 0 to |units|
        invariant Pending(h, Commands(level, units[i..]), answers, errors, result)
      {
        ghost var before, q := answers, errors;
        var p := ParseUnit(level, units[i]);
        CommandsStep(level, units, i, p);
        if p.Bad? {
          PushError(COMMAND_ERROR.0, COMMAND_ERROR.1);
        } else if p.Parsed? {
          var answer := Handle(device, p.command);
          if answer.Some? {
            answers := answers + [answer.value];
          }
        }
        level := LevelAfter(level, p);
        UnitServed(h, p, Commands(level, units[i + 1..]), before, q, answers, errors, result);
      }
      NonePending(h, level, units, answers, errors, result);
    }

    method Process(device: Handler, message: string) returns (out: string)
      modifies `errors
      ensures (out, errors) == Respond(Served(device), message, old(errors))
    {
      var text := Trim(message);
      if text == "" {
        return "";
      }
      var units := SplitUnits(text);
      var answers := ServeUnits(device, units);
      if answers == [] {
        return "";
      }
      out := "";
      for i := 0 to |answers|
        invariant JoinAnswers(out, answers[i..]) == JoinAnswers("", answers)
      {
        assert answers[i..][1..] == answers[i + 1..];
        out := out + (if out == "" then "" else ";") + answers[i];
      }
      out := out + "\n";
    }

    /** More has arrived: without a line feed too much of it is thrown away, else its lines are
        served. */
    method OnReadyRead(device: Handler, piece: string) returns (out: string)
      modifies this
      ensures var a := Arrival(old(inbox), piece);
              inbox == a.1 && (out, errors) == RespondToAll(Served(device), a.0, old(errors))
    {
      hide Respond, Served;
      inbox := inbox + piece;
      out := "";
      ghost var h, result := Served(device), RespondToAll(Served(device), LinesIn(inbox).0, errors);
      ghost var left := LinesIn(inbox).1;
      if |inbox| > INPUT_LIMIT && !HasLine(inbox) {
        inbox := "";
        PushError(INPUT_OVERRUN.0, INPUT_OVERRUN.1);
        OneEvent(h, Overrun, old(errors));
        return;
      }
      Unchanged(result.0);
      while HasLine(inbox)
        invariant LinesIn(inbox).1 == left
        invariant var rest := RespondToAll(h, LinesIn(inbox).0, errors);
                  result == (out + rest.0, rest.1)
        decreases |inbox|
      {
        var line := Chop(Line(inbox));
        NextLine(h, inbox, errors);
        inbox := AfterLine(inbox);
        var response := Process(device, line);
        Assoc(out, response, RespondToAll(h, LinesIn(inbox).0, errors).0);
        out := out + response;
      }
      Unchanged(out);
    }

    /** All that arrives, piece by piece. */
    method Arrive(device: Handler, pieces: seq<Chunk>) returns (out: string)
      modifies this
      ensures var a := Arrivals(old(inbox), pieces);
              inbox == a.1 && (out, errors) == RespondToAll(Served(device), a.0, old(errors))
    {
      hide Respond, Served, Arrival;
      ghost var h, all := Served(device), Arrivals(inbox, pieces);
      ghost var result := RespondToAll(h, all.0, errors);
      out := "";
      assert pieces[0..] == pieces;
      Unchanged(result.0);
      for i := 0 to |pieces|
        invariant Arrivals(inbox, pieces[i..]).1 == all.1
        invariant var rest := RespondToAll(h, Arrivals(inbox, pieces[i..]).0, errors);
                  result == (out + rest.0, rest.1)
      {
        NextPiece(h, inbox, pieces[i..], errors);
        assert pieces[i..][1..] == pieces[i + 1..];
        var response := OnReadyRead(device, pieces[i]);
        Assoc(out, response, RespondToAll(h, Arrivals(inbox, pieces[i + 1..]).0, errors).0);
        out := out + response;
      }
      assert pieces[|pieces|..] == [];
      Unchanged(out);
    }
  }
}
