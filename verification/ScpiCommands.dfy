/** The client's commands: what is sent of one, what the server makes of it, and how the tool ends. */
module ScpiCommands {
  import opened Results
  import opened Text
  import opened SplitLists
  import opened ScpiStream
  import opened ScpiInput
  import opened ScpiServer
  import opened ScpiMessages
  import opened ScpiClient

  /** A command without line breaks as sent holds one line feed, its last character; the server reads
      it as that one line, however it is cut, exactly when it is within the limit of its input. */
  lemma OneCommand(cmd: string)
    requires OneLiner(cmd)
    ensures LinesOf(cmd + "\n", 2) == ([cmd], true, "")
    ensures (forall pieces: seq<Chunk> ::
               Concat(pieces) == cmd + "\n" ==> Arrivals("", pieces) == ([GotLine(cmd)], ""))
            <==> |cmd| <= 65536
  {
    hide Arrivals;
    OneLineOf(cmd);
    SendingOne(cmd);
    GotOne(cmd);
    LinesArriveExactly([cmd]);
  }

  lemma OneLineOf(cmd: string)
    requires OneLiner(cmd)
    ensures LinesOf(cmd + "\n", 2) == ([cmd], true, "")
  {
    HasLineIsIn(cmd);
    LineIsOne(cmd);
    assert LinesOf("", 1) == ([], true, "");
    assert [cmd] + [] == [cmd];
  }

  /** What the tool sends of a command. */
  function CommandLines(cmd: string): string { cmd + "\n" + (NEXT_ERROR.Text() + "\n") }

  /** How the tool ends on the answer to the query for the next error. */
  function CommandResult(cmd: string, answer: Reply): Result<(), ToolError> {
    match answer
    case Err(failure) => Err(Lost(failure))
    case Ok(e) => if IsNoError(e) then Ok(()) else Err(Refused(cmd, e))
  }

  /** The command is served once, as a whole, and the oldest error it leaves is the tool's. */
  ghost predicate ServedOnce(h: Handler, cmd: string, before: Queue, after: Queue, r: Result<(), ToolError>) {
    var q := Respond(h, cmd, before).1;
    if q == [] then r == Ok(()) && after == []
    else r == Err(Refused(cmd, ErrorText(q[0]))) && after == q[1..]
  }

  /** A command that is no query, to a device that keeps its errors coded. */
  ghost predicate Answerless(device: Handler, cmd: string, q: Queue) {
    Sound(device) && Respond(Served(device), cmd, q).0 == "" && Coded(Respond(Served(device), cmd, q).1)
  }

  /** A short command is served once, whatever the cutting. */
  lemma ShortCommand(device: Handler, cut: Network, sent: string, q: Queue, cmd: string, end: Failure)
    requires Faithful(cut) && Fits(cmd) && Answerless(device, cmd, q)
    ensures var x := Exchanged(Served(device), cut, sent, "", q, CommandLines(cmd));
            && x.1 == "" && Unread(x.0) == ""
            && ServedOnce(Served(device), cmd, q, x.2, CommandResult(cmd, Answered(x.0, end)))
  {
    hide Respond, Served, Exchanged, Strip, Line, HasLine, AfterLine;
    var left := Respond(Served(device), cmd, q).1;
    NextErrorAnswers(device, left);
    ExchangedTwo(Served(device), cut, sent, q, cmd, NEXT_ERROR.Text());
    CodeTells(if left == [] then NONE else left[0]);
    assert left != [] ==> left[0] in left;
    Unchanged(ErrorText(if left == [] then NONE else left[0]) + "\n");
  }

  /** A command, and the error the server answers with. Nothing is sent of one with a line break; any
      other is sent, and within the limit of the server's input it is served once. */
  method Command(conn: Scpi, server: ScpiServer, device: Handler, cut: Network, cmd: string)
    returns (r: Result<(), ToolError>)
    requires conn.Now().Stream() == "" && Faithful(cut)
    modifies conn, server
    ensures !OneLiner(cmd) ==>
              && r == Err(LineBreak) && conn.sent == old(conn.sent)
              && server.errors == old(server.errors) && server.inbox == old(server.inbox)
    ensures OneLiner(cmd) ==>
              var sent := old(conn.sent) + (cmd + "\n");
              var x := Exchanged(Served(device), cut, sent, old(server.inbox), old(server.errors), CommandLines(cmd));
              && conn.sent == old(conn.sent) + CommandLines(cmd)
              && server.inbox == x.1 && server.errors == x.2 && conn.Now().Stream() == Unread(x.0)
              && r == CommandResult(cmd, Answered(x.0, conn.end))
    ensures Fits(cmd) && old(server.inbox) == "" && Answerless(device, cmd, old(server.errors)) ==>
              ServedOnce(Served(device), cmd, old(server.errors), server.errors, r) && Quiet(conn, server)
  {
    hide Respond, Served, Exchanged, Strip, Line, HasLine, AfterLine, Answerless, ServedOnce, QueryOn, Wire.Stream;
    if '\n' in cmd || '\r' in cmd {
      return Err(LineBreak);
    }
    conn.Send(cmd + "\n");
    if Fits(cmd) && server.inbox == "" {
      ShortCommands(device, cut, conn.sent, server.errors, cmd, conn.end);
    }
    Exchange(conn, server, device, cut, CommandLines(cmd));
    QueryTakesLine(conn.Now(), conn.end);
    var e := conn.Query(NEXT_ERROR.Text());
    Assoc(old(conn.sent), cmd + "\n", NEXT_ERROR.Text() + "\n");
    Assoc(old(conn.sent) + (cmd + "\n"), NEXT_ERROR.Text(), "\n");
    if e.Err? {
      return Err(Lost(e.error));
    }
    if !IsNoError(e.value) {
      return Err(Refused(cmd, e.value));
    }
    return Ok(());
  }

  lemma ShortCommands(device: Handler, cut: Network, sent: string, q: Queue, cmd: string, end: Failure)
    requires Faithful(cut) && Fits(cmd)
    ensures Answerless(device, cmd, q) ==>
              var x := Exchanged(Served(device), cut, sent, "", q, CommandLines(cmd));
              && x.1 == "" && Unread(x.0) == ""
              && ServedOnce(Served(device), cmd, q, x.2, CommandResult(cmd, Answered(x.0, end)))
  {
    hide *;
    if Answerless(device, cmd, q) {
      ShortCommand(device, cut, sent, q, cmd, end);
    }
  }

  /** A command of QtDMM's own with a quoted text. */
  function Own(word: string, text: string): Message { Message(["QTDMM", word], false, Quote(text)) }

  lemma QuoteLines(text: string)
    ensures OneLiner(Quote(text)) <==> OneLiner(text)
  {
    EscapeLines(text);
  }

  lemma OwnValid(word: string, text: string)
    requires Word(word)
    ensures Own(word, text).Valid() && !Own(word, text).Common()
    ensures Own(word, text).Text() == "QTDMM:" + word + " " + Quote(text)
    ensures OneLiner(Own(word, text).Text()) <==> OneLiner(text)
  {
    var msg := Own(word, text);
    assert Word("QTDMM");
    assert msg.path[1..] == [word] && Join([word], ":") == word;
    assert Join(msg.path, ":") == "QTDMM" + ":" + word;
    QuoteLines(text);
    assert "QTDMM:" + word + "" + (" " + Quote(text)) == "QTDMM:" + word + " " + Quote(text);
    assert forall c :: c in word ==> IsMnemonicChar(c);
  }

  /** The server reads one command with the quoted text as its argument, whatever the text. */
  lemma OwnIsOneCommand(word: string, text: string)
    requires Word(word)
    ensures Commands([], Units(Own(word, text).Text())) == [Some(Own(word, text).Meaning())]
    ensures Unquote(Own(word, text).Meaning().args) == text
  {
    hide Units, Commands, Unquote, Quote;
    OwnValid(word, text);
    QuoteIsBy(text);
    QuotedCommand(Own(word, text), text, '"');
  }

  /** The text as the tools write it. */
  lemma Written(word: string, text: string)
    requires Word(word)
    ensures "QTDMM:" + word + " \"" + Escape(text) + "\"" == Own(word, text).Text()
  {
    OwnValid(word, text);
    assert "QTDMM:" + word + " \"" + Escape(text) + "\"" == "QTDMM:" + word + " " + ("\"" + Escape(text) + "\"");
  }

  lemma Words()
    ensures Word("MARK") && Word("KEY")
    ensures "QTDMM:" + "MARK" + " \"" == "QTDMM:MARK \"" && "QTDMM:" + "KEY" + " \"" == "QTDMM:KEY \""
  {
  }

  /** What a quoted command does to the server: the device's part alone. */
  lemma OwnServed(device: Handler, word: string, text: string, q: Queue)
    requires Word(word) && device(Own(word, text).Meaning(), q).0.None?
    ensures Respond(Served(device), Own(word, text).Text(), q) == ("", device(Own(word, text).Meaning(), q).1)
  {
    hide Respond, Own, Message.Meaning, Message.Text;
    OwnIsDevices(word, text);
    RespondsToOwn(Served(device), word, text, q);
  }

  lemma RespondsToOwn(h: Handler, word: string, text: string, q: Queue)
    requires Word(word) && h(Own(word, text).Meaning(), q).0.None?
    ensures Respond(h, Own(word, text).Text(), q) == ("", h(Own(word, text).Meaning(), q).1)
  {
    hide Commands, Units, Own, Serve, Message.Text, Message.Meaning, Message.Valid, Unquote;
    var msg := Own(word, text);
    OwnValid(word, text);
    TextTrimmed(msg);
    TrimTight(msg.Text());
    OwnIsOneCommand(word, text);
    ServeAlone(h, msg.Meaning(), q);
  }

  lemma ServeAlone(h: Handler, c: Command, q: Queue)
    ensures var r := h(c, q); Serve(h, [Some(c)], q) == (if r.0.Some? then [r.0.value] else [], r.1)
  {
    var one: seq<Option<Command>> := [Some(c)];
    var none: seq<string>, answer := [], if h(c, q).0.Some? then [h(c, q).0.value] else [];
    assert one[1..] == [] && Serve(h, [], h(c, q).1) == (none, h(c, q).1);
    assert answer + none == answer;
  }

  lemma OwnIsDevices(word: string, text: string)
    ensures var c := Own(word, text).Meaning(); c.path[0] == "QTDMM" && !OfErrors(c) && c.path != ["*OPC"]
  {
    assert Upper("QTDMM") == "QTDMM";
    assert Own(word, text).Meaning().path[0] == "QTDMM" && "QTDMM"[0] == 'Q' && "SYSTEM"[0] == 'S';
  }

  /** A quoted text goes to a sound device that takes it without an answer. */
  ghost predicate Takes(device: Handler, word: string, text: string, q: Queue) {
    var r := device(Own(word, text).Meaning(), q);
    Sound(device) && r.0.None? && Coded(r.1)
  }

  lemma OwnAnswerless(device: Handler, word: string, text: string, q: Queue)
    requires Word(word) && Takes(device, word, text, q)
    ensures Answerless(device, Own(word, text).Text(), q)
    ensures Respond(Served(device), Own(word, text).Text(), q).1 == device(Own(word, text).Meaning(), q).1
  {
    hide Respond, Own, Served;
    OwnServed(device, word, text, q);
  }

  /** How a tool with a quoted text ends: a text with a line break reaches the server not at all; any
      other, within the limit of its input, as the one command, whose first error is the tool's. */
  ghost predicate Sent(word: string, text: string, device: Handler, before: Queue, after: Queue,
                       r: Result<(), ToolError>)
  {
    if !OneLiner(text) then r == Err(LineBreak) && after == before
    else
      var q := device(Own(word, text).Meaning(), before).1;
      if q == [] then r == Ok(()) && after == []
      else r == Err(Refused(Own(word, text).Text(), ErrorText(q[0]))) && after == q[1..]
  }

  /** And any text at all: what the server makes of what is sent, cut as it is. */
  ghost predicate SentCut(word: string, text: string, device: Handler, cut: Network, sent: string, inbox: string,
                          before: Queue, end: Failure, after: Queue, left: string, r: Result<(), ToolError>)
  {
    var cmd := Own(word, text).Text();
    var x := Exchanged(Served(device), cut, sent + (cmd + "\n"), inbox, before, CommandLines(cmd));
    OneLiner(text) ==> left == x.1 && after == x.2 && r == CommandResult(cmd, Answered(x.0, end))
  }

  /** A mark: within the limit of its input the server gets one command whose argument reads back as
      the text, or nothing. */
  method Mark(conn: Scpi, server: ScpiServer, device: Handler, cut: Network, text: string)
    returns (r: Result<(), ToolError>)
    requires conn.Now().Stream() == "" && Faithful(cut)
    modifies conn, server
    ensures conn.sent == old(conn.sent) + if OneLiner(text) then CommandLines(Own("MARK", text).Text()) else ""
    ensures SentCut("MARK", text, device, cut, old(conn.sent), old(server.inbox), old(server.errors), conn.end,
                    server.errors, server.inbox, r)
    ensures old(server.inbox) == "" && Takes(device, "MARK", text, old(server.errors))
            && (OneLiner(text) ==> |Own("MARK", text).Text()| <= 65536) ==>
              Sent("MARK", text, device, old(server.errors), server.errors, r)
  {
    hide Respond, Own, Escape, Takes, Answerless, Exchanged, Message.Text, Message.Meaning;
    var cmd := "QTDMM:MARK \"" + Escape(text) + "\"";
    Words();
    Written("MARK", text);
    OwnValid("MARK", text);
    OwnAnswerlessIf(device, "MARK", text, server.errors);
    r := Command(conn, server, device, cut, cmd);
  }

  /** A key of the meter, pressed the same way. */
  method PressKey(conn: Scpi, server: ScpiServer, device: Handler, cut: Network, key: string)
    returns (r: Result<(), ToolError>)
    requires conn.Now().Stream() == "" && Faithful(cut)
    modifies conn, server
    ensures conn.sent == old(conn.sent) + if OneLiner(key) then CommandLines(Own("KEY", key).Text()) else ""
    ensures SentCut("KEY", key, device, cut, old(conn.sent), old(server.inbox), old(server.errors), conn.end,
                    server.errors, server.inbox, r)
    ensures old(server.inbox) == "" && Takes(device, "KEY", key, old(server.errors))
            && (OneLiner(key) ==> |Own("KEY", key).Text()| <= 65536) ==>
              Sent("KEY", key, device, old(server.errors), server.errors, r)
  {
    hide Respond, Own, Escape, Takes, Answerless, Exchanged, Message.Text, Message.Meaning;
    var cmd := "QTDMM:KEY \"" + Escape(key) + "\"";
    Words();
    Written("KEY", key);
    OwnValid("KEY", key);
    OwnAnswerlessIf(device, "KEY", key, server.errors);
    r := Command(conn, server, device, cut, cmd);
  }

  lemma OwnAnswerlessIf(device: Handler, word: string, text: string, q: Queue)
    requires Word(word)
    ensures Takes(device, word, text, q) ==>
              && Answerless(device, Own(word, text).Text(), q)
              && Respond(Served(device), Own(word, text).Text(), q).1 == device(Own(word, text).Meaning(), q).1
  {
    hide *;
    if Takes(device, word, text, q) {
      OwnAnswerless(device, word, text, q);
    }
  }

  // ------------------------------------------------------------- a long text

  const FILLER: string := seq(INPUT_LIMIT, i => 'x')

  const LONG_MARK: string := FILLER + "ABORt;"

  /** A text without line breaks, and a cutting of its mark: the server throws the beginning away and
      reads the end as a line of its own, which stops the recording. */
  lemma LongMarkTail()
    ensures OneLiner(LONG_MARK)
    ensures var pieces: seq<Chunk> := ["QTDMM:MARK \"" + FILLER, "ABORt;\"" + "\n"];
            && Concat(pieces) == Own("MARK", LONG_MARK).Text() + "\n"
            && Arrivals("", pieces) == ([Overrun, GotLine("ABORt;\"")], "")
    ensures Commands([], Units("ABORt;\"")) == [Some(Message(["ABORt"], false, "").Meaning()), None]
  {
    hide Arrivals, Units, Commands, Own, Message.Text, Message.Meaning, Escape;
    FillerIs();
    var head, tail := "QTDMM:MARK \"" + FILLER, "ABORt;\"";
    LongLineTail(head, tail);
    ChopKeeps(tail);
    Words();
    Written("MARK", LONG_MARK);
    EscapeSize(LONG_MARK);
    MarkParts(head, tail);
    AbortIsRead();
  }

  /** Behind the overrun the device gets that command, and what is left of the text is an error. */
  lemma LongMarkServed(device: Handler, q: Queue)
    ensures var abort := Message(["ABORt"], false, "").Meaning();
            RespondToAll(Served(device), [Overrun, GotLine("ABORt;\"")], q).1 ==
            Pushed(device(abort, Pushed(q, (-363, "Input buffer overrun"))).1, (-100, "Command error"))
  {
    hide Respond, Served, Pushed, Message.Meaning;
    var h, e, line := Served(device), Overrun, GotLine("ABORt;\"");
    RespondToMore(h, [e], [line], q);
    assert [e] + [line] == [e, line];
    OneEvent(h, e, q);
    OneEvent(h, line, RespondTo(h, e, q).1);
    TailServed(device, RespondTo(h, e, q).1);
  }

  lemma TailServed(device: Handler, q: Queue)
    ensures var abort := Message(["ABORt"], false, "").Meaning();
            Respond(Served(device), "ABORt;\"", q).1 == Pushed(device(abort, q).1, (-100, "Command error"))
  {
    hide Pushed, Units, Commands, Message.Meaning;
    var abort := Message(["ABORt"], false, "").Meaning();
    TrimTight("ABORt;\"");
    AbortIsRead();
    AbortPath();
    var commands: seq<Option<Command>>, last: seq<Option<Command>> := [Some(abort), None], [None];
    assert commands[1..] == last && last[1..] == [];
    var left := Served(device)(abort, q).1;
    assert Serve(Served(device), last, left).1 == Serve(Served(device), [], Pushed(left, COMMAND_ERROR)).1;
  }

  lemma AbortPath()
    ensures Message(["ABORt"], false, "").Meaning().path == ["ABORT"]
  {
    assert Upper("ABORt") == "ABORT";
  }

  lemma FillerIs()
    ensures |FILLER| == INPUT_LIMIT && forall c :: c in LONG_MARK ==> c == 'x' || c in "ABORt;"
  {
  }

  lemma MarkParts(head: string, tail: string)
    requires head == "QTDMM:MARK \"" + FILLER && tail == "ABORt;\""
    ensures "QTDMM:MARK \"" + LONG_MARK + "\"" == head + tail
  {
  }

  lemma AbortIsRead()
    ensures Commands([], Units("ABORt;\"")) == [Some(Message(["ABORt"], false, "").Meaning()), None]
  {
    hide ParseUnit, Units, Message.Meaning, Message.Text, Message.ReadFrom, Message.Leaves;
    var abort := Message(["ABORt"], false, "");
    assert Word("ABORt");
    AbortUnits();
    MessageParses([], false, abort);
    Unchanged(abort.Text());
    TopIsMeaning(abort);
    QuoteIsBad(abort.Leaves([], []));
    TwoUnits("ABORt", "\"", abort.Meaning(), abort.Leaves([], []));
  }

  lemma TwoUnits(a: string, b: string, c: Command, level: seq<string>)
    requires ParseUnit([], a) == Parsed(c, level) && ParseUnit(level, b) == Bad
    ensures Commands([], [a, b]) == [Some(c), None]
  {
    hide ParseUnit;
    assert [a, b][1..] == [b] && [b][1..] == [];
    assert Commands(level, []) == [];
  }

  lemma AbortUnits()
    ensures Units("ABORt;\"") == ["ABORt", "\""]
    ensures Message(["ABORt"], false, "").Text() == "ABORt"
  {
    hide ReadAll;
    assert Join(["ABORt"], ":") == "ABORt";
    var word := "ABORt";
    var none: seq<string> := [];
    assert Unquoted(word) && word + (";" + "\"") == "ABORt;\"" && none + [word] == [word];
    Unchanged(word);
    ReadPlain(READER, word, ";" + "\"");
    ReadSemicolon(Reader(none, word, None), "\"");
    ReadLastQuote(Reader([word], "", None));
    Unchanged("\"");
    assert [word] + ["\""] == [word, "\""];
  }

  lemma ReadLastQuote(r: Reader)
    requires r.quote.None?
    ensures ReadAll(r, "\"") == Reader(r.units, r.cur + "\"", Some('"'))
  {
    assert "\""[1..] == "";
  }

  lemma QuoteIsBad(level: seq<string>)
    ensures ParseUnit(level, "\"") == Bad
  {
    hide ParseUnit, ParseHead;
    var quote := "\"";
    UnitParses(level, quote, "");
    HeadParses(level, quote, false, "");
    Unchanged(quote);
    SplitAtFree(quote, ':');
    assert Mnemonic(quote).None? && Mnemonics([quote]).None?;
  }
}
