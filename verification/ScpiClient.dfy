/** The client's exchanges with the server over a connection cut anyhow: batched queries, the
    error queue, commands. */
module ScpiClient {
  import opened Results
  import opened Text
  import opened SplitLists
  import opened ScpiStream
  import opened ScpiInput
  import opened ScpiServer
  import opened ScpiMessages

  // ------------------------------------------------- answers in one line

  /** The answers of the queries not refused. */
  function Given(replies: seq<Option<string>>): seq<string> {
    if replies == [] then []
    else (if replies[0].Some? then [replies[0].value] else []) + Given(replies[1..])
  }

  function DropEmpty(answers: seq<string>): (r: seq<string>)
    ensures |r| <= |answers|
    ensures |r| == |answers| <==> answers == [] || answers[0] != ""
    ensures |r| == |answers| ==> r == answers
    ensures answers != [] && answers[|answers| - 1] != "" ==> r != [] && r[|r| - 1] == answers[|answers| - 1]
    ensures forall a :: a in r ==> a in answers
  {
    if answers == [] || answers[0] != "" then answers else DropEmpty(answers[1..])
  }

  lemma {:induction false} JoinOn(out: string, answers: seq<string>)
    requires out != ""
    ensures JoinAnswers(out, answers) == Join([out] + answers, ";")
    decreases |answers|
  {
    if answers == [] {
      assert [out] + answers == [out];
    } else {
      var next := out + ";" + answers[0];
      JoinOn(next, answers[1..]);
      var all := [out] + answers;
      assert all[1..] == answers && ([next] + answers[1..])[1..] == answers[1..];
      if |answers| > 1 {
        assert out + ";" + (answers[0] + ";" + Join(answers[1..], ";")) == next + ";" + Join(answers[1..], ";");
      }
    }
  }

  /** The server's line holds the answers without the empty ones at the front. */
  lemma {:induction false} LineOfAnswers(answers: seq<string>)
    ensures JoinAnswers("", answers) == Join(DropEmpty(answers), ";")
    decreases |answers|
  {
    if answers == [] {
    } else {
      assert "" + "" + answers[0] == answers[0];
      if answers[0] == "" {
        LineOfAnswers(answers[1..]);
      } else {
        JoinOn(answers[0], answers[1..]);
        assert [answers[0]] + answers[1..] == answers;
      }
    }
  }

  lemma {:induction false} SplitStripped(s: string)
    ensures SplitAt(StripLeft(IsSpace, s), ';') == [StripLeft(IsSpace, SplitAt(s, ';')[0])] + SplitAt(s, ';')[1..]
  {
    if s == "" || !IsSpace(s[0]) {
      var parts := SplitAt(s, ';');
      assert parts == [parts[0]] + parts[1..];
      assert parts[0] == "" || parts[0][0] == s[0];
    } else {
      hide IsSpace;
      SplitStripped(s[1..]);
      SplitBlank(s, SplitAt(s[1..], ';'));
    }
  }

  lemma SplitBlank(s: string, rest: seq<string>)
    requires s != "" && IsSpace(s[0]) && rest == SplitAt(s[1..], ';')
    ensures SplitAt(s, ';')[1..] == rest[1..]
    ensures StripLeft(IsSpace, SplitAt(s, ';')[0]) == StripLeft(IsSpace, rest[0])
  {
    assert SplitAt(s, ';') == [[s[0]] + rest[0]] + rest[1..];
    assert ([s[0]] + rest[0])[1..] == rest[0];
  }

  lemma {:induction false} JoinedEnd(parts: seq<string>)
    requires parts != [] && parts[|parts| - 1] == "1"
    ensures var j := Join(parts, ";"); j != "" && j[|j| - 1] == '1'
  {
    if |parts| <= 1 {
    } else {
      JoinedEnd(parts[1..]);
    }
  }

  /** What the client makes of the line: the answers it finds in it. */
  function Parts(line: string): seq<string> { SplitAt(Strip(line), ';') }

  lemma PartsOfAnswers(answers: seq<string>)
    requires answers != [] && answers[|answers| - 1] == "1" && forall a :: a in answers ==> ';' !in a
    ensures var kept := DropEmpty(answers);
            Parts(JoinAnswers("", answers)) == [StripLeft(IsSpace, kept[0])] + kept[1..]
  {
    hide DropEmpty, JoinAnswers, Join, SplitAt, StripLeft, Parts, Strip;
    LineOfAnswers(answers);
    SomeKept(answers);
    PartsOfJoin(DropEmpty(answers));
  }

  lemma SomeKept(answers: seq<string>)
    requires answers != [] && answers[|answers| - 1] == "1" && forall a :: a in answers ==> ';' !in a
    ensures var kept := DropEmpty(answers);
            kept != [] && kept[|kept| - 1] == "1" && forall a :: a in kept ==> ';' !in a
  {
  }

  lemma PartsOfJoin(kept: seq<string>)
    requires kept != [] && kept[|kept| - 1] == "1" && forall a :: a in kept ==> ';' !in a
    ensures Parts(Join(kept, ";")) == [StripLeft(IsSpace, kept[0])] + kept[1..]
  {
    hide Join, SplitAt, StripLeft, StripRight;
    var line := Join(kept, ";");
    JoinedEnd(kept);
    EndStays(line);
    SplitStripped(line);
    JoinedParts(kept);
  }

  lemma JoinedParts(kept: seq<string>)
    requires kept != [] && forall a :: a in kept ==> ';' !in a
    ensures SplitAt(Join(kept, ";"), ';') == kept
  {
    SplitJoin(kept, ';');
  }

  lemma EndStays(line: string)
    requires line != "" && line[|line| - 1] == '1'
    ensures StripRight(IsSpace, line) == line
  {
  }

  predicate AllGiven(replies: seq<Option<string>>) { forall r :: r in replies ==> r.Some? }

  lemma {:induction false} GivenCount(replies: seq<Option<string>>)
    ensures |Given(replies)| <= |replies|
    ensures |Given(replies)| == |replies| <==> AllGiven(replies)
    ensures AllGiven(replies) ==> forall i :: 0 <= i < |replies| ==> Given(replies)[i] == replies[i].value
    ensures forall a :: a in Given(replies) ==> Some(a) in replies
  {
    if replies == [] {
    } else {
      GivenCount(replies[1..]);
      assert forall r :: r in replies <==> r == replies[0] || r in replies[1..];
    }
  }

  /** The count of answers tells the client whether all its queries were answered: they were, and
      the first answer was not empty, exactly when it is right; then the answers are those of the
      queries in their order, the first without leading blanks. */
  lemma BatchNeverMisattributes(replies: seq<Option<string>>)
    requires forall r :: r in replies && r.Some? ==> ';' !in r.value
    ensures var parts := Parts(JoinAnswers("", Given(replies) + ["1"]));
            && (|parts| == |replies| + 1 <==> AllGiven(replies) && (replies == [] || replies[0].value != ""))
            && (|parts| == |replies| + 1 && replies != [] ==>
                  && parts[0] == StripLeft(IsSpace, replies[0].value)
                  && forall i :: 0 < i < |replies| ==> parts[i] == replies[i].value)
  {
    GivenCount(replies);
    var answers := Given(replies) + ["1"];
    forall a | a in answers
      ensures ';' !in a
    {
      assert a == "1" || Some(a) in replies;
    }
    PartsOfAnswers(answers);
    if AllGiven(replies) && replies != [] {
      assert answers[0] == replies[0].value;
    }
  }

  // ------------------------------------------------- what the server does

  const OPC := Message(["*OPC"], true, "")

  const NEXT_ERROR := Message(["SYSTem", "ERRor"], true, "")

  lemma TheTwoQueries()
    ensures OPC.Text() == "*OPC?" && NEXT_ERROR.Text() == "SYSTem:ERRor?"
    ensures Sendable([OPC]) && Sendable([NEXT_ERROR]) && OPC.Common() && !NEXT_ERROR.Common()
  {
    assert ["SYSTem", "ERRor"][1..] == ["ERRor"];
    assert Word("*OPC") && Word("SYSTem") && Word("ERRor");
  }

  /** Errors have a code, which is not the one of "no error", and fit into a line. */
  predicate Coded(q: Queue) { forall e :: e in q ==> e.0 != 0 && '\n' !in e.1 }

  /** Within the limit of the error queue, and coded. */
  predicate Kept(q: Queue) { Coded(q) && |q| <= MAX_ERRORS }

  /** A device that notes errors with a code only, a limited number of them. */
  ghost predicate Sound(device: Handler) { forall c, q :: Kept(q) ==> Kept(device(c, q).1) }

  /** What the client relies on: *OPC? is answered, the query for the next error takes the oldest
      away, and the queue stays as it should. */
  ghost predicate Proper(h: Handler) {
    && (forall q :: h(OPC.Meaning(), q) == (Some("1"), q))
    && (forall q :: h(NEXT_ERROR.Meaning(), q) ==
          if q == [] then (Some(ErrorText(NONE)), q) else (Some(ErrorText(q[0])), q[1..]))
    && (forall c, q :: Kept(q) ==> Kept(h(c, q).1))
  }

  lemma Headers()
    ensures OPC.Meaning().path == ["*OPC"] && OPC.Meaning().query
    ensures NEXT_ERROR.Meaning().path == ["SYSTEM", "ERROR"] && NEXT_ERROR.Meaning().query
  {
    assert Upper("*OPC") == "*OPC" && Upper("SYSTem") == "SYSTEM" && Upper("ERRor") == "ERROR";
  }

  /** The server does, with any sound device behind it. */
  lemma ServedIsProper(device: Handler)
    requires Sound(device)
    ensures Proper(Served(device))
  {
    hide Message.Meaning, Kept, Sound, ServedBy;
    Headers();
    forall q
      ensures ServedBy(device, OPC.Meaning(), q) == (Some("1"), q)
      ensures ServedBy(device, NEXT_ERROR.Meaning(), q) ==
              if q == [] then (Some(ErrorText(NONE)), q) else (Some(ErrorText(q[0])), q[1..])
    {
      OwnQueries(device, OPC.Meaning(), NEXT_ERROR.Meaning(), q);
    }
    forall c, q | Kept(q)
      ensures Kept(ServedBy(device, c, q).1)
    {
      ServedKeeps(device, c, q);
    }
  }

  lemma OwnQueries(device: Handler, opc: Command, next: Command, q: Queue)
    requires opc.path == ["*OPC"] && opc.query && next.path == ["SYSTEM", "ERROR"] && next.query
    ensures ServedBy(device, opc, q) == (Some("1"), q)
    ensures ServedBy(device, next, q) == if q == [] then (Some(ErrorText(NONE)), q) else (Some(ErrorText(q[0])), q[1..])
  {
    hide ErrorText;
  }

  lemma ServedKeeps(device: Handler, c: Command, q: Queue)
    requires Sound(device) && Kept(q)
    ensures Kept(ServedBy(device, c, q).1)
  {
    hide ErrorText, OfNat, Pushed;
    PushedKeeps(q, COMMAND_ERROR);
    PushedKeeps(q, UNDEFINED_HEADER);
    if q != [] {
      assert forall e :: e in q[1..] ==> e in q;
    }
  }

  lemma PushedKeeps(q: Queue, e: Error)
    requires Kept(q) && e.0 != 0 && '\n' !in e.1
    ensures Kept(Pushed(q, e))
  {
  }

  // ------------------------------------------------ the error queue's own

  const COUNT_ERRORS := Message(["SYSTem", "ERRor", "COUNt"], true, "")

  /** The queue after so many queries for the next error. */
  function After(device: Handler, q: Queue, n: nat): Queue {
    if n == 0 then q else Served(device)(NEXT_ERROR.Meaning(), After(device, q, n - 1)).1
  }

  lemma {:induction false} AfterIs(device: Handler, q: Queue, n: nat)
    requires n <= |q|
    ensures After(device, q, n) == q[n..]
  {
    hide Message.Meaning;
    if n == 0 {
    } else {
      AfterIs(device, q, n - 1);
      Headers();
      OwnQueries(device, OPC.Meaning(), NEXT_ERROR.Meaning(), q[n - 1..]);
      assert q[n - 1..][1..] == q[n..];
    }
  }

  /** The count of the errors is how many queries for the next one are answered by one. */
  lemma CountTells(device: Handler, q: Queue)
    requires Coded(q)
    ensures exists n: nat ::
              && Served(device)(COUNT_ERRORS.Meaning(), q) == (Some(OfNat(n)), q)
              && (forall k :: 0 <= k <= n ==>
                    var answer := Served(device)(NEXT_ERROR.Meaning(), After(device, q, k)).0;
                    answer.Some? && (IsNoError(answer.value) <==> k == n))
  {
    hide Message.Meaning, ErrorText, IsNoError;
    Headers();
    CountHeader();
    CountIs(device, COUNT_ERRORS.Meaning(), q);
    forall k | 0 <= k <= |q|
      ensures var answer := Served(device)(NEXT_ERROR.Meaning(), After(device, q, k)).0;
              answer.Some? && (IsNoError(answer.value) <==> k == |q|)
    {
      AfterIs(device, q, k);
      OwnQueries(device, OPC.Meaning(), NEXT_ERROR.Meaning(), q[k..]);
      if k < |q| {
        assert q[k] in q && q[k..][0] == q[k];
        CodeTells(q[k]);
      } else {
        CodeTells(NONE);
      }
    }
  }

  lemma CountHeader()
    ensures COUNT_ERRORS.Meaning().path == ["SYSTEM", "ERROR", "COUNT"] && COUNT_ERRORS.Meaning().query
  {
    assert Upper("SYSTem") == "SYSTEM" && Upper("ERRor") == "ERROR" && Upper("COUNt") == "COUNT";
  }

  lemma CountIs(device: Handler, c: Command, q: Queue)
    requires c.path == ["SYSTEM", "ERROR", "COUNT"] && c.query
    ensures Served(device)(c, q) == (Some(OfNat(|q|)), q)
  {
    hide OfNat;
  }

  /** The forms of the query for the next error are one; without the question mark, or with another
      word, an error more is noted. */
  lemma ErrorForms(device: Handler, c: Command, q: Queue)
    requires |c.path| == 2 || |c.path| == 3
    requires c.path[0] in {"SYST", "SYSTEM"} && c.path[1] in {"ERR", "ERROR"}
    ensures !c.query ==> Served(device)(c, q) == (None, Pushed(q, (-100, "Command error")))
    ensures c.query && |c.path| == 3 && c.path[2] !in {"NEXT", "COUN", "COUNT"} ==>
              Served(device)(c, q) == (None, Pushed(q, (-113, "Undefined header")))
    ensures c.query && |c.path| == 3 && c.path[2] in {"COUN", "COUNT"} ==> Served(device)(c, q) == (Some(OfNat(|q|)), q)
    ensures c.query && (|c.path| == 2 || c.path[2] == "NEXT") ==>
              Served(device)(c, q) == Served(device)(NEXT_ERROR.Meaning(), q)
  {
    hide Message.Meaning, ErrorAnswer, OfNat, Pushed;
    Headers();
    ErrorsServed(device, c, q);
    ErrorsServed(device, NEXT_ERROR.Meaning(), q);
    ErrorAnswers(c, NEXT_ERROR.Meaning(), q);
  }

  /** *OPC without the question mark answers nothing and notes nothing. */
  lemma OpcAlone(device: Handler, c: Command, q: Queue)
    requires c.path == ["*OPC"] && !c.query
    ensures Served(device)(c, q) == (None, q)
  {
  }

  lemma ErrorsServed(device: Handler, c: Command, q: Queue)
    requires OfErrors(c)
    ensures Served(device)(c, q) == ErrorAnswer(c, q)
  {
    hide ErrorAnswer;
  }

  lemma ErrorAnswers(c: Command, next: Command, q: Queue)
    requires |c.path| == 2 || |c.path| == 3
    requires |next.path| == 2 && next.query
    ensures !c.query ==> ErrorAnswer(c, q) == (None, Pushed(q, (-100, "Command error")))
    ensures c.query && |c.path| == 3 && c.path[2] !in {"NEXT", "COUN", "COUNT"} ==>
              ErrorAnswer(c, q) == (None, Pushed(q, (-113, "Undefined header")))
    ensures c.query && |c.path| == 3 && c.path[2] in {"COUN", "COUNT"} ==> ErrorAnswer(c, q) == (Some(OfNat(|q|)), q)
    ensures c.query && (|c.path| == 2 || c.path[2] == "NEXT") ==> ErrorAnswer(c, q) == ErrorAnswer(next, q)
  {
    hide Pushed, OfNat, ErrorText;
  }

  /** What one command gets: an answer or none, and the error queue after it. */
  function ReplyTo(h: Handler, c: Option<Command>, q: Queue): (Option<string>, Queue) {
    if c.None? then (None, Pushed(q, COMMAND_ERROR)) else h(c.value, q)
  }

  /** What commands get, one after the other. */
  function Replies(h: Handler, commands: seq<Option<Command>>, q: Queue): (r: (seq<Option<string>>, Queue))
    ensures |r.0| == |commands|
    decreases |commands|
  {
    if commands == [] then ([], q)
    else
      var one := ReplyTo(h, commands[0], q);
      var rest := Replies(h, commands[1..], one.1);
      ([one.0] + rest.0, rest.1)
  }

  lemma {:induction false} ServeReplies(h: Handler, commands: seq<Option<Command>>, q: Queue)
    ensures Serve(h, commands, q) == (Given(Replies(h, commands, q).0), Replies(h, commands, q).1)
    decreases |commands|
  {
    if commands == [] {
    } else {
      var one := ReplyTo(h, commands[0], q);
      ServeReplies(h, commands[1..], one.1);
      var rest := Replies(h, commands[1..], one.1).0;
      assert ([one.0] + rest)[1..] == rest;
    }
  }

  /** Neither empty nor blank at its ends. */
  predicate Trimmed(s: string) { s != "" && !IsQtSpace(s[0]) && !IsQtSpace(s[|s| - 1]) }

  lemma {:induction false} JoinTrimmed(parts: seq<string>)
    requires parts != [] && forall p :: p in parts ==> Trimmed(p)
    ensures Trimmed(Join(parts, ";"))
  {
    assert parts[0] in parts;
    if |parts| <= 1 {
    } else {
      assert forall p :: p in parts[1..] ==> p in parts;
      JoinTrimmed(parts[1..]);
    }
  }

  lemma TextTrimmed(msg: Message)
    requires msg.Valid()
    ensures Trimmed(msg.Text())
  {
    hide Message.Text, Join, IsQtSpace, Trimmed;
    HeadChars(false, msg);
    Unchanged(msg.Text());
    TrimmedText("" + Join(msg.path, ":") + (if msg.query then "?" else ""), msg.args);
  }

  lemma TrimmedText(head: string, args: string)
    requires head != "" && !IsQtSpace(head[0]) && !IsQtSpace(head[|head| - 1])
    requires args == "" || !IsQtSpace(args[|args| - 1])
    ensures Trimmed(head + (if args == "" then "" else " " + args))
  {
    hide IsQtSpace;
    var t := head + (if args == "" then "" else " " + args);
    assert t[0] == head[0];
    assert t[|t| - 1] == if args == "" then head[|head| - 1] else args[|args| - 1];
  }

  lemma TrimmedLine(msgs: seq<Message>)
    requires msgs != [] && forall m :: m in msgs ==> m.Valid()
    ensures Trimmed(Join(Texts(msgs), ";"))
  {
    forall i | 0 <= i < |msgs|
      ensures Trimmed(Texts(msgs)[i])
    {
      assert msgs[i] in msgs;
      TextTrimmed(msgs[i]);
    }
    JoinTrimmed(Texts(msgs));
  }

  /** The response to queries in a line: the answers to what they are read as, or nothing. */
  lemma RespondsToBatch(h: Handler, msgs: seq<Message>, q: Queue)
    requires Sendable(msgs) && msgs != []
    ensures var r := Replies(h, ReadIn([], msgs), q);
            Respond(h, Join(Texts(msgs), ";"), q) ==
            (if Given(r.0) == [] then "" else JoinAnswers("", Given(r.0)) + "\n", r.1)
  {
    TrimmedLine(msgs);
    TrimTight(Join(Texts(msgs), ";"));
    BatchParses(msgs);
    ServeReplies(h, ReadIn([], msgs), q);
  }

  lemma RespondsToOne(h: Handler, msg: Message, q: Queue)
    requires Sendable([msg])
    ensures var r := h(msg.Meaning(), q);
            Respond(h, msg.Text(), q) == (if r.0.Some? then r.0.value + "\n" else "", r.1)
  {
    hide Respond, ReadIn;
    RespondsToBatch(h, [msg], q);
    assert Texts([msg]) == [msg.Text()];
    ReadAlone(msg);
    RepliesOne(h, Some(msg.Meaning()), q);
    GivenOne(h(msg.Meaning(), q).0);
  }

  lemma ReadAlone(msg: Message)
    requires Sendable([msg])
    ensures ReadIn([], [msg]) == [Some(msg.Meaning())]
  {
    TopIsMeaning(msg);
    assert [msg][1..] == [];
  }

  lemma RepliesOne(h: Handler, c: Option<Command>, q: Queue)
    ensures var r := ReplyTo(h, c, q); Replies(h, [c], q) == ([r.0], r.1)
  {
    assert [c][1..] == [];
    var r := ReplyTo(h, c, q);
    assert Replies(h, [], r.1) == ([], r.1);
    assert [r.0] + [] == [r.0];
  }

  lemma GivenOne(reply: Option<string>)
    ensures Given([reply]) == if reply.Some? then [reply.value] else []
    ensures reply.Some? ==> JoinAnswers("", [reply.value]) == reply.value
  {
    assert [reply][1..] == [] && Given([]) == [];
    if reply.Some? {
      var a := [reply.value];
      assert a[1..] == [] && "" + "" + a[0] == a[0];
      assert JoinAnswers(a[0], []) == a[0];
    }
  }

  // ------------------------------------------------------ the error queue

  predicate IsNoError(e: string) { |e| >= 2 && e[0] == '0' && e[1] == ',' }

  /** It is told by how it starts. */
  lemma NoErrorStarts(e: string)
    ensures IsNoError(e) <==> exists rest :: e == "0," + rest
  {
    if IsNoError(e) {
      assert e == "0," + e[2..];
    }
  }

  lemma {:induction false} NumberStart(n: nat)
    requires n > 0
    ensures OfNat(n)[0] != '0'
  {
    if n < 10 {
    } else {
      NumberStart(n / 10);
    }
  }

  lemma CodeReads(n: int)
    ensures var t := OfInt(n); t != "" && (t[0] == '-' || IsDigit(t[0])) && '\n' !in t
    ensures OfInt(n)[0] == '0' <==> n == 0
    ensures n == 0 ==> |OfInt(n)| == 1
  {
    var t := OfInt(n);
    if n > 0 {
      NumberStart(n);
    }
    assert forall c :: c in t ==> c == '-' || IsDigit(c);
  }

  /** The text of an error is told from the one for none by its code. */
  lemma CodeTells(e: Error)
    ensures IsNoError(ErrorText(e)) <==> e.0 == 0
  {
    CodeReads(e.0);
    var n := OfInt(e.0);
    assert ErrorText(e) == n + (",\"" + e.1 + "\"");
  }

  /** The text of an error survives being sent as a line. */
  lemma ErrorTextReads(e: Error)
    requires '\n' !in e.1
    ensures !HasLine(ErrorText(e)) && Strip(ErrorText(e)) == ErrorText(e)
  {
    CodeReads(e.0);
    QuotedEnds(OfInt(e.0), e.1);
  }

  lemma QuotedEnds(n: string, s: string)
    requires n != "" && !IsSpace(n[0]) && '\n' !in n && '\n' !in s
    ensures var t := n + ",\"" + s + "\""; !HasLine(t) && Strip(t) == t
  {
    var t := n + ",\"" + s + "\"";
    assert t[0] == n[0] && t[|t| - 1] == '"';
    TightStays(t);
    HasLineIsIn(t);
  }

  function ErrorTexts(q: Queue): seq<string> {
    seq(|q|, i requires 0 <= i < |q| => ErrorText(q[i]))
  }

  // ----------------------------------------------------------- exchanges

  datatype ToolError =
    | NoChannel(channel: int, newest: Option<string>)
    | Refused(cmd: string, error: string)
    | LineBreak
    | Lost(failure: Failure)

  /** How the network cuts data, after all that the client has sent before: each exchange may be cut
      in its own way, both what the client sends and what the server sends back. */
  type Cutting = (string, string) -> seq<Chunk>

  datatype Network = Network(up: Cutting, down: Cutting)

  ghost predicate Faithful(cut: Network) {
    forall sent, s :: Concat(cut.up(sent, s)) == s && Concat(cut.down(sent, s)) == s
  }

  /** What data sent makes of the server: what it sends back, what it has not read, its queue. */
  function Exchanged(h: Handler, cut: Network, sent: string, inbox: string, q: Queue, data: string)
    : (string, string, Queue)
  {
    var a := Arrivals(inbox, cut.up(sent, data));
    var r := RespondToAll(h, a.0, q);
    (r.0, a.1, r.1)
  }

  /** The data sent arrives at the server, what the server sends back at the client. */
  method Exchange(conn: Scpi, server: ScpiServer, device: Handler, cut: Network, data: string)
    requires conn.Now().Stream() == "" && Faithful(cut)
    modifies conn`chunks, server
    ensures var x := Exchanged(Served(device), cut, conn.sent, old(server.inbox), old(server.errors), data);
            conn.Now().Stream() == x.0 && server.inbox == x.1 && server.errors == x.2
  {
    hide RespondToAll, Served, Arrivals, Wire.Stream, Concat;
    var out := server.Arrive(device, cut.up(conn.sent, data));
    Delivered(conn.Now(), cut.down(conn.sent, out), out);
    conn.Receive(cut.down(conn.sent, out));
  }

  /** A text holds no line break. */
  predicate OneLiner(s: string) { '\n' !in s && '\r' !in s }

  /** Within the limit of the server's input. */
  predicate Fits(s: string) { OneLiner(s) && |s| <= INPUT_LIMIT }

  lemma ExchangedOne(h: Handler, cut: Network, sent: string, q: Queue, message: string)
    requires Faithful(cut) && Fits(message)
    ensures var r := Respond(h, message, q);
            Exchanged(h, cut, sent, "", q, message + "\n") == (r.0, "", r.1)
  {
    hide Respond, Arrivals, RespondToAll;
    SendingOne(message);
    ShortArrive(cut.up(sent, message + "\n"), [message]);
    GotOne(message);
    OneEvent(h, GotLine(message), q);
  }

  lemma ShortArrive(pieces: seq<Chunk>, lines: seq<string>)
    requires (forall l :: l in lines ==> Fits(l)) && Concat(pieces) == Sending(lines)
    ensures Arrivals("", pieces) == (Got(lines), "")
  {
    Unchanged(Concat(pieces));
    ShortLinesArrive("", pieces, lines);
  }

  lemma SendingOne(line: string)
    ensures Sending([line]) == line + "\n"
  {
    assert [line][1..] == [];
    assert line + "\n" + "" == line + "\n";
  }

  lemma GotOne(line: string)
    requires OneLiner(line)
    ensures Got([line]) == [GotLine(line)]
  {
    ChopKeeps(line);
  }

  /** Two lines at once, which may arrive together. */
  lemma ExchangedTwo(h: Handler, cut: Network, sent: string, q: Queue, a: string, b: string)
    requires Faithful(cut) && Fits(a) && Fits(b)
    ensures var first := Respond(h, a, q);
            var next := Respond(h, b, first.1);
            Exchanged(h, cut, sent, "", q, a + "\n" + (b + "\n")) == (first.0 + next.0, "", next.1)
  {
    hide Respond, Arrivals, RespondToAll;
    SendingOne(a);
    SendingOne(b);
    ConcatSending([a], [b]);
    ShortArrive(cut.up(sent, a + "\n" + (b + "\n")), [a] + [b]);
    GotConcat([a], [b]);
    GotOne(a);
    GotOne(b);
    OneEvent(h, GotLine(a), q);
    OneEvent(h, GotLine(b), Respond(h, a, q).1);
    RespondToMore(h, [GotLine(a)], [GotLine(b)], q);
  }

  /** What a query makes of what the server sends back. */
  function Answered(out: string, end: Failure): Reply {
    if HasLine(out) then Ok(Strip(Line(out))) else Err(end)
  }

  function Unread(out: string): string { if HasLine(out) then AfterLine(out) else out }

  /** Nothing, or one line with its line feed. */
  predicate OneLine(s: string) { s == "" || LineEnd(s) == |s| - 1 }

  lemma LineIsOne(s: string)
    requires !HasLine(s)
    ensures OneLine(s + "\n") && HasLine(s + "\n") && Line(s + "\n") == s && AfterLine(s + "\n") == ""
  {
    LineEndIs(s + "\n", |s|);
  }

  /** A query and its answer, whatever the cutting. */
  method Ask(conn: Scpi, server: ScpiServer, device: Handler, cut: Network, message: string) returns (r: Reply)
    requires conn.Now().Stream() == "" && Faithful(cut)
    modifies conn, server
    ensures conn.sent == old(conn.sent) + message + "\n"
    ensures var h, line := Served(device), message + "\n";
            var x := Exchanged(h, cut, old(conn.sent), old(server.inbox), old(server.errors), line);
            && server.inbox == x.1 && server.errors == x.2
            && r == Answered(x.0, conn.end) && conn.Now().Stream() == Unread(x.0)
  {
    hide Exchanged, Served, Strip, Line, HasLine, AfterLine, QueryOn, Wire.Stream;
    Exchange(conn, server, device, cut, message + "\n");
    QueryTakesLine(conn.Now(), conn.end);
    r := conn.Query(message);
  }

  lemma OneLineLeft(s: string)
    requires OneLine(s)
    ensures HasLine(s) <==> s != ""
    ensures HasLine(s) ==> AfterLine(s) == ""
  {
  }

  lemma Delivered(w: Wire, more: seq<Chunk>, s: string)
    requires w.Stream() == "" && Concat(more) == s
    ensures Wire(w.buf, w.chunks + more).Stream() == s
  {
    ConcatMore(w.chunks, more);
  }

  /** Nothing is under way between client and server. */
  ghost predicate Quiet(conn: Scpi, server: ScpiServer)
    reads conn, server
  {
    conn.Now().Stream() == "" && server.inbox == ""
  }

  /** SYSTem:ERRor? takes the oldest error off the queue. */
  method NextError(conn: Scpi, server: ScpiServer, device: Handler, cut: Network) returns (e: string)
    requires Quiet(conn, server) && Faithful(cut) && Sound(device) && Coded(server.errors)
    modifies conn, server
    ensures Quiet(conn, server) && conn.sent == old(conn.sent) + NEXT_ERROR.Text() + "\n"
    ensures var q := old(server.errors);
            && server.errors == (if q == [] then [] else q[1..])
            && e == ErrorText(if q == [] then NONE else q[0])
            && IsNoError(e) == (q == [])
            && (q == [] ==> e == "0,\"No error\"")
  {
    hide Respond, Served, Exchanged, Strip, Line, HasLine, AfterLine;
    ghost var h, q := Served(device), server.errors;
    ghost var oldest := if q == [] then NONE else q[0];
    NextErrorAnswers(device, q);
    TheTwoQueries();
    ExchangedOne(h, cut, conn.sent, q, NEXT_ERROR.Text());
    var r := Ask(conn, server, device, cut, NEXT_ERROR.Text());
    CodeTells(oldest);
    NoErrorText();
    e := r.value;
  }

  lemma NoErrorText()
    ensures ErrorText(NONE) == "0,\"No error\""
  {
    assert OfNat(0) == "0";
    assert "0" + ",\"" + "No error" + "\"" == "0,\"No error\"";
  }

  /** The answer to the query for the next error, as a line. */
  lemma NextErrorAnswers(device: Handler, q: Queue)
    requires Sound(device) && Coded(q)
    ensures var oldest := if q == [] then NONE else q[0];
            var out := ErrorText(oldest) + "\n";
            && Respond(Served(device), NEXT_ERROR.Text(), q) == (out, if q == [] then [] else q[1..])
            && HasLine(out) && Strip(Line(out)) == ErrorText(oldest) && AfterLine(out) == ""
    ensures Fits(NEXT_ERROR.Text())
  {
    hide Respond, Served, Sound, Strip, HasLine, Line, AfterLine, ErrorText, Message.Text, Fits;
    var oldest := if q == [] then NONE else q[0];
    assert q != [] ==> oldest in q;
    NextErrorServed(device, q);
    ErrorTextReads(oldest);
    LineIsOne(ErrorText(oldest));
    NextErrorFits();
  }

  lemma NextErrorFits()
    ensures Fits(NEXT_ERROR.Text())
  {
    TheTwoQueries();
    assert Fits("SYSTem:ERRor?");
  }

  lemma NextErrorServed(device: Handler, q: Queue)
    requires Sound(device)
    ensures var oldest := if q == [] then NONE else q[0];
            Respond(Served(device), NEXT_ERROR.Text(), q) ==
            (ErrorText(oldest) + "\n", if q == [] then [] else q[1..])
  {
    hide Respond, Served, ErrorText, Message.Text, Message.Meaning, Sendable;
    ServedIsProper(device);
    TheTwoQueries();
    RespondsToOne(Served(device), NEXT_ERROR, q);
  }

  lemma OneErrorMore(q: Queue, i: nat)
    requires i < |q|
    ensures ErrorTexts(q[..i + 1]) == ErrorTexts(q[..i]) + [ErrorText(q[i])]
    ensures q[i..][0] == q[i] && q[i..][1..] == q[i + 1..]
    ensures Newest(q[..i + 1]) == Some(ErrorText(q[i]))
  {
  }

  const DRAIN := 50

  function Least(m: nat, n: nat): nat { if m < n then m else n }

  /** The tool errors: the queue, emptied as far as fifty queries go, oldest first. */
  method Errors(conn: Scpi, server: ScpiServer, device: Handler, cut: Network) returns (out: seq<string>)
    requires Quiet(conn, server) && Faithful(cut) && Sound(device) && Coded(server.errors)
    modifies conn, server
    ensures Quiet(conn, server)
    ensures var q, k := old(server.errors), Least(|old(server.errors)|, 50);
            out == ErrorTexts(q[..k]) && server.errors == q[k..]
  {
    hide Newest, Sound, IsNoError, ErrorText, ErrorTexts;
    out := [];
    ghost var q := server.errors;
    NoneNewest(q[..0]);
    for i := 0 to DRAIN
      invariant i <= |q| && out == ErrorTexts(q[..i]) && server.errors == q[i..]
      invariant Quiet(conn, server)
    {
      var e := NextError(conn, server, device, cut);
      if IsNoError(e) {
        break;
      }
      out := out + [e];
      OneErrorMore(q, i);
    }
  }

  // -------------------------------------------- several queries of a channel

  function ChannelMessages(queries: seq<seq<string>>, channel: int): (msgs: seq<Message>)
    ensures |msgs| == |queries|
  {
    seq(|queries|, i requires 0 <= i < |queries| => Message(queries[i], true, ChannelArgs(channel)))
  }

  /** Queries by their mnemonics. */
  ghost predicate Askable(queries: seq<seq<string>>) {
    queries != [] && forall q :: q in queries ==> q != [] && forall p :: p in q ==> Word(p)
  }

  /** The queries each but the last one mnemonic deep: the server reads every one as it is meant. */
  ghost predicate Shallow(queries: seq<seq<string>>) {
    forall i :: 0 <= i < |queries| - 1 ==> |queries[i]| == 1
  }

  lemma ChannelSendable(queries: seq<seq<string>>, channel: int)
    requires Askable(queries)
    ensures var msgs := ChannelMessages(queries, channel); Sendable(msgs) && Sendable(msgs + [OPC])
  {
    var msgs, args := ChannelMessages(queries, channel), ChannelArgs(channel);
    CodeReads(channel);
    assert args[0] == '(' && args[|args| - 1] == ')';
    assert forall c :: c in OfInt(channel) ==> c == '-' || IsDigit(c);
    assert Unquoted(args);
    forall m | m in msgs
      ensures m.Valid() && Unquoted(m.args)
    {
      var i :| 0 <= i < |msgs| && msgs[i] == m;
      assert queries[i] in queries;
    }
    TheTwoQueries();
    assert OPC in [OPC];
    forall m | m in msgs + [OPC]
      ensures m.Valid() && Unquoted(m.args)
    {
      assert m in msgs || m == OPC;
    }
  }

  /** What the server reads the queries for a channel as. */
  ghost function Asked(queries: seq<seq<string>>, channel: int): (commands: seq<Option<Command>>)
    requires Askable(queries)
    ensures |commands| == |queries|
  {
    ChannelSendable(queries, channel);
    ReadIn([], ChannelMessages(queries, channel))
  }

  /** They are read as what they mean when they are shallow, as all queries of the tools. */
  lemma ShallowIsMeant(queries: seq<seq<string>>, channel: int)
    requires Askable(queries) && Shallow(queries)
    ensures Asked(queries, channel) == Meanings(ChannelMessages(queries, channel))
  {
    ChannelSendable(queries, channel);
    MeantExactly([], ChannelMessages(queries, channel));
  }

  /** The line the client writes. */
  function ChannelText(queries: seq<seq<string>>, channel: int): string {
    Join(Texts(ChannelMessages(queries, channel)), ";") + ";*OPC?"
  }

  /** The line as it is written: a query of one mnemonic, and one more in front of others. */
  lemma ChannelTextReads(word: string, rest: seq<seq<string>>, channel: int)
    ensures ChannelText([[word]], channel) == word + "? (@" + OfInt(channel) + ");*OPC?"
    ensures rest != [] ==>
              ChannelText([[word]] + rest, channel)
              == word + "? (@" + OfInt(channel) + ");" + ChannelText(rest, channel)
  {
    hide Message.Text, Join;
    var all, one := ChannelMessages([[word]] + rest, channel), Message([word], true, ChannelArgs(channel));
    OneText(word, channel);
    assert ChannelMessages([[word]], channel) == [one] && Texts([one]) == [one.Text()];
    JoinOne(one.Text());
    assert word + "? (@" + OfInt(channel) + ")" + ";*OPC?" == word + "? (@" + OfInt(channel) + ");*OPC?";
    if rest != [] {
      assert all == [one] + ChannelMessages(rest, channel);
      assert Texts(all) == [one.Text()] + Texts(ChannelMessages(rest, channel));
      JoinTwo(one.Text(), Texts(ChannelMessages(rest, channel)), ";*OPC?");
      assert word + "? (@" + OfInt(channel) + ")" + ";" == word + "? (@" + OfInt(channel) + ");";
    }
  }

  lemma OneText(word: string, channel: int)
    ensures Message([word], true, ChannelArgs(channel)).Text() == word + "? (@" + OfInt(channel) + ")"
  {
    assert Join([word], ":") == word;
    assert word + "?" + (" " + ("(@" + OfInt(channel) + ")")) == word + "? (@" + OfInt(channel) + ")";
  }

  lemma JoinOne(a: string)
    ensures Join([a], ";") == a
  {
  }

  lemma JoinTwo(a: string, rest: seq<string>, end: string)
    requires rest != []
    ensures Join([a] + rest, ";") + end == a + ";" + (Join(rest, ";") + end)
  {
    assert ([a] + rest)[1..] == rest;
    Assoc(a + ";", Join(rest, ";"), end);
  }

  lemma {:induction false} JoinWithout(parts: seq<string>, sep: string, c: char)
    requires c !in sep && forall p :: p in parts ==> c !in p
    ensures c !in Join(parts, sep)
    decreases |parts|
  {
    if parts == [] {
    } else {
      assert parts[0] in parts;
      if |parts| > 1 {
        assert forall p :: p in parts[1..] ==> p in parts;
        JoinWithout(parts[1..], sep, c);
      }
    }
  }

  lemma MessageWithout(msg: Message, c: char)
    requires msg.Valid() && !IsMnemonicChar(c) && c !in ":? " && c !in msg.args
    ensures c !in msg.Text()
  {
    forall p | p in msg.path
      ensures c !in p
    {
      assert Word(p);
    }
    JoinWithout(msg.path, ":", c);
  }

  lemma ArgsWithout(channel: int, c: char)
    requires c == '\n' || c == '\r'
    ensures c !in ChannelArgs(channel)
  {
    assert forall d :: d in OfInt(channel) ==> d == '-' || IsDigit(d);
  }

  lemma ChannelIsOneLine(queries: seq<seq<string>>, channel: int)
    requires Askable(queries)
    ensures OneLiner(ChannelText(queries, channel))
  {
    hide Message.Text, Message.Valid, OfInt;
    var msgs := ChannelMessages(queries, channel);
    ChannelSendable(queries, channel);
    CodeReads(channel);
    forall c | c == '\n' || c == '\r'
      ensures c !in Join(Texts(msgs), ";")
    {
      forall i | 0 <= i < |msgs|
        ensures c !in Texts(msgs)[i]
      {
        assert msgs[i] in msgs && msgs[i].args == ChannelArgs(channel);
        ArgsWithout(channel, c);
        MessageWithout(msgs[i], c);
      }
      JoinWithout(Texts(msgs), ";", c);
    }
  }

  /** The line the client writes: the queries' texts and one that always answers. */
  lemma ChannelLine(msgs: seq<Message>)
    requires msgs != []
    ensures Join(Texts(msgs), ";") + ";*OPC?" == Join(Texts(msgs + [OPC]), ";")
  {
    TheTwoQueries();
    assert Texts(msgs + [OPC]) == Texts(msgs) + ["*OPC?"];
    JoinLast(Texts(msgs), "*OPC?");
  }

  lemma {:induction false} JoinLast(parts: seq<string>, last: string)
    requires parts != []
    ensures Join(parts + [last], ";") == Join(parts, ";") + (";" + last)
    decreases |parts|
  {
    var all := parts + [last];
    if |parts| == 1 {
      assert all[1..] == [last];
      assert parts[0] + ";" + last == parts[0] + (";" + last);
    } else {
      assert all[1..] == parts[1..] + [last];
      JoinLast(parts[1..], last);
      Assoc(parts[0] + ";", Join(parts[1..], ";"), ";" + last);
    }
  }

  lemma {:induction false} RepliesThenDone(h: Handler, commands: seq<Option<Command>>, q: Queue)
    requires Proper(h)
    ensures var r := Replies(h, commands, q);
            && Replies(h, commands + [Some(OPC.Meaning())], q) == (r.0 + [Some("1")], r.1)
            && Given(r.0 + [Some("1")]) == Given(r.0) + ["1"]
    decreases |commands|
  {
    var done := [Some(OPC.Meaning())];
    if commands == [] {
      assert commands + done == done;
      RepliesOne(h, done[0], q);
      assert [] + [Some("1")] == [Some("1")];
      GivenOne(Some("1"));
      assert [] + ["1"] == ["1"];
    } else {
      var one := ReplyTo(h, commands[0], q);
      assert (commands + done)[1..] == commands[1..] + done;
      RepliesThenDone(h, commands[1..], one.1);
      var rest := Replies(h, commands[1..], one.1).0;
      OneThenRest(one.0, rest);
    }
  }

  lemma OneThenRest(one: Option<string>, rest: seq<Option<string>>)
    requires Given(rest + [Some("1")]) == Given(rest) + ["1"]
    ensures [one] + (rest + [Some("1")]) == [one] + rest + [Some("1")]
    ensures Given([one] + rest + [Some("1")]) == Given([one] + rest) + ["1"]
  {
    var all := [one] + rest + [Some("1")];
    assert all[1..] == rest + [Some("1")] && ([one] + rest)[1..] == rest;
    var head := if one.Some? then [one.value] else [];
    assert head + (Given(rest) + ["1"]) == head + Given(rest) + ["1"];
  }

  lemma {:induction false} RepliesSound(h: Handler, commands: seq<Option<Command>>, q: Queue)
    requires Proper(h) && Kept(q)
    ensures Kept(Replies(h, commands, q).1)
    decreases |commands|
  {
    if commands == [] {
    } else {
      hide Kept, Proper, ReplyTo;
      ReplyKept(h, commands[0], q);
      RepliesSound(h, commands[1..], ReplyTo(h, commands[0], q).1);
    }
  }

  lemma ReplyKept(h: Handler, c: Option<Command>, q: Queue)
    requires Proper(h) && Kept(q)
    ensures Kept(ReplyTo(h, c, q).1)
  {
    hide Kept, Pushed, ErrorText;
    PushedKeeps(q, COMMAND_ERROR);
  }

  /** The answers to these commands hold no separator and no line feed. */
  ghost predicate Clean(h: Handler, commands: seq<Option<Command>>) {
    forall c, q :: Some(c) in commands && h(c, q).0.Some? ==>
      ';' !in h(c, q).0.value && '\n' !in h(c, q).0.value
  }

  lemma {:induction false} RepliesClean(h: Handler, commands: seq<Option<Command>>, q: Queue)
    requires Clean(h, commands)
    ensures forall r :: r in Replies(h, commands, q).0 && r.Some? ==> ';' !in r.value && '\n' !in r.value
    decreases |commands|
  {
    if commands == [] {
    } else {
      assert commands[0] in commands && forall c :: c in commands[1..] ==> c in commands;
      RepliesClean(h, commands[1..], ReplyTo(h, commands[0], q).1);
    }
  }

  lemma AnswersFree(replies: seq<Option<string>>)
    requires forall r :: r in replies && r.Some? ==> '\n' !in r.value
    ensures !HasLine(JoinAnswers("", Given(replies) + ["1"]))
  {
    GivenCount(replies);
    var answers := Given(replies) + ["1"];
    forall a | a in answers
      ensures '\n' !in a
    {
      assert a == "1" || Some(a) in replies;
    }
    LineOfAnswers(answers);
    JoinWithout(DropEmpty(answers), ";", '\n');
    HasLineIsIn(Join(DropEmpty(answers), ";"));
  }

  /** The server's response to the line of a channel. */
  lemma RespondsToChannel(h: Handler, queries: seq<seq<string>>, channel: int, q: Queue)
    requires Proper(h) && Askable(queries) && Clean(h, Asked(queries, channel))
    ensures var r := Replies(h, Asked(queries, channel), q);
            var line := JoinAnswers("", Given(r.0) + ["1"]);
            && Respond(h, ChannelText(queries, channel), q) == (line + "\n", r.1)
            && !HasLine(line)
  {
    hide Respond, ReadIn;
    var msgs, commands := ChannelMessages(queries, channel), Asked(queries, channel);
    ChannelSendable(queries, channel);
    ChannelLine(msgs);
    RespondsToBatch(h, msgs + [OPC], q);
    TheTwoQueries();
    ReadInThenCommon([], msgs, OPC);
    RepliesThenDone(h, commands, q);
    RepliesClean(h, commands, q);
    AnswersFree(Replies(h, commands, q).0);
  }

  function Newest(q: Queue): Option<string> {
    if q == [] then None else Some(ErrorText(q[|q| - 1]))
  }

  // ------------------------------------------------------ whose error it is

  /** What serving a command notes, whatever the queue: an error, or none. */
  type Notes = Command -> Option<Error>

  function NoteOf(note: Notes, c: Option<Command>): Option<Error> {
    if c.None? then Some(COMMAND_ERROR) else note(c.value)
  }

  /** The commands note these errors and do nothing else to the queue; a refused one notes one. */
  ghost predicate Noting(h: Handler, note: Notes, commands: seq<Option<Command>>) {
    forall c, q :: Some(c) in commands ==>
      && h(c, q).1 == (if note(c).Some? then Pushed(q, note(c).value) else q)
      && (h(c, q).0.None? ==> note(c).Some?)
  }

  /** The errors of commands, in turn. */
  function Noted(note: Notes, commands: seq<Option<Command>>): seq<Error> {
    if commands == [] then []
    else
      var first := NoteOf(note, commands[0]);
      (if first.Some? then [first.value] else []) + Noted(note, commands[1..])
  }

  function PushedAll(q: Queue, errors: seq<Error>): Queue
    decreases |errors|
  {
    if errors == [] then q else PushedAll(Pushed(q, errors[0]), errors[1..])
  }

  lemma {:induction false} RepliesNote(h: Handler, note: Notes, commands: seq<Option<Command>>, q: Queue)
    requires Noting(h, note, commands)
    ensures Replies(h, commands, q).1 == PushedAll(q, Noted(note, commands))
    decreases |commands|
  {
    if commands == [] {
    } else {
      hide PushedAll, Pushed, ReplyTo, NoteOf;
      var first, rest := NoteOf(note, commands[0]), commands[1..];
      assert commands[0] in commands && forall c :: c in rest ==> c in commands;
      ReplyNotes(h, note, commands, commands[0], q);
      RepliesNote(h, note, rest, ReplyTo(h, commands[0], q).1);
      PushedCons(q, first, Noted(note, rest));
    }
  }

  lemma ReplyNotes(h: Handler, note: Notes, commands: seq<Option<Command>>, c: Option<Command>, q: Queue)
    requires Noting(h, note, commands) && c in commands
    ensures var e := NoteOf(note, c); ReplyTo(h, c, q).1 == if e.Some? then Pushed(q, e.value) else q
  {
    hide Pushed;
  }

  lemma PushedCons(q: Queue, first: Option<Error>, rest: seq<Error>)
    ensures PushedAll(q, (if first.Some? then [first.value] else []) + rest)
            == PushedAll(if first.Some? then Pushed(q, first.value) else q, rest)
  {
    hide Pushed;
    if first.Some? {
      assert ([first.value] + rest)[1..] == rest;
    } else {
      assert [] + rest == rest;
    }
  }

  /** Errors all fit into the queue, or it keeps the oldest nineteen and notes the overflow in place
      of the rest. */
  lemma {:induction false} PushedAllEnds(q: Queue, errors: seq<Error>)
    requires |q| <= 20
    ensures |q| + |errors| <= 20 ==> PushedAll(q, errors) == q + errors
    ensures |q| + |errors| > 20 && errors != [] ==>
              PushedAll(q, errors) == (q + errors)[..19] + [(-350, "Queue overflow")]
    decreases |errors|
  {
    if errors == [] {
      assert q + errors == q;
    } else {
      var more := Pushed(q, errors[0]);
      PushedAllEnds(more, errors[1..]);
      if |q| < 20 {
        assert more + errors[1..] == q + errors;
      } else {
        assert more[..19] == q[..19] && (q + errors)[..19] == q[..19];
        assert (more + errors[1..])[..19] == more[..19];
        if errors[1..] == [] {
          assert more == q[..19] + [OVERFLOW];
        }
      }
    }
  }

  lemma {:induction false} NotedLast(note: Notes, commands: seq<Option<Command>>, i: nat)
    requires i < |commands| && NoteOf(note, commands[i]).Some?
    ensures var errors := Noted(note, commands);
            && errors != []
            && ((forall k :: i < k < |commands| ==> NoteOf(note, commands[k]).None?) ==>
                  errors[|errors| - 1] == NoteOf(note, commands[i]).value)
    decreases |commands|
  {
    var rest := commands[1..];
    if i == 0 {
      if forall k :: i < k < |commands| ==> NoteOf(note, commands[k]).None? {
        forall k | 0 <= k < |rest|
          ensures NoteOf(note, rest[k]).None?
        {
          assert rest[k] == commands[k + 1];
        }
        NotedNone(note, rest);
      }
    } else {
      NotedLast(note, rest, i - 1);
      if forall k :: i < k < |commands| ==> NoteOf(note, commands[k]).None? {
        forall k | i - 1 < k < |rest|
          ensures NoteOf(note, rest[k]).None?
        {
          assert rest[k] == commands[k + 1];
        }
      }
    }
  }

  lemma {:induction false} NotedNone(note: Notes, commands: seq<Option<Command>>)
    requires forall k :: 0 <= k < |commands| ==> NoteOf(note, commands[k]).None?
    ensures Noted(note, commands) == []
    decreases |commands|
  {
    if commands == [] {
    } else {
      assert forall k :: 0 <= k < |commands[1..]| ==> commands[1..][k] == commands[k + 1];
      NotedNone(note, commands[1..]);
    }
  }

  /** The error the tool names is that of the refused query i exactly when the errors of the queries
      fit into the queue and the last of them is its, or when its error is the overflow itself and
      they do not fit. The last is its when no later query notes one. */
  lemma NewestIsTheQuerys(h: Handler, note: Notes, commands: seq<Option<Command>>, q: Queue, i: nat)
    requires Noting(h, note, commands) && |q| <= 20
    requires i < |commands| && Replies(h, commands, q).0[i].None?
    ensures NoteOf(note, commands[i]).Some?
    ensures var e, errors := NoteOf(note, commands[i]).value, Noted(note, commands);
            && errors != []
            && (Newest(Replies(h, commands, q).1) == Some(ErrorText(e)) <==>
                if |q| + |errors| <= 20 then errors[|errors| - 1] == e else e == (-350, "Queue overflow"))
            && ((forall k :: i < k < |commands| ==> NoteOf(note, commands[k]).None?) ==> errors[|errors| - 1] == e)
  {
    hide Replies, Noted, NoteOf, Noting, PushedAll, ErrorText;
    RefusedNotes(h, note, commands, q, i);
    NotedLast(note, commands, i);
    RepliesNote(h, note, commands, q);
    PushedAllEnds(q, Noted(note, commands));
    var r, e := Replies(h, commands, q).1, NoteOf(note, commands[i]).value;
    TextsDiffer(r[|r| - 1], e);
  }

  lemma {:induction false} RefusedNotes(h: Handler, note: Notes, commands: seq<Option<Command>>, q: Queue, i: nat)
    requires Noting(h, note, commands) && i < |commands| && Replies(h, commands, q).0[i].None?
    ensures NoteOf(note, commands[i]).Some?
    decreases i
  {
    assert commands[0] in commands && forall c :: c in commands[1..] ==> c in commands;
    if i == 0 {
    } else {
      RefusedNotes(h, note, commands[1..], ReplyTo(h, commands[0], q).1, i - 1);
    }
  }

  lemma Signed(n: int)
    ensures OfInt(n) != "" && (OfInt(n)[0] == '-' <==> n < 0)
  {
    if n >= 0 {
      assert OfNat(n)[0] in OfNat(n);
    }
  }

  lemma CodesDiffer(m: int, n: int)
    requires OfInt(m) == OfInt(n)
    ensures m == n
  {
    Signed(m);
    Signed(n);
    NumberRoundTrip(if m < 0 then -m else m);
    NumberRoundTrip(if n < 0 then -n else n);
    if m < 0 && n < 0 {
      assert OfInt(m)[1..] == OfNat(-m) && OfInt(n)[1..] == OfNat(-n);
    }
  }

  lemma FirstComma(a: string, b: string, c: string, d: string)
    requires ',' !in a && ',' !in c && a + ("," + b) == c + ("," + d)
    ensures a == c && b == d
  {
    var s, t := a + ("," + b), c + ("," + d);
    assert s[|a|] == ',' && t[|c|] == ',';
    assert forall i :: 0 <= i < |a| ==> s[i] == a[i];
    assert forall i :: 0 <= i < |c| ==> t[i] == c[i];
    assert |a| == |c|;
    assert s[..|a|] == a && t[..|c|] == c && s[|a| + 1..] == b && t[|c| + 1..] == d;
  }

  /** Errors have different texts. */
  lemma TextsDiffer(e: Error, f: Error)
    ensures ErrorText(e) == ErrorText(f) <==> e == f
  {
    if ErrorText(e) == ErrorText(f) {
      CodeHolds(e.0);
      CodeHolds(f.0);
      var s, t := "\"" + e.1 + "\"", "\"" + f.1 + "\"";
      assert ErrorText(e) == OfInt(e.0) + ("," + s) && ErrorText(f) == OfInt(f.0) + ("," + t);
      FirstComma(OfInt(e.0), s, OfInt(f.0), t);
      CodesDiffer(e.0, f.0);
      assert s[1..|s| - 1] == e.1 && t[1..|t| - 1] == f.1;
    }
  }

  lemma CodeHolds(n: int)
    ensures ',' !in OfInt(n)
  {
    var t := OfInt(n);
    assert forall c :: c in t ==> c == '-' || IsDigit(c);
  }

  /** A device that has no channel, and a queue full of other errors. */
  const NO_CHANNEL: Error := (-222, "Data out of range")

  const REFUSER: Handler := (c, q) => (None, Pushed(q, NO_CHANNEL))

  const FULL: Queue := seq(MAX_ERRORS, i => UNDEFINED_HEADER)

  /** The tool then names the overflow, not the query's error. */
  lemma FullQueue(channel: int)
    ensures Sound(REFUSER) && Kept(FULL) && Askable([["READ"]])
    ensures var replies := Replies(Served(REFUSER), Asked([["READ"]], channel), FULL);
            && replies.0 == [None]
            && Newest(replies.1) == Some(ErrorText((-350, "Queue overflow"))) != Some(ErrorText(NO_CHANNEL))
  {
    hide ReadIn, Message.Meaning, Kept, Replies, Newest, ErrorText, Sound;
    assert Word("READ");
    var msg := Message(["READ"], true, ChannelArgs(channel));
    assert ChannelMessages([["READ"]], channel) == [msg];
    ChannelSendable([["READ"]], channel);
    ReadAlone(msg);
    RepliesOne(Served(REFUSER), Some(msg.Meaning()), FULL);
    Refuses(msg);
    TextsDiffer(OVERFLOW, NO_CHANNEL);
  }

  lemma Refuses(msg: Message)
    requires msg.path == ["READ"]
    ensures Served(REFUSER)(msg.Meaning(), FULL) == (None, Pushed(FULL, NO_CHANNEL))
    ensures Sound(REFUSER) && Kept(FULL) && Newest(Pushed(FULL, NO_CHANNEL)) == Some(ErrorText(OVERFLOW))
  {
    hide ErrorText;
    assert Upper("READ") == "READ" && msg.Meaning().path == ["READ"];
    forall q | Kept(q)
      ensures Kept(Pushed(q, NO_CHANNEL))
    {
      PushedKeeps(q, NO_CHANNEL);
    }
  }

  // ------------------------------------------------------------- the channel

  /** The answers of queries for one channel. They are right, and in order, whenever the tool does
      not fail; it fails exactly when a query was refused or the first answer was empty, and then
      it names the newest error and leaves the queue empty. */
  method Channel(conn: Scpi, server: ScpiServer, device: Handler, cut: Network,
                 queries: seq<seq<string>>, channel: int)
    returns (r: Result<seq<string>, ToolError>)
    requires Quiet(conn, server) && Faithful(cut)
    requires Sound(device) && Kept(server.errors)
    requires Askable(queries) && |ChannelText(queries, channel)| <= INPUT_LIMIT
    requires Clean(Served(device), Asked(queries, channel))
    modifies conn, server
    ensures Quiet(conn, server)
    ensures old(conn.sent) + ChannelText(queries, channel) + "\n" <= conn.sent
    ensures var replies := Replies(Served(device), Asked(queries, channel), old(server.errors));
            if AllGiven(replies.0) && replies.0[0].value != "" then
              && r.Ok? && |r.value| == |queries| && server.errors == replies.1
              && r.value[0] == StripLeft(IsSpace, replies.0[0].value)
              && forall i :: 0 < i < |queries| ==> r.value[i] == replies.0[i].value
            else
              r == Err(NoChannel(channel, Newest(replies.1))) && server.errors == []
  {
    hide Respond, Served, JoinAnswers, Given, Replies, Strip, StripLeft, SplitAt, Join, Line, HasLine, Newest;
    hide Least, AllGiven, Coded, Sound, Proper, Clean, Asked, Exchanged, ChannelText;
    ghost var h, commands := Served(device), Asked(queries, channel);
    ghost var replies := Replies(h, commands, server.errors);
    ghost var line := JoinAnswers("", Given(replies.0) + ["1"]);
    ServedIsProper(device);
    RespondsToChannel(h, queries, channel, server.errors);
    RepliesClean(h, commands, server.errors);
    RepliesSound(h, commands, server.errors);
    LineIsOne(line);
    BatchNeverMisattributes(replies.0);
    ChannelIsOneLine(queries, channel);
    var text := ChannelText(queries, channel);
    ExchangedOne(h, cut, conn.sent, server.errors, text);
    var a := Ask(conn, server, device, cut, text);
    var answers := SplitAt(a.value, ';');
    assert answers == Parts(line);
    if |answers| != |queries| + 1 {
      var last := LastError(conn, server, device, cut);
      return Err(NoChannel(channel, last));
    }
    return Ok(answers[..|answers| - 1]);
  }

  /** The loop over the error queue: it names the fiftieth error, or the newest of fewer, and leaves
      the queue empty exactly when it held fifty at most. */
  method LastError(conn: Scpi, server: ScpiServer, device: Handler, cut: Network)
    returns (last: Option<string>)
    requires Quiet(conn, server) && Faithful(cut) && Sound(device) && Coded(server.errors)
    modifies conn, server
    ensures Quiet(conn, server) && old(conn.sent) <= conn.sent
    ensures var q, k := old(server.errors), Least(|old(server.errors)|, 50);
            last == Newest(q[..k]) && server.errors == q[k..]
    ensures server.errors == [] <==> |old(server.errors)| <= 50
    ensures |old(server.errors)| <= 50 ==> last == Newest(old(server.errors))
  {
    hide Newest, Sound, IsNoError, ErrorText, ErrorTexts;
    last := None;
    ghost var q := server.errors;
    NoneNewest(q[..0]);
    for i := 0 to DRAIN
      invariant i <= |q| && last == Newest(q[..i]) && server.errors == q[i..]
      invariant Quiet(conn, server) && old(conn.sent) <= conn.sent
    {
      var e := NextError(conn, server, device, cut);
      if IsNoError(e) {
        break;
      }
      last := Some(e);
      OneErrorMore(q, i);
    }
    FiftyAtMost(q);
  }

  lemma NoneNewest(q: Queue)
    requires q == []
    ensures Newest(q).None? && ErrorTexts(q) == []
  {
  }

  lemma FiftyAtMost(q: Queue)
    ensures var k := Least(|q|, DRAIN); (q[k..] == [] <==> |q| <= DRAIN) && (|q| <= DRAIN ==> q[..k] == q)
  {
  }
}
