/** The tool recording_data for a value of its own: the unit asked of the channel, then the block. */
module ScpiRecording {
  import opened Results
  import opened Text
  import opened SplitLists
  import opened ScpiStream
  import opened ScpiBlocks
  import opened ScpiInput
  import opened ScpiServer
  import opened ScpiMessages
  import opened ScpiClient
  import ScpiTools

  /** A tool's own error, or one of the connection. */
  datatype DataError = OfTool(error: ToolError) | OfStream(failure: Failure)

  type Recorded = Result<(string, string), DataError>

  const UNIT: seq<seq<string>> := [["UNIT"]]

  /** The query for the readings of a channel. */
  function DataMessage(count: int, channel: int): Message {
    Message(["QTDMM", "RECord", "DATA"], true, OfNat(ScpiTools.Readings(count)) + "," + ChannelArgs(channel))
  }

  lemma UnitAskable()
    ensures Askable(UNIT)
  {
    assert Word("UNIT");
  }

  /** What the server reads the query for the unit as. */
  ghost function UnitAsked(channel: int): (commands: seq<Option<Command>>)
    ensures |commands| == 1
  {
    UnitAskable();
    Asked(UNIT, channel)
  }

  lemma DataSendable(count: int, channel: int)
    ensures Sendable([DataMessage(count, channel)])
    ensures DataMessage(count, channel).Text() == ScpiTools.DataQuery(count, channel)
  {
    hide OfNat, ChannelArgs, Join, Unquoted;
    DataArgs(OfNat(ScpiTools.Readings(count)), channel);
    DataHeader(OfNat(ScpiTools.Readings(count)) + "," + ChannelArgs(channel));
  }

  lemma DataArgs(n: string, channel: int)
    requires IsNumber(n)
    ensures var args := n + "," + ChannelArgs(channel);
            Unquoted(args) && !IsQtSpace(args[0]) && !IsQtSpace(args[|args| - 1])
  {
    CodeReads(channel);
    assert forall c :: c in OfInt(channel) ==> c == '-' || IsDigit(c);
    var args := n + "," + ChannelArgs(channel);
    assert n[0] in n && args[0] == n[0] && args[|args| - 1] == ')';
  }

  lemma DataHeader(args: string)
    requires args != ""
    ensures var msg := Message(["QTDMM", "RECord", "DATA"], true, args);
            && (forall p :: p in msg.path ==> Word(p))
            && msg.Text() == "QTDMM:RECord:DATA? " + args
  {
    var msg := Message(["QTDMM", "RECord", "DATA"], true, args);
    assert Word("QTDMM") && Word("RECord") && Word("DATA");
    assert ["RECord", "DATA"][1..] == ["DATA"] && msg.path[1..] == ["RECord", "DATA"];
    assert Join(["DATA"], ":") == "DATA" && Join(["RECord", "DATA"], ":") == "RECord:DATA";
    assert msg.Header() == "QTDMM:RECord:DATA?";
    assert "QTDMM:RECord:DATA?" + (" " + args) == "QTDMM:RECord:DATA? " + args;
  }

  /** What the tool gets from a server with this device behind it. */
  ghost function ChannelDataOf(device: Handler, q: Queue, count: int, channel: int, end: Failure): Recorded {
    var units := Replies(Served(device), UnitAsked(channel), q);
    if units.0[0].None? || units.0[0].value == "" then Err(OfTool(NoChannel(channel, Newest(units.1))))
    else
      var out := Respond(Served(device), ScpiTools.DataQuery(count, channel), units.1).0;
      var data := BlockAt(out, end).0;
      if data.Err? then Err(OfStream(data.error))
      else Ok((ScpiTools.StripQuotes(StripLeft(IsSpace, units.0[0].value)), data.value))
  }

  /** Both lines of the tool fit into the server's input. */
  predicate QueriesFit(count: int, channel: int) {
    |ChannelText(UNIT, channel)| <= INPUT_LIMIT && |ScpiTools.DataQuery(count, channel)| <= INPUT_LIMIT
  }

  /** The readings of a channel: unit and block, or the failure of either, over any cutting. */
  method ChannelData(conn: Scpi, server: ScpiServer, device: Handler, cut: Network, count: int, channel: int)
    returns (r: Recorded)
    requires Quiet(conn, server) && Faithful(cut) && QueriesFit(count, channel)
    requires Sound(device) && Kept(server.errors)
    requires Clean(Served(device), UnitAsked(channel))
    modifies conn, server
    ensures r == ChannelDataOf(device, old(server.errors), count, channel, conn.end)
  {
    hide Respond, Served, Replies, UnitAsked, BlockAt, BlockOn, Clean, Sound, Newest, StripLeft, ScpiTools.StripQuotes;
    hide Wire.Stream, Concat, ScpiTools.DataQuery, Exchanged, ChannelText;
    UnitAskable();
    UnitIsAsked(channel);
    ghost var units := Replies(Served(device), UnitAsked(channel), server.errors);
    OneGiven(units.0);
    var unit := Channel(conn, server, device, cut, UNIT, channel);
    if unit.Err? {
      return Err(OfTool(unit.error));
    }
    var query := ScpiTools.DataQuery(count, channel);
    DataIsOneLine(count, channel);
    ExchangedOne(Served(device), cut, conn.sent, server.errors, query);
    Exchange(conn, server, device, cut, query + "\n");
    BlockReadsStream(conn.Now(), conn.end);
    var data := conn.Block(query);
    if data.Err? {
      return Err(OfStream(data.error));
    }
    return Ok((ScpiTools.StripQuotes(unit.value[0]), data.value));
  }

  lemma DataIsOneLine(count: int, channel: int)
    ensures OneLiner(ScpiTools.DataQuery(count, channel))
  {
    hide OfNat, ChannelArgs;
    ArgsWithout(channel, '\n');
    ArgsWithout(channel, '\r');
    DigitsOnly(OfNat(ScpiTools.Readings(count)));
  }

  lemma DigitsOnly(n: string)
    requires IsNumber(n)
    ensures OneLiner(n)
  {
  }

  lemma OneGiven(replies: seq<Option<string>>)
    requires |replies| == 1
    ensures AllGiven(replies) <==> replies[0].Some?
  {
    assert replies[0] in replies;
  }

  /** The server puts the unit between quotes as it is. From that and a block the tool gets both
      exactly when the unit neither starts nor ends with a quote; one inside does no harm here, and
      no comma either. */
  lemma ChannelDataRoundTrip(device: Handler, q: Queue, next: Queue, last: Queue, count: int, channel: int,
                             unit: string, data: string, end: Failure)
    requires |data| < LIMIT
    requires Served(device)(Message(["UNIT"], true, ChannelArgs(channel)).Meaning(), q)
             == (Some("\"" + unit + "\""), next)
    requires Served(device)(DataMessage(count, channel).Meaning(), next) == (Some(BlockOf(data)), last)
    ensures ChannelDataOf(device, q, count, channel, end) == Ok((unit, data))
            <==> unit == "" || (unit[0] != '"' && unit[|unit| - 1] != '"')
  {
    hide Served, Respond, Message.Meaning, BlockAt, BlockOf, DataMessage, ScpiTools.DataQuery;
    hide StripLeft, ScpiTools.StripQuotes, Escape;
    var h, msg := Served(device), Message(["UNIT"], true, ChannelArgs(channel));
    UnitAlone(channel);
    RepliesOne(h, Some(msg.Meaning()), q);
    DataSendable(count, channel);
    RespondsToOne(h, DataMessage(count, channel), next);
    ShortBlockDecodes(data, "\n", end);
    BetweenQuotes(unit);
  }

  lemma UnitIsAsked(channel: int)
    ensures Askable(UNIT) && UnitAsked(channel) == Asked(UNIT, channel)
  {
    UnitAskable();
  }

  lemma UnitAlone(channel: int)
    ensures UnitAsked(channel) == [Some(Message(["UNIT"], true, ChannelArgs(channel)).Meaning())]
  {
    var msg := Message(["UNIT"], true, ChannelArgs(channel));
    UnitAskable();
    ChannelSendable(UNIT, channel);
    assert ChannelMessages(UNIT, channel) == [msg];
    ReadAlone(msg);
  }

  lemma BetweenQuotes(unit: string)
    ensures var answer := "\"" + unit + "\"";
            && answer != "" && StripLeft(IsSpace, answer) == answer
            && (ScpiTools.StripQuotes(answer) == unit <==> unit == "" || (unit[0] != '"' && unit[|unit| - 1] != '"'))
  {
    hide ScpiTools.StripQuotes;
    ScpiTools.StripQuotesEnds("\"" + unit + "\"");
    if unit == "" || (unit[0] != '"' && unit[|unit| - 1] != '"') {
      ScpiTools.StripQuoted(unit);
    }
  }
}
