# QtDMM: alarms, SCPI client and server, axis steps

A Dafny model of three parts of QtDMM, with proofs about every input or every run:

- **The alarms** (`AlarmCondition.dfy`, `AlarmManagement.dfy` and the five files of runs). The manager is a class with the
  program's fields and methods; every method is proved to do what a function on values says, and runs of any
  length are proved about that function. A reading, a tick, a connection, an acknowledgement and an edit of the
  list are the inputs.
- **SCPI** (`Text.dfy`, `SplitLists.dfy`, `ScpiStream.dfy`, `ScpiBlocks.dfy`, `ScpiInput.dfy`, `ScpiServer.dfy`,
  `ScpiMessages.dfy`, `ScpiClient.dfy`, `ScpiCommands.dfy`, `ScpiTools.dfy`, `ScpiRecording.dfy`). The client of
  `tools/qtdmm-mcp.py` reads lines and blocks off a stream that arrives in chunks; the server cuts a message into
  units and commands, joins the answers and keeps the error queue. What one side prints is proved to be what the other
  reads, over any cutting of either stream.
- **The 1-2-5 step** (`NiceStep.dfy`), over exact reals, and the axis range that uses it.

`dafny verify dfyconfig.toml` checks everything.

## Where the code and its description differ

Each of these is a lemma with a run or a text that shows it, and a condition that says exactly when the described
behaviour holds.

- The step is described as "at least v". Within the tolerance of 1e-12 it can be less
  (`NiceStep.StepCanBeBelowV`, `NiceStep.StepIsAtLeastV`).
- The display is to show the colour of the alarm raised last. The order is kept by name, so two alarms of one name
  confuse it; it holds in every run exactly for distinct names (`AlarmDisplay.DistinctNamesExactly`). Nothing
  keeps a user from giving two alarms one name.
- "Without this call a NoReadings alarm never raises" (`src/core/alarm.h:107`): a main reading alone is enough,
  and the disconnection then does not clear it (`AlarmSilence.RaisesUnconnected`, `AlarmSilence.UnconnectedSilence`,
  `AlarmSilence.DisconnectClears`).
- An edit carries a pending state over to an alarm on silence of the same name. Such an alarm is deaf to the silence
  and sends a "cleared" it never raised (`AlarmSilence.PendingSilenceReached` is such a run). The signals alternate in
  exactly the runs without such an edit (`AlarmSignals.AllAlternateExactly`).
- An edit of the condition keeps the state and the time of the old one by name. A pending alarm can then raise on its
  first matching reading, without its duration (`AlarmHistory.EditedRaiseIsNotEarned`). All raises are earned in
  exactly the runs in which no edit carries over a pending state older than the readings bear out for the new
  condition, but for alarms without a duration (`AlarmHistory.AllEarnedExactly`); an edit that leaves the condition
  of the pending alarms alone is never one (`AlarmHistory.PendingKeptEarns`).
- An alarm outside a range narrower than two hystereses has no reading that clears it
  (`AlarmCondition.ReleasePossible`, `AlarmHistory.NeverClears`; `AlarmHistory.StuckForEver` is such a run).
- An edit that drops or disables a raised alarm sends no "cleared" (`AlarmNames.DroppedUncleared`). By name and across
  edits the signals alternate and tell the raised alarms in exactly the runs without such an edit, and without one that
  silences a pending alarm (`AlarmNames.AllTellExactly`).
- A text without line breaks is meant to be one command. The server throws away what has arrived when that is more than
  65536 bytes without a line feed, and reads the end of a longer mark as a line of its own
  (`ScpiCommands.LongMarkTail`). For every cutting it is one command exactly within that limit
  (`ScpiCommands.OneCommand`).
- A block strips line ends only from what has been received, so the answer of a query after a block can depend on
  the cutting (`ScpiBlocks.QueryAfterBlock`). No tool of the client queries after a block.
- The client names the newest error as its query's. It is the query's exactly when the errors of all its queries
  still fit into the queue and the last is that query's (`ScpiClient.NewestIsTheQuerys`); with a full queue the client
  names the overflow (`ScpiClient.FullQueue`).
- The server drops empty answers at the front of a line, which would make the client report a failure
  (`ScpiClient.BatchNeverMisattributes`). This is a condition on the server, not a case the tools meet: READ?, UNIT?,
  CONFigure? and CALCulate:AVERage:COUNt? never answer with an empty text.
- A line feed in the name of an alarm breaks the list of alarms (`ScpiTools.BrokenList`,
  `ScpiTools.AlarmsReceivedExactly`), one in what a value measures the catalogue
  (`ScpiTools.ChannelsReceivedExactly`).
- The short way to the unit in `recording_data` is right exactly for units without comma and quote
  (`ScpiTools.ShortUnitExactly`). For a value of its own the server doubles no quotes, and the unit is right exactly
  when it neither starts nor ends with one (`ScpiRecording.ChannelDataRoundTrip`).

## Model

| member | source | states |
|---|---|---|
| `NiceStep.Exponent` | src/core/nicestep.h:13 | every positive number has a decade it lies in; the search for it ends |
| `NiceStep.DecadeIsUnique` | src/core/nicestep.h:13 | and exactly one: `10^k <= v < 10^(k+1)` holds for the exponent and no other `k` |
| `NiceStep.StepIsLeast` | src/core/nicestep.h:7-18 | the step is the least of all numbers 1, 2, 5 times a power of ten that reach `v` but for a part in 10^12, and below `2.5 v` |
| `NiceStep.StepIsAtLeastV` | src/core/nicestep.h:7-18 | it is at least `v` exactly when no such number lies within the tolerance below `v` |
| `NiceStep.StepCanBeBelowV` | src/core/nicestep.h:7-18 | a number whose step is less than it |
| `NiceStep.StepIsMonotone` | src/core/nicestep.h:9-18 | a larger number has no smaller step |
| `NiceStep.StepScales` | src/core/nicestep.h:9-18 | ten times the number has ten times the step |
| `NiceStep.StepFixesNice` | src/core/nicestep.h:9-18 | the numbers that are their own step are exactly the nice ones; the step of a step is itself |
| `NiceStep.GuessedDecade` | src/core/nicestep.h:13-17 | a decade guessed wrong gives the right step exactly when it is one off and the number lies above five, or at most at one, of its exact decade up to the tolerance |
| `NiceStep.FallbackReached` | src/core/nicestep.h:17 | the return after the loop is reached exactly for a decade guessed too low, never for the exact one |
| `NiceStep.NextNice` | src/ui/views/graphwidget_axes.cpp:319 | a step for 1.01 times a step is the next larger step |
| `NiceStep.GridRange` | src/ui/views/graphwidget_axes.cpp:315-322 | the loop ends with eight divisions over the whole range, the first line the last whole number of steps at or below its start, after growing the step once at most |
| `AlarmCondition.MillisPass` | src/core/alarm.cpp:359 | a duration in seconds has passed when less than a millisecond of it is missing |
| `AlarmCondition.MatchesExactly` | src/core/alarm.cpp:160-178 | which readings satisfy a condition: bounds in either order, outside and inside apart, none of them for a reading out of range |
| `AlarmCondition.ReleasedExactly` | src/core/alarm.cpp:180-199 | a reading clears exactly when it is in range and no value within the hysteresis of it satisfies the condition |
| `AlarmCondition.MatchOrRelease` | src/core/alarm.cpp:160-199 | no reading both satisfies the condition and clears, whatever bounds and hysteresis; without a hysteresis each does one |
| `AlarmCondition.ReleasePossible` | src/core/alarm.cpp:180-199 | some reading clears an alarm, unless it is outside a range narrower than two hystereses: then none does |
| `AlarmManagement.AlarmManager.constructor` | src/core/alarm.cpp:203-211 | a manager without alarms, readings or connection |
| `AlarmManagement.AlarmManager.AnyRaised` | src/core/alarm.cpp:236-242 | whether some alarm is raised and not acknowledged |
| `AlarmManagement.AlarmManager.DisplayColor` | src/core/alarm.cpp:244-252 | the search through names and alarms finds the colour the runs are proved about |
| `AlarmManagement.AlarmManager.EmitRaised` | src/core/alarm.cpp:205-210 | a raise moves the alarm's name to the end of the order before anyone hears of it |
| `AlarmManagement.AlarmManager.Evaluate` | src/core/alarm.cpp:329-374 | one alarm's part of a reading: its new state, its time, its signal; nothing else changes |
| `AlarmManagement.AlarmManager.Feed` | src/core/alarm.cpp:254-282 | every alarm takes the reading, signals in the order of the alarms; the whole new state |
| `AlarmManagement.AlarmManager.SetConnected` | src/core/alarm.cpp:284-301 | the whole new state of a connection or disconnection, and of one that changes nothing |
| `AlarmManagement.AlarmManager.Tick` | src/core/alarm.cpp:303-327 | the whole new state when time passes |
| `AlarmManagement.AlarmManager.Acknowledge` | src/core/alarm.cpp:376-380 | only the raised alarm at the index changes |
| `AlarmManagement.AlarmManager.AcknowledgeAll` | src/core/alarm.cpp:382-386 | every raised alarm changes, nothing else |
| `AlarmManagement.AlarmManager.SetAlarms` | src/core/alarm.cpp:213-234 | every enabled alarm takes the state of the last old one of its name |
| `AlarmSignals.SignalsAlternate` | src/core/alarm.h:117-121 | in every run of one list the signals of an alarm alternate, and raises exceed clears by one exactly while a fresh alarm is raised or acknowledged |
| `AlarmSignals.AlternationExactly` | src/core/alarm.cpp:265-277 | in every run from a state they alternate for all alarms exactly when no alarm on silence is pending in it |
| `AlarmSignals.SpuriousClear` | src/core/alarm.cpp:269-274 | a pending alarm on silence sends a clear without a raise |
| `AlarmSignals.EditKeepsAlternation` | src/core/alarm.cpp:213-234 | an edit leaves no alarm on silence pending exactly when it turns no pending one into one |
| `AlarmSignals.AllAlternateExactly` | src/core/alarm.h:117-121 | from the start the signals alternate in exactly the runs without an edit that does |
| `AlarmSignals.SameListAgain` | src/core/alarm.cpp:213-234 | setting the same list of distinct names again changes no alarm |
| `AlarmSignals.EmittedInOrder` | src/core/alarm.cpp:262-281 | the signals of an input come in the order of the list, one an alarm at most |
| `AlarmSignals.DisabledIsCleared` | src/core/alarm.cpp:333-341 | a disabled alarm that is not off is cleared by a reading of its value |
| `AlarmSignals.DisabledStayOff` | src/core/alarm.cpp:333-341 | in every run, edits included, a disabled alarm is off |
| `AlarmSignals.AcknowledgeIsSilent` | src/core/alarm.h:112-115 | acknowledging sends nothing and only turns raised into acknowledged |
| `AlarmHistory.HoldingSinceIsStretch` | src/core/alarm.h:128 | the time a condition holds since is that of the first reading of the unbroken stretch of matching ones |
| `AlarmHistory.StateFollowsReadings` | src/core/alarm.h:79-82 | from any readings accounted for on, an alarm not raised is pending exactly while its condition holds, since the first reading of that stretch |
| `AlarmHistory.RaisesExactly` | src/core/alarm.cpp:329-374 | an alarm raises exactly on a matching reading of its value, not raised yet, when the condition has held for its duration in seconds |
| `AlarmHistory.RaisesExactlySince` | src/core/alarm.cpp:329-374 | after any run, edits included, that holds from there on for every alarm not pending |
| `AlarmHistory.EarnedExactly` | src/core/alarm.h:33 | every raise in all runs from a state is earned (behind it a reading at least the duration back that matched, as did every later one of its value) exactly when the alarm is not pending, has no duration, or a reading as old as its time began a stretch of matching ones |
| `AlarmHistory.EditEarnsExactly` | src/core/alarm.cpp:213-234 | after an edit every raise is earned, over the readings of both lists, exactly when the pending state carried over, if any, is borne out by the readings for the new condition, or there is no duration |
| `AlarmHistory.RaiseIsEarned` | src/core/alarm.h:33 | in every run from the start whose edits are of that kind every raise is earned |
| `AlarmHistory.AllEarnedExactly` | src/core/alarm.h:79-82 | and only in those: any other edit has a run after it with a raise not earned |
| `AlarmHistory.PendingKeptEarns` | src/core/alarm.cpp:215 | edits that leave the condition of pending alarms alone are of that kind |
| `AlarmHistory.RaiseTellsReading` | src/core/alarm.cpp:329-374 | the signal of a raise carries the value of the reading that raised |
| `AlarmHistory.EditKeepsAccount` | src/core/alarm.cpp:213-234 | an edit that leaves a condition alone keeps the account of the readings exactly when it leaves no pending alarm without a duration |
| `AlarmHistory.EditedRaiseIsNotEarned` | src/core/alarm.cpp:213-234 | an edit of the condition does not: an alarm for two seconds raises on its first matching reading |
| `AlarmHistory.ClearsExactly` | src/core/alarm.h:74-76 | a value alarm clears exactly when it is raised and a reading of its value and meter is in range and further from the condition than the hysteresis |
| `AlarmHistory.OthersAreIgnored` | src/core/valueref.h:28 | readings of other values, and of other meters for an alarm with one, change nothing |
| `AlarmHistory.AnyMeterAlike` | src/core/valueref.h:28 | an alarm without a meter takes those of all meters alike |
| `AlarmHistory.OwnMeterAsAny` | src/core/valueref.h:28 | one with a meter takes that meter's as if it had none |
| `AlarmHistory.HysteresisHolds` | src/core/alarm.h:34 | raised once it stays raised, and silent, through any inputs without a released reading |
| `AlarmHistory.StaysWithinHysteresis` | src/core/alarm.h:34 | raised once it stays raised through any readings out of range or within the hysteresis of the condition |
| `AlarmHistory.NeverClears` | src/core/alarm.cpp:196 | outside a range narrower than two hystereses it stays raised in every run |
| `AlarmHistory.StuckForEver` | src/core/alarm.cpp:196 | one reading raises such an alarm, and every run after it leaves it raised and silent |
| `AlarmSilence.EnvFollowsRun` | src/core/alarm.h:129-130 | the two times of the manager are the connection and the last main reading since it, in every run |
| `AlarmSilence.SilenceRaisesExactly` | src/core/alarm.cpp:303-327 | an alarm on silence raises exactly on a tick, off, when its duration in seconds has passed since the last main reading, or since the connection |
| `AlarmSilence.SilentSinceIsLatest` | src/core/alarm.cpp:312-317 | with time in order that is the later of the connection and the last main reading |
| `AlarmSilence.SilenceIsReal` | src/core/alarm.h:26-33 | when it raises no main reading and no connection is younger than the duration |
| `AlarmSilence.SilenceTellsLastValue` | src/core/alarm.cpp:303-327 | the signal of a raise on silence carries the last main value of the run |
| `AlarmSilence.UnconnectedSilence` | src/core/alarm.h:105-108 | without a connection it raises on no tick exactly when no main reading has come |
| `AlarmSilence.RaisesUnconnected` | src/core/alarm.h:105-108 | a run without a connection in which it raises, and is not cleared by the disconnection |
| `AlarmSilence.SilenceEndsExactly` | src/core/alarm.cpp:265-300 | it clears exactly on a main reading or on the disconnection of a connected meter |
| `AlarmSilence.PendingSilenceEnds` | src/core/alarm.cpp:265-300 | a pending one is cleared by a main reading and turned off unheard by a disconnection |
| `AlarmSilence.OtherValuesAreSilence` | src/core/alarm.h:101-103 | readings of other values end no silence |
| `AlarmSilence.DisconnectClears` | src/core/alarm.cpp:284-301 | a disconnection leaves all alarms on silence off exactly when the meter was connected or they were off |
| `AlarmSilence.PendingSilenceIsDeaf` | src/core/alarm.cpp:320-325 | a pending alarm on silence raises in no run without a main reading and a disconnection |
| `AlarmSilence.PendingSilenceReached` | src/core/alarm.cpp:213-234 | a run from the start that leaves one, having sent nothing: it raises on no tick, and the next main reading sends a clear |
| `AlarmDisplay.RaiseOrderFollowsLog` | src/core/alarm.h:133 | in every run, edits included, the order holds the names raised so far once each, by their latest raise, and every raised alarm's |
| `AlarmDisplay.DisplayFollowsLog` | src/core/alarm.cpp:244-252 | in every run the display has a colour exactly when an alarm tints it, that of the newest name's first one |
| `AlarmDisplay.AcknowledgeKeepsColor` | src/core/alarm.cpp:244-252 | acknowledging changes no colour |
| `AlarmDisplay.DistinctNamesShow` | src/core/alarm.h:95-98 | with distinct names it is always the colour of the alarm raised last |
| `AlarmDisplay.DistinctNamesExactly` | src/core/alarm.h:95-98 | and for alarms of given names that holds in all runs exactly when the names are distinct |
| `AlarmNames.EditTells` | src/core/alarm.cpp:213-234 | an edit keeps what the signals of the names tell exactly when it drops and disables no raised alarm |
| `AlarmNames.AllTellExactly` | src/core/alarm.h:117-121 | with distinct names in every list the signals of a name alternate across edits, and the last tells whether an alarm of the name is raised, in exactly the runs whose edits neither do that nor silence a pending alarm |
| `AlarmNames.DroppedUncleared` | src/core/alarm.cpp:213-234 | a run whose raised alarm leaves the list without a clear |
| `SplitLists.SplitList` | tools/qtdmm-mcp.py:104-128 | the loop over the characters ends and gives what the reading of the lemmas below gives |
| `SplitLists.SplitUndoesPrint` | tools/qtdmm-mcp.py:104-128 | of every printed list of bare and quoted items the texts come back in order, a blank bare one at the end left out |
| `SplitLists.SplitExactly` | tools/qtdmm-mcp.py:104-128 | on every text: texts only and no exception exactly when the text is a printed list |
| `SplitLists.TwiceQuoted` | tools/qtdmm-mcp.py:110-118 | an item quoted twice is not read |
| `ScpiStream.Scpi.More` | tools/qtdmm-mcp.py:61-68 | one chunk more, or the end |
| `ScpiStream.Scpi.Read` | tools/qtdmm-mcp.py:55-59 | the first n bytes of the stream, or a failure with all of it received |
| `ScpiStream.Scpi.Query` | tools/qtdmm-mcp.py:70-75 | what is sent, the answer and what stays received |
| `ScpiStream.Scpi.Block` | tools/qtdmm-mcp.py:93-101 | what is sent, the block and what stays received |
| `ScpiStream.SessionReadsStream` | tools/qtdmm-mcp.py:61-75 | however the stream is cut, n queries get its first n lines, stripped, and leave what follows |
| `ScpiStream.CuttingDoesNotMatter` | tools/qtdmm-mcp.py:61-75 | two cuttings of one stream give the same answers, the same failure, the same bytes left |
| `ScpiStream.NothingLost` | tools/qtdmm-mcp.py:72-74 | lines, line feeds and what is left are the stream |
| `ScpiStream.FailsWithoutLine` | tools/qtdmm-mcp.py:72-74 | a session fails exactly when there are too few lines; no line holds a line feed |
| `ScpiBlocks.BlockReadsStream` | tools/qtdmm-mcp.py:93-101 | the block is that of the stream for every cutting, and what follows it is left but for some leading line ends |
| `ScpiBlocks.BlockDecodesExactly` | src/service/scpiserver.cpp:333-337 | the server's block comes back exactly when its data is shorter than 10^9 bytes |
| `ScpiBlocks.BlocksAreShort` | tools/qtdmm-mcp.py:98-99 | the client reads no block as long as 10^9 bytes |
| `ScpiBlocks.QueriesThenBlock` | tools/qtdmm-mcp.py:193-197 | queries and a block after them give the same for every cutting |
| `ScpiBlocks.TwoCuttings` | tools/qtdmm-mcp.py:100 | two cuttings and what a query after the block gets in each |
| `ScpiBlocks.QueryAfterBlock` | tools/qtdmm-mcp.py:100 | that is the same for all cuttings exactly when no line feed starts what follows, or an empty answer stands behind it |
| `ScpiServer.SplitUnits` | src/service/scpiserver.cpp:358-377 | the loop over the characters gives the units of the lemmas below |
| `ScpiServer.ScpiServer.PushError` | src/service/scpiserver.cpp:323-331 | an error more, the overflow in place of the newest when the queue is full |
| `ScpiServer.ScpiServer.AnswerErrors` | src/service/scpiserver.cpp:1116-1131 | the answers about the error queue: the oldest taken away, the count, or a refusal noted |
| `ScpiServer.ScpiServer.Handle` | src/service/scpiserver.cpp:776-911 | one command: *OPC and those of the error queue here, the rest by the device behind |
| `ScpiServer.ScpiServer.ServeUnits` | src/service/scpiserver.cpp:379-430 | the answers and the queue after all units in turn |
| `ScpiServer.ScpiServer.Process` | src/service/scpiserver.cpp:349-437 | the response line and the queue of a message |
| `ScpiServer.ScpiServer.OnReadyRead` | src/service/scpiserver.cpp:176-203 | a piece that arrives: its lines served in turn, or too much without a line feed thrown away and noted |
| `ScpiInput.LinesArriveExactly` | src/service/scpiserver.cpp:176-187 | lines sent come out whole and in order for every cutting exactly when none is longer than 65536 bytes |
| `ScpiInput.LongLineTail` | src/service/scpiserver.cpp:179-183 | a cutting of a longer line: the part before is thrown away, the rest is a line of its own |
| `ScpiInput.ChopEnds` | src/service/scpiserver.cpp:187-188 | carriage returns before the line feed are no part of a line |
| `ScpiMessages.MessageParses` | src/service/scpiserver.cpp:380-421 | what a message the client writes is read as at any level; that is the command it means exactly at the top, behind a colon, or for a common one |
| `ScpiMessages.AbsoluteBatch` | tools/qtdmm-mcp.py:362 | commands joined by ";:" are read as if sent one by one |
| `ScpiMessages.RelativeBatch` | tools/qtdmm-mcp.py:81 | messages joined by ";" are exactly when each but the last that is not common has one mnemonic |
| `ScpiMessages.QuotedIsOneUnit` | src/service/scpiserver.cpp:358-377 | a text in double quotes stays in one unit, whatever it holds |
| `ScpiMessages.AnyQuoteIsOneUnit` | src/service/scpiserver.cpp:362-377 | so does one in single quotes, whatever double quotes and semicolons it holds |
| `ScpiMessages.AnyQuoteReadBack` | src/service/scpiserver.cpp:546-556 | the server reads a text back from either quotes |
| `ScpiMessages.QuotedCommand` | src/service/scpiserver.cpp:358-421 | a message with a text in either quotes is one command, its argument the text |
| `ScpiMessages.MnemonicExactly` | src/service/scpiserver.cpp:397-405 | a mnemonic is letters and digits behind them, nothing else |
| `ScpiMessages.SuffixReads` | src/service/scpiserver.cpp:405-409 | the digits are its suffix |
| `ScpiMessages.SuffixedQuery` | src/service/scpiserver.cpp:386-418 | a query with a suffix is read at any level, the mnemonics before it without one |
| `ScpiMessages.UpperReads` | src/service/scpiserver.cpp:408 | letters are read without their case |
| `ScpiMessages.BlanksMeanNothing` | src/service/scpiserver.cpp:382-388 | blanks around a unit and before its argument do not matter |
| `ScpiMessages.BlankUnit` | src/service/scpiserver.cpp:382-384 | a blank unit is neither a command nor an error |
| `ScpiMessages.BlankMessage` | src/service/scpiserver.cpp:355-357 | a blank message does nothing |
| `Text.SeparatorsDiffer` | src/service/scpiserver.cpp:355 | Python strips the four information separators, Qt does not |
| `ScpiMessages.QuoteReadBack` | src/service/scpiserver.cpp:546-556 | the server's and the client's readers both give back a quoted text |
| `ScpiClient.BatchNeverMisattributes` | tools/qtdmm-mcp.py:77-91 | the count of answers is right exactly when no query was refused and the first answer is not empty; then the answers are the queries', in order |
| `ScpiClient.ServedIsProper` | src/service/scpiserver.cpp:1116-1131 | with any device behind it that keeps its errors coded and few, the server answers *OPC?, gives the oldest error away when asked and keeps the queue within its limit |
| `ScpiClient.CountTells` | src/service/scpiserver.cpp:1123-1124 | the count of errors is how many queries for the next one are answered by an error |
| `ScpiClient.ErrorForms` | src/service/scpiserver.cpp:1116-1131 | the long and short forms of the query for the next error are one; other words and a missing question mark note an error |
| `ScpiClient.OpcAlone` | src/service/scpiserver.cpp:910-911 | *OPC without the question mark answers nothing |
| `ScpiClient.PushedAllEnds` | src/service/scpiserver.cpp:323-331 | a queue of more than twenty errors keeps the oldest nineteen and the overflow |
| `ScpiClient.RespondsToChannel` | src/service/scpiserver.cpp:431-437 | the server's line for the queries of a channel |
| `ScpiClient.ChannelTextReads` | tools/qtdmm-mcp.py:80-81 | the line a batch is sent as, the channel behind every query |
| `ScpiClient.ShallowIsMeant` | tools/qtdmm-mcp.py:81 | queries of one mnemonic but the last, as all tools ask, are read as what they mean |
| `ScpiClient.NewestIsTheQuerys` | tools/qtdmm-mcp.py:83-84 | after a batch the error named is a refused query's exactly when all errors of the batch fit into the queue and the last one is its, or it is the overflow itself; the last one is its when no later query notes one |
| `ScpiClient.FullQueue` | src/service/scpiserver.cpp:323-331 | a refused query at a full queue: the client names the overflow |
| `ScpiClient.Exchange` | src/service/scpiserver.cpp:176-203 | what is sent reaches the server cut anyhow, what the server makes of it comes back |
| `ScpiClient.Ask` | tools/qtdmm-mcp.py:70-75 | a query of any length over any cutting: the first line of what comes back, the rest unread |
| `ScpiClient.NextError` | src/service/scpiserver.cpp:1127-1130 | over any cutting the oldest error leaves the server's queue, and its text is told from "no error" |
| `ScpiClient.NoErrorStarts` | tools/qtdmm-mcp.py:87 | "no error" is any answer that starts with "0," |
| `ScpiClient.Errors` | tools/qtdmm-mcp.py:181-190 | the oldest fifty at most, in order, the rest left |
| `ScpiClient.LastError` | tools/qtdmm-mcp.py:84-89 | the last of those; the newest of all, and the queue left empty, exactly when it held fifty at most |
| `ScpiClient.Channel` | tools/qtdmm-mcp.py:77-91 | over any cutting the answers of the queries, or the newest error and an empty queue |
| `ScpiCommands.OneCommand` | tools/qtdmm-mcp.py:302-305 | a command without line breaks is one line for the server, whatever the cutting, exactly when it is no longer than 65536 bytes |
| `ScpiCommands.Command` | tools/qtdmm-mcp.py:299-311 | what is sent, nothing with a line break; for any command and cutting what the server makes of it and how the tool ends; within the limit it is served once and the oldest error is the tool's |
| `ScpiCommands.ShortCommand` | tools/qtdmm-mcp.py:306-308 | a command within the limit is served once though the query behind it may arrive with it |
| `ScpiCommands.OwnIsOneCommand` | src/service/scpiserver.cpp:661-670 | the server reads a line with a mark or key as one command whose argument is the text |
| `ScpiCommands.Mark` | tools/qtdmm-mcp.py:333-335 | a mark within the limit reaches the server as that command, or not at all with a line break; a longer one as what is left of it |
| `ScpiCommands.PressKey` | tools/qtdmm-mcp.py:370-374 | a key likewise |
| `ScpiCommands.LongMarkTail` | src/service/scpiserver.cpp:179-183 | a text without line breaks whose mark, cut once, is thrown away but for its end, which is read as another command |
| `ScpiCommands.LongMarkServed` | src/service/scpiserver.cpp:179-197 | what it does to the server: the overrun noted, the other command served, an error for the rest |
| `ScpiTools.ChannelsRoundTrip` | tools/qtdmm-mcp.py:159-165 | the values the server lists are the values the tool gives |
| `ScpiTools.ChannelsReceivedExactly` | src/service/scpiserver.cpp:703-716 | through the line protocol exactly when none of their texts holds a line feed |
| `ScpiTools.AlarmsRoundTrip` | tools/qtdmm-mcp.py:265-272 | so are the alarms and their states; no list is taken for the empty one |
| `ScpiTools.AlarmsReceivedExactly` | src/service/scpiserver.cpp:623-632 | through the line protocol exactly when no name holds a line feed |
| `ScpiTools.BrokenList` | src/service/scpiserver.cpp:623-632 | with a line feed in a name an alarm is missing |
| `ScpiTools.RecordReads` | tools/qtdmm-mcp.py:236-242 | the tool reads the four fields of the server's answer, whatever the unit |
| `ScpiTools.ShortUnitExactly` | tools/qtdmm-mcp.py:253 | the short way gives the unit exactly when it holds no comma and no quote |
| `ScpiTools.Screenshot` | tools/qtdmm-mcp.py:194-197 | the block of the stream, however it is cut |
| `ScpiTools.RecordingData` | tools/qtdmm-mcp.py:246-256 | unit and data of the stream, however it is cut |
| `ScpiTools.ReadingsAreClosest` | tools/qtdmm-mcp.py:250 | the number asked for is the closest from 1 to 10000 |
| `ScpiTools.RecordedRoundTrip` | tools/qtdmm-mcp.py:246-256 | from the server's own answers the unit and the data |
| `ScpiRecording.ChannelData` | tools/qtdmm-mcp.py:254-256 | the branch of another channel: its unit, refused or given, then the block, over any cutting of either |
| `ScpiRecording.ChannelDataRoundTrip` | src/service/scpiserver.cpp:953 | from the unit between quotes, none doubled, and a block both come back exactly when the unit neither starts nor ends with a quote |

## Left out

- Sockets, timeouts and hosts: a connection is the chunks that will arrive and how it ends. That one receive takes
  65536 bytes at most is not modelled; chunks have any length but none.
- UTF-8: a byte and a character are one, so the length of a block counts characters of its data.
- Python's lenient numbers (signs, blanks, underscores): a length or a channel number is plain decimal digits.
- Floating point: thresholds, times and steps are exact reals; a reading that is no number is not modelled. The
  decade of a step guessed one off is.
- Widths of integers: milliseconds, codes and header suffixes are unbounded.
- What the commands of the server do, but for *OPC and the error queue: a device is a function of the parsed command
  and the queue. *CLS, the channel lists and the readings are behind it, and that it does not change while a message
  is served.
- The actions of alarms (sound, popup, program, recorder), their JSON, their wording; the receivers of the signals,
  which could call back into the manager.
- `AlarmSilence.EnvFollowsRun`: times count from 0; the program's -1 stands for none, so earlier times have no meaning.
- `ScpiClient.NextError`: the device's errors have a code that is not zero and a text without line feed, as all texts
  in the server have.
- Other clients of the server: its error queue is shared, and one that takes errors off it or notes some between two
  exchanges of a tool is not modelled.
- `ScpiClient.Channel`: called with at least one query and a line of at most 65536 bytes, as every caller does. Queries below a query of several
  mnemonics are answered as what the server reads them as.
- `ScpiTools.RecordingData`: the main value's branch, the other one is `ScpiRecording.ChannelData`; the CSV in the block
  and the numbers in it are not parsed.
- The tools that only forward one answer or test bits of a number.
