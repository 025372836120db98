/** The client's connection: lines and blocks cut out of a byte stream that arrives in chunks.
    A byte is a character here. */
module ScpiStream {
  import opened Results
  import opened Text

  /** What every exception of the connection becomes. */
  datatype Failure = TimedOut | Closed | NotABlock | BadLength

  type Reply = Result<string, Failure>

  // ------------------------------------------------------------- the wire

  /** A chunk received holds something: nothing at all is the end of the stream. */
  type Chunk = c: string | c != "" witness "#"

  /** What has been received and not used, and the chunks still to be received. */
  datatype Wire = Wire(buf: string, chunks: seq<Chunk>) {

    function Stream(): string { buf + Concat(chunks) }

    function More(): Wire
      requires chunks != []
    {
      Wire(buf + chunks[0], chunks[1..])
    }

    function Drop(n: nat): Wire
      requires n <= |buf|
    {
      Wire(buf[n..], chunks)
    }
  }

  lemma MoreKeepsStream(w: Wire)
    requires w.chunks != []
    ensures w.More().Stream() == w.Stream()
  {
    assert w.buf + w.chunks[0] + Concat(w.chunks[1..]) == w.buf + (w.chunks[0] + Concat(w.chunks[1..]));
  }

  /** Receiving until n bytes are there, or the stream has ended. */
  function Fill(w: Wire, n: nat): (r: Wire)
    ensures r.Stream() == w.Stream()
    ensures |r.buf| < n ==> r.chunks == [] && r.buf == w.Stream()
    decreases |w.chunks|
  {
    if |w.buf| >= n then w
    else if w.chunks == [] then assert w.Stream() == w.buf; w
    else MoreKeepsStream(w); Fill(w.More(), n)
  }

  /** Receiving until a line feed is there, or the stream has ended. */
  function FillLine(w: Wire): (r: Wire)
    ensures r.Stream() == w.Stream()
    ensures !HasLine(r.buf) ==> r.chunks == [] && r.buf == w.Stream()
    decreases |w.chunks|
  {
    if HasLine(w.buf) then w
    else if w.chunks == [] then assert w.Stream() == w.buf; w
    else MoreKeepsStream(w); FillLine(w.More())
  }

  /** The position of the first line feed, or the length. */
  function LineEnd(s: string): (n: nat)
    ensures n <= |s| && forall k :: 0 <= k < n ==> s[k] != '\n'
    ensures n < |s| ==> s[n] == '\n'
  {
    if s == "" || s[0] == '\n' then 0 else 1 + LineEnd(s[1..])
  }

  predicate HasLine(s: string) { LineEnd(s) < |s| }

  function Line(s: string): string { s[..LineEnd(s)] }

  function AfterLine(s: string): string
    requires HasLine(s)
  {
    s[LineEnd(s) + 1..]
  }

  function IsEol(c: char): bool { c == '\r' || c == '\n' }

  /** How many of the first bytes are carriage returns and line feeds. */
  function EolRun(s: string): (n: nat)
    ensures n <= |s| && (forall i :: 0 <= i < n ==> IsEol(s[i]))
    ensures n < |s| ==> !IsEol(s[n])
  {
    if s == "" || !IsEol(s[0]) then 0 else 1 + EolRun(s[1..])
  }

  // -------------------------------------------------------- the operations

  function ReadOn(w: Wire, n: nat, end: Failure): (r: (Reply, Wire))
    ensures r.0.Ok? <==> |w.Stream()| >= n
    ensures r.0.Ok? ==> r.0.value == w.Stream()[..n] && r.1.Stream() == w.Stream()[n..]
    ensures r.0.Err? ==> r.0.error == end && r.1 == Wire(w.Stream(), [])
  {
    var f := Fill(w, n);
    if |f.buf| >= n then
      assert f.Stream()[..n] == f.buf[..n] && f.Stream()[n..] == f.buf[n..] + Concat(f.chunks);
      (Ok(f.buf[..n]), f.Drop(n))
    else (Err(end), f)
  }

  /** A line as received, without its line feed. */
  function LineOn(w: Wire, end: Failure): (r: (Reply, Wire))
    ensures r.0.Ok? <==> HasLine(w.Stream())
    ensures r.0.Ok? ==> r.0.value == Line(w.Stream()) && r.1.Stream() == AfterLine(w.Stream())
    ensures r.0.Err? ==> r.0.error == end && r.1 == Wire(w.Stream(), [])
  {
    var f := FillLine(w);
    if HasLine(f.buf) then
      LineOfMore(f.buf, Concat(f.chunks));
      (Ok(Line(f.buf)), f.Drop(LineEnd(f.buf) + 1))
    else (Err(end), f)
  }

  lemma LineEndIs(s: string, n: nat)
    requires n < |s| && s[n] == '\n' && forall k :: 0 <= k < n ==> s[k] != '\n'
    ensures LineEnd(s) == n
  {
  }

  lemma LineOfMore(s: string, more: string)
    requires HasLine(s)
    ensures HasLine(s + more) && Line(s + more) == Line(s) && AfterLine(s + more) == AfterLine(s) + more
  {
    LineEndIs(s + more, LineEnd(s));
  }

  function QueryOn(w: Wire, end: Failure): (Reply, Wire) {
    var r := LineOn(w, end);
    (if r.0.Ok? then Ok(Strip(r.0.value)) else r.0, r.1)
  }

  /** A block, without the line ends stripped behind it. */
  function RawBlockOn(w: Wire, end: Failure): (Reply, Wire) {
    var mark := ReadOn(w, 1, end);
    if mark.0.Err? then mark
    else if mark.0.value != "#" then (Err(NotABlock), mark.1)
    else
      var digits := ReadOn(mark.1, 1, end);
      if digits.0.Err? then digits
      else if !IsNumber(digits.0.value) then (Err(BadLength), digits.1)
      else
        var length := ReadOn(digits.1, ToNat(digits.0.value), end);
        if length.0.Err? then length
        else if !IsNumber(length.0.value) then (Err(BadLength), length.1)
        else ReadOn(length.1, ToNat(length.0.value), end)
  }

  /** A block; of what has been received behind it the leading line ends go. */
  function BlockOn(w: Wire, end: Failure): (Reply, Wire) {
    var raw := RawBlockOn(w, end);
    if raw.0.Ok? then (raw.0, raw.1.Drop(EolRun(raw.1.buf))) else raw
  }

  // ----------------------------------------------------------- the program

  class Scpi {
    var buf: string
    var chunks: seq<Chunk>
    var sent: string
    const end: Failure

    ghost function Now(): Wire
      reads this
    {
      Wire(buf, chunks)
    }

    /** A connection whose peer will send these chunks and then close, or fall silent. */
    constructor (chunks: seq<Chunk>, end: Failure)
      ensures Now() == Wire("", chunks) && sent == "" && this.end == end
    {
      this.buf, this.chunks, this.sent, this.end := "", chunks, "", end;
    }

    /** The network brings more of what the peer sends. */
    method Receive(more: seq<Chunk>)
      modifies `chunks
      ensures chunks == old(chunks) + more
    {
      chunks := chunks + more;
    }

    method Send(data: string)
      modifies `sent
      ensures sent == old(sent) + data
    {
      sent := sent + data;
    }

    method More() returns (ok: bool)
      modifies `buf, `chunks
      ensures ok <==> old(chunks) != []
      ensures Now() == if ok then old(Now()).More() else old(Now())
    {
      if chunks == [] {
        return false;
      }
      buf, chunks := buf + chunks[0], chunks[1..];
      return true;
    }

    method Read(n: nat) returns (r: Reply)
      modifies `buf, `chunks
      ensures (r, Now()) == ReadOn(old(Now()), n, end)
    {
      while |buf| < n
        invariant Fill(Now(), n) == Fill(old(Now()), n)
        decreases |chunks|
      {
        var ok := More();
        if !ok {
          return Err(end);
        }
      }
      r, buf := Ok(buf[..n]), buf[n..];
    }

    method Query(cmd: string) returns (r: Reply)
      modifies this
      ensures sent == old(sent) + cmd + "\n"
      ensures (r, Now()) == QueryOn(old(Now()), end)
    {
      sent := sent + cmd + "\n";
      while !HasLine(buf)
        invariant FillLine(Now()) == FillLine(old(Now()))
        invariant sent == old(sent) + cmd + "\n"
        decreases |chunks|
      {
        var ok := More();
        if !ok {
          return Err(end);
        }
      }
      var line := Line(buf);
      buf := AfterLine(buf);
      return Ok(Strip(line));
    }

    method Block(cmd: string) returns (r: Reply)
      modifies this
      ensures sent == old(sent) + cmd + "\n"
      ensures (r, Now()) == BlockOn(old(Now()), end)
    {
      sent := sent + cmd + "\n";
      var mark := Read(1);
      if mark.Err? {
        return mark;
      }
      if mark.value != "#" {
        return Err(NotABlock);
      }
      var digits := Read(1);
      if digits.Err? {
        return digits;
      }
      if !IsNumber(digits.value) {
        return Err(BadLength);
      }
      var length := Read(ToNat(digits.value));
      if length.Err? {
        return length;
      }
      if !IsNumber(length.value) {
        return Err(BadLength);
      }
      r := Read(ToNat(length.value));
      if r.Ok? {
        buf := buf[EolRun(buf)..];
      }
    }
  }

  // ------------------------------------------------ queries and the cutting

  /** A session of n queries: the answers up to the first failure, and the wire after it. */
  function Session(w: Wire, n: nat, end: Failure): (seq<Reply>, Wire)
    decreases n
  {
    if n == 0 then ([], w)
    else
      var first := QueryOn(w, end);
      if first.0.Err? then ([first.0], first.1)
      else
        var rest := Session(first.1, n - 1, end);
        ([first.0] + rest.0, rest.1)
  }

  /** The lines of a stream as one reads them off it, whole: the first n and what follows them, or
      all there are, the failure noted, and the bytes after the last line feed. */
  function LinesOf(stream: string, n: nat): (lines: (seq<string>, bool, string))
    decreases n
  {
    if n == 0 then ([], false, stream)
    else if !HasLine(stream) then ([], true, stream)
    else
      var rest := LinesOf(AfterLine(stream), n - 1);
      ([Line(stream)] + rest.0, rest.1, rest.2)
  }

  function Answers(lines: seq<string>, failed: bool, end: Failure): seq<Reply> {
    if lines == [] then (if failed then [Err(end)] else [])
    else [Ok(Strip(lines[0]))] + Answers(lines[1..], failed, end)
  }

  lemma AnswersCons(line: string, more: seq<string>, failed: bool, end: Failure)
    ensures Answers([line] + more, failed, end) == [Ok(Strip(line))] + Answers(more, failed, end)
  {
    assert ([line] + more)[1..] == more;
  }

  lemma QueryTakesLine(w: Wire, end: Failure)
    ensures var s := w.Stream();
            if HasLine(s) then
              QueryOn(w, end).0 == Ok(Strip(Line(s))) && QueryOn(w, end).1.Stream() == AfterLine(s)
            else
              QueryOn(w, end).0 == Err(end) && QueryOn(w, end).1.Stream() == s
  {
    assert Wire(w.Stream(), []).Stream() == w.Stream();
  }

  /** However a stream is cut into chunks, a session of queries gets its lines in order, stripped,
      fails exactly when a line is missing, and leaves the bytes that follow. */
  lemma {:induction false} SessionReadsStream(w: Wire, n: nat, end: Failure)
    ensures var l := LinesOf(w.Stream(), n);
            Session(w, n, end).0 == Answers(l.0, l.1, end) && Session(w, n, end).1.Stream() == l.2
    decreases n
  {
    hide QueryOn, AfterLine, Line, HasLine, Strip, Wire.Stream, Answers;
    if n == 0 {
      NoAnswers(false, end);
    } else {
      QueryTakesLine(w, end);
      NoAnswers(true, end);
      var next := QueryOn(w, end).1;
      if HasLine(w.Stream()) {
        SessionReadsStream(next, n - 1, end);
        SessionStep(w, next, n, LinesOf(AfterLine(w.Stream()), n - 1), end);
      }
    }
  }

  lemma NoAnswers(failed: bool, end: Failure)
    ensures Answers([], failed, end) == if failed then [Err(end)] else []
  {
  }

  lemma SessionStep(w: Wire, next: Wire, n: nat, rest: (seq<string>, bool, string), end: Failure)
    requires n > 0 && HasLine(w.Stream())
    requires QueryOn(w, end) == (Ok(Strip(Line(w.Stream()))), next)
    requires Session(next, n - 1, end).0 == Answers(rest.0, rest.1, end)
    requires Session(next, n - 1, end).1.Stream() == rest.2
    ensures Session(w, n, end).0 == Answers([Line(w.Stream())] + rest.0, rest.1, end)
    ensures Session(w, n, end).1.Stream() == rest.2
  {
    AnswersCons(Line(w.Stream()), rest.0, rest.1, end);
  }

  /** The same bytes cut in two ways: the same answers, the same failure, the same bytes left. */
  lemma CuttingDoesNotMatter(v: Wire, w: Wire, n: nat, end: Failure)
    requires v.Stream() == w.Stream()
    ensures Session(v, n, end).0 == Session(w, n, end).0
    ensures Session(v, n, end).1.Stream() == Session(w, n, end).1.Stream()
  {
    SessionReadsStream(v, n, end);
    SessionReadsStream(w, n, end);
  }

  function Terminated(lines: seq<string>): string {
    if lines == [] then "" else lines[0] + "\n" + Terminated(lines[1..])
  }

  lemma TerminatedCons(line: string, more: seq<string>)
    ensures Terminated([line] + more) == line + "\n" + Terminated(more)
  {
    assert ([line] + more)[1..] == more;
  }

  /** No byte is lost or made up: the lines with their line feeds and what is left are the stream. */
  lemma {:induction false} NothingLost(stream: string, n: nat)
    ensures var l := LinesOf(stream, n); Terminated(l.0) + l.2 == stream
    decreases n
  {
    if n == 0 || !HasLine(stream) {
      NoLines(stream);
    } else {
      NothingLost(AfterLine(stream), n - 1);
      var rest := LinesOf(AfterLine(stream), n - 1);
      Reassemble(stream, rest.0, rest.2);
    }
  }

  lemma NoLines(left: string)
    ensures Terminated([]) + left == left
  {
  }

  /** A session fails exactly when there are too few lines, with no line left over; and no line
      holds a line feed. */
  lemma {:induction false} FailsWithoutLine(stream: string, n: nat)
    ensures var l := LinesOf(stream, n); |l.0| <= n && (l.1 <==> |l.0| < n) && (l.1 ==> !HasLine(l.2))
    ensures forall line :: line in LinesOf(stream, n).0 ==> !HasLine(line)
    decreases n
  {
    if n == 0 || !HasLine(stream) {
    } else {
      FailsWithoutLine(AfterLine(stream), n - 1);
      LineHasNoEnd(stream);
    }
  }

  lemma LineHasNoEnd(s: string)
    ensures !HasLine(Line(s))
  {
    var l := Line(s);
    assert forall k :: 0 <= k < |l| ==> l[k] == s[k];
  }

  lemma Reassemble(s: string, lines: seq<string>, left: string)
    requires HasLine(s) && Terminated(lines) + left == AfterLine(s)
    ensures Terminated([Line(s)] + lines) + left == s
  {
    TerminatedCons(Line(s), lines);
    assert s == Line(s) + "\n" + AfterLine(s);
    assert Line(s) + "\n" + Terminated(lines) + left == Line(s) + "\n" + (Terminated(lines) + left);
  }

  /** A stream has a line exactly when it holds a line feed. */
  lemma HasLineIsIn(s: string)
    ensures HasLine(s) <==> '\n' in s
  {
  }
}
