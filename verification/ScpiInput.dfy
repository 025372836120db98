/** The server's input: what a client sends arrives in pieces and is read line by line, or thrown
    away when too much of it is no line. */
module ScpiInput {
  import opened Text
  import opened ScpiStream

  /** More than this without a line feed is thrown away. */
  const INPUT_LIMIT := 65536

  datatype Event = GotLine(text: string) | Overrun

  /** A line without the line ends behind it. */
  function Chop(line: string): string { StripRight(IsEol, line) }

  lemma ChopKeeps(line: string)
    requires '\n' !in line && '\r' !in line
    ensures Chop(line) == line
  {
  }

  /** Any line ends behind a line are dropped, before and behind the line feed. */
  lemma {:induction false} ChopEnds(line: string, ends: string)
    requires '\n' !in line && '\r' !in line && forall c :: c in ends ==> c == '\r' || c == '\n'
    ensures Chop(line + ends) == line
  {
    StripRightBlanks(IsEol, line, ends);
    ChopKeeps(line);
  }

  /** The lines received and what is left behind the last line feed. */
  function LinesIn(buf: string): (r: (seq<Event>, string))
    ensures !HasLine(r.1)
    decreases |buf|
  {
    if !HasLine(buf) then ([], buf)
    else
      var rest := LinesIn(AfterLine(buf));
      ([GotLine(Chop(Line(buf)))] + rest.0, rest.1)
  }

  /** What the server makes of a piece that arrives behind what it has not read yet. */
  function Arrival(buf: string, piece: string): (seq<Event>, string) {
    var all := buf + piece;
    if |all| > INPUT_LIMIT && !HasLine(all) then ([Overrun], "") else LinesIn(all)
  }

  function Arrivals(buf: string, pieces: seq<Chunk>): (seq<Event>, string)
    decreases |pieces|
  {
    if pieces == [] then ([], buf)
    else
      var first := Arrival(buf, pieces[0]);
      var rest := Arrivals(first.1, pieces[1..]);
      (first.0 + rest.0, rest.1)
  }

  // ------------------------------------------------------- lines as sent

  /** Lines as a client sends them. */
  function Sending(lines: seq<string>): string {
    if lines == [] then "" else lines[0] + "\n" + Sending(lines[1..])
  }

  /** The lines as the server is to read them. */
  function Got(lines: seq<string>): (events: seq<Event>)
    ensures |events| == |lines|
  {
    seq(|lines|, i requires 0 <= i < |lines| => GotLine(Chop(lines[i])))
  }

  predicate Whole(lines: seq<string>) { forall l :: l in lines ==> '\n' !in l }

  predicate Short(lines: seq<string>) { forall l :: l in lines ==> |l| <= INPUT_LIMIT }

  lemma FirstLine(buf: string, more: string, lines: seq<string>)
    requires lines != [] && Whole(lines) && buf + more == Sending(lines)
    ensures HasLine(buf) <==> |buf| > |lines[0]|
    ensures HasLine(buf) ==> Line(buf) == lines[0] && AfterLine(buf) + more == Sending(lines[1..])
  {
    assert lines[0] in lines;
    Assoc(lines[0], "\n", Sending(lines[1..]));
    FirstOf(buf, more, lines[0], Sending(lines[1..]));
  }

  lemma FirstOf(buf: string, more: string, line: string, rest: string)
    requires '\n' !in line && buf + more == line + ("\n" + rest)
    ensures HasLine(buf) <==> |buf| > |line|
    ensures HasLine(buf) ==> Line(buf) == line && AfterLine(buf) + more == rest
  {
    var all, n := line + ("\n" + rest), |line|;
    assert all[n] == '\n' && all[..n] == line && all[n + 1..] == rest;
    assert forall k :: 0 <= k < |buf| ==> buf[k] == (buf + more)[k];
    if |buf| > n {
      LineEndIs(buf, n);
      assert buf[..n] == (buf + more)[..n];
      assert buf[n + 1..] + more == (buf + more)[n + 1..];
    } else {
      assert forall k :: 0 <= k < |buf| ==> all[k] == line[k];
    }
  }

  /** What has arrived of the lines is read as the first of them, and a part of the next is left. */
  lemma {:induction false} LinesInPrefix(buf: string, more: string, lines: seq<string>) returns (k: nat)
    requires Whole(lines) && buf + more == Sending(lines)
    ensures k <= |lines| && LinesIn(buf).0 == Got(lines[..k])
    ensures LinesIn(buf).1 + more == Sending(lines[k..])
    decreases |lines|
  {
    if lines == [] {
      k := 0;
    } else {
      FirstLine(buf, more, lines);
      if HasLine(buf) {
        assert Whole(lines[1..]) by {
          assert forall l :: l in lines[1..] ==> l in lines;
        }
        var j := LinesInPrefix(AfterLine(buf), more, lines[1..]);
        k := j + 1;
        assert lines[..k] == [lines[0]] + lines[1..][..j] && lines[1..][j..] == lines[k..];
        GotCons(lines[0], lines[1..][..j]);
      } else {
        k := 0;
        assert lines[..0] == [] && lines[0..] == lines;
      }
    }
  }

  lemma GotCons(line: string, more: seq<string>)
    ensures Got([line] + more) == [GotLine(Chop(line))] + Got(more)
  {
  }

  lemma GotConcat(a: seq<string>, b: seq<string>)
    ensures Got(a + b) == Got(a) + Got(b)
  {
  }

  /** Short lines come out whole, however they are cut. */
  lemma {:induction false} ShortLinesArrive(buf: string, pieces: seq<Chunk>, lines: seq<string>)
    requires Whole(lines) && Short(lines) && !HasLine(buf)
    requires buf + Concat(pieces) == Sending(lines)
    ensures Arrivals(buf, pieces) == (Got(lines), "")
    decreases |pieces|
  {
    hide LinesIn, HasLine, Got;
    if pieces == [] {
      NothingLeft(buf, lines);
    } else {
      var all, more := buf + pieces[0], Concat(pieces[1..]);
      assert all + more == buf + (pieces[0] + more);
      NoOverrun(all, more, lines);
      var k := LinesInPrefix(all, more, lines);
      var later := lines[k..];
      assert forall l :: l in later ==> l in lines;
      ShortLinesArrive(LinesIn(all).1, pieces[1..], later);
      assert lines == lines[..k] + later;
      GotConcat(lines[..k], later);
    }
  }

  lemma NothingLeft(buf: string, lines: seq<string>)
    requires Whole(lines) && !HasLine(buf) && buf == Sending(lines)
    ensures buf == "" && Got(lines) == []
  {
    if lines != [] {
      assert buf + "" == buf;
      FirstLine(buf, "", lines);
    }
  }

  lemma NoOverrun(buf: string, more: string, lines: seq<string>)
    requires Whole(lines) && Short(lines) && buf + more == Sending(lines)
    ensures HasLine(buf) || |buf| <= INPUT_LIMIT
  {
    if lines == [] {
    } else {
      FirstLine(buf, more, lines);
      assert lines[0] in lines;
    }
  }

  // -------------------------------------------------------------- long lines

  /** A cutting of a long line: the part before is thrown away, the rest is a line of its own. */
  lemma LongLineTail(head: string, tail: string)
    requires |head| > 65536 && '\n' !in head && '\n' !in tail
    ensures Concat([head, tail + "\n"]) == head + tail + "\n"
    ensures Arrivals("", [head, tail + "\n"]) == ([Overrun, GotLine(Chop(tail))], "")
  {
    var pieces: seq<Chunk> := [head, tail + "\n"];
    assert pieces[1..] == [tail + "\n"];
    TwoPieces(head, tail + "\n");
    assert !HasLine(head) && "" + head == head;
    assert Arrival("", head) == ([Overrun], "");
    OneLineArrives(tail);
    ArrivalsOf("", pieces);
    ArrivalsOf("", pieces[1..]);
    assert pieces[1..][1..] == [];
    var got, none: seq<Event> := [GotLine(Chop(tail))], [];
    assert Arrivals("", []) == (none, "") && got + none == got && [Overrun] + got == [Overrun, GotLine(Chop(tail))];
  }

  lemma TwoPieces(a: string, b: string)
    ensures Concat([a, b]) == a + b
  {
    assert [a, b][1..] == [b] && [b][1..] == [];
    assert Concat([]) == "" && Concat([b]) == b + "" == b;
  }

  lemma ArrivalsOf(buf: string, pieces: seq<Chunk>)
    requires pieces != []
    ensures var first := Arrival(buf, pieces[0]);
            var rest := Arrivals(first.1, pieces[1..]);
            Arrivals(buf, pieces) == (first.0 + rest.0, rest.1)
  {
  }

  lemma OneLineArrives(line: string)
    requires '\n' !in line
    ensures Arrival("", line + "\n") == ([GotLine(Chop(line))], "")
  {
    var all := line + "\n";
    assert "" + all == all;
    LineEndIs(all, |line|);
    assert all[..|line|] == line && all[|line| + 1..] == "";
    var none: seq<Event> := [];
    assert LinesIn("") == (none, "");
    assert [GotLine(Chop(line))] + none == [GotLine(Chop(line))];
  }

  lemma {:induction false} ConcatSending(lines: seq<string>, more: seq<string>)
    ensures Sending(lines + more) == Sending(lines) + Sending(more)
  {
    if lines == [] {
      assert lines + more == more;
    } else {
      assert (lines + more)[1..] == lines[1..] + more;
      ConcatSending(lines[1..], more);
      Assoc(lines[0] + "\n", Sending(lines[1..]), Sending(more));
    }
  }

  /** Lines with a long one among them, cut before and behind it: it is never read as a whole. */
  lemma LongLineOverruns(lines: seq<string>, k: nat) returns (pieces: seq<Chunk>)
    requires Whole(lines) && k < |lines| && |lines[k]| > INPUT_LIMIT
    ensures Concat(pieces) == Sending(lines) && Overrun in Arrivals("", pieces).0
  {
    var before, line, more := Sending(lines[..k]), lines[k], "\n" + Sending(lines[k + 1..]);
    assert line in lines;
    assert lines == lines[..k] + ([line] + lines[k + 1..]);
    ConcatSending(lines[..k], [line] + lines[k + 1..]);
    assert ([line] + lines[k + 1..])[1..] == lines[k + 1..];
    assert Sending(lines) == before + (line + more);
    assert forall l :: l in lines[..k] ==> l in lines;
    var tail: seq<Chunk> := [line, more];
    TwoPieces(line, more);
    TailOverruns(line, more);
    if before == "" {
      pieces := tail;
      assert before + (line + more) == line + more;
    } else {
      pieces := [before] + tail;
      assert pieces[1..] == tail;
      assert before + "" == before;
      var j := LinesInPrefix(before, "", lines[..k]);
      EndsWhole(before, lines[..k], j);
      ArrivalsOf("", pieces);
    }
  }

  lemma TailOverruns(line: string, more: Chunk)
    requires |line| > INPUT_LIMIT && '\n' !in line
    ensures Overrun in Arrivals("", [line, more]).0
  {
    assert !HasLine(line) && "" + line == line;
    ArrivalsOf("", [line, more]);
    assert Arrival("", line).0 == [Overrun];
  }

  /** Whole lines in one piece leave nothing behind. */
  lemma EndsWhole(buf: string, lines: seq<string>, j: nat)
    requires Whole(lines) && buf == Sending(lines) != "" && j <= |lines|
    requires LinesIn(buf).1 + "" == Sending(lines[j..])
    ensures Arrival("", buf).1 == ""
  {
    assert "" + buf == buf && LinesIn(buf).1 + "" == LinesIn(buf).1;
    FirstLine(buf, "", lines);
    assert buf + "" == buf;
    assert forall l :: l in lines[j..] ==> l in lines;
    NothingLeft(LinesIn(buf).1, lines[j..]);
  }

  /** Lines sent one after the other come out whole for every cutting exactly when none is longer
      than the server's limit. */
  lemma LinesArriveExactly(lines: seq<string>)
    requires Whole(lines)
    ensures (forall pieces: seq<Chunk> ::
               Concat(pieces) == Sending(lines) ==> Arrivals("", pieces) == (Got(lines), ""))
            <==> forall l :: l in lines ==> |l| <= 65536
  {
    if Short(lines) {
      forall pieces: seq<Chunk> | Concat(pieces) == Sending(lines)
        ensures Arrivals("", pieces) == (Got(lines), "")
      {
        assert "" + Concat(pieces) == Concat(pieces);
        ShortLinesArrive("", pieces, lines);
      }
    } else {
      var l :| l in lines && |l| > INPUT_LIMIT;
      var k :| 0 <= k < |lines| && lines[k] == l;
      var pieces := LongLineOverruns(lines, k);
      assert Overrun !in Got(lines);
    }
  }
}
