/** Definite length blocks (section 8.7.9 of IEEE 488.2): what the server prints and what the
    client reads, however the stream is cut. */
module ScpiBlocks {
  import opened Results
  import opened Text
  import opened ScpiStream

  /** The server's block: a mark, how many digits the length has, the length, the data. */
  function BlockOf(data: string): string {
    var length := OfNat(|data|);
    "#" + OfNat(|length|) + length + data
  }

  // --------------------------------------------------- reading off a stream

  function Take(s: string, n: nat, end: Failure): (Reply, string) {
    if |s| >= n then (Ok(s[..n]), s[n..]) else (Err(end), s)
  }

  /** The block at the start of a stream and the bytes after it. */
  function BlockAt(s: string, end: Failure): (Reply, string) {
    var mark := Take(s, 1, end);
    if mark.0.Err? then mark
    else if mark.0.value != "#" then (Err(NotABlock), mark.1)
    else
      var digits := Take(mark.1, 1, end);
      if digits.0.Err? then digits
      else if !IsNumber(digits.0.value) then (Err(BadLength), digits.1)
      else
        var length := Take(digits.1, ToNat(digits.0.value), end);
        if length.0.Err? then length
        else if !IsNumber(length.0.value) then (Err(BadLength), length.1)
        else Take(length.1, ToNat(length.0.value), end)
  }

  lemma ReadTakes(w: Wire, n: nat, end: Failure)
    ensures ReadOn(w, n, end).0 == Take(w.Stream(), n, end).0
    ensures ReadOn(w, n, end).1.Stream() == Take(w.Stream(), n, end).1
  {
    WholeStream(w.Stream());
  }

  lemma WholeStream(s: string)
    ensures Wire(s, []).Stream() == s
  {
  }

  lemma RawBlockReads(w: Wire, end: Failure)
    ensures RawBlockOn(w, end).0 == BlockAt(w.Stream(), end).0
    ensures RawBlockOn(w, end).1.Stream() == BlockAt(w.Stream(), end).1
  {
    hide ReadOn, Take, Fill;
    ReadTakes(w, 1, end);
    var mark := ReadOn(w, 1, end);
    if mark.0.Ok? {
      ReadTakes(mark.1, 1, end);
      var digits := ReadOn(mark.1, 1, end);
      if digits.0.Ok? && IsNumber(digits.0.value) {
        ReadTakes(digits.1, ToNat(digits.0.value), end);
        var length := ReadOn(digits.1, ToNat(digits.0.value), end);
        if length.0.Ok? && IsNumber(length.0.value) {
          ReadTakes(length.1, ToNat(length.0.value), end);
        }
      }
    }
  }

  /** However the stream is cut: the block is the one at its start, and what is left is what
      follows, without some of the line end characters it starts with. */
  lemma BlockReadsStream(w: Wire, end: Failure)
    ensures BlockOn(w, end).0 == BlockAt(w.Stream(), end).0
    ensures var rest := BlockAt(w.Stream(), end).1;
            exists k :: 0 <= k <= EolRun(rest) && BlockOn(w, end).1.Stream() == rest[k..]
  {
    RawBlockReads(w, end);
    var raw := RawBlockOn(w, end);
    var rest := raw.1.Stream();
    if raw.0.Ok? {
      DropRun(raw.1);
      assert BlockOn(w, end).1.Stream() == rest[EolRun(raw.1.buf)..];
    } else {
      assert rest[0..] == rest;
    }
  }

  lemma DropRun(w: Wire)
    ensures var k := EolRun(w.buf);
            k <= EolRun(w.Stream()) && w.Drop(k).Stream() == w.Stream()[k..]
  {
    RunOfMore(w.buf, Concat(w.chunks));
  }

  lemma RunOfMore(s: string, more: string)
    ensures EolRun(s) <= EolRun(s + more)
  {
    var n := EolRun(s + more);
    if n < |s| {
      assert (s + more)[n] == s[n];
    }
  }

  /** Sessions of queries that end in a block do not depend on the cutting. */
  lemma QueriesThenBlock(v: Wire, w: Wire, n: nat, end: Failure)
    requires v.Stream() == w.Stream()
    ensures Session(v, n, end).0 == Session(w, n, end).0
    ensures BlockOn(Session(v, n, end).1, end).0 == BlockOn(Session(w, n, end).1, end).0
  {
    hide Session, BlockOn, BlockAt, Wire.Stream;
    CuttingDoesNotMatter(v, w, n, end);
    BlockReadsStream(Session(v, n, end).1, end);
    BlockReadsStream(Session(w, n, end).1, end);
  }

  // --------------------------------------------------- the block round trip

  lemma {:induction false} TenToGrows(j: nat, k: nat)
    requires j <= k
    ensures TenTo(j) <= TenTo(k)
    decreases k
  {
    if j == k {
    } else {
      TenToGrows(j, k - 1);
    }
  }

  const LIMIT: nat := 1000000000

  lemma LimitIsTenToNine()
    ensures TenTo(9) == LIMIT
  {
    assert TenTo(3) == 1000;
    assert TenTo(6) == 1000 * TenTo(3);
    assert TenTo(9) == 1000 * TenTo(6);
  }

  /** No block the client reads is as long as a billion bytes. */
  lemma BlocksAreShort(s: string, end: Failure)
    requires BlockAt(s, end).0.Ok?
    ensures |BlockAt(s, end).0.value| < LIMIT
  {
    var digits := Take(Take(s, 1, end).1, 1, end);
    var length := Take(digits.1, ToNat(digits.0.value), end);
    assert digits.0.value[..0] == "";
    assert ToNat(digits.0.value) == Digit(digits.0.value[0]);
    NumberBound(length.0.value);
    TenToGrows(|length.0.value|, 9);
    LimitIsTenToNine();
  }

  lemma LengthHasOneDigit(n: nat)
    requires n < LIMIT
    ensures |OfNat(|OfNat(n)|)| == 1
  {
    var l := |OfNat(n)|;
    NumberLength(n);
    if l >= 10 {
      LimitIsTenToNine();
      TenToGrows(9, l - 1);
    }
    NumberLength(l);
  }

  lemma TakeFirst(a: string, b: string, end: Failure)
    ensures Take(a + b, |a|, end) == (Ok(a), b)
  {
    assert (a + b)[..|a|] == a && (a + b)[|a|..] == b;
  }

  lemma ShortBlockDecodes(data: string, rest: string, end: Failure)
    requires |data| < LIMIT
    ensures BlockAt(BlockOf(data) + rest, end) == (Ok(data), rest)
  {
    var length := OfNat(|data|);
    var digits := OfNat(|length|);
    LengthHasOneDigit(|data|);
    NumberRoundTrip(|data|);
    NumberRoundTrip(|length|);
    var tail := data + rest;
    assert BlockOf(data) + rest == "#" + (digits + (length + tail));
    TakeFirst("#", digits + (length + tail), end);
    TakeFirst(digits, length + tail, end);
    TakeFirst(length, tail, end);
    TakeFirst(data, rest, end);
  }

  /** The server's block comes back exactly when its data is shorter than a billion bytes, for
      every stream after it and every cutting. */
  lemma BlockDecodesExactly(data: string, rest: string, w: Wire, end: Failure)
    requires w.Stream() == BlockOf(data) + rest
    ensures BlockOn(w, end).0 == Ok(data) <==> |data| < LIMIT
    ensures |data| < LIMIT ==>
              exists k :: 0 <= k <= EolRun(rest) && BlockOn(w, end).1.Stream() == rest[k..]
  {
    BlockReadsStream(w, end);
    if |data| < LIMIT {
      ShortBlockDecodes(data, rest, end);
    } else if BlockAt(w.Stream(), end).0.Ok? {
      BlocksAreShort(w.Stream(), end);
    }
  }

  // -------------------------------------------------- a query after a block

  /** The ways a stream can be cut. */
  predicate Cuts(chunks: seq<Chunk>, stream: string) { Concat(chunks) == stream }

  /** The answer of a query sent after a block. */
  function NextAnswer(chunks: seq<Chunk>, end: Failure): Reply {
    QueryOn(BlockOn(Wire("", chunks), end).1, end).0
  }

  /** The answer of a query to a stream. */
  function AnswerOf(s: string, end: Failure): Reply {
    if HasLine(s) then Ok(Strip(Line(s))) else Err(end)
  }

  /** The line ends a stream starts with hold no line feed, or the answer behind them is empty. */
  predicate Unambiguous(rest: string, end: Failure) {
    || (forall i :: 0 <= i < EolRun(rest) ==> rest[i] != '\n')
    || AnswerOf(rest[EolRun(rest)..], end) == Ok("")
  }

  lemma {:induction false} StripRightAfterReturn(s: string)
    ensures StripRight(IsSpace, "\r" + s) == if StripRight(IsSpace, s) == "" then "" else "\r" + StripRight(IsSpace, s)
  {
    var t := "\r" + s;
    if s == "" {
      assert t[..|t| - 1] == "";
    } else {
      assert t[|t| - 1] == s[|s| - 1] && t[..|t| - 1] == "\r" + s[..|s| - 1];
      StripRightAfterReturn(s[..|s| - 1]);
    }
  }

  lemma StripAfterReturn(s: string)
    ensures Strip("\r" + s) == Strip(s)
  {
    StripRightAfterReturn(s);
    var r := StripRight(IsSpace, s);
    assert ("\r" + r)[1..] == r;
  }

  lemma ReturnChangesNothing(s: string, end: Failure)
    ensures AnswerOf("\r" + s, end) == AnswerOf(s, end)
  {
    assert ("\r" + s)[1..] == s;
    if HasLine(s) {
      assert Line("\r" + s) == "\r" + Line(s);
      StripAfterReturn(Line(s));
    }
  }

  lemma FeedIsEmpty(s: string, end: Failure)
    ensures AnswerOf("\n" + s, end) == Ok("")
  {
    assert Line("\n" + s) == "";
  }

  /** Whatever part of the line ends is left, the answer is the one behind all of them. */
  lemma {:induction false} UnambiguousAnswer(rest: string, k: nat, end: Failure)
    requires Unambiguous(rest, end) && k <= EolRun(rest)
    ensures AnswerOf(rest[k..], end) == AnswerOf(rest[EolRun(rest)..], end)
    decreases EolRun(rest) - k
  {
    hide AnswerOf;
    if k < EolRun(rest) {
      UnambiguousAnswer(rest, k + 1, end);
      assert rest[k..] == [rest[k]] + rest[k + 1..];
      if rest[k] == '\n' {
        FeedIsEmpty(rest[k + 1..], end);
      } else {
        ReturnChangesNothing(rest[k + 1..], end);
      }
    }
  }

  lemma QueryAnswers(w: Wire, end: Failure)
    ensures QueryOn(w, end).0 == AnswerOf(w.Stream(), end)
  {
  }

  lemma BlockAfterMore(w: Wire, end: Failure)
    requires w.buf == "" && w.chunks != []
    ensures BlockOn(w, end) == BlockOn(w.More(), end)
  {
    hide Take;
    FirstRead(w, end);
  }

  lemma FirstRead(w: Wire, end: Failure)
    requires w.buf == "" && w.chunks != []
    ensures ReadOn(w, 1, end) == ReadOn(w.More(), 1, end)
  {
    assert Fill(w, 1) == Fill(w.More(), 1);
  }

  lemma ReadBuffered(a: string, b: string, chunks: seq<Chunk>, end: Failure)
    ensures ReadOn(Wire(a + b, chunks), |a|, end) == (Ok(a), Wire(b, chunks))
  {
    assert (a + b)[..|a|] == a && (a + b)[|a|..] == b;
  }

  /** A block received whole: what has been received behind it loses its line ends, no more. */
  lemma BlockBuffered(data: string, more: string, chunks: seq<Chunk>, end: Failure)
    requires |data| < LIMIT
    ensures BlockOn(Wire(BlockOf(data) + more, chunks), end) == (Ok(data), Wire(more[EolRun(more)..], chunks))
  {
    var length := OfNat(|data|);
    var digits := OfNat(|length|);
    LengthHasOneDigit(|data|);
    NumberRoundTrip(|data|);
    NumberRoundTrip(|length|);
    var tail := data + more;
    assert BlockOf(data) + more == "#" + (digits + (length + tail));
    ReadBuffered("#", digits + (length + tail), chunks, end);
    ReadBuffered(digits, length + tail, chunks, end);
    ReadBuffered(length, tail, chunks, end);
    ReadBuffered(data, more, chunks, end);
  }

  /** In one chunk, and the block and the rest in a chunk each. */
  lemma TwoCuttings(data: string, rest: string, end: Failure)
    requires |data| < LIMIT && rest != ""
    ensures var s := BlockOf(data) + rest;
            && Cuts([s], s) && Cuts([BlockOf(data), rest], s)
            && NextAnswer([s], end) == AnswerOf(rest[EolRun(rest)..], end)
            && NextAnswer([BlockOf(data), rest], end) == AnswerOf(rest, end)
  {
    var b, s := BlockOf(data), BlockOf(data) + rest;
    var one: Wire, two: Wire := Wire("", [s]), Wire("", [b, rest]);
    assert s + "" == s && "" + s == s && "" + b == b && b + "" == b && rest + "" == rest;
    assert [s][1..] == [] && [b, rest][1..] == [rest] && [rest][1..] == [];
    assert one.More() == Wire(s, []) && two.More() == Wire(b, [rest]);
    BlockAfterMore(one, end);
    BlockBuffered(data, rest, [], end);
    BlockAfterMore(two, end);
    BlockBuffered(data, "", [rest], end);
    QueryAnswers(BlockOn(one, end).1, end);
    QueryAnswers(BlockOn(two, end).1, end);
    var left := rest[EolRun(rest)..];
    assert Wire(left, []).Stream() == left;
    assert Wire("", [rest]).Stream() == rest;
  }

  /** After a block the answer of a query is the same for every cutting exactly when the bytes
      behind the block start with no line feed, or with an empty answer behind their line ends. */
  lemma QueryAfterBlock(data: string, rest: string, end: Failure)
    requires |data| < LIMIT
    ensures (forall c, d :: Cuts(c, BlockOf(data) + rest) && Cuts(d, BlockOf(data) + rest) ==>
               NextAnswer(c, end) == NextAnswer(d, end))
            <==> Unambiguous(rest, end)
  {
    var s := BlockOf(data) + rest;
    if Unambiguous(rest, end) {
      forall c | Cuts(c, s)
        ensures NextAnswer(c, end) == AnswerOf(rest[EolRun(rest)..], end)
      {
        AnyCutting(data, rest, c, end);
      }
    } else {
      TwoCuttings(data, rest, end);
      FirstFeed(rest, end);
    }
  }

  lemma AnyCutting(data: string, rest: string, c: seq<Chunk>, end: Failure)
    requires |data| < LIMIT && Unambiguous(rest, end) && Cuts(c, BlockOf(data) + rest)
    ensures NextAnswer(c, end) == AnswerOf(rest[EolRun(rest)..], end)
  {
    var w := Wire("", c);
    assert w.Stream() == BlockOf(data) + rest;
    BlockDecodesExactly(data, rest, w, end);
    var k :| 0 <= k <= EolRun(rest) && BlockOn(w, end).1.Stream() == rest[k..];
    QueryAnswers(BlockOn(w, end).1, end);
    UnambiguousAnswer(rest, k, end);
  }

  /** A stream whose line ends hold a line feed starts with an empty answer. */
  lemma {:induction false} FirstFeed(rest: string, end: Failure)
    requires exists i :: 0 <= i < EolRun(rest) && rest[i] == '\n'
    ensures AnswerOf(rest, end) == Ok("")
  {
    assert rest == [rest[0]] + rest[1..];
    if rest[0] == '\n' {
      FeedIsEmpty(rest[1..], end);
    } else {
      var i :| 0 <= i < EolRun(rest) && rest[i] == '\n';
      assert rest[1..][i - 1] == '\n';
      FirstFeed(rest[1..], end);
      ReturnChangesNothing(rest[1..], end);
    }
  }
}
