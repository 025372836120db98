/** Messages to the server: what the client writes is read back as the commands it means. */
module ScpiMessages {
  import opened Results
  import opened Text
  import opened SplitLists
  import opened ScpiServer

  /** A command or query of the client: its mnemonics, whether it asks, its argument. */
  datatype Message = Message(path: seq<string>, query: bool, args: string) {

    predicate Valid() {
      && path != [] && (forall p :: p in path ==> Word(p))
      && (args == "" || (!IsQtSpace(args[0]) && !IsQtSpace(args[|args| - 1])))
    }

    function Header(): string { Join(path, ":") + (if query then "?" else "") }

    function Text(): string { Header() + (if args == "" then "" else " " + args) }

    /** A common command, such as *OPC?. */
    predicate Common() { path != [] && path[0] != "" && path[0][0] == '*' }

    function Meaning(): Command { Command(Uppers(path), Ones(|path|), query, args) }

    /** Where it starts in the command tree, read at a given level. */
    function Start(level: seq<string>): seq<string> { if Common() then [] else level }

    /** What it is read as from where it starts. */
    function ReadFrom(start: seq<string>): Command {
      Command(start + Uppers(path), Ones(|start| + |path|), query, args)
    }

    /** The level it leaves, read at a given one from where it starts. */
    function Leaves(start: seq<string>, level: seq<string>): seq<string>
      requires path != []
    {
      if Common() then level else start + Uppers(path)[..|path| - 1]
    }
  }

  /** A channel list with the one channel. */
  function ChannelArgs(channel: int): string { "(@" + OfInt(channel) + ")" }

  predicate Word(s: string) { s != "" && forall c :: c in s ==> IsMnemonicChar(c) }

  function Uppers(path: seq<string>): (r: seq<string>)
    ensures |r| == |path|
  {
    seq(|path|, i requires 0 <= i < |path| => Upper(path[i]))
  }

  // ----------------------------------------------------- reading one unit

  lemma {:induction false} WordRun(s: string)
    requires forall c :: c in s ==> IsMnemonicChar(c)
    ensures LetterRun(s) == |s|
  {
  }

  lemma WordIsMnemonic(s: string)
    requires Word(s)
    ensures Mnemonic(s) == Some((Upper(s), 1))
  {
    WordRun(s);
  }

  function Known(path: seq<string>): seq<(string, nat)> {
    seq(|path|, i requires 0 <= i < |path| => (Upper(path[i]), 1))
  }

  lemma {:induction false} WordsAreMnemonics(path: seq<string>)
    requires forall p :: p in path ==> Word(p)
    ensures Mnemonics(path) == Some(Known(path))
  {
    if path == [] {
    } else {
      assert path[0] in path && forall p :: p in path[1..] ==> p in path;
      WordIsMnemonic(path[0]);
      WordsAreMnemonics(path[1..]);
      assert Known(path) == [(Upper(path[0]), 1)] + Known(path[1..]);
    }
  }

  /** What the joined mnemonics hold: letters, underscores, stars and the colons between. */
  lemma {:induction false} JoinedWords(path: seq<string>)
    requires path != [] && forall p :: p in path ==> Word(p)
    ensures var j := Join(path, ":");
            && j != "" && path[0] != "" && j[0] == path[0][0] && IsMnemonicChar(j[0]) && IsMnemonicChar(j[|j| - 1])
            && forall c :: c in j ==> IsMnemonicChar(c) || c == ':'
  {
    assert Word(path[0]) && path[0][0] in path[0] && path[0][|path[0]| - 1] in path[0];
    if |path| <= 1 {
    } else {
      assert forall p :: p in path[1..] ==> p in path;
      JoinedWords(path[1..]);
    }
  }

  lemma TrimTight(s: string)
    requires s != "" && !IsQtSpace(s[0]) && !IsQtSpace(s[|s| - 1])
    ensures Trim(s) == s
  {
  }

  lemma IndexOfFirst(a: string, c: char, b: string)
    requires c !in a
    ensures IndexOf(a + [c] + b, c) == |a|
    ensures IndexOf(a, c) == |a|
  {
    var s := a + [c] + b;
    assert s[|a|] == c && forall i :: 0 <= i < |a| ==> s[i] == a[i];
  }

  lemma JoinedSplit(path: seq<string>)
    requires path != [] && forall p :: p in path ==> Word(p)
    ensures SplitAt(Join(path, ":"), ':') == path
  {
    forall p | p in path
      ensures ':' !in p
    {
      assert Word(p);
    }
    SplitJoin(path, ':');
  }

  /** No level of the tree lies below a common command. */
  predicate Rooted(level: seq<string>) { level == [] || level[0] == "" || level[0][0] != '*' }

  lemma KnownMeans(start: seq<string>, level: seq<string>, msg: Message)
    requires msg.Valid() && Rooted(start) && (msg.Common() ==> start == [])
    ensures ParseWords(start, level, Known(msg.path), msg.query, msg.args)
            == Parsed(msg.ReadFrom(start), msg.Leaves(start, level))
  {
    hide Upper, Known, Names, Suffixes, Ones;
    var path := msg.path;
    assert path[0] in path && Word(path[0]);
    KnownIs(start, path);
    UpperStar(path[0]);
    assert Uppers(path)[0] == Upper(path[0]);
    assert (start + Uppers(path))[..|start| + |path| - 1] == start + Uppers(path)[..|path| - 1];
  }

  lemma KnownIs(start: seq<string>, path: seq<string>)
    requires path != []
    ensures Known(path) != [] && Names(Known(path)) == Uppers(path)
    ensures Ones(|start|) + Suffixes(Known(path)) == Ones(|start| + |path|)
  {
    hide Upper;
    assert Suffixes(Known(path)) == Ones(|path|);
  }

  lemma UpperStar(s: string)
    requires s != ""
    ensures Upper(s)[0] == '*' <==> s[0] == '*'
  {
  }

  lemma LeavesRooted(start: seq<string>, level: seq<string>, msg: Message)
    requires msg.Valid() && Rooted(start) && Rooted(level)
    ensures Rooted(msg.Leaves(start, level))
  {
    assert msg.path[0] in msg.path && Word(msg.path[0]);
    UpperStar(msg.path[0]);
    assert Uppers(msg.path)[0] == Upper(msg.path[0]);
  }

  /** From the top it is read as what it means. */
  lemma TopIsMeaning(msg: Message)
    ensures msg.ReadFrom([]) == msg.Meaning()
  {
    assert [] + Uppers(msg.path) == Uppers(msg.path);
  }

  lemma HeaderParses(level: seq<string>, colon: bool, msg: Message)
    requires msg.Valid() && Rooted(level)
    ensures var start := if colon then [] else msg.Start(level);
            ParseHeader(level, (if colon then ":" else "") + Join(msg.path, ":"), msg.query, msg.args)
            == Parsed(msg.ReadFrom(start), msg.Leaves(start, level))
  {
    hide Join, SplitAt, Mnemonics, ParseWords, Uppers;
    var j := Join(msg.path, ":");
    JoinedWords(msg.path);
    JoinedSplit(msg.path);
    WordsAreMnemonics(msg.path);
    KnownMeans(if colon then [] else msg.Start(level), level, msg);
    if colon {
      assert (":" + j)[1..] == j;
    } else {
      Unchanged(j);
    }
  }

  lemma ArgsCut(head: string, args: string)
    requires ' ' !in head
    requires args == "" || (!IsQtSpace(args[0]) && !IsQtSpace(args[|args| - 1]))
    ensures CutArgs(head + (if args == "" then "" else " " + args)) == (head, args)
  {
    var unit := head + (if args == "" then "" else " " + args);
    if args == "" {
      assert unit == head;
      IndexOfFirst(head, ' ', "");
      assert head[..|head|] == head;
    } else {
      assert unit == head + [' '] + args;
      IndexOfFirst(head, ' ', args);
      assert unit[..|head|] == head && unit[|head| + 1..] == args;
      TrimTight(args);
    }
  }

  lemma HeadParses(level: seq<string>, header: string, query: bool, args: string)
    requires header != "" && header[|header| - 1] != '?'
    ensures ParseHead(level, header + (if query then "?" else ""), args) == ParseHeader(level, header, query, args)
  {
    if query {
      assert (header + "?")[..|header + "?"| - 1] == header;
    } else {
      assert header + "" == header;
    }
  }

  lemma UnitParses(level: seq<string>, head: string, args: string)
    requires head != "" && ' ' !in head && !IsQtSpace(head[0]) && !IsQtSpace(head[|head| - 1])
    requires args == "" || (!IsQtSpace(args[0]) && !IsQtSpace(args[|args| - 1]))
    ensures ParseUnit(level, head + (if args == "" then "" else " " + args)) == ParseHead(level, head, args)
  {
    var unit := head + (if args == "" then "" else " " + args);
    assert unit[0] == head[0];
    TrimTight(unit);
    ArgsCut(head, args);
  }

  /** A message is read as what it means at the top of the tree, behind a colon, or anywhere when it
      is a common command; else as a command below the level. */
  lemma MessageParses(level: seq<string>, colon: bool, msg: Message)
    requires msg.Valid() && Rooted(level)
    ensures var start := if colon then [] else msg.Start(level);
            && ParseUnit(level, (if colon then ":" else "") + msg.Text())
               == Parsed(msg.ReadFrom(start), msg.Leaves(start, level))
            && (msg.ReadFrom(start) == msg.Meaning() <==> colon || msg.Common() || level == [])
  {
    MessageIsHeader(level, colon, msg);
    HeaderParses(level, colon, msg);
    TopIsMeaning(msg);
  }

  lemma MessageIsHeader(level: seq<string>, colon: bool, msg: Message)
    requires msg.Valid()
    ensures ParseUnit(level, (if colon then ":" else "") + msg.Text())
            == ParseHeader(level, (if colon then ":" else "") + Join(msg.path, ":"), msg.query, msg.args)
  {
    hide ParseUnit, ParseHead, ParseHeader, Join, IsQtSpace, IsMnemonicChar;
    var bare := (if colon then ":" else "") + Join(msg.path, ":");
    var head := bare + (if msg.query then "?" else "");
    HeadChars(colon, msg);
    UnitParses(level, head, msg.args);
    HeadParses(level, bare, msg.query, msg.args);
  }

  lemma HeadChars(colon: bool, msg: Message)
    requires msg.Valid()
    ensures var bare := (if colon then ":" else "") + Join(msg.path, ":");
            var head := bare + (if msg.query then "?" else "");
            && bare != "" && bare[|bare| - 1] != '?' && ' ' !in head
            && !IsQtSpace(head[0]) && !IsQtSpace(head[|head| - 1])
            && (if colon then ":" else "") + msg.Text() == head + (if msg.args == "" then "" else " " + msg.args)
  {
    hide Join;
    var j := Join(msg.path, ":");
    JoinedWords(msg.path);
    var first, mark := if colon then ":" else "", if msg.query then "?" else "";
    var tail := if msg.args == "" then "" else " " + msg.args;
    FourParts(first, j, mark, tail);
    HeaderChars(first, j, mark);
  }

  lemma FourParts(a: string, b: string, c: string, d: string)
    ensures a + (b + c + d) == a + b + c + d
  {
  }

  lemma HeaderChars(first: string, j: string, mark: string)
    requires first in {"", ":"} && mark in {"", "?"} && j != "" && IsMnemonicChar(j[|j| - 1])
    requires forall c :: c in j ==> IsMnemonicChar(c) || c == ':'
    ensures var bare, head := first + j, first + j + mark;
            && bare != "" && bare[|bare| - 1] != '?' && ' ' !in head
            && !IsQtSpace(head[0]) && !IsQtSpace(head[|head| - 1])
  {
    var head := first + j + mark;
    assert head[0] in head && head[|head| - 1] in head;
    assert forall c :: c in head ==> IsMnemonicChar(c) || c == ':' || c == '?';
  }

  // ------------------------------------ what else the server makes of a unit

  /** Letters are read without their case. */
  lemma UpperReads(s: string, i: nat)
    requires i < |s|
    ensures 'a' <= s[i] <= 'z' ==>
              'A' <= Upper(s)[i] <= 'Z' && Upper(s)[i] as int - 'A' as int == s[i] as int - 'a' as int
    ensures !('a' <= s[i] <= 'z') ==> Upper(s)[i] == s[i]
  {
  }

  /** A number behind a mnemonic is its suffix. */
  lemma SuffixReads(word: string, n: nat)
    requires Word(word)
    ensures Mnemonic(word + OfNat(n)) == Some((Upper(word), n))
  {
    var digits := OfNat(n);
    WordThenDigits(word, digits);
    NumberRoundTrip(n);
    assert (word + digits)[|word|..] == digits && (word + digits)[..|word|] == word;
  }

  lemma {:induction false} WordThenDigits(word: string, digits: string)
    requires IsNumber(digits) && forall c :: c in word ==> IsMnemonicChar(c)
    ensures LetterRun(word + digits) == |word|
  {
    var all := word + digits;
    if word == "" {
      assert all == digits && digits[0] in digits && IsDigit(digits[0]);
    } else {
      assert all[1..] == word[1..] + digits && word[0] in word;
      WordThenDigits(word[1..], digits);
    }
  }

  /** Only letters and a number behind them are a mnemonic. */
  lemma MnemonicExactly(part: string)
    ensures Mnemonic(part).Some? <==>
            exists k :: 0 < k <= |part| && Word(part[..k]) && forall c :: c in part[k..] ==> IsDigit(c)
  {
    var n := LetterRun(part);
    if Mnemonic(part).Some? {
      assert Word(part[..n]) && forall c :: c in part[n..] ==> IsDigit(c);
    }
    if k :| 0 < k <= |part| && Word(part[..k]) && forall c :: c in part[k..] ==> IsDigit(c) {
      assert forall i :: 0 <= i < k ==> part[i] == part[..k][i] && part[..k][i] in part[..k];
      assert k < |part| ==> part[k] == part[k..][0] && part[k] in part[k..];
      assert n == k;
      assert part[..k] == part || part[k..] != "";
    }
  }

  /** A query of one mnemonic with a suffix, at any level. */
  lemma SuffixedQuery(level: seq<string>, word: string, n: nat)
    requires Word(word) && Rooted(level) && word[0] != '*'
    ensures ParseUnit(level, word + OfNat(n) + "?")
            == Parsed(Command(level + [Upper(word)], Ones(|level|) + [n], true, ""), level)
  {
    hide ParseUnit, ParseHead, ParseHeader, IsQtSpace, Upper, OfNat, Mnemonic;
    var name := word + OfNat(n);
    NameChars(word, OfNat(n));
    Unchanged(name + "?");
    UnitParses(level, name + "?", "");
    HeadParses(level, name, true, "");
    SplitAtFree(name, ':');
    SuffixReads(word, n);
    OneMnemonic(name, Upper(word), n);
    UpperStar(word);
    SuffixedHeader(level, name, Upper(word), n);
  }

  lemma NameChars(word: string, digits: string)
    requires Word(word) && IsNumber(digits) && word[0] != '*'
    ensures var name := word + digits;
            && name != "" && ':' !in name && ' ' !in name + "?" && name[|name| - 1] != '?' && name[0] == word[0]
            && !IsQtSpace((name + "?")[0]) && !IsQtSpace((name + "?")[|name|])
  {
    var name := word + digits;
    assert name[0] == word[0] && word[0] in word;
    assert name[|name| - 1] == digits[|digits| - 1] && digits[|digits| - 1] in digits;
    assert forall c :: c in name ==> c in word || c in digits;
  }

  lemma OneMnemonic(name: string, upper: string, n: nat)
    requires Mnemonic(name) == Some((upper, n))
    ensures Mnemonics([name]) == Some([(upper, n)])
  {
    assert [name][1..] == [] && Mnemonics([]) == Some([]);
    assert [(upper, n)] + [] == [(upper, n)];
  }

  lemma SuffixedHeader(level: seq<string>, name: string, upper: string, n: nat)
    requires name != "" && name[0] != ':' && name[0] != '*' && SplitAt(name, ':') == [name]
    requires Mnemonics([name]) == Some([(upper, n)]) && Rooted(level) && upper != "" && upper[0] != '*'
    ensures ParseHeader(level, name, true, "") == Parsed(Command(level + [upper], Ones(|level|) + [n], true, ""), level)
  {
    hide Mnemonics, SplitAt, ParseWords;
    OneWord(level, upper, n);
  }

  lemma OneWord(level: seq<string>, upper: string, n: nat)
    requires Rooted(level) && upper != "" && upper[0] != '*'
    ensures ParseWords(level, level, [(upper, n)], true, "")
            == Parsed(Command(level + [upper], Ones(|level|) + [n], true, ""), level)
  {
    var words := [(upper, n)];
    assert Names(words) == [upper] && Suffixes(words) == [n];
    assert (level + [upper])[..|level|] == level;
  }

  /** Blanks around a unit and before its argument mean nothing. */
  lemma BlanksMeanNothing(level: seq<string>, msg: Message, before: string, between: string, after: string)
    requires msg.Valid() && forall c :: c in before + between + after ==> IsQtSpace(c)
    ensures ParseUnit(level, before + msg.Text() + after) == ParseUnit(level, msg.Text())
    ensures msg.args != "" ==>
              ParseUnit(level, msg.Header() + " " + between + msg.args) == ParseUnit(level, msg.Text())
  {
    hide IsQtSpace, Message.Header, Message.Text;
    assert forall c :: c in before + after ==> c in before + between + after;
    assert forall c :: c in between ==> c in before + between + after;
    MessageEnds(msg);
    BlanksAround(level, before, msg.Text(), after);
    if msg.args != "" {
      TextOfArgs(msg);
      BlanksBefore(level, msg.Header(), between, msg.args);
    }
  }

  lemma TextOfArgs(msg: Message)
    requires msg.args != ""
    ensures msg.Text() == msg.Header() + " " + msg.args
  {
    Assoc(msg.Header(), " ", msg.args);
  }

  lemma BlanksAround(level: seq<string>, before: string, t: string, after: string)
    requires t != "" && !IsQtSpace(t[0]) && !IsQtSpace(t[|t| - 1])
    requires forall c :: c in before + after ==> IsQtSpace(c)
    ensures ParseUnit(level, before + t + after) == ParseUnit(level, t)
  {
    TrimBlanks(before, t, after);
    TrimTight(t);
  }

  lemma MessageEnds(msg: Message)
    requires msg.Valid()
    ensures var t := msg.Text(); t != "" && !IsQtSpace(t[0]) && !IsQtSpace(t[|t| - 1])
    ensures var h := msg.Header(); h != "" && ' ' !in h && !IsQtSpace(h[0]) && !IsQtSpace(h[|h| - 1])
  {
    hide Join, IsQtSpace, Message.Header;
    HeaderEnds(msg);
    EndsOf(msg.Header(), msg.args);
  }

  lemma HeaderEnds(msg: Message)
    requires msg.Valid()
    ensures var h := msg.Header(); h != "" && ' ' !in h && !IsQtSpace(h[0]) && !IsQtSpace(h[|h| - 1])
  {
    hide Join, IsQtSpace;
    var j := Join(msg.path, ":");
    JoinedWords(msg.path);
    HeaderChars("", j, if msg.query then "?" else "");
    Unchanged(j);
  }

  lemma EndsOf(header: string, args: string)
    requires header != ""
    ensures var t := header + (if args == "" then "" else " " + args);
            && t != "" && t[0] == header[0]
            && t[|t| - 1] == if args == "" then header[|header| - 1] else args[|args| - 1]
  {
  }

  lemma BlanksBefore(level: seq<string>, head: string, between: string, args: string)
    requires head != "" && ' ' !in head && !IsQtSpace(head[0])
    requires args != "" && !IsQtSpace(args[0]) && !IsQtSpace(args[|args| - 1])
    requires forall c :: c in between ==> IsQtSpace(c)
    ensures ParseUnit(level, head + " " + between + args) == ParseUnit(level, head + " " + args)
  {
    hide ParseUnit, ParseHead, CutArgs, IsQtSpace;
    CutBlanks(head, between, args);
    CutBlanks(head, "", args);
    Unchanged(head + " ");
    UnitOfArgs(level, head, between, args);
    UnitOfArgs(level, head, "", args);
  }

  lemma UnitOfArgs(level: seq<string>, head: string, between: string, args: string)
    requires head != "" && !IsQtSpace(head[0]) && args != "" && !IsQtSpace(args[|args| - 1])
    requires CutArgs(head + " " + between + args) == (head, args)
    ensures ParseUnit(level, head + " " + between + args) == ParseHead(level, head, args)
  {
    hide ParseHead, CutArgs, IsQtSpace;
    var a := head + " " + between + args;
    assert a[0] == head[0] && a[|a| - 1] == args[|args| - 1];
    TrimTight(a);
  }

  lemma CutBlanks(head: string, between: string, args: string)
    requires ' ' !in head && args != "" && !IsQtSpace(args[0]) && !IsQtSpace(args[|args| - 1])
    requires forall c :: c in between ==> IsQtSpace(c)
    ensures CutArgs(head + " " + between + args) == (head, args)
  {
    hide IsQtSpace;
    var unit := head + " " + between + args;
    IndexOfFirst(head, ' ', between + args);
    assert head + [' '] + (between + args) == unit;
    assert unit[..|head|] == head && unit[|head| + 1..] == between + args;
    assert forall c :: c in between + "" ==> c in between;
    TrimBlanks(between, args, "");
    Unchanged(between + args);
  }

  /** A message of blanks does nothing. */
  lemma BlankMessage(h: Handler, blanks: string, q: Queue)
    requires forall c :: c in blanks ==> IsQtSpace(c)
    ensures Respond(h, blanks, q) == ("", q)
  {
    hide IsQtSpace;
    assert forall c :: c in blanks + "" ==> c in blanks;
    TrimBlanks(blanks, "", "");
    assert blanks + "" + "" == blanks;
  }

  /** A unit of blanks is no command and no error. */
  lemma BlankUnit(level: seq<string>, blanks: string, units: seq<string>)
    requires forall c :: c in blanks ==> IsQtSpace(c)
    ensures Commands(level, [blanks] + units) == Commands(level, units)
  {
    assert forall c :: c in blanks + "" ==> c in blanks;
    TrimBlanks(blanks, "", "");
    assert blanks + "" + "" == blanks;
    assert ([blanks] + units)[1..] == units;
    var none: seq<Option<Command>> := [];
    assert none + Commands(level, units) == Commands(level, units);
  }

  // ------------------------------------------------------ several in a line

  /** Nothing in it ends a unit or opens a string. */
  predicate Unquoted(s: string) { ';' !in s && '"' !in s && '\'' !in s }

  lemma {:induction false} ReadPlain(r: Reader, s: string, rest: string)
    requires r.quote.None? && Unquoted(s)
    ensures ReadAll(r, s + rest) == ReadAll(Reader(r.units, r.cur + s, None), rest)
    decreases |s|
  {
    if s == "" {
      assert s + rest == rest && r.cur + s == r.cur;
    } else {
      assert (s + rest)[1..] == s[1..] + rest;
      ReadPlain(ReadChar(r, s[0]), s[1..], rest);
      assert r.cur + [s[0]] + s[1..] == r.cur + s;
    }
  }

  lemma ReadNothing(r: Reader)
    ensures ReadAll(r, "") == r
  {
  }

  lemma ReadSemicolon(r: Reader, rest: string)
    requires r.quote.None?
    ensures ReadAll(r, ";" + rest) == ReadAll(Reader(r.units + [r.cur], "", None), rest)
  {
    assert (";" + rest)[1..] == rest;
  }

  lemma {:induction false} ReadJoined(units: seq<string>, parts: seq<string>)
    requires parts != [] && forall p :: p in parts ==> Unquoted(p)
    ensures var r := ReadAll(Reader(units, "", None), Join(parts, ";")); r.units + [r.cur] == units + parts
    decreases |parts|
  {
    hide ReadAll, Unquoted;
    var part := parts[0];
    assert part in parts && "" + part == part;
    if |parts| == 1 {
      ReadPlain(Reader(units, "", None), part, "");
      assert part + "" == part;
      ReadNothing(Reader(units, part, None));
    } else {
      var rest := Join(parts[1..], ";");
      assert Join(parts, ";") == part + (";" + rest);
      ReadPlain(Reader(units, "", None), part, ";" + rest);
      ReadSemicolon(Reader(units, part, None), rest);
      assert forall p :: p in parts[1..] ==> p in parts;
      ReadJoined(units + [part], parts[1..]);
      assert units + [part] + parts[1..] == units + parts;
    }
  }

  /** Units without quotes come out of the line they were joined to. */
  lemma UnitsOfJoin(parts: seq<string>)
    requires parts != [] && forall p :: p in parts ==> Unquoted(p)
    ensures Units(Join(parts, ";")) == parts
  {
    ReadJoined([], parts);
    assert [] + parts == parts;
  }

  function Texts(msgs: seq<Message>): (r: seq<string>)
    ensures |r| == |msgs|
  {
    seq(|msgs|, i requires 0 <= i < |msgs| => msgs[i].Text())
  }

  /** What the messages mean, one by one. */
  function Meanings(msgs: seq<Message>): (r: seq<Option<Command>>)
    ensures |r| == |msgs|
  {
    seq(|msgs|, i requires 0 <= i < |msgs| => Some(msgs[i].Meaning()))
  }

  predicate Sendable(msgs: seq<Message>) {
    forall m :: m in msgs ==> m.Valid() && Unquoted(m.args)
  }

  lemma MessageUnquoted(msg: Message)
    requires msg.Valid() && Unquoted(msg.args)
    ensures Unquoted(msg.Text())
  {
    JoinedWords(msg.path);
  }

  lemma MessagesUnquoted(msgs: seq<Message>)
    requires Sendable(msgs)
    ensures forall t :: t in Texts(msgs) ==> Unquoted(t)
  {
    forall i | 0 <= i < |msgs|
      ensures Unquoted(Texts(msgs)[i])
    {
      assert msgs[i] in msgs;
      MessageUnquoted(msgs[i]);
    }
  }

  lemma MeaningsCons(msgs: seq<Message>)
    requires msgs != []
    ensures Meanings(msgs) == [Some(msgs[0].Meaning())] + Meanings(msgs[1..])
    ensures Texts(msgs) == [msgs[0].Text()] + Texts(msgs[1..])
  {
  }

  // ------------------------------------- commands joined by semicolon, colon

  function Colons(texts: seq<string>): (r: seq<string>)
    ensures |r| == |texts|
  {
    seq(|texts|, i requires 0 <= i < |texts| => ":" + texts[i])
  }

  lemma {:induction false} JoinColons(texts: seq<string>)
    requires texts != []
    ensures Join(texts, ";:") == Join([texts[0]] + Colons(texts[1..]), ";")
  {
    var units := [texts[0]] + Colons(texts[1..]);
    if |texts| <= 1 {
    } else {
      var rest := texts[1..];
      JoinColons(rest);
      assert units[1..] == Colons(rest);
      JoinFirst(":", rest[0], Colons(rest[1..]));
      assert Colons(rest) == [":" + rest[0]] + Colons(rest[1..]);
      assert texts[0] + ";:" + Join(rest, ";:") == texts[0] + ";" + (":" + Join(rest, ";:"));
    }
  }

  lemma JoinFirst(mark: string, first: string, rest: seq<string>)
    ensures Join([mark + first] + rest, ";") == mark + Join([first] + rest, ";")
  {
    assert ([mark + first] + rest)[1..] == rest && ([first] + rest)[1..] == rest;
    if rest != [] {
      assert mark + first + ";" + Join(rest, ";") == mark + (first + ";" + Join(rest, ";"));
    }
  }

  lemma {:induction false} ColonsParse(level: seq<string>, msgs: seq<Message>)
    requires Sendable(msgs) && Rooted(level)
    ensures Commands(level, Colons(Texts(msgs))) == Meanings(msgs)
    decreases |msgs|
  {
    hide ParseUnit, Message.Text, Message.ReadFrom, Message.Meaning, Message.Leaves;
    if msgs == [] {
    } else {
      assert msgs[0] in msgs && forall m :: m in msgs[1..] ==> m in msgs;
      MeaningsCons(msgs);
      assert Colons(Texts(msgs))[1..] == Colons(Texts(msgs[1..]));
      MessageParses(level, true, msgs[0]);
      LeavesRooted([], level, msgs[0]);
      ColonsParse(msgs[0].Leaves([], level), msgs[1..]);
    }
  }

  lemma FirstThenColons(msgs: seq<Message>)
    requires Sendable(msgs) && msgs != []
    ensures Commands([], [msgs[0].Text()] + Colons(Texts(msgs[1..]))) == Meanings(msgs)
  {
    hide ParseUnit, Message.Text, Message.ReadFrom, Message.Meaning, Message.Leaves;
    var units := [msgs[0].Text()] + Colons(Texts(msgs[1..]));
    assert msgs[0] in msgs && forall m :: m in msgs[1..] ==> m in msgs;
    MeaningsCons(msgs);
    assert units[1..] == Colons(Texts(msgs[1..]));
    Unchanged(msgs[0].Text());
    MessageParses([], false, msgs[0]);
    LeavesRooted([], [], msgs[0]);
    ColonsParse(msgs[0].Leaves([], []), msgs[1..]);
  }

  /** Commands joined by ";:" are served as if they were sent one by one, whatever their depth. */
  lemma AbsoluteBatch(msgs: seq<Message>)
    requires Sendable(msgs) && msgs != []
    ensures Commands([], Units(Join(Texts(msgs), ";:"))) == Meanings(msgs)
  {
    JoinColons(Texts(msgs));
    ColonsUnquoted(msgs);
    var units := [msgs[0].Text()] + Colons(Texts(msgs[1..]));
    assert Texts(msgs)[0] == msgs[0].Text() && Texts(msgs)[1..] == Texts(msgs[1..]);
    UnitsOfJoin(units);
    FirstThenColons(msgs);
  }

  lemma ColonsUnquoted(msgs: seq<Message>)
    requires Sendable(msgs) && msgs != []
    ensures forall u :: u in [msgs[0].Text()] + Colons(Texts(msgs[1..])) ==> Unquoted(u)
  {
    hide Unquoted, Message.Text;
    MessagesUnquoted(msgs);
    var texts := Texts(msgs);
    assert texts[0] == msgs[0].Text() && texts[0] in texts;
    forall i | 0 <= i < |msgs| - 1
      ensures Unquoted(Colons(Texts(msgs[1..]))[i])
    {
      assert Texts(msgs[1..])[i] == texts[i + 1] && texts[i + 1] in texts;
      ColonUnquoted(texts[i + 1]);
    }
  }

  lemma ColonUnquoted(t: string)
    requires Unquoted(t)
    ensures Unquoted(":" + t)
  {
  }

  // -------------------------------------------- commands joined by semicolon

  ghost predicate AllCommon(msgs: seq<Message>) {
    forall i :: 0 <= i < |msgs| ==> msgs[i].Common()
  }

  /** A message that is not common is followed by another one only when it has one mnemonic. */
  ghost predicate Flat(msgs: seq<Message>) {
    forall i, j :: 0 <= i < j < |msgs| && !msgs[i].Common() && !msgs[j].Common() ==> |msgs[i].path| == 1
  }

  /** What the messages are read as, one after the other from a level on. */
  function ReadIn(level: seq<string>, msgs: seq<Message>): (r: seq<Option<Command>>)
    requires Sendable(msgs)
    ensures |r| == |msgs|
    decreases |msgs|
  {
    if msgs == [] then []
    else
      RestSendable(msgs);
      var start := msgs[0].Start(level);
      [Some(msgs[0].ReadFrom(start))] + ReadIn(msgs[0].Leaves(start, level), msgs[1..])
  }

  lemma RestSendable(msgs: seq<Message>)
    requires Sendable(msgs) && msgs != []
    ensures msgs[0].Valid() && Sendable(msgs[1..])
  {
    assert msgs[0] in msgs && forall m :: m in msgs[1..] ==> m in msgs;
  }

  lemma {:induction false} TextsParse(level: seq<string>, msgs: seq<Message>)
    requires Sendable(msgs) && Rooted(level)
    ensures Commands(level, Texts(msgs)) == ReadIn(level, msgs)
    decreases |msgs|
  {
    hide ParseUnit, Message.Text, Message.ReadFrom, Message.Leaves, Message.Start;
    if msgs == [] {
    } else {
      var first, start := msgs[0], msgs[0].Start(level);
      RestSendable(msgs);
      MeaningsCons(msgs);
      assert Texts(msgs)[1..] == Texts(msgs[1..]);
      Unchanged(first.Text());
      MessageParses(level, false, first);
      StartRooted(level, first);
      LeavesRooted(start, level, first);
      TextsParse(first.Leaves(start, level), msgs[1..]);
    }
  }

  lemma StartRooted(level: seq<string>, msg: Message)
    requires Rooted(level)
    ensures Rooted(msg.Start(level))
  {
  }

  /** A line of messages joined by ";" is served as what they are read as, one after the other. */
  lemma BatchParses(msgs: seq<Message>)
    requires Sendable(msgs) && msgs != []
    ensures Commands([], Units(Join(Texts(msgs), ";"))) == ReadIn([], msgs)
  {
    MessagesUnquoted(msgs);
    UnitsOfJoin(Texts(msgs));
    TextsParse([], msgs);
  }

  /** A common command at the end is read as itself. */
  lemma {:induction false} ReadInThenCommon(level: seq<string>, msgs: seq<Message>, last: Message)
    requires Sendable(msgs) && Sendable(msgs + [last]) && last.Common()
    ensures ReadIn(level, msgs + [last]) == ReadIn(level, msgs) + [Some(last.Meaning())]
    decreases |msgs|
  {
    var all := msgs + [last];
    if msgs == [] {
      assert all == [last] && all[1..] == [];
      TopIsMeaning(last);
    } else {
      hide Message.ReadFrom, Message.Leaves, Message.Start, Message.Meaning;
      RestSendable(msgs);
      RestSendable(all);
      assert all[0] == msgs[0] && all[1..] == msgs[1..] + [last];
      ReadInThenCommon(msgs[0].Leaves(msgs[0].Start(level), level), msgs[1..], last);
    }
  }

  lemma AllCommonCons(first: Message, rest: seq<Message>)
    ensures AllCommon([first] + rest) <==> first.Common() && AllCommon(rest)
  {
    var msgs := [first] + rest;
    assert forall i :: 0 <= i < |rest| ==> rest[i] == msgs[i + 1];
    if AllCommon(msgs) {
      forall i | 0 <= i < |rest|
        ensures rest[i].Common()
      {
        assert msgs[i + 1].Common();
      }
      assert msgs[0].Common();
    }
  }

  lemma SameTail<T>(x: T, a: seq<T>, b: seq<T>)
    ensures [x] + a == [x] + b <==> a == b
  {
    assert ([x] + a)[1..] == a && ([x] + b)[1..] == b;
  }

  /** Messages joined by ";" are served as if they were sent one by one exactly when each that is
      not common, but the last such, has one mnemonic: the server reads the next at its level. */
  lemma RelativeBatch(msgs: seq<Message>)
    requires Sendable(msgs) && msgs != []
    ensures Commands([], Units(Join(Texts(msgs), ";"))) == Meanings(msgs) <==> Flat(msgs)
  {
    BatchParses(msgs);
    MeantExactly([], msgs);
  }

  lemma {:induction false} MeantExactly(level: seq<string>, msgs: seq<Message>)
    requires Sendable(msgs)
    ensures ReadIn(level, msgs) == Meanings(msgs) <==> if level == [] then Flat(msgs) else AllCommon(msgs)
    decreases |msgs|
  {
    if msgs == [] {
    } else {
      hide Flat, AllCommon, Meanings, Uppers, Ones;
      var first, rest := msgs[0], msgs[1..];
      var start := first.Start(level);
      RestSendable(msgs);
      MeaningsCons(msgs);
      MeantExactly(first.Leaves(start, level), rest);
      SameTail(Some(first.Meaning()), ReadIn(first.Leaves(start, level), rest), Meanings(rest));
      TopIsMeaning(first);
      FlatCons(first, rest);
      AllCommonCons(first, rest);
      assert msgs == [first] + rest;
      if start != [] {
        assert |first.ReadFrom(start).path| > |first.Meaning().path|;
        assert ReadIn(level, msgs)[0] != Meanings(msgs)[0];
      }
    }
  }

  lemma FlatCons(first: Message, rest: seq<Message>)
    ensures Flat([first] + rest) <==> Flat(rest) && (first.Common() || |first.path| == 1 || AllCommon(rest))
  {
    var msgs := [first] + rest;
    assert forall i :: 0 <= i < |rest| ==> rest[i] == msgs[i + 1];
    if Flat(msgs) {
      forall i, j | 0 <= i < j < |rest| && !rest[i].Common() && !rest[j].Common()
        ensures |rest[i].path| == 1
      {
        assert msgs[i + 1] == rest[i] && msgs[j + 1] == rest[j];
      }
      if !first.Common() && |first.path| != 1 {
        forall j | 0 <= j < |rest|
          ensures rest[j].Common()
        {
          assert msgs[0] == first && msgs[j + 1] == rest[j];
        }
      }
    }
  }

  // -------------------------------------------------------- a quoted text

  predicate IsQuoteMark(q: char) { q == '"' || q == '\'' }

  /** Every such quote doubled. */
  function EscapeBy(s: string, q: char): string {
    if s == "" then "" else (if s[0] == q then [q, q] else [s[0]]) + EscapeBy(s[1..], q)
  }

  function QuoteBy(s: string, q: char): string { [q] + EscapeBy(s, q) + [q] }

  lemma {:induction false} EscapeIsBy(s: string)
    ensures EscapeBy(s, '"') == Escape(s)
  {
    if s == "" {
    } else {
      EscapeIsBy(s[1..]);
      assert "\"\"" == ['"', '"'];
    }
  }

  lemma QuoteIsBy(s: string)
    ensures QuoteBy(s, '"') == Quote(s)
  {
    EscapeIsBy(s);
  }

  lemma {:induction false} ReadEscaped(r: Reader, s: string, q: char, rest: string)
    requires IsQuoteMark(q) && r.quote == Some(q)
    ensures ReadAll(r, EscapeBy(s, q) + rest) == ReadAll(Reader(r.units, r.cur + EscapeBy(s, q), Some(q)), rest)
    decreases |s|
  {
    if s == "" {
      assert EscapeBy(s, q) + rest == rest && r.cur + EscapeBy(s, q) == r.cur;
    } else {
      hide ReadAll;
      var head, tail := if s[0] == q then [q, q] else [s[0]], EscapeBy(s[1..], q);
      assert EscapeBy(s, q) + rest == head + (tail + rest);
      if s[0] == q {
        ReadDoubled(r, q, tail + rest);
      } else {
        ReadInside(r, s[0], q, tail + rest);
      }
      ReadEscaped(Reader(r.units, r.cur + head, r.quote), s[1..], q, rest);
      assert r.cur + head + tail == r.cur + EscapeBy(s, q);
    }
  }

  lemma ReadDoubled(r: Reader, q: char, rest: string)
    requires IsQuoteMark(q) && r.quote == Some(q)
    ensures ReadAll(r, [q, q] + rest) == ReadAll(Reader(r.units, r.cur + [q, q], r.quote), rest)
  {
    assert ([q, q] + rest)[1..] == [q] + rest && ([q] + rest)[1..] == rest;
    assert r.cur + [q] + [q] == r.cur + [q, q];
  }

  lemma ReadInside(r: Reader, c: char, q: char, rest: string)
    requires IsQuoteMark(q) && r.quote == Some(q) && c != q
    ensures ReadAll(r, [c] + rest) == ReadAll(Reader(r.units, r.cur + [c], r.quote), rest)
  {
    assert ([c] + rest)[1..] == rest;
  }

  lemma ReadOpening(r: Reader, q: char, rest: string)
    requires IsQuoteMark(q) && r.quote.None?
    ensures ReadAll(r, [q] + rest) == ReadAll(Reader(r.units, r.cur + [q], Some(q)), rest)
  {
    assert ([q] + rest)[1..] == rest;
  }

  lemma ReadClosing(r: Reader, q: char)
    requires IsQuoteMark(q) && r.quote == Some(q)
    ensures ReadAll(r, [q]) == Reader(r.units, r.cur + [q], None)
  {
    assert [q][1..] == "";
    ReadNothing(Reader(r.units, r.cur + [q], None));
  }

  /** A command with a text in either quotes is one unit, whatever the text holds. */
  lemma AnyQuoteIsOneUnit(head: string, s: string, q: char)
    requires Unquoted(head) && IsQuoteMark(q)
    ensures Units(head + QuoteBy(s, q)) == [head + QuoteBy(s, q)]
  {
    hide ReadAll, EscapeBy, Unquoted;
    var tail := EscapeBy(s, q) + [q];
    assert QuoteBy(s, q) == [q] + tail;
    ReadPlain(READER, head, QuoteBy(s, q));
    Unchanged(head);
    ReadOpening(Reader([], head, None), q, tail);
    ReadEscaped(Reader([], head + [q], Some(q)), s, q, [q]);
    ReadClosing(Reader([], head + [q] + EscapeBy(s, q), Some(q)), q);
    assert head + [q] + EscapeBy(s, q) + [q] == head + QuoteBy(s, q);
  }

  lemma QuotedIsOneUnit(head: string, s: string)
    requires Unquoted(head)
    ensures Units(head + Quote(s)) == [head + Quote(s)]
  {
    QuoteIsBy(s);
    AnyQuoteIsOneUnit(head, s, '"');
  }

  /** A command of one quoted argument is read as that command, in either quotes. */
  lemma QuotedCommand(msg: Message, s: string, q: char)
    requires msg.Valid() && IsQuoteMark(q) && msg.args == QuoteBy(s, q)
    ensures Commands([], Units(msg.Text())) == [Some(msg.Meaning())]
    ensures Unquote(msg.Meaning().args) == s
  {
    hide ParseUnit, Units, Unquote, EscapeBy, QuoteBy, Message.ReadFrom, Message.Leaves, Unquoted;
    assert QuoteBy(s, q) != "" by {
      QuoteIsSome(s, q);
    }
    HeaderUnquoted(msg);
    Assoc(msg.Header(), " ", msg.args);
    AnyQuoteIsOneUnit(msg.Header() + " ", s, q);
    MessageParses([], false, msg);
    Unchanged(msg.Text());
    TopIsMeaning(msg);
    OneUnit(msg.Text(), msg.Meaning(), msg.Leaves([], []));
    AnyQuoteReadBack(s, q);
  }

  lemma QuoteIsSome(s: string, q: char)
    ensures QuoteBy(s, q) != ""
  {
  }

  lemma HeaderUnquoted(msg: Message)
    requires msg.Valid()
    ensures Unquoted(msg.Header() + " ")
  {
    JoinedWords(msg.path);
  }

  lemma OneUnit(text: string, c: Command, level: seq<string>)
    requires Units(text) == [text] && ParseUnit([], text) == Parsed(c, level)
    ensures Commands([], Units(text)) == [Some(c)]
  {
    hide ParseUnit, Units;
    assert [text][1..] == [];
    assert Commands(level, []) == [];
  }

  /** A doubled quote replaced by one, from the left. */
  function Halve(s: string, q: char): string
    decreases |s|
  {
    if s == "" then ""
    else if |s| > 1 && s[0] == q && s[1] == q then [q] + Halve(s[2..], q)
    else [s[0]] + Halve(s[1..], q)
  }

  /** The server's reading of a quoted argument, with either quote or none. */
  function Unquote(arg: string): string {
    var s := Trim(arg);
    if |s| >= 2 && (s[0] == '"' || s[0] == '\'') && s[|s| - 1] == s[0] then Halve(s[1..|s| - 1], s[0]) else s
  }

  lemma {:induction false} HalveEscaped(s: string, q: char)
    ensures Halve(EscapeBy(s, q), q) == s
  {
    if s == "" {
    } else {
      HalveEscaped(s[1..], q);
      var tail := EscapeBy(s[1..], q);
      if s[0] == q {
        assert EscapeBy(s, q) == [q, q] + tail && ([q, q] + tail)[2..] == tail;
      } else {
        assert EscapeBy(s, q) == [s[0]] + tail && ([s[0]] + tail)[1..] == tail;
      }
    }
  }

  /** The server reads a text in either quotes as the text. */
  lemma AnyQuoteReadBack(s: string, q: char)
    requires IsQuoteMark(q)
    ensures Unquote(QuoteBy(s, q)) == s
  {
    hide EscapeBy, Halve;
    TrimTight(QuoteBy(s, q));
    assert QuoteBy(s, q)[1..|QuoteBy(s, q)| - 1] == EscapeBy(s, q);
    HalveEscaped(s, q);
  }

  /** The server, and the client's own list reader, read a quoted text as the text. */
  lemma QuoteReadBack(s: string)
    ensures Unquote(Quote(s)) == s
    ensures Split(Quote(s)) == Ok([Some(s)])
  {
    QuoteIsBy(s);
    AnyQuoteReadBack(s, '"');
    SplitReads(s);
  }

  lemma SplitReads(s: string)
    ensures Split(Quote(s)) == Ok([Some(s)])
  {
    hide Quote, Split;
    var items := [Quoted("", s, "")];
    SplitUndoesPrint(items);
    assert EntriesOf(items[1..]) == [];
    assert EntriesOf(items) == [Some("" + s)];
    assert "" + Quote(s) + "" == Quote(s) && "" + s == s;
  }
}
