/** Text: blanks at the ends, joining, decimal numbers. */
module Text {

  // ------------------------------------------------------------- blanks

  /** What Python's strip() removes from a text. */
  predicate IsSpace(c: char) {
    var n := c as int;
    || 9 <= n <= 13 || 28 <= n <= 32 || n == 0x85 || n == 0xA0 || n == 0x1680 || 0x2000 <= n <= 0x200A
    || n == 0x2028 || n == 0x2029 || n == 0x202F || n == 0x205F || n == 0x3000
  }

  /** What Qt's trimmed() removes: the same without the four separators 28 to 31. */
  predicate IsQtSpace(c: char) {
    IsSpace(c) && !(28 <= c as int <= 31)
  }

  function StripLeft(space: char -> bool, s: string): (r: string)
    ensures r == "" || !space(r[0])
    ensures |r| <= |s| && r == s[|s| - |r|..]
  {
    if s != "" && space(s[0]) then StripLeft(space, s[1..]) else s
  }

  function StripRight(space: char -> bool, s: string): (r: string)
    ensures r == "" || !space(r[|r| - 1])
    ensures r <= s
  {
    if s != "" && space(s[|s| - 1]) then StripRight(space, s[..|s| - 1]) else s
  }

  function Strip(s: string): string { StripLeft(IsSpace, StripRight(IsSpace, s)) }

  function Trim(s: string): string { StripLeft(IsQtSpace, StripRight(IsQtSpace, s)) }

  /** The information separators are blanks to Python's strip() and none to Qt's trimmed(). */
  lemma SeparatorsDiffer(c: char)
    requires 28 <= c as int <= 31
    ensures Strip([c]) == "" && Trim([c]) == [c]
  {
    assert IsSpace(c) && !IsQtSpace(c);
    hide IsSpace, IsQtSpace;
    assert [c][..0] == "";
    assert StripRight(IsSpace, [c]) == StripRight(IsSpace, "") == "";
  }

  /** No blank at either end. */
  predicate Tight(s: string) {
    s == "" || (!IsSpace(s[0]) && !IsSpace(s[|s| - 1]))
  }

  lemma TightStays(s: string)
    requires Tight(s)
    ensures Strip(s) == s && Trim(s) == s
  {
  }

  lemma {:induction false} StripLeftBlanks(space: char -> bool, blanks: string, s: string)
    requires forall c :: c in blanks ==> space(c)
    ensures StripLeft(space, blanks + s) == StripLeft(space, s)
  {
    if blanks == "" {
      assert blanks + s == s;
    } else {
      assert blanks[0] in blanks && forall c :: c in blanks[1..] ==> c in blanks;
      assert (blanks + s)[1..] == blanks[1..] + s;
      StripLeftBlanks(space, blanks[1..], s);
    }
  }

  lemma {:induction false} StripRightBlanks(space: char -> bool, s: string, blanks: string)
    requires forall c :: c in blanks ==> space(c)
    ensures StripRight(space, s + blanks) == StripRight(space, s)
    decreases |blanks|
  {
    if blanks == "" {
      assert s + blanks == s;
    } else {
      var n := |blanks| - 1;
      assert blanks[n] in blanks && forall c :: c in blanks[..n] ==> c in blanks;
      assert (s + blanks)[..|s + blanks| - 1] == s + blanks[..n];
      StripRightBlanks(space, s, blanks[..n]);
    }
  }

  /** Blanks around a text are what is trimmed, and nothing else. */
  lemma TrimBlanks(before: string, s: string, after: string)
    requires forall c :: c in before + after ==> IsQtSpace(c)
    requires s == "" || (!IsQtSpace(s[0]) && !IsQtSpace(s[|s| - 1]))
    ensures Trim(before + s + after) == s
  {
    hide IsQtSpace, StripLeft, StripRight;
    assert forall c :: c in before ==> c in before + after;
    assert forall c :: c in after ==> c in before + after;
    StripRightBlanks(IsQtSpace, before + s, after);
    if s == "" {
      assert before + s == s + before;
      StripRightBlanks(IsQtSpace, s, before);
      NothingStrips();
    } else {
      assert (before + s)[|before + s| - 1] == s[|s| - 1];
      StripLeftBlanks(IsQtSpace, before, s);
      NothingToStrip(before + s, s);
    }
  }

  lemma NothingStrips()
    ensures StripRight(IsQtSpace, "") == "" && StripLeft(IsQtSpace, "") == ""
  {
  }

  lemma NothingToStrip(t: string, s: string)
    requires t != "" && !IsQtSpace(t[|t| - 1]) && s != "" && !IsQtSpace(s[0])
    ensures StripRight(IsQtSpace, t) == t && StripLeft(IsQtSpace, s) == s
  {
    hide IsQtSpace;
  }

  // ------------------------------------------------------------ joining

  lemma Unchanged(s: string)
    ensures "" + s == s && s + "" == s
  {
  }

  lemma Assoc<T>(a: seq<T>, b: seq<T>, c: seq<T>)
    ensures a + b + c == a + (b + c)
  {
  }

  function Join(parts: seq<string>, sep: string): string {
    if parts == [] then ""
    else if |parts| == 1 then parts[0]
    else parts[0] + sep + Join(parts[1..], sep)
  }

  function Concat(parts: seq<string>): string {
    if parts == [] then "" else parts[0] + Concat(parts[1..])
  }

  lemma {:induction false} ConcatMore(parts: seq<string>, more: seq<string>)
    ensures Concat(parts + more) == Concat(parts) + Concat(more)
  {
    if parts == [] {
      assert parts + more == more;
    } else {
      assert (parts + more)[1..] == parts[1..] + more;
      ConcatMore(parts[1..], more);
      assert parts[0] + (Concat(parts[1..]) + Concat(more)) == parts[0] + Concat(parts[1..]) + Concat(more);
    }
  }

  /** The parts between separators: Python's split(sep) for one character. */
  function SplitAt(s: string, sep: char): (parts: seq<string>)
    ensures parts != []
  {
    if s == "" then [""]
    else
      var rest := SplitAt(s[1..], sep);
      if s[0] == sep then [""] + rest else [[s[0]] + rest[0]] + rest[1..]
  }

  lemma {:induction false} SplitAtFree(s: string, sep: char)
    requires sep !in s
    ensures SplitAt(s, sep) == [s]
  {
    if s == "" {
    } else {
      SplitAtFree(s[1..], sep);
      assert [s[0]] + s[1..] == s;
    }
  }

  lemma {:induction false} SplitAtFirst(s: string, sep: char, rest: string)
    requires sep !in s
    ensures SplitAt(s + [sep] + rest, sep) == [s] + SplitAt(rest, sep)
  {
    var all := s + [sep] + rest;
    if s == "" {
      assert all[1..] == rest;
    } else {
      assert all[1..] == s[1..] + [sep] + rest;
      SplitAtFirst(s[1..], sep, rest);
      assert [s[0]] + s[1..] == s;
    }
  }

  /** Splitting at the separator undoes joining with it, for parts free of it. */
  lemma {:induction false} SplitJoin(parts: seq<string>, sep: char)
    requires parts != [] && forall p :: p in parts ==> sep !in p
    ensures SplitAt(Join(parts, [sep]), sep) == parts
  {
    if |parts| == 1 {
      SplitAtFree(parts[0], sep);
      assert parts == [parts[0]];
    } else {
      SplitJoin(parts[1..], sep);
      SplitAtFirst(parts[0], sep, Join(parts[1..], [sep]));
      assert parts == [parts[0]] + parts[1..];
    }
  }

  // ------------------------------------------------------------ numbers

  predicate IsDigit(c: char) { '0' <= c <= '9' }

  /** Plain decimal digits, at least one. */
  predicate IsNumber(s: string) { s != "" && forall c :: c in s ==> IsDigit(c) }

  function Digit(c: char): (d: nat)
    requires IsDigit(c)
    ensures d <= 9
  {
    c as int - '0' as int
  }

  function ToNat(s: string): nat
    requires forall c :: c in s ==> IsDigit(c)
  {
    if s == "" then 0 else 10 * ToNat(s[..|s| - 1]) + Digit(s[|s| - 1])
  }

  function OfNat(n: nat): (s: string)
    ensures IsNumber(s)
  {
    var last := ('0' as int + n % 10) as char;
    if n < 10 then [last] else OfNat(n / 10) + [last]
  }

  lemma {:induction false} NumberRoundTrip(n: nat)
    ensures ToNat(OfNat(n)) == n
  {
    if n < 10 {
      assert OfNat(n)[..0] == "";
    } else {
      NumberRoundTrip(n / 10);
      var s := OfNat(n);
      assert s[..|s| - 1] == OfNat(n / 10);
    }
  }

  function TenTo(k: nat): (p: nat)
    ensures p > 0
  {
    if k == 0 then 1 else 10 * TenTo(k - 1)
  }

  lemma {:induction false} NumberLength(n: nat)
    ensures n > 0 ==> TenTo(|OfNat(n)| - 1) <= n
    ensures n < TenTo(|OfNat(n)|)
  {
    if n < 10 {
      assert TenTo(0) == 1 && TenTo(1) == 10;
    } else {
      NumberLength(n / 10);
    }
  }

  lemma {:induction false} NumberBound(s: string)
    requires forall c :: c in s ==> IsDigit(c)
    ensures ToNat(s) < TenTo(|s|)
  {
    if s == "" {
    } else {
      NumberBound(s[..|s| - 1]);
    }
  }
}
