/**
 * Python's `str` operations the repository relies on: `splitlines`, `"\n".join`, `strip`,
 * `split` on one character, `startswith`, and decimal integers.
 */
module Text {
  import opened Wrappers

  /** The separators `str.splitlines` breaks at ("\r\n" counts as one break). */
  predicate IsLineBreak(c: char) {
    '\n' <= c <= '\r' || '\U{1C}' <= c <= '\U{1E}' || c == '\U{85}' || '\U{2028}' <= c <= '\U{2029}'
  }

  /** The characters `str.strip` removes. */
  predicate IsSpace(c: char) {
    '\t' <= c <= '\r' || '\U{1C}' <= c <= ' ' || c == '\U{85}' || c == '\U{A0}' || c == '\U{1680}'
    || '\U{2000}' <= c <= '\U{200A}' || '\U{2028}' <= c <= '\U{2029}'
    || c == '\U{202F}' || c == '\U{205F}' || c == '\U{3000}'
  }

  ghost predicate BreakFree(s: string) {
    forall i | 0 <= i < |s| :: !IsLineBreak(s[i])
  }

  ghost predicate BreakFreeLines(lines: seq<string>) {
    forall i | 0 <= i < |lines| :: BreakFree(lines[i])
  }

  /** Every line break of `s` is a line feed. */
  ghost predicate LfOnly(s: string) {
    forall i | 0 <= i < |s| :: IsLineBreak(s[i]) ==> s[i] == '\n'
  }

  predicate EndsWithNewline(s: string) {
    s != "" && s[|s| - 1] == '\n'
  }

  /** Index of the first line break, or the length of `s`. */
  function FirstBreak(s: string): (n: nat)
    ensures n <= |s| && BreakFree(s[..n])
    ensures n < |s| ==> IsLineBreak(s[n])
  {
    if s == "" || IsLineBreak(s[0]) then 0
    else
      var n := 1 + FirstBreak(s[1..]);
      assert s[..n] == [s[0]] + s[1..][..n - 1];
      n
  }

  function BreakLength(s: string, n: nat): (k: nat)
    requires n < |s|
    ensures 1 <= k <= |s| - n
  {
    if s[n] == '\r' && n + 1 < |s| && s[n + 1] == '\n' then 2 else 1
  }

  function SplitLines(s: string): (lines: seq<string>)
    ensures BreakFreeLines(lines)
    ensures lines == [] <==> s == ""
    decreases |s|
  {
    if s == "" then []
    else
      var n := FirstBreak(s);
      if n == |s| then assert s[..n] == s; [s]
      else [s[..n]] + SplitLines(s[n + BreakLength(s, n)..])
  }

  function Join(lines: seq<string>): string {
    if |lines| == 0 then ""
    else if |lines| == 1 then lines[0]
    else lines[0] + "\n" + Join(lines[1..])
  }

  function CountNewlines(s: string): nat {
    if s == "" then 0 else (if s[0] == '\n' then 1 else 0) + CountNewlines(s[1..])
  }

  // ---- Joining and splitting are inverse on line-feed text -------------------------------

  lemma FirstBreakAfter(line: string, rest: string)
    requires BreakFree(line)
    requires rest != "" ==> IsLineBreak(rest[0])
    ensures FirstBreak(line + rest) == |line|
  {
    var s := line + rest;
    var n := FirstBreak(s);
    assert forall i | 0 <= i < |line| :: s[i] == line[i];
    assert forall i | 0 <= i < n :: s[..n][i] == s[i];
    assert rest != "" ==> s[|line|] == rest[0];
  }

  lemma SplitHead(line: string, rest: string)
    requires BreakFree(line)
    ensures SplitLines(line + "\n" + rest) == [line] + SplitLines(rest)
  {
    var s := line + "\n" + rest;
    assert s == line + ("\n" + rest);
    FirstBreakAfter(line, "\n" + rest);
    assert s[..|line|] == line;
    assert s[|line| + 1..] == rest;
  }

  lemma SplitSingle(line: string)
    requires BreakFree(line) && line != ""
    ensures SplitLines(line) == [line]
  {
    FirstBreakAfter(line, "");
    assert line + "" == line;
  }

  lemma JoinCons(line: string, rest: seq<string>)
    requires rest != []
    ensures Join([line] + rest) == line + "\n" + Join(rest)
  {
    assert ([line] + rest)[1..] == rest;
  }

  /** Splitting newline-terminated joined lines gives the lines back. */
  lemma {:induction false} SplitTerminated(lines: seq<string>)
    requires lines != [] && BreakFreeLines(lines)
    ensures SplitLines(Join(lines) + "\n") == lines
  {
    hide SplitLines, BreakFree;
    assert SplitLines("") == [];
    if |lines| == 1 {
      SplitHead(lines[0], "");
      assert lines[0] + "\n" + "" == Join(lines) + "\n";
      assert [lines[0]] + SplitLines("") == lines;
    } else {
      SplitTerminated(lines[1..]);
      SplitHead(lines[0], Join(lines[1..]) + "\n");
      assert lines[0] + "\n" + (Join(lines[1..]) + "\n") == Join(lines) + "\n";
      assert lines == [lines[0]] + lines[1..];
    }
  }

  /** Without a final newline the same holds unless the last line is empty. */
  lemma {:induction false} SplitUnterminated(lines: seq<string>)
    requires BreakFreeLines(lines)
    requires lines != [] ==> lines[|lines| - 1] != ""
    ensures SplitLines(Join(lines)) == lines
    ensures !EndsWithNewline(Join(lines))
  {
    hide SplitLines, IsLineBreak;
    assert SplitLines("") == [];
    if |lines| == 1 {
      SplitSingle(lines[0]);
      SplitUnbroken(lines[0]);
    } else if |lines| > 1 {
      SplitUnterminated(lines[1..]);
      SplitHead(lines[0], Join(lines[1..]));
      assert lines == [lines[0]] + lines[1..];
      assert Join(lines[1..]) != "";
    }
  }

  /** Line-feed text with a break splits at its first line feed. */
  lemma SplitAtFeed(s: string, n: nat, rest: string)
    requires LfOnly(s) && n == FirstBreak(s) < |s| && rest == s[n + 1..]
    ensures s == s[..n] + "\n" + rest && LfOnly(rest)
    ensures SplitLines(s) == [s[..n]] + SplitLines(rest)
  {
    hide FirstBreak;
    assert s[n] == '\n';
    assert forall i | 0 <= i < |rest| :: rest[i] == s[n + 1 + i];
  }

  lemma SplitUnbroken(s: string)
    requires FirstBreak(s) == |s|
    ensures SplitLines(s) == (if s == "" then [] else [s]) && !EndsWithNewline(s)
  {
    assert s[..|s|] == s;
    if s != "" {
      assert !IsLineBreak(s[..|s|][|s| - 1]);
    }
  }

  lemma JoinFeed(line: string, lines: seq<string>, rest: string)
    requires lines == [] <==> rest == ""
    requires rest == Join(lines) + (if EndsWithNewline(rest) then "\n" else "")
    ensures line + "\n" + rest == Join([line] + lines) + (if EndsWithNewline(line + "\n" + rest) then "\n" else "")
  {
    if rest != "" {
      JoinCons(line, lines);
    }
  }

  /** Joining the lines of line-feed text restores the text, up to its final newline. */
  lemma {:induction false} JoinSplit(s: string)
    requires LfOnly(s)
    ensures s == Join(SplitLines(s)) + (if EndsWithNewline(s) then "\n" else "")
    decreases |s|
  {
    var n := FirstBreak(s);
    if n == |s| {
      SplitUnbroken(s);
    } else {
      var rest := s[n + 1..];
      SplitAtFeed(s, n, rest);
      JoinSplit(rest);
      JoinFeed(s[..n], SplitLines(rest), rest);
    }
  }

  // ---- Newlines inside a cut prefix of joined lines ----------------------------------------

  lemma {:induction false} CountNewlinesConcat(a: string, b: string)
    ensures CountNewlines(a + b) == CountNewlines(a) + CountNewlines(b)
  {
    if a == "" {
      assert a + b == b;
    } else {
      CountNewlinesConcat(a[1..], b);
      assert (a + b)[1..] == a[1..] + b;
    }
  }

  lemma {:induction false} CountNewlinesBreakFree(s: string)
    requires BreakFree(s)
    ensures CountNewlines(s) == 0
  {
    if s != "" {
      assert !IsLineBreak(s[0]);
      CountNewlinesBreakFree(s[1..]);
    }
  }

  /** The first lines joined are a prefix of all lines joined. */
  lemma {:induction false} JoinPrefix(lines: seq<string>, k: nat)
    requires k <= |lines|
    ensures Join(lines[..k]) <= Join(lines)
  {
    if k == 0 || k == |lines| {
      assert lines[..|lines|] == lines;
    } else {
      JoinPrefix(lines[1..], k - 1);
      if k == 1 {
        assert lines[..1] == [lines[0]];
      } else {
        assert lines[..k][1..] == lines[1..][..k - 1];
        assert Join(lines[..k]) == lines[0] + "\n" + Join(lines[1..][..k - 1]);
      }
    }
  }

  /** A prefix of joined lines holding c newlines lies within the first c + 1 lines. */
  lemma {:induction false} PrefixWithinLines(lines: seq<string>, text: string)
    requires lines != [] && BreakFreeLines(lines) && text <= Join(lines)
    ensures CountNewlines(text) < |lines|
    ensures text <= Join(lines[..CountNewlines(text) + 1])
  {
    var head := lines[0];
    if |text| <= |head| {
      assert text == Join(lines)[..|text|] == head[..|text|];
      assert BreakFree(text);
      CountNewlinesBreakFree(text);
      assert lines[..1] == [head];
    } else {
      assert |lines| > 1;
      var tail := lines[1..];
      var rest := text[|head| + 1..];
      assert Join(lines) == head + "\n" + Join(tail);
      assert text == Join(lines)[..|text|];
      assert text == head + "\n" + rest;
      assert rest == Join(tail)[..|rest|];
      PrefixWithinLines(tail, rest);
      CountNewlinesConcat(head + "\n", rest);
      CountNewlinesConcat(head, "\n");
      CountNewlinesBreakFree(head);
      var c := CountNewlines(rest);
      assert CountNewlines(text) == c + 1;
      assert lines[..c + 2][1..] == tail[..c + 1];
      assert Join(lines[..c + 2]) == head + "\n" + Join(tail[..c + 1]);
    }
  }

  lemma {:induction false} CountNewlinesJoined(lines: seq<string>)
    requires lines != [] && BreakFreeLines(lines)
    ensures CountNewlines(Join(lines)) == |lines| - 1
  {
    hide BreakFree;
    CountNewlinesBreakFree(lines[0]);
    if |lines| > 1 {
      CountNewlinesJoined(lines[1..]);
      CountNewlinesConcat(lines[0] + "\n", Join(lines[1..]));
      CountNewlinesConcat(lines[0], "\n");
    }
  }

  lemma {:induction false} JoinBoth(a: seq<string>, b: seq<string>)
    requires a != [] && b != []
    ensures Join(a + b) == Join(a) + "\n" + Join(b)
  {
    if |a| == 1 {
      JoinCons(a[0], b);
      assert a == [a[0]];
    } else {
      JoinBoth(a[1..], b);
      JoinCons(a[0], a[1..] + b);
      assert a + b == [a[0]] + (a[1..] + b);
    }
  }

  // ---- Searching, stripping, cutting --------------------------------------------------------

  predicate StartsWith(s: string, prefix: string) {
    |prefix| <= |s| && s[..|prefix|] == prefix
  }

  /** Index of the first `c`, or the length of `s`. */
  function IndexOf(s: string, c: char): (n: nat)
    ensures n <= |s| && c !in s[..n] && (n < |s| ==> s[n] == c)
  {
    if s == "" || s[0] == c then 0
    else
      var n := 1 + IndexOf(s[1..], c);
      assert s[..n] == [s[0]] + s[1..][..n - 1];
      n
  }

  /** `s.split(c, 1)[0]` */
  function Before(s: string, c: char): string {
    s[..IndexOf(s, c)]
  }

  /** `s.split(c)` */
  function Split(s: string, c: char): (parts: seq<string>)
    ensures parts != []
    decreases |s|
  {
    var n := IndexOf(s, c);
    if n == |s| then [s] else [s[..n]] + Split(s[n + 1..], c)
  }

  function StripLeft(s: string): (t: string)
    ensures |t| <= |s| && t == s[|s| - |t|..]
    ensures t != "" ==> !IsSpace(t[0])
    ensures forall i | 0 <= i < |s| - |t| :: IsSpace(s[i])
  {
    if s != "" && IsSpace(s[0]) then StripLeft(s[1..]) else s
  }

  function StripRight(s: string): (t: string)
    ensures t <= s
    ensures t != "" ==> !IsSpace(t[|t| - 1])
    ensures forall i | |t| <= i < |s| :: IsSpace(s[i])
  {
    if s != "" && IsSpace(s[|s| - 1]) then StripRight(s[..|s| - 1]) else s
  }

  function Strip(s: string): string {
    StripRight(StripLeft(s))
  }

  /** Text without blanks at either end is left alone, and that is the only such case. */
  lemma StripFixed(s: string)
    ensures Strip(s) == s <==> (s == "" || (!IsSpace(s[0]) && !IsSpace(s[|s| - 1])))
  {
    if s != "" {
      var left := StripLeft(s);
      if IsSpace(s[0]) {
        assert left == StripLeft(s[1..]);
        assert |Strip(s)| <= |left| < |s|;
      } else {
        assert left == s;
        if IsSpace(s[|s| - 1]) {
          assert |StripRight(s)| == |StripRight(s[..|s| - 1])| < |s|;
        }
      }
    }
  }

  // ---- Decimal integers ---------------------------------------------------------------------

  predicate IsDigit(c: char) { '0' <= c <= '9' }

  predicate AllDigits(s: string) {
    forall i | 0 <= i < |s| :: IsDigit(s[i])
  }

  function DigitValue(c: char): (d: nat)
    requires IsDigit(c)
    ensures d <= 9
  {
    c as int - '0' as int
  }

  /** `int(s)` for a string of digits. */
  function ParseNat(s: string): nat
    requires AllDigits(s)
  {
    if s == "" then 0
    else ParseNat(s[..|s| - 1]) * 10 + DigitValue(s[|s| - 1])
  }

  function PowerOfTen(n: nat): nat {
    if n == 0 then 1 else 10 * PowerOfTen(n - 1)
  }

  lemma ShiftDigits(n: nat, p: nat, m: nat)
    ensures (n * p + m) * 10 == n * (10 * p) + m * 10
  {
  }

  lemma LastDigit(s: string, c: char)
    requires AllDigits(s) && IsDigit(c)
    ensures AllDigits(s + [c]) && ParseNat(s + [c]) == ParseNat(s) * 10 + DigitValue(c)
  {
    assert (s + [c])[..|s|] == s && (s + [c])[|s|] == c;
  }

  /** Digits weigh ten times as much with every digit behind them. */
  lemma {:induction false} DecimalPlaces(a: string, b: string)
    requires AllDigits(a) && AllDigits(b)
    ensures AllDigits(a + b) && ParseNat(a + b) == ParseNat(a) * PowerOfTen(|b|) + ParseNat(b)
  {
    if b == "" {
      assert a + b == a;
    } else {
      var front, last := b[..|b| - 1], b[|b| - 1];
      DecimalPlaces(a, front);
      LastDigit(a + front, last);
      LastDigit(front, last);
      assert a + b == a + front + [last] && b == front + [last];
      hide ParseNat, IsDigit, DigitValue;
      ShiftDigits(ParseNat(a), PowerOfTen(|front|), ParseNat(front));
    }
  }

  /** `str(n)` */
  function PrintNat(n: nat): (s: string)
    ensures s != "" && AllDigits(s) && ParseNat(s) == n
  {
    var digit := ('0' as int + n % 10) as char;
    if n < 10 then
      assert [digit][..0] == "" && ParseNat("") == 0;
      [digit]
    else
      var front := PrintNat(n / 10);
      assert (front + [digit])[..|front|] == front;
      front + [digit]
  }

  /** The longest leading run of digits. */
  function DigitRun(s: string): (n: nat)
    ensures n <= |s| && AllDigits(s[..n]) && (n < |s| ==> !IsDigit(s[n]))
  {
    if s == "" || !IsDigit(s[0]) then 0
    else
      var n := 1 + DigitRun(s[1..]);
      assert s[..n] == [s[0]] + s[1..][..n - 1];
      n
  }

  lemma DigitRunAfter(digits: string, rest: string)
    requires AllDigits(digits) && (rest != "" ==> !IsDigit(rest[0]))
    ensures DigitRun(digits + rest) == |digits|
    ensures (digits + rest)[..|digits|] == digits && (digits + rest)[|digits|..] == rest
  {
    var s := digits + rest;
    var n := DigitRun(s);
    assert forall i | 0 <= i < |digits| :: s[i] == digits[i];
    assert forall i | 0 <= i < n :: s[..n][i] == s[i];
    assert rest != "" ==> s[|digits|] == rest[0];
  }
}
