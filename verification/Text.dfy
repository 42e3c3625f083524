/** The text handling behind the /proc and cgroup readers. */
module Text {
  import opened Wrappers

  predicate IsSpace(c: char) {
    || '\t' <= c <= '\r' || c == ' ' || c == '\U{85}' || c == '\U{A0}' || c == '\U{1680}'
    || '\U{2000}' <= c <= '\U{200A}' || c == '\U{2028}' || c == '\U{2029}' || c == '\U{202F}'
    || c == '\U{205F}' || c == '\U{3000}'
  }

  // ---- words

  function WordEnd(s: string): (n: nat)
    ensures n <= |s|
    ensures forall i | 0 <= i < n :: !IsSpace(s[i])
    ensures n < |s| ==> IsSpace(s[n])
  {
    if |s| == 0 || IsSpace(s[0]) then 0 else 1 + WordEnd(s[1..])
  }

  /** The maximal runs of non-space characters, in order. */
  function Words(s: string): seq<string>
    decreases |s|
  {
    if |s| == 0 then []
    else if IsSpace(s[0]) then Words(s[1..])
    else [s[..WordEnd(s)]] + Words(s[WordEnd(s)..])
  }

  predicate IsToken(t: string) {
    |t| > 0 && forall i | 0 <= i < |t| :: !IsSpace(t[i])
  }

  lemma {:induction false} WordEndOfToken(t: string, rest: string)
    requires forall i | 0 <= i < |t| :: !IsSpace(t[i])
    requires |rest| > 0 ==> IsSpace(rest[0])
    ensures WordEnd(t + rest) == |t|
  {
    if |t| == 0 {
      assert t + rest == rest;
    } else {
      WordEndOfToken(t[1..], rest);
      assert (t + rest)[1..] == t[1..] + rest;
    }
  }

  lemma WordsOfToken(t: string, rest: string)
    requires IsToken(t) && (|rest| > 0 ==> IsSpace(rest[0]))
    ensures Words(t + rest) == [t] + Words(rest)
  {
    WordEndOfToken(t, rest);
    assert (t + rest)[..|t|] == t && (t + rest)[|t|..] == rest;
  }

  /** Each token with a space in front. */
  function Spaced(tokens: seq<string>): string {
    if |tokens| == 0 then "" else " " + tokens[0] + Spaced(tokens[1..])
  }

  predicate StartsWithSpace(s: string) {
    |s| > 0 ==> IsSpace(s[0])
  }

  lemma WordsAfterSpace(t: string, rest: string)
    requires IsToken(t) && StartsWithSpace(rest)
    ensures Words(" " + t + rest) == [t] + Words(rest)
  {
    var s := " " + t + rest;
    assert s[0] == ' ' && s[1..] == t + rest;
    WordsOfToken(t, rest);
  }

  lemma {:induction false} WordsOfSpaced(tokens: seq<string>, tail: string)
    requires forall i | 0 <= i < |tokens| :: IsToken(tokens[i])
    requires tail == "" || tail == "\n"
    ensures StartsWithSpace(Spaced(tokens) + tail)
    ensures Words(Spaced(tokens) + tail) == tokens
  {
    if |tokens| == 0 {
      assert Spaced(tokens) + tail == tail;
      assert tail == "\n" ==> Words(tail[1..]) == [];
    } else {
      var rest := Spaced(tokens[1..]) + tail;
      WordsOfSpaced(tokens[1..], tail);
      WordsAfterSpace(tokens[0], rest);
      assert Spaced(tokens) + tail == " " + tokens[0] + rest;
    }
  }

  function Trim(s: string): string
    decreases |s|
  {
    if |s| > 0 && IsSpace(s[0]) then Trim(s[1..])
    else if |s| > 0 && IsSpace(s[|s| - 1]) then Trim(s[..|s| - 1])
    else s
  }

  // ---- after the last occurrence of a character

  function AfterLast(s: string, c: char): Option<string> {
    if |s| == 0 then None
    else if s[|s| - 1] == c then Some("")
    else
      var r := AfterLast(s[..|s| - 1], c);
      if r.None? then None else Some(r.value + [s[|s| - 1]])
  }

  lemma {:induction false} AfterLastFinds(before: string, c: char, tail: string)
    requires c !in tail
    ensures AfterLast(before + [c] + tail, c) == Some(tail)
  {
    var s := before + [c] + tail;
    if |tail| == 0 {
      assert s[|s| - 1] == c;
    } else {
      var front := tail[..|tail| - 1];
      AfterLastFinds(before, c, front);
      assert s[..|s| - 1] == before + [c] + front;
      assert s[|s| - 1] == tail[|tail| - 1] && tail[|tail| - 1] in tail;
      assert front + [tail[|tail| - 1]] == tail;
    }
  }

  // ---- lines

  function LineEnd(s: string): (n: nat)
    ensures n <= |s|
    ensures forall i | 0 <= i < n :: s[i] != '\n'
    ensures n < |s| ==> s[n] == '\n'
  {
    if |s| == 0 || s[0] == '\n' then 0 else 1 + LineEnd(s[1..])
  }

  function WithoutCr(s: string): string {
    if |s| > 0 && s[|s| - 1] == '\r' then s[..|s| - 1] else s
  }

  /** Lines without their terminators; no empty line after a final newline. */
  function Lines(s: string): seq<string>
    decreases |s|
  {
    if |s| == 0 then []
    else if LineEnd(s) == |s| then [s]
    else [WithoutCr(s[..LineEnd(s)])] + Lines(s[LineEnd(s) + 1..])
  }

  function Unlines(lines: seq<string>): string {
    if |lines| == 0 then "" else lines[0] + "\n" + Unlines(lines[1..])
  }

  predicate IsLine(s: string) {
    '\n' !in s && (|s| > 0 ==> s[|s| - 1] != '\r')
  }

  lemma {:induction false} LineEndAt(s: string, rest: string)
    requires '\n' !in s
    ensures LineEnd(s + "\n" + rest) == |s|
  {
    if |s| == 0 {
      assert (s + "\n" + rest)[0] == '\n';
    } else {
      assert s[0] in s && forall c | c in s[1..] :: c in s;
      LineEndAt(s[1..], rest);
      assert (s + "\n" + rest)[1..] == s[1..] + "\n" + rest;
    }
  }

  lemma {:induction false} LinesOfUnlines(lines: seq<string>)
    requires forall i | 0 <= i < |lines| :: IsLine(lines[i])
    ensures Lines(Unlines(lines)) == lines
  {
    if |lines| > 0 {
      var rest := Unlines(lines[1..]);
      LinesOfUnlines(lines[1..]);
      LineEndAt(lines[0], rest);
      var s := lines[0] + "\n" + rest;
      assert s[..|lines[0]|] == lines[0] && s[|lines[0]| + 1..] == rest;
    }
  }

  // ---- numbers

  predicate IsDigit(c: char) {
    '0' <= c <= '9'
  }

  function DigitValue(c: char): nat
    requires IsDigit(c)
  {
    (c - '0') as nat
  }

  predicate AllDigits(s: string) {
    forall i | 0 <= i < |s| :: IsDigit(s[i])
  }

  function Decimal(s: string): nat
    requires AllDigits(s)
  {
    if |s| == 0 then 0 else Decimal(s[..|s| - 1]) * 10 + DigitValue(s[|s| - 1])
  }

  /** Parsing an unsigned integer below `bound`: an optional plus, then at least one digit. */
  function ParseUint(s: string, bound: nat): Option<nat> {
    var digits := if |s| > 0 && s[0] == '+' then s[1..] else s;
    if |digits| == 0 || !AllDigits(digits) || Decimal(digits) >= bound then None else Some(Decimal(digits))
  }

  function Print(n: nat): string {
    if n < 10 then ['0' + n as char] else Print(n / 10) + ['0' + (n % 10) as char]
  }

  lemma {:induction false} PrintIsDecimal(n: nat)
    ensures |Print(n)| > 0 && AllDigits(Print(n)) && Decimal(Print(n)) == n
  {
    if n < 10 {
      assert Decimal(Print(n)[..0]) == 0;
    } else {
      PrintIsDecimal(n / 10);
      var s := Print(n);
      assert s[..|s| - 1] == Print(n / 10);
    }
  }

  lemma ParsePrint(n: nat, bound: nat)
    requires n < bound
    ensures ParseUint(Print(n), bound) == Some(n)
  {
    PrintIsDecimal(n);
  }

  lemma PrintIsToken(n: nat)
    ensures IsToken(Print(n)) && ')' !in Print(n)
  {
    PrintIsDecimal(n);
    var s := Print(n);
    forall i | 0 <= i < |s| ensures !IsSpace(s[i]) && s[i] != ')' {
      assert IsDigit(s[i]);
    }
  }
}
