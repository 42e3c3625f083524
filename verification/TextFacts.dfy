/** The text helpers characterised from outside: where words and lines end, and what parses. */
module TextFacts {
  import opened Wrappers
  import opened Text

  // ---- words

  lemma {:induction false} WordEndBefore(a: string, c: char, b: string)
    requires IsSpace(c)
    ensures WordEnd(a + [c] + b) == WordEnd(a)
  {
    if |a| == 0 {
      assert (a + [c] + b)[0] == c;
    } else if !IsSpace(a[0]) {
      WordEndBefore(a[1..], c, b);
      assert (a + [c] + b)[1..] == a[1..] + [c] + b;
    }
  }

  lemma FirstWord(a: string, c: char, b: string)
    requires IsSpace(c) && |a| > 0 && !IsSpace(a[0])
    ensures Words(a + [c] + b) == [a[..WordEnd(a)]] + Words(a[WordEnd(a)..] + [c] + b)
  {
    var s, n := a + [c] + b, WordEnd(a);
    WordEndBefore(a, c, b);
    assert s[..n] == a[..n] && s[n..] == a[n..] + [c] + b;
  }

  /** Every space ends a word: the words around it are the words of the two sides. */
  lemma {:induction false} WordsSplitAtSpace(a: string, c: char, b: string)
    requires IsSpace(c)
    ensures Words(a + [c] + b) == Words(a) + Words(b)
    decreases |a|
  {
    if |a| == 0 {
      assert (a + [c] + b)[0] == c && (a + [c] + b)[1..] == b;
    } else if IsSpace(a[0]) {
      WordsSplitAtSpace(a[1..], c, b);
      assert (a + [c] + b)[1..] == a[1..] + [c] + b;
    } else {
      FirstWord(a, c, b);
      WordsSplitAtSpace(a[WordEnd(a)..], c, b);
    }
  }

  /** Blank, tab, newline, vertical tab, form feed and carriage return are the spaces of ASCII. */
  lemma AsciiSpaces(c: char)
    requires c < 128 as char
    ensures IsSpace(c) <==> c as int == 32 || 9 <= c as int <= 13
  {
  }

  lemma OneWord(t: string)
    requires IsToken(t)
    ensures Words(t) == [t]
  {
    WordsOfToken(t, "");
    assert t + "" == t;
  }

  function Blanks(n: nat): string {
    seq(n, _ => ' ')
  }

  lemma {:induction false} BlanksAreNoWords(n: nat, rest: string)
    ensures Words(Blanks(n) + rest) == Words(rest)
  {
    if n == 0 {
      assert Blanks(0) + rest == rest;
    } else {
      BlanksAreNoWords(n - 1, rest);
      assert (Blanks(n) + rest)[0] == ' ' && (Blanks(n) + rest)[1..] == Blanks(n - 1) + rest;
    }
  }

  // ---- lines

  /** A carriage return before the newline is dropped with it. */
  lemma LineEndsCrLf(line: string, rest: string)
    requires '\n' !in line
    ensures Lines(line + "\r\n" + rest) == [line] + Lines(rest)
  {
    var full := line + "\r";
    LineEndAt(full, rest);
    var s := full + "\n" + rest;
    assert line + "\r\n" + rest == s;
    assert s[..|full|] == full && s[|full| + 1..] == rest && full[..|line|] == line;
  }

  lemma {:induction false} NoNewlineNoEnd(s: string)
    requires '\n' !in s
    ensures LineEnd(s) == |s|
  {
    if |s| > 0 {
      NoNewlineNoEnd(s[1..]);
    }
  }

  /** A last line without a newline is a line, as it stands; an empty text has none. */
  lemma LastLineStands(s: string)
    requires '\n' !in s
    ensures Lines(s) == if s == "" then [] else [s]
  {
    NoNewlineNoEnd(s);
  }

  // ---- numbers

  function Zeros(n: nat): string {
    seq(n, _ => '0')
  }

  lemma {:induction false} DecimalAfterZeros(k: nat, s: string)
    requires AllDigits(s)
    ensures AllDigits(Zeros(k) + s) && Decimal(Zeros(k) + s) == Decimal(s)
    decreases k + |s|
  {
    var all := Zeros(k) + s;
    if |s| > 0 {
      DecimalAfterZeros(k, s[..|s| - 1]);
      assert all[..|all| - 1] == Zeros(k) + s[..|s| - 1];
    } else if k > 0 {
      DecimalAfterZeros(k - 1, s);
      assert all[..|all| - 1] == Zeros(k - 1) + s;
    }
  }

  function Digit(d: nat): char
    requires d < 10
  {
    '0' + d as char
  }

  lemma PrintNext(m: nat, d: nat)
    requires d < 10
    ensures Print(m * 10 + d) == (if m == 0 then "" else Print(m)) + [Digit(d)]
  {
    assert (m * 10 + d) / 10 == m && (m * 10 + d) % 10 == d;
  }

  lemma DigitOf(c: char)
    requires IsDigit(c)
    ensures DigitValue(c) < 10 && c == Digit(DigitValue(c))
  {
  }

  lemma MoreDigits(front: string, last: char, k: nat) returns (j: nat)
    requires AllDigits(front) && IsDigit(last) && front == Zeros(k) + Print(Decimal(front))
    ensures front + [last] == Zeros(j) + Print(Decimal(front) * 10 + DigitValue(last))
  {
    DigitOf(last);
    PrintNext(Decimal(front), DigitValue(last));
    if Decimal(front) == 0 {
      PrintNext(0, 0);
      j := k + 1;
      assert front == Zeros(k) + ['0'] == Zeros(j);
    } else {
      j := k;
      assert front + [last] == Zeros(j) + (Print(Decimal(front)) + [last]);
    }
  }

  lemma DecimalOfOne(c: char)
    requires IsDigit(c)
    ensures AllDigits([c]) && Decimal([c]) == DigitValue(c)
  {
    assert [c][..0] == "";
  }

  lemma OneDigit(c: char)
    requires IsDigit(c)
    ensures AllDigits([c]) && [c] == Zeros(0) + Print(Decimal([c]))
  {
    DigitOf(c);
    var d := DigitValue(c);
    DecimalOfOne(c);
    assert Print(d) == [Digit(d)];
  }

  ghost predicate ZerosThenPrint(s: string, k: nat) {
    AllDigits(s) && s == Zeros(k) + Print(Decimal(s))
  }

  lemma LongerBy(s: string, k: nat) returns (j: nat)
    requires |s| > 1 && AllDigits(s) && ZerosThenPrint(s[..|s| - 1], k)
    ensures ZerosThenPrint(s, j)
  {
    j := MoreDigits(s[..|s| - 1], s[|s| - 1], k);
    assert s == s[..|s| - 1] + [s[|s| - 1]];
  }

  lemma ShortestIs(s: string)
    requires |s| == 1 && AllDigits(s)
    ensures ZerosThenPrint(s, 0)
  {
    OneDigit(s[0]);
    assert s == [s[0]];
  }

  lemma {:induction false} DigitsAreZerosAndPrint(s: string) returns (k: nat)
    requires |s| > 0 && AllDigits(s)
    ensures ZerosThenPrint(s, k)
    decreases |s|
  {
    if |s| == 1 {
      k := 0;
      ShortestIs(s);
    } else {
      k := DigitsAreZerosAndPrint(s[..|s| - 1]);
      k := LongerBy(s, k);
    }
  }

  /** The text is `n` in decimal, perhaps with zeros and a plus sign in front. */
  ghost predicate Writes(s: string, n: nat) {
    exists k: nat :: s == Zeros(k) + Print(n) || s == "+" + (Zeros(k) + Print(n))
  }

  lemma WrittenParses(s: string, n: nat, bound: nat)
    requires Writes(s, n) && n < bound
    ensures ParseUint(s, bound) == Some(n)
  {
    PrintIsDecimal(n);
    var k: nat :| s == Zeros(k) + Print(n) || s == "+" + (Zeros(k) + Print(n));
    var digits := Zeros(k) + Print(n);
    DecimalAfterZeros(k, Print(n));
    assert digits[0] != '+' by {
      assert IsDigit(digits[0]);
    }
    if s != digits {
      assert s[1..] == digits;
    }
  }

  lemma ParsedIsWritten(s: string, n: nat, bound: nat)
    requires ParseUint(s, bound) == Some(n)
    ensures Writes(s, n) && n < bound
  {
    var digits := if |s| > 0 && s[0] == '+' then s[1..] else s;
    var k := DigitsAreZerosAndPrint(digits);
    assert digits == s || s == "+" + digits;
  }

  /** Exactly what parses: a text gives `n` if and only if it writes `n` and `n` is in range. */
  lemma ParsesIff(s: string, n: nat, bound: nat)
    ensures ParseUint(s, bound) == Some(n) <==> Writes(s, n) && n < bound
  {
    if Writes(s, n) && n < bound {
      WrittenParses(s, n, bound);
    }
    if ParseUint(s, bound) == Some(n) {
      ParsedIsWritten(s, n, bound);
    }
  }

  // ---- trimming and searching

  predicate AllSpaces(s: string) {
    forall i | 0 <= i < |s| :: IsSpace(s[i])
  }

  /** Spaces on both sides go, and nothing else. */
  lemma {:induction false} TrimStrips(a: string, t: string, b: string)
    requires AllSpaces(a) && AllSpaces(b)
    requires |t| > 0 ==> !IsSpace(t[0]) && !IsSpace(t[|t| - 1])
    ensures Trim(a + t + b) == t
    decreases |a| + |b|
  {
    var s := a + t + b;
    if |a| > 0 {
      TrimStrips(a[1..], t, b);
      assert s[0] == a[0] && s[1..] == a[1..] + t + b;
    } else if |b| > 0 {
      if |t| == 0 {
        TrimStrips(b[1..], t, "");
        assert s[0] == b[0] && s[1..] == b[1..] + t + "";
      } else {
        TrimStrips(a, t, b[..|b| - 1]);
        assert s[0] == t[0] && s[|s| - 1] == b[|b| - 1] && s[..|s| - 1] == a + t + b[..|b| - 1];
      }
    } else {
      assert s == t;
    }
  }

  /** Nothing is found exactly when the character does not occur. */
  lemma {:induction false} AfterLastNone(s: string, c: char)
    ensures AfterLast(s, c).None? <==> c !in s
  {
    if |s| > 0 {
      AfterLastNone(s[..|s| - 1], c);
      assert s == s[..|s| - 1] + [s[|s| - 1]];
    }
  }
}
