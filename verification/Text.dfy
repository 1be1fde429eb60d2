/** The Python string operations the other modules use. */
module Text {
  // str.isspace for one character.
  predicate IsSpace(c: char) {
    var n := c as int;
    || 9 <= n <= 13 || 28 <= n <= 32 || n == 0x85 || n == 0xA0 || n == 0x1680 || 0x2000 <= n <= 0x200A
    || n == 0x2028 || n == 0x2029 || n == 0x202F || n == 0x205F || n == 0x3000
  }

  function LStrip(s: string): string {
    if s != [] && IsSpace(s[0]) then LStrip(s[1..]) else s
  }

  function RStrip(s: string): string {
    if s != [] && IsSpace(s[|s| - 1]) then RStrip(s[..|s| - 1]) else s
  }

  function Strip(s: string): string {
    RStrip(LStrip(s))
  }

  lemma Regroup<T>(a: seq<T>, b: seq<T>, c: seq<T>)
    ensures a + b + c == a + (b + c)
  {}

  // The white space of str.strip and str.split, code point by code point.
  const WHITE := {9, 10, 11, 12, 13, 28, 29, 30, 31, 32, 133, 160, 5760, 8192, 8193, 8194, 8195, 8196, 8197, 8198,
    8199, 8200, 8201, 8202, 8232, 8233, 8239, 8287, 12288}

  lemma SpaceIsWhite(c: char)
    ensures IsSpace(c) <==> c as int in WHITE
  {}

  predicate AllWhite(s: string) {
    forall i :: 0 <= i < |s| ==> s[i] as int in WHITE
  }

  lemma {:induction false} LStripSplit(s: string) returns (a: string)
    ensures s == a + LStrip(s) && AllWhite(a)
    ensures LStrip(s) != "" ==> LStrip(s)[0] as int !in WHITE
  {
    a := "";
    if s != [] {
      SpaceIsWhite(s[0]);
      if IsSpace(s[0]) {
        a := LStripSplit(s[1..]);
        a := [s[0]] + a;
      }
    }
  }

  lemma {:induction false} RStripSplit(s: string) returns (b: string)
    ensures s == RStrip(s) + b && AllWhite(b)
    ensures var t := RStrip(s); t != "" ==> t[|t| - 1] as int !in WHITE
  {
    b := "";
    if s != [] {
      SpaceIsWhite(s[|s| - 1]);
      if IsSpace(s[|s| - 1]) {
        var c := s[..|s| - 1];
        b := RStripSplit(c);
        assert s == c + [s[|s| - 1]];
        Regroup(RStrip(c), b, [s[|s| - 1]]);
        b := b + [s[|s| - 1]];
      }
    }
  }

  // Nothing left to strip.
  predicate Bare(t: string) {
    t == "" || (t[0] as int !in WHITE && t[|t| - 1] as int !in WHITE)
  }

  // strip takes white space, and all of it, off both ends.
  lemma StripSplit(s: string) returns (a: string, b: string)
    ensures s == a + Strip(s) + b && AllWhite(a) && AllWhite(b) && Bare(Strip(s))
  {
    a := LStripSplit(s);
    b := RStripSplit(LStrip(s));
    KeptHead(s, b);
    Regroup(a, Strip(s), b);
  }

  lemma KeptHead(s: string, b: string)
    requires LStrip(s) == Strip(s) + b
    ensures Strip(s) != "" ==> Strip(s)[0] == LStrip(s)[0]
  {}

  // So text is blank iff it is all white space.
  lemma StripBlankIff(s: string)
    ensures Strip(s) == "" <==> AllWhite(s)
  {
    var a, b := StripSplit(s);
    if Strip(s) == "" {
      assert s == a + b;
    } else {
      assert s[|a|] == Strip(s)[0];
    }
  }

  lemma StripBlank(s: string)
    requires forall c :: c in s ==> c in [' ', '\t', '\n', '\r']
    ensures Strip(s) == ""
  {
    StripBlankIff(s);
    forall i | 0 <= i < |s| ensures s[i] as int in WHITE {
      assert s[i] in s;
    }
  }

  // What is left is all there is between white space and white space.
  lemma StripUnique(a: string, t: string, b: string)
    requires AllWhite(a) && AllWhite(b)
    requires Bare(t)
    ensures Strip(a + t + b) == t
  {
    if t == "" {
      StripBlankIff(a + t + b);
    } else {
      LStripWhite(a, t + b);
      assert a + t + b == a + (t + b);
      RStripWhite(t, b);
    }
  }

  lemma {:induction false} LStripWhite(a: string, s: string)
    requires AllWhite(a) && (s == [] || s[0] as int !in WHITE)
    ensures LStrip(a + s) == s
  {
    if a == [] {
      assert a + s == s;
      if s != [] {
        SpaceIsWhite(s[0]);
      }
    } else {
      SpaceIsWhite(a[0]);
      assert (a + s)[1..] == a[1..] + s;
      LStripWhite(a[1..], s);
    }
  }

  lemma {:induction false} RStripWhite(s: string, b: string)
    requires AllWhite(b) && (s == [] || s[|s| - 1] as int !in WHITE)
    ensures RStrip(s + b) == s
  {
    if b == [] {
      assert s + b == s;
      if s != [] {
        SpaceIsWhite(s[|s| - 1]);
      }
    } else {
      SpaceIsWhite(b[|b| - 1]);
      assert (s + b)[..|s + b| - 1] == s + b[..|b| - 1];
      RStripWhite(s, b[..|b| - 1]);
    }
  }

  // str.lower, which only matters for ASCII letters here.
  function LowerChar(c: char): char {
    if 'A' <= c <= 'Z' then (c as int + 32) as char else c
  }

  function Lower(s: string): (t: string)
    ensures |t| == |s| && forall i :: 0 <= i < |s| ==> t[i] == LowerChar(s[i])
  {
    seq(|s|, i requires 0 <= i < |s| => LowerChar(s[i]))
  }

  const CAPITALS := "ABCDEFGHIJKLM" + "NOPQRSTUVWXYZ"
  const SMALL_LETTERS := "abcdefghijklm" + "nopqrstuvwxyz"

  // Capitals become small letters, and nothing else changes.
  lemma LowerLetters(s: string, i: nat, k: nat)
    requires i < |s| && k < 26
    ensures s[i] == CAPITALS[k] ==> Lower(s)[i] == SMALL_LETTERS[k]
    ensures s[i] !in CAPITALS ==> Lower(s)[i] == s[i]
  {
    LetterAt(k);
    if 'A' <= s[i] <= 'Z' {
      LetterAt(s[i] as int - 65);
      assert CAPITALS[s[i] as int - 65] == s[i];
    }
  }

  lemma LetterAt(k: nat)
    requires k < 26
    ensures CAPITALS[k] as int == 65 + k && SMALL_LETTERS[k] as int == 97 + k
  {
    CapitalAt(k);
    SmallLetterAt(k);
  }

  lemma CapitalAt(k: nat)
    requires k < 26
    ensures CAPITALS[k] as int == 65 + k
  {}

  lemma SmallLetterAt(k: nat)
    requires k < 26
    ensures SMALL_LETTERS[k] as int == 97 + k
  {}

  lemma LetterIff(c: char)
    ensures c in CAPITALS <==> 'A' <= c <= 'Z'
    ensures c in SMALL_LETTERS <==> 'a' <= c <= 'z'
  {
    forall k | 0 <= k < 26 ensures CAPITALS[k] as int == 65 + k && SMALL_LETTERS[k] as int == 97 + k {
      LetterAt(k);
    }
    assert 'A' <= c <= 'Z' ==> CAPITALS[c as int - 65] == c;
    assert 'a' <= c <= 'z' ==> SMALL_LETTERS[c as int - 97] == c;
  }

  lemma DigitIff(c: char)
    ensures c in "0123456789" <==> '0' <= c <= '9'
  {
    assert '0' <= c <= '9' ==> "0123456789"[c as int - 48] == c;
  }

  lemma EndsWithIff(s: string, suffix: string)
    ensures EndsWith(s, suffix) <==> exists a :: s == a + suffix
  {
    if EndsWith(s, suffix) {
      assert s == s[..|s| - |suffix|] + suffix;
    }
  }

  predicate EndsWith(s: string, suffix: string) {
    |suffix| <= |s| && s[|s| - |suffix|..] == suffix
  }

  // s.split(c)
  function Split(s: string, c: char): (parts: seq<string>)
    ensures parts != []
  {
    if s == [] then [[]]
    else
      var rest := Split(s[1..], c);
      if s[0] == c then [[]] + rest else [[s[0]] + rest[0]] + rest[1..]
  }

  // sep.join(parts), for a one-character separator
  function Join(parts: seq<string>, sep: char): string {
    if parts == [] then []
    else if |parts| == 1 then parts[0]
    else parts[0] + [sep] + Join(parts[1..], sep)
  }

  lemma {:induction false} SplitWhole(a: string, c: char)
    requires c !in a
    ensures Split(a, c) == [a]
  {
    if a == [] {
    } else {
      SplitWhole(a[1..], c);
      assert a == [a[0]] + a[1..];
    }
  }

  lemma {:induction false} SplitFirst(a: string, c: char, b: string)
    requires c !in a
    ensures Split(a + [c] + b, c) == [a] + Split(b, c)
  {
    var s := a + [c] + b;
    if a == [] {
      assert s[1..] == b;
    } else {
      assert s[1..] == a[1..] + [c] + b;
      SplitFirst(a[1..], c, b);
      assert a == [a[0]] + a[1..];
    }
  }

  lemma {:induction false} SplitOfJoin(parts: seq<string>, c: char)
    requires parts != [] && forall i :: 0 <= i < |parts| ==> c !in parts[i]
    ensures Split(Join(parts, c), c) == parts
  {
    if |parts| == 1 {
      SplitWhole(parts[0], c);
    } else {
      SplitOfJoin(parts[1..], c);
      SplitFirst(parts[0], c, Join(parts[1..], c));
    }
  }

  lemma {:induction false} SplitParts(s: string, c: char)
    ensures forall i :: 0 <= i < |Split(s, c)| ==> c !in Split(s, c)[i]
  {
    if s == [] {
    } else {
      SplitParts(s[1..], c);
    }
  }
}

/** Decimal numerals: '%d' and int(). */
module Numerals {
  import opened Text
  import opened Wrappers

  predicate IsDigit(c: char) {
    '0' <= c <= '9'
  }

  predicate AllDigits(s: string) {
    forall i :: 0 <= i < |s| ==> IsDigit(s[i])
  }

  function Digits(n: nat): (s: string)
    ensures s != [] && AllDigits(s)
  {
    (if n < 10 then [] else Digits(n / 10)) + [(48 + n % 10) as char]
  }

  function Value(s: string): nat
    requires AllDigits(s)
  {
    if s == [] then 0 else 10 * Value(s[..|s| - 1]) + (s[|s| - 1] as int - 48)
  }

  // Positional notation to base ten.
  lemma ValueStep(s: string, k: nat)
    requires AllDigits(s) && k < 10
    ensures var c := "0123456789"[k]; AllDigits(s + [c]) && Value(s + [c]) == 10 * Value(s) + k
  {
    var c := "0123456789"[k];
    assert IsDigit(c) && c as int == 48 + k;
    assert (s + [c])[..|s|] == s;
  }

  // Without leading zeros.
  lemma {:induction false} DigitsPlain(n: nat)
    ensures Digits(n)[0] == '0' ==> Digits(n) == "0" && n == 0
  {
    if n >= 10 {
      DigitsPlain(n / 10);
    }
  }

  lemma {:induction false} ValueOfDigits(n: nat)
    ensures Value(Digits(n)) == n
  {
    var s := Digits(n);
    if n >= 10 {
      ValueOfDigits(n / 10);
      assert s[..|s| - 1] == Digits(n / 10);
    } else {
      assert s[..|s| - 1] == [];
    }
  }

  function Decimal(n: int): string {
    if n < 0 then "-" + Digits(-n) else Digits(n)
  }

  // int(s); None is ValueError.
  function ParseInt(s: string): Option<int> {
    var t := Strip(s);
    var digits := if t != [] && (t[0] == '-' || t[0] == '+') then t[1..] else t;
    if digits == [] || !AllDigits(digits) then None
    else Some(if t[0] == '-' then -(Value(digits) as int) else Value(digits))
  }

  // int() takes digits, after a sign or without one, and white space around
  // them.
  lemma ParseIntReads(a: string, sign: string, d: string, b: string)
    requires AllWhite(a) && AllWhite(b) && d != [] && AllDigits(d)
    requires sign == "" || sign == "+" || sign == "-"
    ensures ParseInt(a + (sign + d) + b) == Some(if sign == "-" then -(Value(d) as int) else Value(d))
  {
    SignedIsBare(sign, d);
    StripUnique(a, sign + d, b);
    StripSigned(sign, d);
    assert ParseInt(a + (sign + d) + b) == ParseInt(sign + d);
    if sign == "-" {
      ParseNegative(d);
    } else if sign == "+" {
      ParsePositive(d);
    } else {
      ParseDigits(d);
      assert sign + d == d;
    }
  }

  lemma StripSigned(sign: string, d: string)
    requires Bare(sign + d)
    ensures Strip(sign + d) == sign + d
  {
    StripUnique("", sign + d, "");
    assert "" + (sign + d) + "" == sign + d;
  }

  lemma SignedIsBare(sign: string, d: string)
    requires d != [] && AllDigits(d)
    requires sign == "" || sign == "+" || sign == "-"
    ensures Bare(sign + d)
  {
    var t := sign + d;
    assert t[|t| - 1] == d[|d| - 1] && IsDigit(d[|d| - 1]) && IsDigit(d[0]);
    SpaceIsWhite(t[0]);
    SpaceIsWhite(t[|t| - 1]);
  }

  // It takes nothing else: anything else is a ValueError.
  lemma ParseIntOnly(s: string) returns (a: string, sign: string, d: string, b: string)
    requires ParseInt(s).Some?
    ensures s == a + (sign + d) + b && AllWhite(a) && AllWhite(b) && d != [] && AllDigits(d)
    ensures sign == "" || sign == "+" || sign == "-"
  {
    a, b := StripSplit(s);
    var t := Strip(s);
    if t[0] == '-' || t[0] == '+' {
      sign, d := [t[0]], t[1..];
      assert t == sign + d;
    } else {
      sign, d := "", t;
      assert sign + d == t;
    }
  }

  lemma AllDigitsIff(s: string)
    ensures AllDigits(s) <==> forall i :: 0 <= i < |s| ==> s[i] in "0123456789"
  {
    forall i | 0 <= i < |s| ensures IsDigit(s[i]) <==> s[i] in "0123456789" {
      DigitIff(s[i]);
    }
  }

  // Text without surrounding white space is its own strip.
  lemma StripNothing(s: string)
    requires s != [] && !IsSpace(s[0]) && !IsSpace(s[|s| - 1])
    ensures Strip(s) == s
  {}

  lemma ParseDigits(d: string)
    requires d != [] && AllDigits(d)
    ensures ParseInt(d) == Some(Value(d))
  {
    assert IsDigit(d[0]) && IsDigit(d[|d| - 1]);
    StripNothing(d);
  }

  lemma ParsePositive(d: string)
    requires d != [] && AllDigits(d)
    ensures ParseInt("+" + d) == Some(Value(d))
  {
    assert IsDigit(d[|d| - 1]);
    StripNothing("+" + d);
    assert ("+" + d)[1..] == d;
  }

  lemma ParseNegative(d: string)
    requires d != [] && AllDigits(d)
    ensures ParseInt("-" + d) == Some(-(Value(d) as int))
  {
    assert IsDigit(d[|d| - 1]);
    StripNothing("-" + d);
    assert ("-" + d)[1..] == d;
  }

  lemma ParseDecimal(n: int)
    ensures ParseInt(Decimal(n)) == Some(n)
  {
    var m := if n < 0 then -n else n;
    ValueOfDigits(m);
    if n < 0 {
      ParseNegative(Digits(m));
    } else {
      ParseDigits(Digits(m));
    }
  }
}
