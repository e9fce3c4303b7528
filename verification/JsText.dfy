/** The JavaScript text functions that the panel's parsers are made of, on any string. */
module JsText {
  import opened Common

  function IndexOf(s: string, c: char): (i: nat)
    requires c in s
    ensures i < |s| && s[i] == c && c !in s[..i]
  {
    if s[0] == c then 0 else 1 + IndexOf(s[1..], c)
  }

  /** s.split(c) for a one-character separator. */
  function SplitOn(s: string, c: char): (parts: seq<string>)
    ensures |parts| >= 1
  {
    if c !in s then [s]
    else var i := IndexOf(s, c); [s[..i]] + SplitOn(s[i + 1..], c)
  }

  function JoinWith(parts: seq<string>, c: char): string
    requires parts != []
  {
    if |parts| == 1 then parts[0] else parts[0] + [c] + JoinWith(parts[1..], c)
  }

  lemma {:induction false} IndexOfFirst(head: string, c: char, tail: string)
    requires c !in head
    ensures IndexOf(head + [c] + tail, c) == |head|
  {
    if head != "" {
      assert (head + [c] + tail)[0] == head[0];
      assert (head + [c] + tail)[1..] == head[1..] + [c] + tail;
      IndexOfFirst(head[1..], c, tail);
    }
  }

  lemma SplitAtFirst(head: string, c: char, tail: string)
    requires c !in head
    ensures SplitOn(head + [c] + tail, c) == [head] + SplitOn(tail, c)
  {
    var s := head + [c] + tail;
    assert s[|head|] == c;
    IndexOfFirst(head, c, tail);
    assert s[..|head|] == head && s[|head| + 1..] == tail;
  }

  /** Splitting undoes joining when no part contains the separator. */
  lemma {:induction false} SplitUndoesJoin(parts: seq<string>, c: char)
    requires parts != [] && forall p | p in parts :: c !in p
    ensures SplitOn(JoinWith(parts, c), c) == parts
  {
    if |parts| > 1 {
      SplitAtFirst(parts[0], c, JoinWith(parts[1..], c));
      SplitUndoesJoin(parts[1..], c);
    }
  }

  /** White space and line terminators, as String.prototype.trim and \s take them. */
  predicate IsSpace(c: char) {
    c == ' ' || '\t' <= c <= '\r' || c == '\U{A0}' || c == '\U{1680}' || '\U{2000}' <= c <= '\U{200A}'
    || c == '\U{2028}' || c == '\U{2029}' || c == '\U{202F}' || c == '\U{205F}' || c == '\U{3000}' || c == '\U{FEFF}'
  }

  /** ECMAScript's white space and line terminators, one by one. */
  const WHITE_SPACE: set<char> := {
    '\t', '\n', '\U{B}', '\U{C}', '\r', ' ', '\U{A0}', '\U{1680}', '\U{2000}', '\U{2001}', '\U{2002}', '\U{2003}',
    '\U{2004}', '\U{2005}', '\U{2006}', '\U{2007}', '\U{2008}', '\U{2009}', '\U{200A}', '\U{2028}', '\U{2029}',
    '\U{202F}', '\U{205F}', '\U{3000}', '\U{FEFF}' }

  lemma IsSpaceIff(c: char)
    ensures IsSpace(c) <==> c in WHITE_SPACE
  {
  }

  predicate IsDigit(c: char) {
    '0' <= c <= '9'
  }

  function TrimStart(s: string): string {
    if s != "" && IsSpace(s[0]) then TrimStart(s[1..]) else s
  }

  function TrimEnd(s: string): string {
    if s != "" && IsSpace(s[|s| - 1]) then TrimEnd(s[..|s| - 1]) else s
  }

  function LeadingDigits(s: string): string {
    if s != "" && IsDigit(s[0]) then [s[0]] + LeadingDigits(s[1..]) else ""
  }

  /** The number that a string of digits denotes. */
  function Value(digits: string): int {
    if digits == "" then 0
    else Value(digits[..|digits| - 1]) * 10 + (digits[|digits| - 1] as int - '0' as int)
  }

  /** parseInt(s, 10): leading spaces, a sign, then as many digits as there are; None is NaN. */
  function ParseInt(s: string): Option<int> {
    var t := TrimStart(s);
    var negative := t != "" && t[0] == '-';
    var digits := LeadingDigits(if t != "" && (t[0] == '-' || t[0] == '+') then t[1..] else t);
    if digits == "" then None else Some(if negative then -Value(digits) else Value(digits))
  }

  predicate IsNumeral(s: string) {
    s != "" && forall c | c in s :: IsDigit(c)
  }

  lemma {:induction false} NumeralIsItsDigits(s: string)
    requires forall c | c in s :: IsDigit(c)
    ensures LeadingDigits(s) == s
  {
    if s != "" {
      NumeralIsItsDigits(s[1..]);
    }
  }

  lemma ParseNumeral(s: string)
    requires IsNumeral(s)
    ensures ParseInt(s) == Some(Value(s))
  {
    assert IsDigit(s[0]);
    NumeralIsItsDigits(s);
  }

  /** The decimal text of a number, its most significant digit first. */
  function Decimal(n: nat): string {
    (if n < 10 then "" else Decimal(n / 10)) + ["0123456789"[n % 10]]
  }

  lemma DigitCharacter(d: nat)
    requires d < 10
    ensures var c := "0123456789"[d]; '0' <= c <= '9' && c as int - '0' as int == d
  {
    assert d in {0, 1, 2, 3, 4, 5, 6, 7, 8, 9};
  }

  lemma {:induction false} DecimalDenotes(n: nat)
    ensures IsNumeral(Decimal(n)) && Value(Decimal(n)) == n
  {
    DigitCharacter(n % 10);
    var s := Decimal(n);
    if n >= 10 {
      DecimalDenotes(n / 10);
      assert s[..|s| - 1] == Decimal(n / 10);
    } else {
      assert s[..|s| - 1] == "";
    }
  }

  predicate AllZeros(s: string) {
    forall i | 0 <= i < |s| :: s[i] == '0'
  }

  lemma {:induction false} ZerosDenoteNothing(zeros: string, digits: string)
    requires AllZeros(zeros)
    ensures Value(zeros + digits) == Value(digits)
    decreases |digits| + |zeros|
  {
    var s := zeros + digits;
    if digits != "" {
      assert s[..|s| - 1] == zeros + digits[..|digits| - 1];
      ZerosDenoteNothing(zeros, digits[..|digits| - 1]);
    } else if zeros != "" {
      assert s == zeros && s[..|s| - 1] == zeros[..|zeros| - 1] + "";
      ZerosDenoteNothing(zeros[..|zeros| - 1], "");
    } else {
      assert s == "";
    }
  }

  /** Every number is denoted by its decimal text, leading zeros or not. */
  lemma NumberText(zeros: string, n: nat)
    requires AllZeros(zeros)
    ensures IsNumeral(zeros + Decimal(n)) && Value(zeros + Decimal(n)) == n
  {
    DecimalDenotes(n);
    ZerosDenoteNothing(zeros, Decimal(n));
  }

  lemma {:induction false} DigitsStop(digits: string, rest: string)
    requires forall c | c in digits :: IsDigit(c)
    requires rest != "" ==> !('0' <= rest[0] <= '9')
    ensures LeadingDigits(digits + rest) == digits
  {
    if digits != "" {
      assert (digits + rest)[1..] == digits[1..] + rest;
      DigitsStop(digits[1..], rest);
    } else {
      assert digits + rest == rest;
    }
  }

  lemma ParseSigned(sign: string, digits: string, rest: string)
    requires sign in {"", "+", "-"} && IsNumeral(digits) && (rest != "" ==> !('0' <= rest[0] <= '9'))
    ensures var s := sign + (digits + rest);
            && s != "" && !IsSpace(s[0])
            && ParseInt(s) == Some(if sign == "-" then -Value(digits) else Value(digits))
  {
    var s := sign + (digits + rest);
    assert digits[0] in digits && s[0] == if sign == "" then digits[0] else sign[0];
    assert s[|sign|..] == digits + rest;
    DigitsStop(digits, rest);
    assert TrimStart(s) == s;
  }

  lemma BlanksReadPast(blanks: string, s: string)
    requires AllSpaces(blanks) && s != "" && !IsSpace(s[0])
    ensures ParseInt(blanks + s) == ParseInt(s)
  {
    TrimSpaces(blanks, s);
    assert TrimStart(s) == s;
  }

  lemma NumeralReads(blanks: string, sign: string, digits: string, rest: string, s: string)
    requires AllSpaces(blanks)
    requires sign in {"", "+", "-"} && IsNumeral(digits) && (rest != "" ==> !('0' <= rest[0] <= '9'))
    requires s == sign + (digits + rest)
    ensures ParseInt(blanks + s) == Some((if sign == "-" then -1 else 1) * Value(digits))
  {
    ParseSigned(sign, digits, rest);
    BlanksReadPast(blanks, s);
  }

  /** Spaces, a sign and leading zeros in front of a number, and anything but a digit behind it, are read past. */
  lemma ParseIntReads(blanks: string, sign: string, zeros: string, n: nat, rest: string)
    requires forall c | c in blanks :: c in WHITE_SPACE
    requires sign in {"", "+", "-"} && AllZeros(zeros)
    requires rest != "" ==> !('0' <= rest[0] <= '9')
    ensures ParseInt(blanks + (sign + (zeros + Decimal(n) + rest))) == Some((if sign == "-" then -1 else 1) * n)
  {
    NumberText(zeros, n);
    forall c | c in blanks ensures IsSpace(c) {
      IsSpaceIff(c);
    }
    NumeralReads(blanks, sign, zeros + Decimal(n), rest, sign + (zeros + Decimal(n) + rest));
  }

  /** JavaScript's remainder: the sign of the dividend. */
  function Rem(a: int, b: int): int
    requires b != 0
  {
    if a >= 0 then a % b else -((-a) % b)
  }

  /** Its being zero is divisibility, whatever the signs. */
  lemma RemZero(a: int, b: int)
    requires b != 0
    ensures Rem(a, b) == 0 <==> a % b == 0
  {
    if a < 0 {
      var q, r := a / b, a % b;
      assert a == q * b + r;
      var p, t := (-a) / b, (-a) % b;
      assert -a == p * b + t;
      assert (q + p) * b == -(r + t);
      if r == 0 {
        assert t == -(q + p) * b;
        MultipleBelow(-(q + p), b, t);
      }
      if t == 0 {
        assert r == -(q + p) * b;
        MultipleBelow(-(q + p), b, r);
      }
    }
  }

  lemma MultipleBelow(k: int, b: int, r: int)
    requires b != 0 && r == k * b && 0 <= r < (if b < 0 then -b else b)
    ensures r == 0
  {
    assert k >= 1 && b > 0 ==> k * b >= b;
    assert k <= -1 && b < 0 ==> k * b >= -b;
    assert k >= 1 && b < 0 ==> k * b <= b;
    assert k <= -1 && b > 0 ==> k * b <= -b;
  }

  /** The characters up to the first space. */
  function Word(s: string): string {
    if s == "" || IsSpace(s[0]) then "" else [s[0]] + Word(s[1..])
  }

  lemma WordStops(s: string)
    ensures |Word(s)| <= |s| && Word(s) == s[..|Word(s)|]
    ensures |Word(s)| < |s| ==> IsSpace(s[|Word(s)|])
  {
  }

  lemma TrimStartShrinks(s: string)
    ensures |TrimStart(s)| <= |s|
    ensures s != "" && IsSpace(s[0]) ==> |TrimStart(s)| < |s|
  {
  }

  /** s.split(/\s+/). */
  function SplitOnSpaces(s: string): (words: seq<string>)
    ensures |words| >= 1
    decreases |s|
  {
    WordStops(s);
    var w := Word(s);
    if |w| == |s| then [w]
    else
      TrimStartShrinks(s[|w|..]);
      [w] + SplitOnSpaces(TrimStart(s[|w|..]))
  }

  predicate IsWord(s: string) {
    s != "" && forall c | c in s :: !IsSpace(c)
  }

  predicate AllSpaces(s: string) {
    forall c | c in s :: IsSpace(c)
  }

  /** Words with a gap of spaces after each. */
  function Spaced(words: seq<string>, gaps: seq<string>): string
    requires |gaps| == |words|
  {
    if words == [] then "" else words[0] + gaps[0] + Spaced(words[1..], gaps[1..])
  }

  lemma {:induction false} WordOf(w: string, rest: string)
    requires forall c | c in w :: !IsSpace(c)
    requires rest != "" ==> IsSpace(rest[0])
    ensures Word(w + rest) == w
  {
    if w != "" {
      assert (w + rest)[1..] == w[1..] + rest;
      WordOf(w[1..], rest);
    } else {
      assert w + rest == rest;
    }
  }

  lemma {:induction false} TrimSpaces(gap: string, rest: string)
    requires AllSpaces(gap) && (rest != "" ==> !IsSpace(rest[0]))
    ensures TrimStart(gap + rest) == rest
  {
    if gap != "" {
      assert (gap + rest)[1..] == gap[1..] + rest;
      TrimSpaces(gap[1..], rest);
    } else {
      assert gap + rest == rest;
    }
  }

  lemma {:induction false} TrimSpacesAtEnd(text: string, gap: string)
    requires AllSpaces(gap) && (text != "" ==> !IsSpace(text[|text| - 1]))
    ensures TrimEnd(text + gap) == text
    decreases |gap|
  {
    if gap != "" {
      assert (text + gap)[..|text + gap| - 1] == text + gap[..|gap| - 1];
      TrimSpacesAtEnd(text, gap[..|gap| - 1]);
    } else {
      assert text + gap == text;
    }
  }

  /** Splitting on spaces finds the words again, the last gap being empty. */
  lemma {:induction false} SplitUndoesSpacing(words: seq<string>, gaps: seq<string>)
    requires words != [] && |gaps| == |words| && gaps[|gaps| - 1] == ""
    requires forall i | 0 <= i < |words| :: IsWord(words[i])
    requires forall i | 0 <= i < |gaps| - 1 :: gaps[i] != "" && AllSpaces(gaps[i])
    ensures SplitOnSpaces(Spaced(words, gaps)) == words
    ensures Spaced(words, gaps) != "" && !IsSpace(Spaced(words, gaps)[0])
    ensures var s := Spaced(words, gaps); !IsSpace(s[|s| - 1])
    decreases |words|
  {
    var s := Spaced(words, gaps);
    assert words[0][0] in words[0] && words[0][|words[0]| - 1] in words[0];
    if |words| == 1 {
      assert words[0] + "" == words[0];
      assert Spaced(words[1..], gaps[1..]) == "";
      assert s == words[0];
      WordOf(words[0], "");
    } else {
      var rest := Spaced(words[1..], gaps[1..]);
      SplitUndoesSpacing(words[1..], gaps[1..]);
      assert s == words[0] + (gaps[0] + rest);
      assert gaps[0][0] in gaps[0];
      WordOf(words[0], gaps[0] + rest);
      TrimSpaces(gaps[0], rest);
      assert s[|words[0]|..] == gaps[0] + rest;
    }
  }
}
