/** Python's text primitives as the point-of-sale code uses them: `str()` of an integer,
    `int()` of a string, `str.strip()` and `str.split(sep)`. Strings are sequences of
    Unicode scalar values. */
module Text {

  datatype Option<+T> = None | Some(value: T)

  predicate IsDigit(c: char) { '0' <= c <= '9' }

  /** The characters `str.isspace()` accepts, which `str.strip()` removes. */
  predicate IsSpace(c: char) {
    ('\t' <= c <= '\r') || ('\U{1C}' <= c <= ' ') || c == '\U{85}' || c == '\U{A0}'
    || c == '\U{1680}' || ('\U{2000}' <= c <= '\U{200A}') || c == '\U{2028}'
    || c == '\U{2029}' || c == '\U{202F}' || c == '\U{205F}' || c == '\U{3000}'
  }

  /** The characters `int()` ignores around its argument: `str.isspace()` characters other
      than the four separators U+001C to U+001F, which it refuses. Non-ASCII whitespace
      becomes a blank before parsing, but of ASCII only blank, tab, line feed, vertical
      tab, form feed and carriage return are skipped. */
  predicate IntSpace(c: char) {
    IsSpace(c) && !('\U{1C}' <= c <= '\U{1F}')
  }

  function DigitChar(d: int): (c: char)
    requires 0 <= d < 10
    ensures IsDigit(c) && c as int - '0' as int == d
  {
    ('0' as int + d) as char
  }

  /** Decimal digits of a natural number, most significant first, no leading zero. */
  function NatToString(n: nat): (s: string)
    ensures |s| > 0
    ensures forall i :: 0 <= i < |s| ==> IsDigit(s[i])
    ensures |s| > 1 ==> s[0] != '0'
  {
    if n < 10 then [DigitChar(n)] else NatToString(n / 10) + [DigitChar(n % 10)]
  }

  /** `str(n)` for a Python int: a minus sign for negatives, then the digits. */
  function IntToString(n: int): (s: string)
    ensures |s| > 0 && IsDigit(s[|s| - 1])
    ensures forall i :: 0 <= i < |s| ==> IsDigit(s[i]) || (i == 0 && s[i] == '-')
    ensures s[0] == '-' <==> n < 0
  {
    if n < 0 then "-" + NatToString(-n) else NatToString(n)
  }

  /** The digit string `int()` accepts after the sign: digits, where single underscores
      may separate two digits. */
  predicate IntegerDigits(d: string) {
    && |d| > 0 && IsDigit(d[0]) && IsDigit(d[|d| - 1])
    && (forall i :: 0 <= i < |d| ==> IsDigit(d[i]) || d[i] == '_')
    && (forall i :: 0 <= i < |d| - 1 ==> d[i] == '_' ==> IsDigit(d[i + 1]))
  }

  /** Value of a digit string, underscores skipped. */
  function DigitsValue(d: string): int {
    if d == [] then 0
    else if d[|d| - 1] == '_' then DigitsValue(d[..|d| - 1])
    else DigitsValue(d[..|d| - 1]) * 10 + (d[|d| - 1] as int - '0' as int)
  }

  function StripLeft(s: string): string {
    if s != [] && IsSpace(s[0]) then StripLeft(s[1..]) else s
  }

  function StripRight(s: string): string {
    if s != [] && IsSpace(s[|s| - 1]) then StripRight(s[..|s| - 1]) else s
  }

  /** `s.strip()`: whitespace removed at both ends. */
  function Strip(s: string): string {
    StripRight(StripLeft(s))
  }

  function IntStripLeft(s: string): string {
    if s != [] && IntSpace(s[0]) then IntStripLeft(s[1..]) else s
  }

  function IntStripRight(s: string): string {
    if s != [] && IntSpace(s[|s| - 1]) then IntStripRight(s[..|s| - 1]) else s
  }

  /** What `int()` reads of its argument: the whitespace it skips removed at both ends. */
  function IntStrip(s: string): string {
    IntStripRight(IntStripLeft(s))
  }

  /** The number of digits in a digit string, underscores not counted. */
  function DigitCount(d: string): nat {
    if d == [] then 0 else DigitCount(d[..|d| - 1]) + (if d[|d| - 1] == '_' then 0 else 1)
  }

  /** Python's default limit on the digits of a decimal integer text (`sys.int_info`
      `default_max_str_digits`): `int()` refuses longer texts, leading zeros included, and
      `str()` refuses to write longer numbers. */
  const MaxStrDigits: nat := 4300

  /** `int(s)` for a string argument in base 10; None where Python raises ValueError, which
      it also does when the digits, underscores aside, number more than `MaxStrDigits`. */
  function ParseInt(s: string): Option<int> {
    var t := IntStrip(s);
    if |t| > 0 && (t[0] == '-' || t[0] == '+') then
      if IntegerDigits(t[1..]) && DigitCount(t[1..]) <= MaxStrDigits then
        Some(if t[0] == '-' then -DigitsValue(t[1..]) else DigitsValue(t[1..]))
      else None
    else if IntegerDigits(t) && DigitCount(t) <= MaxStrDigits then Some(DigitsValue(t))
    else None
  }

  /** `str(n)` is defined: `n` has at most `MaxStrDigits` digits. */
  predicate WithinStrLimit(n: int) {
    |NatToString(if n < 0 then -n else n)| <= MaxStrDigits
  }

  function Pow10(k: nat): (p: nat)
    ensures p >= 1
  {
    if k == 0 then 1 else 10 * Pow10(k - 1)
  }

  /** `s.split(sep)` for a non-empty separator: the pieces between the occurrences of `sep`
      found scanning left to right, always at least one piece. */
  function Split(s: string, sep: string): (parts: seq<string>)
    requires |sep| > 0
    ensures |parts| >= 1
    decreases |s|
  {
    if |s| < |sep| then [s]
    else if s[..|sep|] == sep then [""] + Split(s[|sep|..], sep)
    else
      var rest := Split(s[1..], sep);
      [[s[0]] + rest[0]] + rest[1..]
  }

  /** `sep.join(parts)`. */
  function Join(parts: seq<string>, sep: string): string
    requires |parts| >= 1
  {
    if |parts| == 1 then parts[0] else parts[0] + sep + Join(parts[1..], sep)
  }

  predicate Avoids(s: string, c: char) {
    forall i :: 0 <= i < |s| ==> s[i] != c
  }

  // ---------------------------------------------------------------------------------
  // Properties

  lemma {:induction false} DigitsValueOfNatToString(n: nat)
    ensures DigitsValue(NatToString(n)) == n
  {
    if n >= 10 {
      var s := NatToString(n / 10);
      var t := s + [DigitChar(n % 10)];
      assert t[..|t| - 1] == s;
      DigitsValueOfNatToString(n / 10);
    }
  }

  lemma NatToStringIsIntegerDigits(n: nat)
    ensures IntegerDigits(NatToString(n))
  {
    var d := NatToString(n);
    assert forall i :: 0 <= i < |d| ==> IsDigit(d[i]);
  }

  /** Text without whitespace at either end is what `int()` reads of it. */
  lemma IntStripUnpadded(t: string)
    requires |t| > 0 && !IntSpace(t[0]) && !IntSpace(t[|t| - 1])
    ensures IntStrip(t) == t
  {
    assert IntStripLeft(t) == t;
    assert IntStripRight(t) == t;
  }

  /** `lstrip()` keeps the longest suffix not starting with whitespace; all it drops is
      whitespace. */
  lemma {:induction false} StripLeftSuffix(s: string)
    ensures |StripLeft(s)| <= |s| && StripLeft(s) == s[|s| - |StripLeft(s)|..]
    ensures forall k :: 0 <= k < |s| - |StripLeft(s)| ==> IsSpace(s[k])
    ensures StripLeft(s) != [] ==> !IsSpace(StripLeft(s)[0])
  {
    if s != [] && IsSpace(s[0]) {
      var t := s[1..];
      StripLeftSuffix(t);
      assert StripLeft(s) == StripLeft(t);
      assert t[|t| - |StripLeft(t)|..] == s[|s| - |StripLeft(t)|..];
      forall k | 0 <= k < |s| - |StripLeft(s)| ensures IsSpace(s[k]) {
        if k > 0 {
          assert s[k] == t[k - 1];
        }
      }
    }
  }

  /** `rstrip()` keeps the longest prefix not ending in whitespace; all it drops is
      whitespace. */
  lemma {:induction false} StripRightPrefix(s: string)
    ensures |StripRight(s)| <= |s| && StripRight(s) == s[..|StripRight(s)|]
    ensures forall k :: |StripRight(s)| <= k < |s| ==> IsSpace(s[k])
    ensures StripRight(s) != [] ==> !IsSpace(StripRight(s)[|StripRight(s)| - 1])
  {
    if s != [] && IsSpace(s[|s| - 1]) {
      var t := s[..|s| - 1];
      StripRightPrefix(t);
      assert StripRight(s) == StripRight(t);
      assert t[..|StripRight(t)|] == s[..|StripRight(t)|];
      forall k | |StripRight(s)| <= k < |s| ensures IsSpace(s[k]) {
        if k < |s| - 1 {
          assert s[k] == t[k];
        }
      }
    }
  }

  /** `strip()` removes the `str.isspace()` characters at both ends and nothing else: its
      result is a slice whose surroundings are all whitespace and whose own ends are not. */
  lemma StripSlice(s: string)
    ensures exists i, j :: (0 <= i <= j <= |s| && Strip(s) == s[i..j]
      && forall k :: 0 <= k < i || j <= k < |s| ==> IsSpace(s[k]))
    ensures Strip(s) != [] ==> !IsSpace(Strip(s)[0]) && !IsSpace(Strip(s)[|Strip(s)| - 1])
  {
    var l := StripLeft(s);
    StripLeftSuffix(s);
    StripRightPrefix(l);
    var i := |s| - |l|;
    var j := i + |Strip(s)|;
    assert Strip(s) == s[i..j];
    forall k | j <= k < |s| ensures IsSpace(s[k]) {
      assert s[k] == l[k - i];
    }
    if Strip(s) != [] {
      assert Strip(s)[0] == l[0];
    }
  }

  /** In a string of digits only, every character counts as a digit. */
  lemma {:induction false} DigitCountOfDigits(d: string)
    requires forall i :: 0 <= i < |d| ==> IsDigit(d[i])
    ensures DigitCount(d) == |d|
  {
    if d != [] {
      DigitCountOfDigits(d[..|d| - 1]);
    }
  }

  /** A digit string is worth less than ten to the number of its digits. */
  lemma {:induction false} DigitsValueBound(d: string)
    requires forall i :: 0 <= i < |d| ==> IsDigit(d[i]) || d[i] == '_'
    ensures 0 <= DigitsValue(d) < Pow10(DigitCount(d))
  {
    if d != [] {
      DigitsValueBound(d[..|d| - 1]);
    }
  }

  /** A number below ten to the `k` is written with at most `k` digits. */
  lemma {:induction false} NatToStringLength(n: nat, k: nat)
    requires 1 <= k && n < Pow10(k)
    ensures |NatToString(n)| <= k
  {
    if n >= 10 {
      NatToStringLength(n / 10, k - 1);
    }
  }

  /** `int()` of a digit string accepts it exactly when it has at most `MaxStrDigits`
      digits, leading zeros included, and then returns its value. */
  lemma ParseIntDigitLimit(d: string)
    requires IntegerDigits(d)
    ensures ParseInt(d).Some? <==> DigitCount(d) <= MaxStrDigits
    ensures ParseInt(d).Some? ==> ParseInt(d).value == DigitsValue(d)
  {
    IntStripUnpadded(d);
  }

  /** Every integer `int()` returns has at most `MaxStrDigits` digits, so `str()` writes it. */
  lemma ParseIntWithinLimit(s: string)
    ensures ParseInt(s).Some? ==> WithinStrLimit(ParseInt(s).value)
  {
    var t := IntStrip(s);
    if ParseInt(s).Some? {
      var d := if |t| > 0 && (t[0] == '-' || t[0] == '+') then t[1..] else t;
      assert IntegerDigits(d) && DigitCount(d) <= MaxStrDigits;
      DigitsValueBound(d);
      assert DigitCount(d) >= 1 by {
        assert d == d[..|d| - 1] + [d[|d| - 1]];
      }
      NatToStringLength(DigitsValue(d), DigitCount(d));
    }
  }

  /** Every 64-bit integer is within the limit. */
  lemma FitsInt64WithinLimit(n: int)
    requires -0x8000_0000_0000_0000 <= n <= 0x7FFF_FFFF_FFFF_FFFF
    ensures WithinStrLimit(n)
  {
    assert Pow10(10) == 10_000_000_000;
    assert Pow10(19) == 10_000_000_000_000_000_000;
    NatToStringLength(if n < 0 then -n else n, 19);
  }

  /** `int()` of the digits of a natural number within the limit gives it back. */
  lemma ParseIntOfNatToString(n: nat)
    requires |NatToString(n)| <= MaxStrDigits
    ensures ParseInt(NatToString(n)) == Some(n)
  {
    NatToStringIsIntegerDigits(n);
    DigitsValueOfNatToString(n);
    DigitCountOfDigits(NatToString(n));
    IntStripUnpadded(NatToString(n));
  }

  /** `int()` of a minus sign followed by the digits of a natural number within the limit
      gives its negation. */
  lemma ParseIntOfNegated(n: int)
    requires n >= 0 && |NatToString(n)| <= MaxStrDigits
    ensures ParseInt("-" + NatToString(n)) == Some(-n)
  {
    var s := "-" + NatToString(n);
    assert s[1..] == NatToString(n);
    NatToStringIsIntegerDigits(n);
    DigitsValueOfNatToString(n);
    DigitCountOfDigits(NatToString(n));
    IntStripUnpadded(s);
  }

  /** `int()` refuses the text of a number beyond the limit. */
  lemma ParseIntOfLongIntToString(n: int)
    requires !WithinStrLimit(n)
    ensures ParseInt(IntToString(n)) == None
  {
    var s := IntToString(n);
    var digits := NatToString(if n < 0 then -n else n);
    IntStripUnpadded(s);
    DigitCountOfDigits(digits);
    if n < 0 {
      assert s[1..] == digits;
    }
  }

  /** `int(str(n)) == n` for every integer `str()` can write, negatives included. */
  lemma ParseIntOfIntToString(n: int)
    requires WithinStrLimit(n)
    ensures ParseInt(IntToString(n)) == Some(n)
  {
    if n < 0 {
      ParseIntOfNegated(-n);
    } else {
      ParseIntOfNatToString(n);
    }
  }

  /** Integer text carries no surrounding whitespace, and one blank put before it is stripped. */
  lemma StripOfIntToString(n: int)
    ensures Strip(IntToString(n)) == IntToString(n)
    ensures Strip(" " + IntToString(n)) == IntToString(n)
  {
    var s := IntToString(n);
    assert !IsSpace(s[0]) && !IsSpace(s[|s| - 1]);
    assert StripLeft(s) == s;
    assert (" " + s)[1..] == s;
    assert StripLeft(" " + s) == s;
  }

  /** `int()` ignores one leading blank, so `int(" " + str(n)) == n`. */
  lemma ParseIntOfSpacedIntToString(n: int)
    requires WithinStrLimit(n)
    ensures ParseInt(" " + IntToString(n)) == Some(n)
  {
    var s := IntToString(n);
    assert (" " + s)[1..] == s;
    assert IntStripLeft(" " + s) == IntStripLeft(s);
    IntStripUnpadded(s);
    ParseIntOfIntToString(n);
  }

  /** `int()` does not skip the separators U+001C to U+001F that `strip()` removes:
      `int("\x1c5")` and `int("5\x1f")` raise, while `int(" 5\n")` is 5. */
  lemma ParseIntRefusesSeparators()
    ensures Strip("\U{1C}5") == "5" && ParseInt("\U{1C}5") == None
    ensures Strip("5\U{1F}") == "5" && ParseInt("5\U{1F}") == None
    ensures ParseInt(" 5\n") == Some(5)
  {
    assert StripLeft("\U{1C}5") == StripLeft("5");
    assert "5\U{1F}"[..1] == "5";
    assert " 5\n"[1..] == "5\n" && "5\n"[..1] == "5";
    assert "5"[..0] == [];
  }

  /** Two integers with the same decimal text are equal. */
  lemma IntToStringInjective(a: int, b: int)
    ensures IntToString(a) == IntToString(b) <==> a == b
  {
    if IntToString(a) == IntToString(b) {
      if a < 0 {
        assert IntToString(a)[1..] == NatToString(-a) && IntToString(b)[1..] == NatToString(-b);
        DigitsValueOfNatToString(-a);
        DigitsValueOfNatToString(-b);
      } else {
        DigitsValueOfNatToString(a);
        DigitsValueOfNatToString(b);
      }
    }
  }

  /** Integer text contains no letter other than digits and a leading minus sign. */
  lemma IntToStringAvoids(n: int, c: char)
    requires !IsDigit(c) && c != '-'
    ensures Avoids(IntToString(n), c)
  {
  }

  /** Splitting text in which the separator's first character never occurs gives one piece. */
  lemma {:induction false} SplitWithoutSeparator(s: string, sep: string)
    requires |sep| > 0 && Avoids(s, sep[0])
    ensures Split(s, sep) == [s]
  {
    if |s| >= |sep| {
      assert s[..|sep|][0] == s[0];
      SplitWithoutSeparator(s[1..], sep);
      assert [s[0]] + s[1..] == s;
    }
  }

  /** The first piece of `a + sep + b` is `a` when `a` holds no character starting `sep`;
      the remaining pieces are those of `b`. */
  lemma {:induction false} SplitAfterFirst(a: string, sep: string, b: string)
    requires |sep| > 0 && Avoids(a, sep[0])
    ensures Split(a + sep + b, sep) == [a] + Split(b, sep)
    decreases |a|
  {
    var s := a + sep + b;
    if a == [] {
      assert s[..|sep|] == sep;
      assert s[|sep|..] == b;
    } else {
      assert s[..|sep|][0] == a[0];
      assert s[1..] == a[1..] + sep + b;
      SplitAfterFirst(a[1..], sep, b);
      assert [a[0]] + a[1..] == a;
    }
  }

  /** Three pieces free of the separator's first character, joined by it, split back. */
  lemma SplitThree(a: string, b: string, c: string, sep: string)
    requires |sep| > 0 && Avoids(a, sep[0]) && Avoids(b, sep[0]) && Avoids(c, sep[0])
    ensures Split(a + sep + b + sep + c, sep) == [a, b, c]
  {
    assert a + sep + b + sep + c == a + sep + (b + sep + c);
    SplitAfterFirst(a, sep, b + sep + c);
    SplitAfterFirst(b, sep, c);
    SplitWithoutSeparator(c, sep);
  }

  /** Four pieces free of the separator's first character, joined by it, split back. */
  lemma SplitFour(a: string, b: string, c: string, d: string, sep: string)
    requires |sep| > 0 && Avoids(a, sep[0]) && Avoids(b, sep[0]) && Avoids(c, sep[0]) && Avoids(d, sep[0])
    ensures Split(a + sep + b + sep + c + sep + d, sep) == [a, b, c, d]
  {
    var rest := b + sep + c + sep + d;
    assert a + sep + b + sep + c + sep + d == a + sep + rest;
    SplitAfterFirst(a, sep, rest);
    SplitThree(b, c, d, sep);
    assert [a] + [b, c, d] == [a, b, c, d];
  }

  lemma JoinPushFront(c: char, parts: seq<string>, sep: string)
    requires |parts| >= 1
    ensures Join([[c] + parts[0]] + parts[1..], sep) == [c] + Join(parts, sep)
  {
    var q := [[c] + parts[0]] + parts[1..];
    if |parts| > 1 {
      assert q[1..] == parts[1..];
    }
  }

  /** Joining the pieces with the separator gives back the text: splitting loses nothing. */
  lemma {:induction false} JoinSplit(s: string, sep: string)
    requires |sep| > 0
    ensures Join(Split(s, sep), sep) == s
    decreases |s|
  {
    if |s| < |sep| {
    } else if s[..|sep|] == sep {
      var rest := Split(s[|sep|..], sep);
      var parts := [""] + rest;
      assert Split(s, sep) == parts;
      JoinSplit(s[|sep|..], sep);
      assert parts[1..] == rest;
      assert s == s[..|sep|] + s[|sep|..];
    } else {
      var rest := Split(s[1..], sep);
      assert Split(s, sep) == [[s[0]] + rest[0]] + rest[1..];
      JoinSplit(s[1..], sep);
      JoinPushFront(s[0], rest, sep);
      assert s == [s[0]] + s[1..];
    }
  }
}
