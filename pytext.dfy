/** The pieces of Python's string handling that the coincidence-file reader
    relies on: `str.strip()`, `"%02d"` formatting, `str.partition(" ")` and
    `int(str)` in base ten. */
module PyText {
  datatype Option<T> = None | Some(value: T)

  /** `str.isspace()` for one character. */
  predicate IsSpace(ch: char) {
    ch == ' ' || ('\t' <= ch <= '\r') || ('\U{1C}' <= ch <= '\U{1F}')
    || ch == '\U{85}' || ch == '\U{A0}' || ch == '\U{1680}'
    || ('\U{2000}' <= ch <= '\U{200A}') || ch == '\U{2028}' || ch == '\U{2029}'
    || ch == '\U{202F}' || ch == '\U{205F}' || ch == '\U{3000}'
  }

  predicate AllSpace(s: string) { forall i :: 0 <= i < |s| ==> IsSpace(s[i]) }

  predicate IsDigit(ch: char) { '0' <= ch <= '9' }

  lemma DigitIsNotSpace(ch: char)
    requires IsDigit(ch)
    ensures !IsSpace(ch) && ch != '_' && ch != ' ' && ch != '-' && ch != '+'
  {
  }

  predicate AllDigits(s: string) { forall i :: 0 <= i < |s| ==> IsDigit(s[i]) }

  /** The number of whitespace characters at the start of `s`. */
  function Lead(s: string): (k: nat)
    ensures k <= |s| && forall i :: 0 <= i < k ==> IsSpace(s[i])
    ensures k == |s| || !IsSpace(s[k])
  {
    if s != [] && IsSpace(s[0]) then 1 + Lead(s[1..]) else 0
  }

  /** The number of whitespace characters at the end of `s`. */
  function Trail(s: string): (k: nat)
    ensures k <= |s| && forall i :: |s| - k <= i < |s| ==> IsSpace(s[i])
    ensures k == |s| || !IsSpace(s[|s| - k - 1])
  {
    if s != [] && IsSpace(s[|s| - 1]) then 1 + Trail(s[..|s| - 1]) else 0
  }

  /** `s.strip()`: `s` with the whitespace cut from both ends. */
  function Strip(s: string): (r: string)
    ensures Lead(s) + |r| <= |s| && r == s[Lead(s)..Lead(s) + |r|]
    ensures forall i :: 0 <= i < Lead(s) ==> IsSpace(s[i])
    ensures forall i :: Lead(s) + |r| <= i < |s| ==> IsSpace(s[i])
    ensures r == [] || (!IsSpace(r[0]) && !IsSpace(r[|r| - 1]))
  {
    var k := Lead(s);
    if k == |s| then []
    else
      var t := Trail(s);
      assert !IsSpace(s[k]) && k < |s| - t;
      s[k..|s| - t]
  }

  // ---------------------------------------------------------------------------
  // Decimal digits.

  function DigitChar(d: nat): char
    requires d < 10
  {
    (d + '0' as int) as char
  }

  function DigitValue(ch: char): nat
    requires IsDigit(ch)
  {
    ch as int - '0' as int
  }

  /** The value of a string of decimal digits (zero for the empty string). */
  function DigitsValue(s: string): nat
    requires AllDigits(s)
  {
    if s == [] then 0 else 10 * DigitsValue(s[..|s| - 1]) + DigitValue(s[|s| - 1])
  }

  /** The decimal digits of n >= 0, as `"%d" % n` writes them; `"%02d"` pads them. */
  function Dec(n: nat): string {
    if n < 10 then [DigitChar(n)] else Dec(n / 10) + [DigitChar(n % 10)]
  }

  /** The `0` flag of a `%` conversion: zeros in front until the field is `width` wide. */
  function ZeroPad(s: string, width: nat): string
    decreases width - |s|
  {
    if |s| >= width then s else ZeroPad("0" + s, width)
  }

  /** `"%02d" % n` for n >= 0: the decimal digits, padded with zeros to width two. */
  function Pad2(n: nat): string {
    ZeroPad(Dec(n), 2)
  }

  /** The channel-pair tag `"%02d_%02d" % (c1, c2)`. */
  function Tag(c1: nat, c2: nat): string
  {
    Pad2(c1) + "_" + Pad2(c2)
  }

  /** Splitting a tag at its first `_` gives back the two padded channel numbers. */
  lemma TagSplit(c1: nat, c2: nat)
    ensures SplitFirst(Tag(c1, c2), '_') == (Pad2(c1), Pad2(c2))
  {
    Pad2Digits(c1);
    DigitsAreNotSeparators(Pad2(c1));
    SplitFirstJoin(Pad2(c1), Pad2(c2), '_');
  }

  /** `"%d"` writes at least one digit, and two or more exactly from 10 on. */
  lemma {:induction false} DecDigits(n: nat)
    ensures |Dec(n)| >= 1 && AllDigits(Dec(n))
    ensures n >= 10 <==> |Dec(n)| >= 2
  {
    if n >= 10 {
      DecDigits(n / 10);
    }
  }

  /** A leading zero does not change the value of a digit string. */
  lemma {:induction false} LeadingZero(s: string)
    requires AllDigits(s)
    ensures AllDigits("0" + s) && DigitsValue("0" + s) == DigitsValue(s)
    decreases |s|
  {
    if s != [] {
      var t := "0" + s;
      assert t[..|t| - 1] == "0" + s[..|s| - 1];
      LeadingZero(s[..|s| - 1]);
    }
  }

  /** Zero padding leaves a digit string the field width (or longer) and its value unchanged. */
  lemma {:induction false} ZeroPadDigits(s: string, width: nat)
    requires AllDigits(s)
    ensures |ZeroPad(s, width)| == if |s| >= width then |s| else width
    ensures AllDigits(ZeroPad(s, width)) && DigitsValue(ZeroPad(s, width)) == DigitsValue(s)
    decreases width - |s|
  {
    if |s| < width {
      LeadingZero(s);
      ZeroPadDigits("0" + s, width);
    }
  }

  /** Reading back the digits `"%d"` writes gives the number. */
  lemma {:induction false} DecValue(n: nat)
    ensures AllDigits(Dec(n)) && DigitsValue(Dec(n)) == n
  {
    DecDigits(n);
    if n >= 10 {
      DecValue(n / 10);
      var s := Dec(n);
      assert s[..|s| - 1] == Dec(n / 10);
    }
  }

  /** `"%02d"` writes at least two digits. */
  lemma Pad2Digits(n: nat)
    ensures |Pad2(n)| >= 2 && AllDigits(Pad2(n))
  {
    DecDigits(n);
    ZeroPadDigits(Dec(n), 2);
  }

  /** Reading back the digits `"%02d"` writes gives the number: the padding is harmless. */
  lemma Pad2Value(n: nat)
    ensures AllDigits(Pad2(n)) && DigitsValue(Pad2(n)) == n
  {
    DecValue(n);
    ZeroPadDigits(Dec(n), 2);
  }

  lemma Pad2Injective(a: nat, b: nat)
    requires Pad2(a) == Pad2(b)
    ensures a == b
  {
    Pad2Value(a);
    Pad2Value(b);
  }

  /** The text before the first `ch` in `s` and the text after it (all of `s`
      and "" when `ch` does not occur). */
  function SplitFirst(s: string, ch: char): (r: (string, string))
    ensures ch !in r.0
    ensures (ch in s && s == r.0 + [ch] + r.1) || (ch !in s && r == (s, ""))
  {
    if s == [] then ("", "")
    else if s[0] == ch then ("", s[1..])
    else
      var p := SplitFirst(s[1..], ch);
      assert s == [s[0]] + s[1..];
      ([s[0]] + p.0, p.1)
  }

  /** Splitting at the first `ch` undoes joining around one `ch`. */
  lemma {:induction false} SplitFirstJoin(x: string, y: string, ch: char)
    requires ch !in x
    ensures SplitFirst(x + [ch] + y, ch) == (x, y)
  {
    var s := x + [ch] + y;
    if x != [] {
      assert s[0] == x[0] && s[1..] == x[1..] + [ch] + y;
      SplitFirstJoin(x[1..], y, ch);
      assert x == [x[0]] + x[1..];
    } else {
      assert s[1..] == y;
    }
  }

  lemma DigitsAreNotSeparators(s: string)
    requires AllDigits(s)
    ensures '_' !in s && ' ' !in s
  {
    assert forall i | 0 <= i < |s| :: s[i] != '_' && s[i] != ' ';
  }

  /** Different channel pairs get different tags. */
  lemma TagInjective(a: nat, b: nat, c: nat, d: nat)
    requires Tag(a, b) == Tag(c, d)
    ensures a == c && b == d
  {
    TagSplit(a, b);
    TagSplit(c, d);
    Pad2Injective(a, c);
    Pad2Injective(b, d);
  }

  /** A tag starts and ends with a digit, holds a `_` and no space. */
  lemma TagShape(c1: nat, c2: nat)
    ensures |Tag(c1, c2)| >= 5 && IsDigit(Tag(c1, c2)[0]) && IsDigit(Tag(c1, c2)[|Tag(c1, c2)| - 1])
    ensures '_' in Tag(c1, c2) && ' ' !in Tag(c1, c2)
  {
    var a, b := Pad2(c1), Pad2(c2);
    Pad2Digits(c1);
    Pad2Digits(c2);
    DigitsAreNotSeparators(a);
    DigitsAreNotSeparators(b);
    var t := Tag(c1, c2);
    assert t == a + "_" + b;
    assert t[0] == a[0] && t[|t| - 1] == b[|b| - 1] && t[|a|] == '_';
  }

  // ---------------------------------------------------------------------------
  // int(str), base ten.

  /** Digits with single underscores between them: `digit (["_"] digit)*`. */
  predicate DigitGroups(b: string) {
    |b| >= 1 && IsDigit(b[0]) && DigitsOrSeparators(b)
    && forall i :: 0 <= i < |b| && b[i] == '_' ==> i + 1 < |b| && IsDigit(b[i + 1])
  }

  predicate DigitsOrSeparators(b: string) {
    forall i :: 0 <= i < |b| ==> IsDigit(b[i]) || b[i] == '_'
  }

  function DropUnderscores(b: string): (r: string)
    requires DigitsOrSeparators(b)
    ensures AllDigits(r) && |r| <= |b|
  {
    if b == [] then []
    else if b[|b| - 1] == '_' then DropUnderscores(b[..|b| - 1])
    else DropUnderscores(b[..|b| - 1]) + [b[|b| - 1]]
  }

  /** The value of digit groups without a sign; None when `b` is not one. */
  function Unsigned(b: string): (r: Option<int>)
    ensures r.Some? ==> r.value >= 0
  {
    if DigitGroups(b) then Some(DigitsValue(DropUnderscores(b))) else None
  }

  function Negated(r: Option<int>): Option<int> {
    if r.Some? then Some(-r.value) else None
  }

  /** `int(s)`: surrounding whitespace is ignored, an optional sign, then digit
      groups; anything else is a ValueError (None). */
  function PyInt(s: string): (r: Option<int>)
    ensures r.Some? ==> exists i :: 0 <= i < |s| && IsDigit(s[i])
  {
    var t := Strip(s);
    if t == [] then None
    else if t[0] == '-' || t[0] == '+' then
      var u := Unsigned(t[1..]);
      assert u.Some? ==> IsDigit(s[Lead(s) + 1]);
      if t[0] == '-' then Negated(u) else u
    else
      assert Unsigned(t).Some? ==> IsDigit(s[Lead(s)]);
      Unsigned(t)
  }

  /** `strip` drops trailing whitespace, such as the newline a file line ends with. */
  lemma StripTrailing(s: string, w: string)
    requires s != [] && !IsSpace(s[0]) && !IsSpace(s[|s| - 1]) && AllSpace(w)
    ensures Strip(s + w) == s
  {
    var l := s + w;
    var r := Strip(l);
    assert Lead(l) == 0;
    assert l[|s| - 1] == s[|s| - 1];
    assert |r| >= |s|;
    assert r != [] && r[|r| - 1] == l[|r| - 1];
    assert |r| <= |s|;
    assert r == l[..|s|] == s;
  }

  /** `strip` leaves something exactly when the string holds a non-space character. */
  lemma StripEmpty(s: string)
    ensures |Strip(s)| >= 1 <==> exists i :: 0 <= i < |s| && !IsSpace(s[i])
  {
    if |Strip(s)| >= 1 {
      assert !IsSpace(s[Lead(s)]);
    }
  }

  lemma StripNoSpace(s: string)
    requires s == [] || (!IsSpace(s[0]) && !IsSpace(s[|s| - 1]))
    ensures Strip(s) == s
  {
    if s != [] {
      assert Lead(s) == 0;
      assert Trail(s) == 0;
    }
  }

  lemma {:induction false} DropUnderscoresDigits(s: string)
    requires AllDigits(s)
    ensures DropUnderscores(s) == s
  {
    if s != [] {
      var p, d := s[..|s| - 1], s[|s| - 1];
      DigitIsNotSpace(d);
      assert AllDigits(p);
      DropUnderscoresDigits(p);
      assert s == p + [d];
    }
  }

  /** `int` of an unsigned digit string with nothing around it. */
  lemma PyIntUnsigned(t: string)
    requires DigitGroups(t) && !IsSpace(t[|t| - 1])
    ensures PyInt(t) == Some(DigitsValue(DropUnderscores(t)) as int)
  {
    DigitIsNotSpace(t[0]);
    StripNoSpace(t);
  }

  lemma StripNegative(t: string)
    requires |t| >= 1 && !IsSpace(t[|t| - 1])
    ensures Strip("-" + t) == "-" + t
  {
    var s := "-" + t;
    assert s[|s| - 1] == t[|t| - 1];
    StripNoSpace(s);
  }

  lemma PyIntMinus(t: string)
    requires Strip("-" + t) == "-" + t
    ensures PyInt("-" + t) == Negated(Unsigned(t))
  {
    var s := "-" + t;
    assert s[0] == '-' && s[1..] == t;
  }

  /** `int` of a negative digit string with nothing around it. */
  lemma PyIntNegative(t: string, v: int)
    requires DigitGroups(t) && !IsSpace(t[|t| - 1]) && DigitsValue(DropUnderscores(t)) == v
    ensures PyInt("-" + t) == Some(-v)
  {
    StripNegative(t);
    PyIntMinus(t);
    NegatedUnsigned(t, v);
  }

  lemma NegatedUnsigned(t: string, v: int)
    requires DigitGroups(t) && DigitsValue(DropUnderscores(t)) == v
    ensures Negated(Unsigned(t)) == Some(-v)
  {
  }

  lemma DigitsGroups(d: string)
    requires |d| >= 1 && AllDigits(d)
    ensures DigitGroups(d) && DropUnderscores(d) == d && !IsSpace(d[|d| - 1])
  {
    DropUnderscoresDigits(d);
    DigitIsNotSpace(d[|d| - 1]);
  }

  /** `int` of a plain digit string is its value... */
  lemma PyIntDigits(d: string)
    requires |d| >= 1 && AllDigits(d)
    ensures PyInt(d) == Some(DigitsValue(d) as int)
  {
    DigitsGroups(d);
    PyIntUnsigned(d);
  }

  /** ... and with a minus sign in front, minus its value. */
  lemma PyIntNegDigits(d: string, v: int)
    requires |d| >= 1 && AllDigits(d) && DigitsValue(d) == v
    ensures PyInt("-" + d) == Some(-v)
  {
    DigitsGroups(d);
    PyIntNegative(d, v);
  }

  /** `int` reads back what `"%d"` writes. */
  lemma PyIntDec(n: nat)
    ensures PyInt(Dec(n)) == Some(n as int)
  {
    DecDigits(n);
    DecValue(n);
    PyIntDigits(Dec(n));
  }

  /** ... and what `"-%d"` writes. */
  lemma PyIntNegDec(n: nat)
    ensures PyInt("-" + Dec(n)) == Some(-(n as int))
  {
    DecDigits(n);
    DecValue(n);
    PyIntNegDigits(Dec(n), n);
  }

  /** `int` accepts an underscore between two digit groups and ignores it. */
  lemma PyIntUnderscore(a: nat, b: string)
    requires |b| >= 1 && AllDigits(b)
    ensures PyInt(Dec(a) + "_" + b).Some?
    ensures PyInt(Dec(a) + "_" + b) == PyInt(Dec(a) + b)
  {
    DecDigits(a);
    var d := Dec(a);
    UnderscoreGroups(d, b);
    DropUnderscoresConcat(d, b);
    PyIntUnsigned(d + "_" + b);
    PyIntDigits(d + b);
  }

  /** Two digit strings joined by `_` are digit groups; joined directly, digits. */
  lemma UnderscoreGroups(d: string, b: string)
    requires |d| >= 1 && AllDigits(d) && |b| >= 1 && AllDigits(b)
    ensures DigitGroups(d + "_" + b) && !IsSpace((d + "_" + b)[|d + "_" + b| - 1])
    ensures |d + b| >= 1 && AllDigits(d + b)
  {
    var s := d + "_" + b;
    assert s[|s| - 1] == b[|b| - 1];
    DigitIsNotSpace(b[|b| - 1]);
    assert forall i :: 0 <= i < |s| ==> s[i] == if i < |d| then d[i] else if i == |d| then '_' else b[i - |d| - 1];
    assert forall i :: 0 <= i < |d + b| ==> (d + b)[i] == if i < |d| then d[i] else b[i - |d|];
  }

  lemma {:induction false} DropUnderscoresConcat(d: string, b: string)
    requires AllDigits(d) && AllDigits(b)
    ensures DropUnderscores(d + "_" + b) == d + b
    decreases |b|
  {
    if b == [] {
      var s := d + "_";
      assert d + "_" + b == s;
      assert s[|s| - 1] == '_' && s[..|s| - 1] == d;
      DropUnderscoresDigits(d);
    } else {
      var s := d + "_" + b;
      assert s[..|s| - 1] == d + "_" + b[..|b| - 1];
      DropUnderscoresConcat(d, b[..|b| - 1]);
      assert d + b == (d + b[..|b| - 1]) + [b[|b| - 1]];
    }
  }

  // ---------------------------------------------------------------------------
  // str.partition(" ").

  /** `s.partition(" ")` without its middle part: the text before the first
      space and the text after it (all of `s` and "" when there is no space). */
  function Partition(s: string): (r: (string, string))
    ensures ' ' !in r.0
    ensures (' ' in s && s == r.0 + " " + r.1) || (' ' !in s && r == (s, ""))
  {
    SplitFirst(s, ' ')
  }

  lemma PartitionOfJoin(x: string, y: string)
    requires ' ' !in x
    ensures Partition(x + " " + y) == (x, y)
  {
    SplitFirstJoin(x, y, ' ');
  }
}
