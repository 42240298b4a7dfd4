/**
 * The parts of the C library that the demo uses to read numbers: sscanf with a
 * format of %d conversions separated by one literal character ("%d:%d",
 * "%dx%dx%d"), and strtol in base 10. Both skip leading white space and then
 * read an optional sign followed by at least one decimal digit.
 */
module CScan {
  import opened Wrappers
  import opened Decimal

  /** isspace in the C locale: space, \t, \n, \v, \f and \r. */
  predicate IsSpace(c: char) {
    c == ' ' || 9 <= c as int <= 13
  }

  /** The input after its leading white space. */
  function SkipSpace(s: string): (t: string)
    ensures |t| <= |s|
    ensures t == [] || !IsSpace(t[0])
  {
    if s != [] && IsSpace(s[0]) then SkipSpace(s[1..]) else s
  }

  /** SkipSpace drops exactly the white space at the front: what it returns is a suffix, and all it dropped is space. */
  lemma {:induction false} SkipSpaceDropsSpace(s: string)
    ensures var t := SkipSpace(s);
      t == s[|s| - |t|..] && forall i :: 0 <= i < |s| - |t| ==> IsSpace(s[i])
  {
    if s != [] && IsSpace(s[0]) {
      SkipSpaceDropsSpace(s[1..]);
      var t := SkipSpace(s);
      assert forall i :: 1 <= i < |s| - |t| ==> s[i] == s[1..][i - 1];
    }
  }

  /** Length of the run of decimal digits at the start of s. */
  function DigitRun(s: string): (n: nat)
    ensures n <= |s| && AllDigits(s[..n]) && (n == |s| || !IsDigit(s[n]))
  {
    if s != [] && IsDigit(s[0]) then 1 + DigitRun(s[1..]) else 0
  }

  datatype Scanned = Scanned(value: int, rest: string)

  /** The longest run of digits at the start of s, which must not be empty; None is a matching failure. */
  function ScanUnsigned(s: string): (r: Option<Scanned>)
    ensures r.Some? ==> r.value.value >= 0 && |r.value.rest| < |s|
  {
    var n := DigitRun(s);
    if n == 0 then None else Some(Scanned(DigitsValue(s[..n]), s[n..]))
  }

  /**
   * One integer at the start of s, which has no leading white space: an
   * optional '+' or '-', then an unsigned run of digits.
   */
  function ScanInt(s: string): (r: Option<Scanned>)
    ensures r.Some? ==> |r.value.rest| < |s|
  {
    if s != [] && s[0] == '-' then
      match ScanUnsigned(s[1..])
      case None => None
      case Some(x) => Some(Scanned(-x.value, x.rest))
    else if s != [] && s[0] == '+' then ScanUnsigned(s[1..])
    else ScanUnsigned(s)
  }

  /** What sscanf returns: EOF (-1) or how many conversions it made, and their values. */
  datatype ScanResult = ScanResult(count: int, values: seq<int>)

  /**
   * sscanf(s, format, ...) where format is n %d conversions separated by the
   * character sep. Input that ends before the first conversion gives EOF; a
   * separator must be the very next character; scanning stops at the first
   * directive that fails.
   */
  function SScanf(s: string, sep: char, n: nat): (r: ScanResult)
    requires n >= 1
    ensures r.count == -1 <==> SkipSpace(s) == []
    ensures r.count == -1 ==> r.values == []
    ensures r.count >= 0 ==> r.count == |r.values| <= n
  {
    var t := SkipSpace(s);
    if t == [] then ScanResult(-1, [])
    else
      match ScanInt(t)
      case None => ScanResult(0, [])
      case Some(first) =>
        var more := ScanMore(first.rest, sep, n - 1);
        ScanResult(1 + |more|, [first.value] + more)
  }

  /** The conversions after the first: each is the separator, then white space, then an integer. */
  function ScanMore(s: string, sep: char, n: nat): (vs: seq<int>)
    ensures |vs| <= n
    decreases n
  {
    if n == 0 || s == [] || s[0] != sep then []
    else
      match ScanInt(SkipSpace(s[1..]))
      case None => []
      case Some(x) => [x.value] + ScanMore(x.rest, sep, n - 1)
  }

  /** strtol(s, &end, 10); None when it reads no digits, i.e. when end == s. */
  function StrToL(s: string): (r: Option<int>)
    ensures r.Some? <==> ScanInt(SkipSpace(s)).Some?
  {
    match ScanInt(SkipSpace(s))
    case None => None
    case Some(x) => Some(x.value)
  }

  /** The decimal text of an integer, with a '-' for a negative one. */
  function IntToString(i: int): string {
    if i < 0 then "-" + NatToString(-i) else NatToString(i)
  }

  lemma {:induction false} DigitRunOfDigits(a: string, b: string)
    requires AllDigits(a) && (b == [] || !IsDigit(b[0]))
    ensures DigitRun(a + b) == |a|
  {
    if a != [] {
      assert (a + b)[1..] == a[1..] + b;
      DigitRunOfDigits(a[1..], b);
    } else {
      assert a + b == b;
    }
  }

  /** A non-empty run of digits, before anything that is not a digit, scans to its value. */
  lemma {:induction false} ScanDigits(digits: string, rest: string)
    requires digits != [] && AllDigits(digits) && (rest == [] || !IsDigit(rest[0]))
    ensures ScanUnsigned(digits + rest) == Some(Scanned(DigitsValue(digits), rest))
    ensures ScanInt(digits + rest) == Some(Scanned(DigitsValue(digits), rest))
  {
    var s := digits + rest;
    assert s[0] == digits[0] && IsDigit(s[0]);
    ScanUnsignedDigits(digits, rest);
  }

  lemma {:induction false} ScanUnsignedDigits(digits: string, rest: string)
    requires digits != [] && AllDigits(digits) && (rest == [] || !IsDigit(rest[0]))
    ensures ScanUnsigned(digits + rest) == Some(Scanned(DigitsValue(digits), rest))
  {
    var s := digits + rest;
    DigitRunOfDigits(digits, rest);
    assert s[..|digits|] == digits && s[|digits|..] == rest;
  }

  /** The same run after a '-' scans to the negated value. */
  lemma {:induction false} ScanNegDigits(digits: string, rest: string)
    requires digits != [] && AllDigits(digits) && (rest == [] || !IsDigit(rest[0]))
    ensures ScanInt("-" + digits + rest) == Some(Scanned(-(DigitsValue(digits) as int), rest))
  {
    Regroup3("-", digits, rest);
    ScanUnsignedDigits(digits, rest);
    NegateScanned("-" + digits + rest, digits + rest, DigitsValue(digits), rest);
  }

  lemma {:induction false} NegateScanned(s: string, body: string, v: int, rest: string)
    requires s == "-" + body && ScanUnsigned(body) == Some(Scanned(v, rest))
    ensures ScanInt(s) == Some(Scanned(-v, rest))
  {
    ScanMinus(body);
  }

  lemma {:induction false} Regroup3(a: string, b: string, c: string)
    ensures a + b + c == a + (b + c)
  {
  }

  /** A '-' negates what the rest scans to. */
  lemma {:induction false} ScanMinus(body: string)
    ensures var r := ScanUnsigned(body);
      ScanInt("-" + body) == if r.None? then None else Some(Scanned(-r.value.value, r.value.rest))
  {
    assert ("-" + body)[1..] == body;
  }

  /** An integer's text, before anything that is not a digit, scans back to that integer. */
  lemma {:induction false} ScanIntToString(i: int, rest: string)
    requires rest == [] || !IsDigit(rest[0])
    ensures ScanInt(IntToString(i) + rest) == Some(Scanned(i, rest))
  {
    if i < 0 {
      var m: nat := -i;
      var digits := NatToString(m);
      NatToStringValue(m);
      assert IntToString(i) == "-" + digits;
      ScanNegDigits(digits, rest);
    } else {
      var digits := NatToString(i);
      NatToStringValue(i);
      assert IntToString(i) == digits;
      ScanDigits(digits, rest);
    }
  }

  /** A text that starts with a digit or a sign has no white space to skip. */
  lemma {:induction false} SkipNoSpace(s: string)
    requires s != [] && (IsDigit(s[0]) || s[0] == '-')
    ensures SkipSpace(s) == s
  {
  }

  /** The texts of the integers vs, one separator between each two: what a "%d<sep>%d..." format reads. */
  function Joined(vs: seq<int>, sep: char): (s: string)
    requires |vs| >= 1
    ensures s != [] && (IsDigit(s[0]) || s[0] == '-')
    decreases |vs|
  {
    if |vs| == 1 then IntToString(vs[0]) else IntToString(vs[0]) + ([sep] + Joined(vs[1..], sep))
  }

  /** sscanf converts an integer's text first and then goes on after it. */
  lemma {:induction false} ScanFirst(i: int, sep: char, t: string, rest: string, n: nat, m: nat)
    requires n == m + 1 && t == IntToString(i) + rest && (rest == [] || !IsDigit(rest[0]))
    ensures var more := ScanMore(rest, sep, m);
      SScanf(t, sep, n) == ScanResult(1 + |more|, [i] + more)
  {
    SkipNoSpace(t);
    ScanIntToString(i, rest);
  }

  /** A separator and an integer's text make one more conversion. */
  lemma {:induction false} ScanNext(j: int, sep: char, t: string, rest: string, n: nat, m: nat)
    requires n == m + 1 && t == IntToString(j) + rest && (rest == [] || !IsDigit(rest[0]))
    ensures ScanMore([sep] + t, sep, n) == [j] + ScanMore(rest, sep, m)
  {
    assert ([sep] + t)[1..] == t;
    SkipNoSpace(t);
    ScanIntToString(j, rest);
  }

  /** What may follow the last number without being read as part of the format. */
  predicate EndsScan(rest: string, sep: char) {
    rest == [] || (!IsDigit(rest[0]) && rest[0] != sep)
  }

  /** Regrouping the text after the first number of a joined list. */
  lemma {:induction false} JoinedRest(vs: seq<int>, sep: char, rest: string)
    requires |vs| >= 2
    ensures Joined(vs, sep) + rest == IntToString(vs[0]) + ([sep] + (Joined(vs[1..], sep) + rest))
  {
    assert Joined(vs, sep) == IntToString(vs[0]) + ([sep] + Joined(vs[1..], sep));
    Regroup(IntToString(vs[0]), [sep], Joined(vs[1..], sep), rest);
  }

  lemma {:induction false} Regroup(a: string, b: string, c: string, d: string)
    ensures (a + (b + c)) + d == a + (b + (c + d))
  {
  }

  lemma {:induction false} ConsSplit(vs: seq<int>)
    requires |vs| >= 1
    ensures [vs[0]] + vs[1..] == vs
  {
  }

  lemma {:induction false} ScanMoreJoined(vs: seq<int>, sep: char, rest: string, n: nat)
    requires 1 <= |vs| <= n && !IsDigit(sep) && EndsScan(rest, sep)
    ensures ScanMore([sep] + (Joined(vs, sep) + rest), sep, n) == vs
    decreases |vs|
  {
    var t := Joined(vs, sep) + rest;
    var m: nat := n - 1;
    if |vs| == 1 {
      ScanNext(vs[0], sep, t, rest, n, m);
      assert ScanMore(rest, sep, m) == [] == vs[1..];
    } else {
      var tail := [sep] + (Joined(vs[1..], sep) + rest);
      JoinedRest(vs, sep, rest);
      ScanNext(vs[0], sep, t, tail, n, m);
      ScanMoreJoined(vs[1..], sep, rest, m);
    }
    ConsSplit(vs);
  }

  /**
   * The round trip of the scanner: the texts of at most n integers, joined by
   * the separator, convert to those integers in order.
   */
  lemma {:induction false} ScanJoined(vs: seq<int>, sep: char, rest: string, n: nat)
    requires 1 <= |vs| <= n && !IsDigit(sep) && EndsScan(rest, sep)
    ensures SScanf(Joined(vs, sep) + rest, sep, n) == ScanResult(|vs|, vs)
  {
    var t := Joined(vs, sep) + rest;
    var m: nat := n - 1;
    if |vs| == 1 {
      ScanFirst(vs[0], sep, t, rest, n, m);
      assert ScanMore(rest, sep, m) == [] == vs[1..];
    } else {
      var tail := [sep] + (Joined(vs[1..], sep) + rest);
      JoinedRest(vs, sep, rest);
      ScanFirst(vs[0], sep, t, tail, n, m);
      ScanMoreJoined(vs[1..], sep, rest, m);
    }
    ConsSplit(vs);
  }

  /** strtol reads back the text of an integer. */
  lemma {:induction false} StrToLToString(i: int, rest: string)
    requires rest == [] || !IsDigit(rest[0])
    ensures StrToL(IntToString(i) + rest) == Some(i)
  {
    SkipNoSpace(IntToString(i) + rest);
    ScanIntToString(i, rest);
  }

  /** Text with no digit right after the optional sign converts nothing. */
  lemma {:induction false} ScanNoDigits(s: string, sep: char, n: nat)
    requires n >= 1 && s != [] && !IsSpace(s[0]) && !IsDigit(s[0])
    requires s[0] == '-' || s[0] == '+' ==> |s| == 1 || !IsDigit(s[1])
    ensures SScanf(s, sep, n) == ScanResult(0, []) && StrToL(s) == None
  {
  }
}
