/** PHP's conversions between strings and 64-bit integers: intval() / (int) and the decimal form of an int. */
module PhpInt {

  const PHP_INT_MAX: int := 0x7FFF_FFFF_FFFF_FFFF
  const PHP_INT_MIN: int := -PHP_INT_MAX - 1

  predicate IsDigit(c: char)
  {
    '0' <= c <= '9'
  }

  predicate AllDigits(s: string)
  {
    forall i :: 0 <= i < |s| ==> IsDigit(s[i])
  }

  /** The white space PHP allows in front of a numeric string: " ", "\t", "\n", "\r", "\v" and "\f". */
  predicate IsNumericSpace(c: char)
  {
    c == ' ' || c == '\t' || c == '\n' || c == '\r' || c as int == 11 || c as int == 12
  }

  /** The string after its leading numeric white space. */
  function SkipSpaces(s: string): string
  {
    if s != [] && IsNumericSpace(s[0]) then SkipSpaces(s[1..]) else s
  }

  /** The longest prefix of digits. */
  function DigitRun(s: string): string
  {
    if s != [] && IsDigit(s[0]) then [s[0]] + DigitRun(s[1..]) else ""
  }

  /** The digit run is the longest prefix made of digits. */
  lemma {:induction false} DigitRunShape(s: string)
    ensures var r := DigitRun(s);
      && |r| <= |s| && r == s[..|r|] && AllDigits(r)
      && (|r| < |s| ==> !IsDigit(s[|r|]))
  {
    if s != [] && IsDigit(s[0]) {
      DigitRunShape(s[1..]);
    }
  }

  function DigitValue(c: char): nat
  {
    if IsDigit(c) then c as int - '0' as int else 0
  }

  /** The number a run of decimal digits denotes ("" denotes 0). */
  function DigitsValue(d: string): nat
  {
    if d == [] then 0 else DigitsValue(d[..|d| - 1]) * 10 + DigitValue(d[|d| - 1])
  }

  /** A 64-bit PHP integer: out-of-range values stick at PHP_INT_MIN or PHP_INT_MAX. */
  function Saturate(v: int): (n: int)
    ensures PHP_INT_MIN <= n <= PHP_INT_MAX
    ensures PHP_INT_MIN <= v <= PHP_INT_MAX ==> n == v
  {
    if v > PHP_INT_MAX then PHP_INT_MAX else if v < PHP_INT_MIN then PHP_INT_MIN else v
  }

  /** The string after its longest prefix of digits. */
  function AfterDigits(s: string): string
  {
    if s != [] && IsDigit(s[0]) then AfterDigits(s[1..]) else s
  }

  /** m times 10 to the power e, truncated toward zero when e is negative (one decimal place at a time). */
  function Scaled(m: nat, e: int): nat
    decreases if e < 0 then -e else e
  {
    if e == 0 then m else if e > 0 then Scaled(10 * m, e - 1) else Scaled(m / 10, e + 1)
  }

  /** The exponent an `e` or `E` with an optional sign and at least one digit denotes; 0 when there is none. */
  function ExponentValue(s: string): int
  {
    if s != [] && (s[0] == 'e' || s[0] == 'E') then
      var r := s[1..];
      if r != [] && (r[0] == '-' || r[0] == '+') then
        var d := DigitRun(r[1..]);
        if d == "" then 0 else if r[0] == '-' then -(DigitsValue(d) as int) else DigitsValue(d)
      else
        var d := DigitRun(r);
        if d == "" then 0 else DigitsValue(d)
    else 0
  }

  /**
   * The magnitude of the numeric prefix after the sign: digits, then optionally '.' and
   * more digits (one of the two runs non-empty), then an optional exponent; the exact
   * value truncated toward zero. A string with no such prefix gives 0.
   */
  function Magnitude(u: string): nat
  {
    var ip := DigitRun(u);
    var rest := AfterDigits(u);
    if rest != [] && rest[0] == '.' then
      var fp := DigitRun(rest[1..]);
      if ip == "" && fp == "" then 0
      else Scaled(DigitsValue(ip + fp), ExponentValue(AfterDigits(rest[1..])) - |fp|)
    else if ip == "" then 0
    else Scaled(DigitsValue(ip), ExponentValue(rest))
  }

  /**
   * intval($s), which is also (int)$s: leading white space, an optional sign and the
   * numeric prefix, truncated toward zero and held to the 64-bit range; a string with
   * no numeric prefix gives 0.
   */
  function IntVal(s: string): (n: int)
    ensures PHP_INT_MIN <= n <= PHP_INT_MAX
  {
    var t := SkipSpaces(s);
    if t != [] && (t[0] == '-' || t[0] == '+') then
      var v: int := Magnitude(t[1..]);
      Saturate(if t[0] == '-' then -v else v)
    else
      Saturate(Magnitude(t))
  }

  /** Without white space or a sign in front, intval is the saturated magnitude. */
  lemma IntValUnsigned(s: string)
    requires s != [] && !IsNumericSpace(s[0]) && s[0] != '-' && s[0] != '+'
    ensures IntVal(s) == Saturate(Magnitude(s))
  {
    assert SkipSpaces(s) == s;
  }

  /** After a minus sign, intval is the saturated negated magnitude. */
  lemma IntValMinus(u: string)
    ensures IntVal("-" + u) == Saturate(-(Magnitude(u) as int))
  {
    var v := "-" + u;
    assert v[0] == '-' && v[1..] == u;
    assert SkipSpaces(v) == v;
  }

  /** "1e2" denotes 100. */
  lemma MagnitudeOfExponent()
    ensures Magnitude("1e2") == 100
  {
    assert DigitRun("1e2") == "1" && AfterDigits("1e2") == "e2";
    assert DigitRun("2") == "2" && DigitsValue("2") == 2;
    assert ExponentValue("e2") == 2;
  }

  /** ".5e1" denotes 5. */
  lemma MagnitudeOfLeadingDot()
    ensures Magnitude(".5e1") == 5
  {
    assert DigitRun(".5e1") == "" && AfterDigits(".5e1") == ".5e1";
    assert ".5e1"[1..] == "5e1" && DigitRun("5e1") == "5" && AfterDigits("5e1") == "e1";
    assert ExponentValue("e1") == 1;
    assert DigitsValue("" + "5") == 5;
  }

  /** "2e-1" denotes 0.2, which truncates to 0. */
  lemma MagnitudeOfNegativeExponent()
    ensures Magnitude("2e-1") == 0
  {
    assert DigitRun("2e-1") == "2" && AfterDigits("2e-1") == "e-1";
    assert "e-1"[1..] == "-1" && "-1"[1..] == "1";
    assert ExponentValue("e-1") == -1;
  }

  /** A run of digits followed by a non-digit is read up to that non-digit. */
  lemma {:induction false} DigitRunSplit(d: string, r: string)
    requires AllDigits(d)
    requires r == [] || !IsDigit(r[0])
    ensures DigitRun(d + r) == d && AfterDigits(d + r) == r
  {
    if d != [] {
      assert (d + r)[0] == d[0] && (d + r)[1..] == d[1..] + r;
      DigitRunSplit(d[1..], r);
      assert [d[0]] + d[1..] == d;
    }
  }

  /** Dropping |fp| decimal places from the digits ip + fp gives back the number ip denotes. */
  lemma {:induction false} ScaledDropsFraction(ip: string, fp: string)
    ensures Scaled(DigitsValue(ip + fp), -|fp|) == DigitsValue(ip)
  {
    if fp == [] {
      assert ip + fp == ip;
    } else {
      var init := fp[..|fp| - 1];
      var whole := ip + fp;
      assert whole[..|whole| - 1] == ip + init;
      assert DigitsValue(whole) / 10 == DigitsValue(ip + init);
      ScaledDropsFraction(ip, init);
    }
  }

  /** In ip.fp the integer digits run up to the point. */
  lemma PointSplit(ip: string, fp: string)
    requires AllDigits(ip)
    ensures DigitRun(ip + "." + fp) == ip && AfterDigits(ip + "." + fp) == "." + fp
  {
    assert ip + "." + fp == ip + ("." + fp);
    DigitRunSplit(ip, "." + fp);
  }

  /** After the point of ip.fp come the fraction digits and nothing else. */
  lemma FractionSplit(fp: string)
    requires AllDigits(fp)
    ensures var rest := "." + fp; rest[0] == '.' && DigitRun(rest[1..]) == fp && AfterDigits(rest[1..]) == ""
  {
    assert ("." + fp)[1..] == fp;
    DigitRunOfDigits(fp);
    AfterDigitsOfDigits(fp);
  }

  /** The fraction of ip.fp is cut off, whatever its digits: the magnitude is the number ip denotes. */
  lemma MagnitudeTruncates(ip: string, fp: string)
    requires ip != [] && AllDigits(ip) && AllDigits(fp)
    ensures Magnitude(ip + "." + fp) == DigitsValue(ip)
  {
    PointSplit(ip, fp);
    FractionSplit(fp);
    assert ExponentValue("") == 0;
    ScaledDropsFraction(ip, fp);
  }

  /** intval truncates toward zero: the fraction of a positive number is dropped. */
  lemma IntValTruncates(ip: string, fp: string)
    requires ip != [] && AllDigits(ip) && AllDigits(fp)
    ensures IntVal(ip + "." + fp) == Saturate(DigitsValue(ip))
  {
    MagnitudeTruncates(ip, fp);
    var u := ip + "." + fp;
    assert u[0] == ip[0];
    IntValUnsigned(u);
  }

  /** intval truncates toward zero: the fraction of a negative number is dropped too. */
  lemma IntValTruncatesNegative(ip: string, fp: string)
    requires ip != [] && AllDigits(ip) && AllDigits(fp)
    ensures IntVal("-" + (ip + "." + fp)) == Saturate(-(DigitsValue(ip) as int))
  {
    MagnitudeTruncates(ip, fp);
    IntValMinus(ip + "." + fp);
  }

  /** "12abc" is read up to its digits. */
  lemma MagnitudeOfTrailingText()
    ensures Magnitude("12abc") == 12
  {
    assert "12abc" == "12" + "abc";
    DigitRunSplit("12", "abc");
    assert ExponentValue("abc") == 0;
    assert "12"[..1] == "1";
    assert DigitsValue("12") == 12;
  }

  /** Exponent forms, which number fields accept, are read as PHP 7.1 and later read them. */
  lemma IntValExponent()
    ensures IntVal("1e2") == 100
    ensures IntVal(".5e1") == 5
    ensures IntVal("2e-1") == 0
  {
    MagnitudeOfExponent();
    IntValUnsigned("1e2");
    MagnitudeOfLeadingDot();
    IntValUnsigned(".5e1");
    MagnitudeOfNegativeExponent();
    IntValUnsigned("2e-1");
  }

  /** A fraction is cut off, after leading white space too: " 1.9" is 1. */
  lemma IntValFraction()
    ensures IntVal(" 1.9") == 1
  {
    IntValTruncates("1", "9");
    assert "1" + "." + "9" == "1.9";
    assert " 1.9"[1..] == "1.9";
    assert DigitsValue("1") == 1;
  }

  /** A negative fraction is cut off toward zero: "-3.7" is -3. */
  lemma IntValNegativeFraction()
    ensures IntVal("-3.7") == -3
  {
    var u := "3" + "." + "7";
    assert u == "3.7";
    assert "-" + u == "-3.7";
    assert DigitsValue("3") == 3;
    IntValTruncatesNegative("3", "7");
  }

  /** Text after the number is ignored: "12abc" is 12. */
  lemma IntValTrailingText()
    ensures IntVal("12abc") == 12
  {
    MagnitudeOfTrailingText();
    IntValUnsigned("12abc");
  }

  /** The decimal digits of a natural number, without leading zeros. */
  function NatToString(n: nat): (r: string)
    ensures r != [] && AllDigits(r)
    ensures |r| > 1 ==> r[0] != '0'
  {
    if n < 10 then [('0' as int + n) as char] else NatToString(n / 10) + [('0' as int + n % 10) as char]
  }

  /** The decimal form in which PHP turns an int into a string. */
  function IntToString(n: int): string
  {
    if n < 0 then "-" + NatToString(-n) else NatToString(n)
  }

  lemma {:induction false} DigitsValueOfNat(n: nat)
    ensures DigitsValue(NatToString(n)) == n
  {
    if n >= 10 {
      DigitsValueOfNat(n / 10);
      var s := NatToString(n / 10) + [('0' as int + n % 10) as char];
      assert s[..|s| - 1] == NatToString(n / 10);
    }
  }

  lemma DigitRunOfDigits(s: string)
    requires AllDigits(s)
    ensures DigitRun(s) == s
  {
  }

  /** A string that, after its white space, starts with neither a digit, a sign nor '.' gives 0. */
  lemma IntValNonNumeric(s: string)
    requires var t := SkipSpaces(s);
      t == [] || (!IsDigit(t[0]) && t[0] != '-' && t[0] != '+' && t[0] != '.')
    ensures IntVal(s) == 0
  {
  }

  lemma AfterDigitsOfDigits(s: string)
    requires AllDigits(s)
    ensures AfterDigits(s) == ""
  {
  }

  /** intval() reads back every 64-bit int from its decimal form. */
  lemma IntValIntToString(n: int)
    requires PHP_INT_MIN <= n <= PHP_INT_MAX
    ensures IntVal(IntToString(n)) == n
  {
    var s := IntToString(n);
    if n < 0 {
      var d := NatToString(-n);
      assert s == "-" + d;
      assert SkipSpaces(s) == s;
      assert s[1..] == d;
      DigitRunOfDigits(d);
      AfterDigitsOfDigits(d);
      DigitsValueOfNat(-n);
      assert Magnitude(d) == DigitsValue(d);
      assert IntVal(s) == Saturate(0 - DigitsValue(d));
    } else {
      assert s == NatToString(n);
      assert !IsNumericSpace(s[0]) && s[0] != '-' && s[0] != '+';
      assert SkipSpaces(s) == s;
      DigitRunOfDigits(s);
      AfterDigitsOfDigits(s);
      DigitsValueOfNat(n);
      assert Magnitude(s) == DigitsValue(s);
      assert IntVal(s) == Saturate(DigitsValue(s));
    }
  }

  /** Distinct numbers have distinct decimal forms. */
  lemma NatToStringInjective(m: nat, n: nat)
    requires NatToString(m) == NatToString(n)
    ensures m == n
  {
    DigitsValueOfNat(m);
    DigitsValueOfNat(n);
  }
}
