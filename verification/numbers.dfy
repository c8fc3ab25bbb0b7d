/** JavaScript numbers as the pages meet them: `NaN`, integers and
    decimal fractions, with `Number(s)` for decimal literals and
    `String(n)`. */
module Numbers {
  import opened Text

  /** The digits after the decimal point of a value that is not an
      integer: at least one, and the last one is not zero. */
  type Fraction = s: string | s != [] && AllDigits(s) && s[|s| - 1] != '0' witness "5"

  /** A JavaScript number: `NaN`, an integral value, or the non-integral
      value `±(whole + 0.frac)`. The written-out fraction stands for the
      exact decimal, not for its nearest double. */
  datatype Num = NaN | Int(i: int) | Dec(neg: bool, whole: nat, frac: Fraction)

  /** `n <= 0`; `NaN` compares false with everything. */
  predicate AtMostZero(n: Num) {
    match n
    case NaN => false
    case Int(i) => i <= 0
    case Dec(neg, _, _) => neg
  }

  /** `n > 0` */
  predicate IsPositive(n: Num) {
    match n
    case NaN => false
    case Int(i) => i > 0
    case Dec(neg, _, _) => !neg
  }

  /** No number is both positive and at most zero; `NaN` is neither. */
  lemma SignsExclusive(n: Num)
    ensures !(IsPositive(n) && AtMostZero(n))
    ensures IsPositive(n) || AtMostZero(n) <==> !n.NaN?
  {
  }

  /** `String(n)`: a fraction prints as its integer part, a point and its
      digits, a minus sign in front of a negative value. */
  function NumToString(n: Num): (r: string)
    ensures r != []
  {
    match n
    case NaN => "NaN"
    case Int(i) => IntToString(i)
    case Dec(neg, whole, frac) => (if neg then "-" else "") + NatToString(whole) + "." + frac
  }

  // ----------------------------------------------------------- Number(s)

  /** The length of the run of decimal digits that starts `s`. */
  function DigitRun(s: string): (n: nat)
    ensures n <= |s| && AllDigits(s[..n]) && (n < |s| ==> !IsDigit(s[n]))
  {
    if s == [] || !IsDigit(s[0]) then 0
    else
      var n := 1 + DigitRun(s[1..]);
      assert s[..n] == [s[0]] + s[1..][..n - 1];
      n
  }

  function Zeros(n: nat): (r: string)
    ensures |r| == n && AllDigits(r)
  {
    seq(n, _ => '0')
  }

  predicate AllZero(s: string) {
    forall i :: 0 <= i < |s| ==> s[i] == '0'
  }

  /** `s` without its trailing zeros. */
  function StripZeros(s: string): string {
    if s == [] || s[|s| - 1] != '0' then s else StripZeros(s[..|s| - 1])
  }

  lemma {:induction false} StripZerosSpec(s: string)
    ensures var r := StripZeros(s);
      |r| <= |s| && r == s[..|r|] && AllZero(s[|r|..]) && (r == [] || r[|r| - 1] != '0')
  {
    if s != [] && s[|s| - 1] == '0' {
      var t := s[..|s| - 1];
      StripZerosSpec(t);
      var r := StripZeros(t);
      assert s[|r|..] == t[|r|..] + ['0'];
    }
  }

  /** The value of the digits `d` with the decimal point after the first `p`
      of them (before them when `p <= 0`, zeros implied on either side),
      negated when `neg`. */
  function Compose(neg: bool, d: string, p: int): (r: Num)
    requires AllDigits(d)
  {
    if p >= |d| then
      var k: int := DigitsValue(d + Zeros(p - |d|));
      Int(if neg then -k else k)
    else
      var w := if p <= 0 then "" else d[..p];
      var g := if p <= 0 then Zeros(-p) + d else d[p..];
      StripZerosSpec(g);
      var f := StripZeros(g);
      var k: int := DigitsValue(w);
      if f == [] then Int(if neg then -k else k) else Dec(neg, k, f)
  }

  /** An exponent after `e` or `E`: an optional sign and at least one digit. */
  predicate ExponentOk(s: string) {
    var b := if s != [] && (s[0] == '+' || s[0] == '-') then s[1..] else s;
    b != [] && AllDigits(b)
  }

  function ExponentValue(s: string): int
    requires ExponentOk(s)
  {
    if s[0] == '-' then -(DigitsValue(s[1..]) as int)
    else if s[0] == '+' then DigitsValue(s[1..])
    else DigitsValue(s)
  }

  /** An unsigned decimal literal `digits [. digits] [e exponent]` with at
      least one digit before the exponent; `NaN` for anything else. */
  function ParseUnsigned(neg: bool, s: string): (r: Num) {
    var a := DigitRun(s);
    var rest := s[a..];
    var point := rest != [] && rest[0] == '.';
    var after := if point then rest[1..] else rest;
    var b := if point then DigitRun(after) else 0;
    var digits := s[..a] + after[..b];
    var tail := after[b..];
    if digits == [] then NaN
    else if tail == [] then Compose(neg, digits, a)
    else if (tail[0] == 'e' || tail[0] == 'E') && ExponentOk(tail[1..]) then
      Compose(neg, digits, a + ExponentValue(tail[1..]))
    else NaN
  }

  /** `Number(s)` for a string: surrounding white space is ignored, an
      empty or all-white string reads as 0, a decimal literal with an
      optional sign reads as its value, anything else is `NaN`. */
  function ParseNumber(s: string): Num {
    var t := Trim(s);
    if t == [] then Int(0)
    else if t[0] == '-' then ParseUnsigned(true, t[1..])
    else if t[0] == '+' then ParseUnsigned(false, t[1..])
    else ParseUnsigned(false, t)
  }

  /** A digit run stops at the first character that is not a digit. */
  lemma {:induction false} DigitRunOf(d: string, rest: string)
    requires AllDigits(d) && (rest == [] || !IsDigit(rest[0]))
    ensures DigitRun(d + rest) == |d|
  {
    if d != [] {
      assert (d + rest)[1..] == d[1..] + rest;
      DigitRunOf(d[1..], rest);
    }
  }

  /** `ip.fp` reads as the digits `ip + fp` with the point after `ip`. */
  lemma {:induction false} ReadsPointed(neg: bool, ip: string, fp: string)
    requires AllDigits(ip) && AllDigits(fp) && ip + fp != []
    ensures ParseUnsigned(neg, ip + "." + fp) == Compose(neg, ip + fp, |ip|)
  {
    var s := ip + "." + fp;
    DigitRunOf(ip, "." + fp);
    assert s == ip + ("." + fp);
    assert s[|ip|..] == "." + fp;
    assert ("." + fp)[1..] == fp;
    DigitRunOf(fp, []);
    assert fp + [] == fp;
    assert s[..|ip|] == ip;
  }

  /** `ip` followed by `e` and an exponent reads as the digits `ip` with the
      point moved by the exponent. */
  lemma {:induction false} ReadsExponent(neg: bool, ip: string, x: string)
    requires AllDigits(ip) && ip != [] && ExponentOk(x)
    ensures ParseUnsigned(neg, ip + "e" + x) == Compose(neg, ip, |ip| + ExponentValue(x))
  {
    var s := ip + "e" + x;
    DigitRunOf(ip, "e" + x);
    assert s == ip + ("e" + x);
    assert s[|ip|..] == "e" + x;
    assert s[..|ip|] + [] == ip;
    assert ("e" + x)[1..] == x;
  }

  function Pow10(k: nat): (r: nat)
    ensures r >= 1
  {
    if k == 0 then 1 else 10 * Pow10(k - 1)
  }

  /** Zeros appended to a numeral multiply its value by a power of ten. */
  lemma {:induction false} ScaleByZeros(d: string, k: nat)
    requires AllDigits(d)
    ensures DigitsValue(d + Zeros(k)) == DigitsValue(d) * Pow10(k)
  {
    if k > 0 {
      var e := d + Zeros(k);
      assert e[..|e| - 1] == d + Zeros(k - 1);
      assert e[|e| - 1] == '0';
      assert DigitsValue(e) == 10 * DigitsValue(d + Zeros(k - 1));
      ScaleByZeros(d, k - 1);
      assert 10 * (DigitsValue(d) * Pow10(k - 1)) == DigitsValue(d) * (10 * Pow10(k - 1));
    } else {
      assert d + Zeros(0) == d;
    }
  }

  /** A plain run of digits reads as its value. */
  lemma ReadsWhole(neg: bool, d: string)
    requires AllDigits(d) && d != []
    ensures ParseUnsigned(neg, d) == Int(if neg then -(DigitsValue(d) as int) else DigitsValue(d))
  {
    DigitRunOf(d, []);
    assert d + [] == d;
    assert d + Zeros(0) == d;
  }

  /** Printing an integer and reading it back gives the integer. */
  lemma ParsePrintedInt(i: int)
    ensures ParseNumber(IntToString(i)) == Int(i)
  {
    var s := IntToString(i);
    IntToStringNoSpace(i);
    TrimNoSpace(s);
    if i < 0 {
      var n := NatToString(-i);
      DigitsValueOfNatToString(-i);
      assert s[1..] == n;
      ReadsWhole(true, n);
    } else {
      DigitsValueOfNatToString(i);
      ReadsWhole(false, s);
    }
  }

  lemma IntToStringNoSpace(i: int)
    ensures forall k :: 0 <= k < |IntToString(i)| ==> !IsSpace(IntToString(i)[k])
  {
    var s := IntToString(i);
    var n := NatToString(if i < 0 then -i else i);
    forall k | 0 <= k < |s| ensures !IsSpace(s[k]) {
      if i < 0 && k > 0 { assert s[k] == n[k - 1]; }
    }
  }

  /** The printed form of a fraction holds no white space. */
  lemma DecimalTextNoSpace(neg: bool, n: string, frac: string)
    requires AllDigits(n) && AllDigits(frac)
    ensures var s := (if neg then "-" else "") + n + "." + frac;
      forall k :: 0 <= k < |s| ==> !IsSpace(s[k])
  {
    var body := n + "." + frac;
    var s := (if neg then "-" else "") + n + "." + frac;
    forall k | 0 <= k < |s| ensures !IsSpace(s[k]) {
      var j := if neg then k - 1 else k;
      if j >= 0 {
        assert s[k] == body[j];
        if j < |n| { assert body[j] == n[j]; }
        else if j > |n| { assert body[j] == frac[j - |n| - 1]; }
      }
    }
  }

  /** The exponent form of a literal holds no white space. */
  lemma ExponentTextNoSpace(neg: bool, ip: string, x: string)
    requires AllDigits(ip) && ExponentOk(x)
    ensures var s := (if neg then "-" else "") + ip + "e" + x;
      forall k :: 0 <= k < |s| ==> !IsSpace(s[k])
  {
    var body := ip + "e" + x;
    var s := (if neg then "-" else "") + ip + "e" + x;
    forall k | 0 <= k < |s| ensures !IsSpace(s[k]) {
      var j := if neg then k - 1 else k;
      if j >= 0 {
        assert s[k] == body[j];
        if j < |ip| { assert body[j] == ip[j]; }
        else if j > |ip| + 1 {
          assert body[j] == x[j - |ip| - 1];
          assert j - |ip| - 2 >= 0;
          assert x[j - |ip| - 1] == x[1..][j - |ip| - 2];
        }
        else if j == |ip| + 1 { assert body[j] == x[0]; }
      }
    }
  }

  /** Digits `n + frac` with the point after `n` compose to the fraction. */
  lemma ComposePointed(neg: bool, n: string, frac: Fraction)
    requires AllDigits(n) && n != []
    ensures Compose(neg, n + frac, |n|) == Dec(neg, DigitsValue(n), frac)
  {
    assert (n + frac)[..|n|] == n;
    assert (n + frac)[|n|..] == frac;
  }

  /** A literal without white space reads through its sign. */
  lemma ReadsSigned(neg: bool, body: string)
    requires body != [] && body[0] != '-' && body[0] != '+'
    requires var s := (if neg then "-" else "") + body;
      forall k :: 0 <= k < |s| ==> !IsSpace(s[k])
    ensures ParseNumber((if neg then "-" else "") + body) == ParseUnsigned(neg, body)
  {
    var s := (if neg then "-" else "") + body;
    TrimNoSpace(s);
    if neg {
      assert s[1..] == body;
    } else {
      assert s == body;
    }
  }

  /** A signed numeral with a decimal point reads as its digits with the
      point after the integer part. */
  lemma ParsePointed(neg: bool, ip: string, fp: string)
    requires AllDigits(ip) && AllDigits(fp) && ip + fp != []
    ensures ParseNumber((if neg then "-" else "") + ip + "." + fp) == Compose(neg, ip + fp, |ip|)
  {
    var body := ip + "." + fp;
    assert (if neg then "-" else "") + ip + "." + fp == (if neg then "-" else "") + body;
    assert body[0] == if ip == [] then '.' else ip[0];
    DecimalTextNoSpace(neg, ip, fp);
    ReadsSigned(neg, body);
    ReadsPointed(neg, ip, fp);
  }

  /** A signed numeral in exponent form reads as its digits with the point
      moved by the exponent. */
  lemma ParseExponentForm(neg: bool, ip: string, x: string)
    requires AllDigits(ip) && ip != [] && ExponentOk(x)
    ensures ParseNumber((if neg then "-" else "") + ip + "e" + x)
         == Compose(neg, ip, |ip| + ExponentValue(x))
  {
    var body := ip + "e" + x;
    assert (if neg then "-" else "") + ip + "e" + x == (if neg then "-" else "") + body;
    assert body[0] == ip[0];
    ExponentTextNoSpace(neg, ip, x);
    ReadsSigned(neg, body);
    ReadsExponent(neg, ip, x);
  }

  /** Printing a fraction and reading it back gives the fraction. */
  lemma ParsePrintedDecimal(neg: bool, whole: nat, frac: Fraction)
    ensures ParseNumber(NumToString(Dec(neg, whole, frac))) == Dec(neg, whole, frac)
  {
    var n := NatToString(whole);
    var body := n + "." + frac;
    assert NumToString(Dec(neg, whole, frac)) == (if neg then "-" else "") + body;
    DecimalTextNoSpace(neg, n, frac);
    assert body[0] == n[0];
    ReadsSigned(neg, body);
    ReadsPointed(neg, n, frac);
    ComposePointed(neg, n, frac);
    DigitsValueOfNatToString(whole);
  }

  /** A string that starts with neither white space, a sign, a point nor
      a digit does not read as a number. */
  lemma ParseRejectsNonNumeral(s: string)
    requires s != [] && !IsSpace(s[0]) && !IsSpace(s[|s| - 1])
    requires !IsDigit(s[0]) && s[0] != '-' && s[0] != '+' && s[0] != '.'
    ensures ParseNumber(s) == NaN
  {
    assert TrimStart(s) == s;
    assert Trim(s) == s;
  }

  /** A numeral is worth 0 exactly when all its digits are zeros. */
  lemma {:induction false} ValueZeroIffAllZero(d: string)
    requires AllDigits(d)
    ensures DigitsValue(d) == 0 <==> AllZero(d)
  {
    if d != [] {
      ValueZeroIffAllZero(d[..|d| - 1]);
    }
  }

  lemma AllZeroConcat(a: string, b: string)
    ensures AllZero(a + b) <==> AllZero(a) && AllZero(b)
  {
    if AllZero(a + b) {
      forall i | 0 <= i < |a| ensures a[i] == '0' { assert (a + b)[i] == a[i]; }
      forall i | 0 <= i < |b| ensures b[i] == '0' { assert (a + b)[|a| + i] == b[i]; }
    }
  }

  /** Stripping trailing zeros leaves nothing exactly from zeros only. */
  lemma StripZerosEmpty(g: string)
    ensures StripZeros(g) == [] <==> AllZero(g)
  {
    StripZerosSpec(g);
    var f := StripZeros(g);
    if f != [] { assert g[|f| - 1] == f[|f| - 1]; }
    else { assert g[|f|..] == g; }
  }

  /** The number composed from a sign and digits is at most zero exactly
      when the sign is negative or every digit is a zero; it is positive
      otherwise. */
  lemma ComposeSign(neg: bool, d: string, p: int)
    requires AllDigits(d)
    ensures AtMostZero(Compose(neg, d, p)) <==> neg || AllZero(d)
    ensures IsPositive(Compose(neg, d, p)) <==> !neg && !AllZero(d)
  {
    if p >= |d| {
      var e := d + Zeros(p - |d|);
      ValueZeroIffAllZero(e);
      AllZeroConcat(d, Zeros(p - |d|));
    } else {
      var w := if p <= 0 then "" else d[..p];
      var g := if p <= 0 then Zeros(-p) + d else d[p..];
      ValueZeroIffAllZero(w);
      StripZerosEmpty(g);
      if p <= 0 {
        AllZeroConcat(Zeros(-p), d);
      } else {
        assert d == w + g;
        AllZeroConcat(w, g);
      }
    }
  }

  /** `0.0` reads as zero. */
  lemma ReadsPointZero()
    ensures ParseNumber("0.0") == Int(0)
  {
    assert "0.0" == "" + "0" + "." + "0";
    ParsePointed(false, "0", "0");
    assert ("0" + "0")[..1] == "0" && ("0" + "0")[1..] == "0";
    assert StripZeros("0") == "" by { assert "0"[..0] == ""; }
    assert DigitsValue("0") == 0 by { assert "0"[..0] == ""; }
  }

  /** `0.5` and `-0.5` read as fractions of the same magnitude. */
  lemma ReadsHalf(neg: bool)
    ensures ParseNumber((if neg then "-" else "") + "0.5") == Dec(neg, 0, "5")
  {
    assert (if neg then "-" else "") + "0.5" == (if neg then "-" else "") + "0" + "." + "5";
    ParsePointed(neg, "0", "5");
    ComposePointed(neg, "0", "5");
    assert DigitsValue("0") == 0 by { assert "0"[..0] == ""; }
  }

  /** `-1e3` reads as minus one thousand. */
  lemma ReadsExponentForm()
    ensures ParseNumber("-1e3") == Int(-1000)
  {
    assert "-1e3" == "-" + "1" + "e" + "3";
    ParseExponentForm(true, "1", "3");
    assert ExponentValue("3") == 3 by { assert "3"[..0] == ""; }
    ThousandComposed();
  }

  /** The digit 1 with the point moved three places is a thousand. */
  lemma ThousandComposed()
    ensures Compose(true, "1", 4) == Int(-1000)
  {
    ScaleByZeros("1", 3);
    assert DigitsValue("1") == 1 by { assert "1"[..0] == ""; }
    assert Pow10(3) == 1000 by {
      assert Pow10(1) == 10;
      assert Pow10(2) == 100;
    }
  }
}
