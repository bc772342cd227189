/** The text of an amount: the printer and `Trim` of internal/core/decimal/decimal.go, on decimal numerals.

    Price levels are keyed by printed prices; the model keys them by the number. `PrintRoundTrip` is what makes the
    two agree.
 */
module DecimalText {
  import opened Orders
  import Decimal

  const SCALE: nat := 18

  function Pow10(n: nat): nat {
    if n == 0 then 1 else 10 * Pow10(n - 1)
  }

  predicate IsDigit(c: char) {
    '0' <= c <= '9'
  }

  predicate AllDigits(s: string) {
    forall i :: 0 <= i < |s| ==> IsDigit(s[i])
  }

  function DigitValue(c: char): nat
    requires IsDigit(c)
  {
    c as int - '0' as int
  }

  function DigitChar(d: nat): char
    requires d < 10
    ensures IsDigit(DigitChar(d)) && DigitValue(DigitChar(d)) == d
  {
    ('0' as int + d) as char
  }

  /** The number a string of digits stands for. */
  function Value(s: string): nat
    requires AllDigits(s)
  {
    if s == "" then 0 else 10 * Value(s[..|s| - 1]) + DigitValue(s[|s| - 1])
  }

  /** `mantissa / 10^digits`. */
  datatype Num = Num(mantissa: int, digits: nat)

  predicate SameValue(a: Num, b: Num) {
    a.mantissa * Pow10(b.digits) == b.mantissa * Pow10(a.digits)
  }

  function BeforePoint(s: string): string {
    if s == "" || s[0] == '.' then "" else [s[0]] + BeforePoint(s[1..])
  }

  function AfterPoint(s: string): string {
    if s == "" then "" else if s[0] == '.' then s[1..] else AfterPoint(s[1..])
  }

  function Unsigned(s: string): string {
    if s != "" && s[0] == '-' then s[1..] else s
  }

  /** A decimal numeral; anything else does not parse. */
  function ParseNumeral(s: string): Option<Num> {
    var whole, frac := BeforePoint(Unsigned(s)), AfterPoint(Unsigned(s));
    if whole + frac == "" || !AllDigits(whole + frac) then None
    else
      var m: int := Value(whole + frac);
      Some(Num(if s[0] == '-' then -m else m, |frac|))
  }

  /** `Parse`: what does not parse is zero. */
  function Parse(s: string): Num {
    if ParseNumeral(s).Some? then ParseNumeral(s).value else Num(0, 0)
  }

  function TrimRight(s: string, c: char): string {
    if s != "" && s[|s| - 1] == c then TrimRight(s[..|s| - 1], c) else s
  }

  function Trim(s: string): string {
    var t := TrimRight(TrimRight(s, '0'), '.');
    if t == "" || t == "-0" then "0" else t
  }

  function Digits(n: nat): string {
    if n < 10 then [DigitChar(n)] else Digits(n / 10) + [DigitChar(n % 10)]
  }

  /** The last `k` digits of `n`. */
  function Fixed(n: nat, k: nat): string {
    if k == 0 then "" else Fixed(n / 10, k - 1) + [DigitChar(n % 10)]
  }

  /** `String`: an amount in units printed with 18 fractional digits, then trimmed. */
  function Print(n: int): string {
    var m := if n < 0 then -n else n;
    Trim((if n < 0 then "-" else "") + Digits(m / Decimal.UNIT) + "." + Fixed(m % Decimal.UNIT, SCALE))
  }

  // ---- Digits ----

  lemma {:induction false} DigitsValue(n: nat)
    ensures AllDigits(Digits(n)) && Value(Digits(n)) == n && Digits(n) != ""
  {
    if n < 10 {
      assert [DigitChar(n)][..0] == "";
    } else {
      DigitsValue(n / 10);
      assert Digits(n)[..|Digits(n)| - 1] == Digits(n / 10);
    }
  }

  lemma {:induction false} FixedValue(n: nat, k: nat)
    requires n < Pow10(k)
    ensures AllDigits(Fixed(n, k)) && |Fixed(n, k)| == k && Value(Fixed(n, k)) == n
  {
    if k > 0 {
      assert n / 10 < Pow10(k - 1);
      FixedValue(n / 10, k - 1);
      assert Fixed(n, k)[..k - 1] == Fixed(n / 10, k - 1);
    }
  }

  lemma DigitsSplit(a: string, b: string)
    ensures AllDigits(a + b) <==> AllDigits(a) && AllDigits(b)
  {
    assert forall i :: 0 <= i < |a| ==> a[i] == (a + b)[i];
    assert forall i :: 0 <= i < |b| ==> b[i] == (a + b)[|a| + i];
  }

  lemma ValueAppends(s: string, c: char)
    requires AllDigits(s) && IsDigit(c)
    ensures AllDigits(s + [c]) && Value(s + [c]) == 10 * Value(s) + DigitValue(c)
  {
    assert (s + [c])[..|s|] == s;
  }

  lemma {:induction false} ValueSplit(a: string, b: string)
    requires AllDigits(a) && AllDigits(b)
    ensures AllDigits(a + b) && Value(a + b) == Value(a) * Pow10(|b|) + Value(b)
  {
    if b == "" {
      assert a + b == a;
    } else {
      var c, d := b[..|b| - 1], b[|b| - 1];
      assert b == c + [d] && a + b == (a + c) + [d];
      ValueSplit(a, c);
      ValueAppends(c, d);
      ValueAppends(a + c, d);
      Tenfold(Value(a), Pow10(|c|));
    }
  }

  lemma Tenfold(v: int, p: int)
    ensures v * (10 * p) == 10 * (v * p)
  {
  }

  lemma {:induction false} ZeroValue(s: string)
    requires forall i :: 0 <= i < |s| ==> s[i] == '0'
    ensures AllDigits(s) && Value(s) == 0
  {
    if s != "" {
      ZeroValue(s[..|s| - 1]);
    }
  }

  lemma PowersMultiply(a: nat, b: nat)
    ensures Pow10(a + b) == Pow10(a) * Pow10(b)
  {
    if a > 0 {
      PowersMultiply(a - 1, b);
    }
  }

  lemma {:induction false} PowPositive(n: nat)
    ensures Pow10(n) >= 1 && (n > 0 ==> Pow10(n) >= 10)
  {
    if n > 0 {
      PowPositive(n - 1);
    }
  }

  lemma UnitIsPow()
    ensures Pow10(SCALE) == Decimal.UNIT
  {
    assert Pow10(6) == 1_000_000;
    PowersMultiply(6, 6);
    PowersMultiply(12, 6);
  }

  // ---- Trimming ----

  lemma {:induction false} TrimRightSplits(s: string, c: char)
    ensures var t := TrimRight(s, c);
            && |t| <= |s| && s == t + s[|t|..] && (forall i :: |t| <= i < |s| ==> s[i] == c)
            && (t != "" ==> t[|t| - 1] != c)
  {
    if s != "" && s[|s| - 1] == c {
      TrimRightSplits(s[..|s| - 1], c);
    }
  }

  /** Trimming stops at a character it does not remove. */
  lemma {:induction false} TrimRightStops(a: string, b: string, c: char)
    requires a != "" && a[|a| - 1] != c
    ensures TrimRight(a + b, c) == a + TrimRight(b, c)
  {
    if b == "" {
      assert a + b == a;
    } else if b[|b| - 1] == c {
      assert (a + b)[..|a + b| - 1] == a + b[..|b| - 1];
      TrimRightStops(a, b[..|b| - 1], c);
    }
  }

  predicate Plain(s: string) {
    forall i :: 0 <= i < |s| ==> s[i] != '.'
  }

  lemma {:induction false} PointSplits(whole: string, frac: string)
    requires Plain(whole)
    ensures BeforePoint(whole + "." + frac) == whole && AfterPoint(whole + "." + frac) == frac
    ensures BeforePoint(whole) == whole && AfterPoint(whole) == ""
  {
    var s := whole + "." + frac;
    if whole != "" {
      assert s[1..] == whole[1..] + "." + frac;
      PointSplits(whole[1..], frac);
    }
  }

  /** The value of a numeral in its parts. */
  function Signed(neg: bool, whole: string, frac: string): Num
    requires AllDigits(whole + frac)
  {
    var m: int := Value(whole + frac);
    Num(if neg then -m else m, |frac|)
  }

  function Sign(neg: bool): string {
    if neg then "-" else ""
  }

  lemma ParsePointed(neg: bool, whole: string, frac: string)
    requires AllDigits(whole + frac) && whole + frac != ""
    ensures Parse(Sign(neg) + whole + "." + frac) == Signed(neg, whole, frac)
  {
    DigitsSplit(whole, frac);
    PointSplits(whole, frac);
    var s := Sign(neg) + whole + "." + frac;
    assert Unsigned(s) == whole + "." + frac;
  }

  lemma ParsePlain(neg: bool, whole: string)
    requires AllDigits(whole) && whole != ""
    ensures Parse(Sign(neg) + whole) == Signed(neg, whole, "")
  {
    PointSplits(whole, "");
    assert whole + "" == whole;
    var s := Sign(neg) + whole;
    assert Unsigned(s) == whole;
  }

  /** Zeros at the end of the fraction carry no value. */
  lemma FractionTrims(neg: bool, whole: string, frac: string)
    requires AllDigits(whole + frac)
    ensures var f := TrimRight(frac, '0');
            AllDigits(whole + f) && SameValue(Signed(neg, whole, f), Signed(neg, whole, frac))
  {
    var f := TrimRight(frac, '0');
    TrimRightSplits(frac, '0');
    var zeros := frac[|f|..];
    assert whole + frac == (whole + f) + zeros;
    DigitsSplit(whole + f, zeros);
    ValueSplit(whole + f, zeros);
    ZeroValue(zeros);
    PowersMultiply(|f|, |zeros|);
    Regroup(Value(whole + f), Pow10(|f|), Pow10(|zeros|));
  }

  lemma Regroup(v: int, p: int, q: int)
    ensures v * (p * q) == (v * q) * p && -v * (p * q) == -(v * q) * p
  {
  }

  /** `Trim` on a numeral with a point keeps its value. */
  lemma TrimPointed(neg: bool, whole: string, frac: string)
    requires AllDigits(whole + frac) && whole + frac != ""
    ensures SameValue(Parse(Trim(Sign(neg) + whole + "." + frac)), Signed(neg, whole, frac))
  {
    var f := TrimRight(frac, '0');
    var front := Sign(neg) + whole;
    TrimRightStops(front + ".", frac, '0');
    TrimRightSplits(frac, '0');
    FractionTrims(neg, whole, frac);
    DigitsSplit(whole, frac);
    if f != "" {
      var t := front + "." + f;
      assert f[|f| - 1] == frac[|f| - 1] && t[|t| - 1] == f[|f| - 1];
      assert TrimRight(t, '.') == t;
      assert t[|front|] == '.';
      ParsePointed(neg, whole, f);
      assert front + "." + f == Sign(neg) + whole + "." + f;
    } else {
      TrimsToWhole(neg, whole, frac);
    }
  }

  /** The text left when the whole fraction is trimmed. */
  function WholeText(neg: bool, whole: string): string {
    var front := Sign(neg) + whole;
    if front == "" || front == "-0" then "0" else front
  }

  lemma TrimsToText(neg: bool, whole: string, frac: string)
    requires AllDigits(whole) && TrimRight(frac, '0') == ""
    ensures Trim(Sign(neg) + whole + "." + frac) == WholeText(neg, whole)
  {
    var front := Sign(neg) + whole;
    TrimRightStops(front + ".", frac, '0');
    assert front + "." + "" == front + ".";
    assert (front + ".")[..|front|] == front;
    assert front != "" ==> front[|front| - 1] != '.';
    assert TrimRight(front + ".", '.') == front;
  }

  lemma WholeTextValue(neg: bool, whole: string)
    requires AllDigits(whole)
    ensures AllDigits(whole + "") && Parse(WholeText(neg, whole)) == Signed(neg, whole, "")
  {
    assert whole + "" == whole;
    SmallTexts();
    var front := Sign(neg) + whole;
    assert whole != "" ==> IsDigit(whole[0]) && (!neg ==> front[0] == whole[0]);
    if whole == "" {
      assert front == Sign(neg);
    } else if front == "-0" {
      assert front[1..] == "0";
      assert whole == "0";
    } else {
      ParsePlain(neg, whole);
    }
  }

  lemma TrimsToWhole(neg: bool, whole: string, frac: string)
    requires AllDigits(whole) && AllDigits(whole + frac) && TrimRight(frac, '0') == "" && AllDigits(whole + "")
    requires SameValue(Signed(neg, whole, ""), Signed(neg, whole, frac))
    ensures SameValue(Parse(Trim(Sign(neg) + whole + "." + frac)), Signed(neg, whole, frac))
  {
    TrimsToText(neg, whole, frac);
    WholeTextValue(neg, whole);
  }

  lemma SameWhole(x: int, y: int)
    ensures SameValue(Num(x, 0), Num(y, 0)) <==> x == y
  {
  }

  lemma SmallTexts()
    ensures Parse("0") == Num(0, 0) && Parse("-") == Num(0, 0) && Value("0") == 0 && AllDigits("0")
  {
    ParsePlain(false, "0");
    assert "" + "0" == "0";
    ZeroValue("0");
    assert Unsigned("-") == "";
  }

  // ---- The printer ----

  /** Printing loses nothing: the text parses back to the amount. */
  lemma PrintRoundTrip(n: int)
    ensures SameValue(Parse(Print(n)), Num(n, SCALE))
  {
    var neg := n < 0;
    var m := if neg then -n else n;
    var whole, frac := Digits(m / Decimal.UNIT), Fixed(m % Decimal.UNIT, SCALE);
    UnitIsPow();
    DigitsValue(m / Decimal.UNIT);
    FixedValue(m % Decimal.UNIT, SCALE);
    ValueSplit(whole, frac);
    assert Value(whole + frac) == m;
    TrimPointed(neg, whole, frac);
    assert Signed(neg, whole, frac) == Num(n, SCALE);
  }

  /** One canonical key per amount. */
  lemma PrintIsInjective(a: int, b: int)
    ensures Print(a) == Print(b) <==> a == b
  {
    if Print(a) == Print(b) {
      PrintRoundTrip(a);
      PrintRoundTrip(b);
      var x := Parse(Print(a));
      PowPositive(x.digits);
      PowPositive(SCALE);
      assert a * Pow10(x.digits) == b * Pow10(x.digits);
      Cancel(a, b, Pow10(x.digits));
    }
  }

  lemma Cancel(a: int, b: int, p: int)
    requires a * p == b * p && p > 0
    ensures a == b
  {
    assert (a - b) * p == 0;
  }

  lemma Grows(v: int, p: int)
    requires v > 0 && p >= 1
    ensures v * p > 0 && (v * p == v <==> p == 1)
  {
    assert p >= 2 ==> v * p >= v * 2;
  }

  lemma LastDigitCounts(w: string)
    requires AllDigits(w) && w != "" && w[|w| - 1] != '0'
    ensures Value(w) > 0
  {
    assert DigitValue(w[|w| - 1]) > 0;
  }

  /** Cutting zeros off the end of a whole number divides it. */
  lemma ZerosCut(w: string, zeros: string)
    requires AllDigits(w) && w != "" && w[|w| - 1] != '0' && forall i :: 0 <= i < |zeros| ==> zeros[i] == '0'
    ensures AllDigits(w + zeros) && Value(w + zeros) > 0
    ensures Value(w) == Value(w + zeros) <==> zeros == ""
  {
    ZeroValue(zeros);
    LastDigitCounts(w);
    PowPositive(|zeros|);
    Grows(Value(w), Pow10(|zeros|));
    ValueSplit(w, zeros);
  }

  lemma TrimWhole(neg: bool, w: string, zeros: string)
    requires AllDigits(w) && w != "" && w[|w| - 1] != '0' && forall i :: 0 <= i < |zeros| ==> zeros[i] == '0'
    ensures Trim(Sign(neg) + (w + zeros)) == Sign(neg) + w
  {
    var front := Sign(neg) + w;
    assert front[|front| - 1] == w[|w| - 1];
    TrimRightStops(front, zeros, '0');
    TrimRightZeros(zeros);
    assert front + zeros == Sign(neg) + (w + zeros) && front + "" == front;
    assert IsDigit(w[|w| - 1]);
  }

  /** `Trim` alone is not value-preserving: on a numeral without a point it does so if and only if the numeral does not
      end in a zero, or is zero anyway. `Trim("100")` is "1". */
  lemma TrimPlainIff(neg: bool, whole: string)
    requires AllDigits(whole) && whole != ""
    ensures SameValue(Parse(Trim(Sign(neg) + whole)), Parse(Sign(neg) + whole)) <==>
            whole[|whole| - 1] != '0' || Value(whole) == 0
  {
    ParsePlain(neg, whole);
    assert whole + "" == whole;
    TrimRightSplits(whole, '0');
    var w := TrimRight(whole, '0');
    var before, after := Parse(Sign(neg) + whole), Parse(Trim(Sign(neg) + whole));
    if w == "" {
      ZeroValue(whole);
      AllZeros(neg, whole);
      SmallTexts();
      assert before == Num(0, 0) && after == Num(0, 0);
    } else {
      TrimmedWhole(neg, whole, w);
      SameWhole(after.mantissa, before.mantissa);
    }
  }

  lemma TrimmedText(neg: bool, whole: string, w: string)
    requires AllDigits(whole) && w == TrimRight(whole, '0') && w != ""
    ensures AllDigits(w) && Trim(Sign(neg) + whole) == Sign(neg) + w
  {
    TrimRightSplits(whole, '0');
    var zeros := whole[|w|..];
    assert whole == w + zeros;
    DigitsSplit(w, zeros);
    TrimWhole(neg, w, zeros);
  }

  lemma TrimmedValue(whole: string, w: string)
    requires AllDigits(whole) && AllDigits(w) && w == TrimRight(whole, '0') && w != ""
    ensures Value(whole) > 0 && whole != "" && (Value(w) == Value(whole) <==> whole[|whole| - 1] != '0')
  {
    TrimRightSplits(whole, '0');
    var zeros := whole[|w|..];
    assert whole == w + zeros;
    ZerosCut(w, zeros);
    assert zeros != "" ==> whole[|whole| - 1] == zeros[|zeros| - 1] == '0';
    assert zeros == "" ==> whole == w;
  }

  lemma TrimmedWhole(neg: bool, whole: string, w: string)
    requires AllDigits(whole) && whole != "" && w == TrimRight(whole, '0') && w != ""
    ensures AllDigits(w) && Value(whole) > 0 && (Value(w) == Value(whole) <==> whole[|whole| - 1] != '0')
    ensures Parse(Trim(Sign(neg) + whole)) == Num(if neg then -(Value(w) as int) else Value(w), 0)
  {
    TrimmedText(neg, whole, w);
    TrimmedValue(whole, w);
    ParsePlain(neg, w);
    assert w + "" == w;
  }

  lemma {:induction false} TrimRightZeros(s: string)
    requires forall i :: 0 <= i < |s| ==> s[i] == '0'
    ensures TrimRight(s, '0') == ""
  {
    if s != "" {
      TrimRightZeros(s[..|s| - 1]);
    }
  }

  lemma AllZeros(neg: bool, whole: string)
    requires whole != "" && forall i :: 0 <= i < |whole| ==> whole[i] == '0'
    ensures Trim(Sign(neg) + whole) == if neg then "-" else "0"
  {
    TrimRightZeros(whole);
    if neg {
      TrimRightStops("-", whole, '0');
      assert "-" + "" == "-";
    } else {
      assert "" + whole == whole;
    }
  }
}
