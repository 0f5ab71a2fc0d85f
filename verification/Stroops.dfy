/**
 * Decimal amount strings and integer base units: `stroopsToXlm`, its inverse `xlmToStroops`, and the
 * latter's generalisation `tokenAmountToBaseUnits`. Errors the source throws are `None`.
 */
module Stroops {
  import opened Arithmetic
  import opened BigInts
  import opened JsString
  import opened Wrappers

  // ----- Digits -----

  predicate IsDigit(c: char) {
    '0' <= c <= '9'
  }

  predicate AllDigits(s: string) {
    forall i :: 0 <= i < |s| ==> IsDigit(s[i])
  }

  /** One or more decimal digits. */
  predicate IsDigits(s: string) {
    s != [] && AllDigits(s)
  }

  function DigitValue(c: char): (d: nat)
    requires IsDigit(c)
    ensures d < 10
  {
    (c as int) - ('0' as int)
  }

  function DigitChar(d: nat): (c: char)
    requires d < 10
    ensures IsDigit(c) && DigitValue(c) == d
  {
    ('0' as int + d) as char
  }

  /** `BigInt(s)` on a string of digits; the empty string counts as 0. */
  function DigitsValue(s: string): nat
    requires AllDigits(s)
  {
    if s == [] then 0 else 10 * DigitsValue(s[..|s| - 1]) + DigitValue(s[|s| - 1])
  }

  function Pow10(n: nat): (p: int)
    ensures p > 0
  {
    if n == 0 then 1 else 10 * Pow10(n - 1)
  }

  function Zeros(n: nat): (z: string)
    ensures |z| == n && AllDigits(z)
  {
    seq(n, _ => '0')
  }

  /** `n.toString()` */
  function NatString(n: nat): (s: string)
    ensures IsDigits(s) && DigitsValue(s) == n
    ensures n > 0 ==> s[0] != '0'
    ensures n == 0 ==> s == "0"
  {
    if n < 10 then
      assert [DigitChar(n)][..0] == "";
      [DigitChar(n)]
    else
      var s := NatString(n / 10) + [DigitChar(n % 10)];
      assert s[..|s| - 1] == NatString(n / 10);
      s
  }

  function IntString(v: int): (s: string)
    ensures v < 0 ==> |s| > 1 && s[0] == '-' && IsDigits(s[1..]) && DigitsValue(s[1..]) == -v && s[1] != '0'
  {
    if v < 0 then "-" + NatString(-v) else NatString(v)
  }

  lemma {:induction false} NatStringLength(n: nat, k: nat)
    requires k >= 1 && n < Pow10(k)
    ensures |NatString(n)| <= k
    decreases k
  {
    if n >= 10 {
      NatStringLength(n / 10, k - 1);
    }
  }

  lemma {:induction false} DigitsValueBound(s: string)
    requires AllDigits(s)
    ensures DigitsValue(s) < Pow10(|s|)
  {
    if s != [] {
      DigitsValueBound(s[..|s| - 1]);
    }
  }

  lemma ShiftAlgebra(a: int, p: int, b: int, d: int)
    ensures 10 * (a * p + b) + d == a * (10 * p) + (10 * b + d)
  {
  }

  lemma {:induction false} DigitsValueConcat(s: string, t: string)
    requires AllDigits(s) && AllDigits(t)
    ensures DigitsValue(s + t) == DigitsValue(s) * Pow10(|t|) + DigitsValue(t)
    decreases |t|
  {
    if t == [] {
      assert s + t == s;
    } else {
      var last := |t| - 1;
      DigitsValueConcat(s, t[..last]);
      assert (s + t)[..|s + t| - 1] == s + t[..last];
      ShiftAlgebra(DigitsValue(s), Pow10(last), DigitsValue(t[..last]), DigitValue(t[last]));
    }
  }

  lemma {:induction false} ZerosValue(n: nat)
    ensures DigitsValue(Zeros(n)) == 0
  {
    if n > 0 {
      assert Zeros(n)[..n - 1] == Zeros(n - 1);
      ZerosValue(n - 1);
    }
  }

  // ----- Parsing -----

  /** `whole.fraction` as `split(".")` yields it; a missing fraction is empty. */
  datatype Decimal = Decimal(whole: string, fraction: string)

  predicate IsDecimal(d: Decimal) {
    IsDigits(d.whole) && (d.fraction == [] || IsDigits(d.fraction))
  }

  /** The strings that match `^[0-9]+(?:\.[0-9]+)?$`, taken apart at the point. */
  function ParseDecimal(s: string): (r: Option<Decimal>)
    ensures r.Some? ==> IsDecimal(r.value)
  {
    var parts := Split(s, ".");
    if |parts| == 1 && IsDigits(parts[0]) then Some(Decimal(parts[0], ""))
    else if |parts| == 2 && IsDigits(parts[0]) && IsDigits(parts[1]) then Some(Decimal(parts[0], parts[1]))
    else None
  }

  /** The text that denotes a decimal: its whole part, and its fraction after a point if it has one. */
  function DecimalText(d: Decimal): string {
    if d.fraction == "" then d.whole else d.whole + "." + d.fraction
  }

  lemma DigitsHaveNoPoint(s: string)
    requires AllDigits(s)
    ensures '.' !in s
  {
  }

  lemma SplitAtPoint(whole: string, fraction: string)
    requires '.' !in whole && '.' !in fraction
    ensures Split(whole + "." + fraction, ".") == [whole, fraction]
  {
    var parts := [whole, fraction];
    assert parts[1..] == [fraction] && Join(parts, ".") == whole + "." + fraction;
    SplitJoinChar(parts, '.');
  }

  /** The parser accepts the texts of decimals, all of them and nothing else, and yields what they denote. */
  lemma ParsesExactly(s: string, d: Decimal)
    ensures ParseDecimal(s) == Some(d) <==> IsDecimal(d) && s == DecimalText(d)
  {
    if ParseDecimal(s) == Some(d) {
      var parts := Split(s, ".");
      JoinSplit(s, ".");
      assert |parts| == 2 ==> parts[1..] == [parts[1]] && s == parts[0] + "." + parts[1];
    }
    if IsDecimal(d) && s == DecimalText(d) {
      DigitsHaveNoPoint(d.whole);
      DigitsHaveNoPoint(d.fraction);
      if d.fraction == "" {
        CharFreeIsClean(d.whole, '.');
      } else {
        SplitAtPoint(d.whole, d.fraction);
      }
    }
  }

  /** `(fraction + "0000000").slice(0, 7)`, for any number of digits. */
  function Cut(fraction: string, decimals: nat): (r: string)
    requires AllDigits(fraction)
    ensures |r| == decimals && AllDigits(r)
  {
    (fraction + Zeros(decimals))[..decimals]
  }

  function XlmToStroops(amount: string): Option<nat> {
    var parsed := ParseDecimal(Trim(amount));
    if parsed.None? then None
    else Some(DigitsValue(parsed.value.whole) * Pow10(7) + DigitsValue(Cut(parsed.value.fraction, 7)))
  }

  /** `fractionPadded`: with 0 decimals the slice still asks for one digit. */
  function TokenFraction(fraction: string, decimals: nat): (r: string)
    requires AllDigits(fraction)
    ensures AllDigits(r)
  {
    var padded := fraction + Zeros(decimals);
    var length := if decimals == 0 then 1 else decimals;
    if length <= |padded| then padded[..length] else padded
  }

  function TokenUnits(d: Decimal, decimals: nat): nat
    requires IsDecimal(d)
  {
    DigitsValue(d.whole) * Pow10(decimals) + DigitsValue(TokenFraction(d.fraction, decimals))
  }

  function TokenAmountToBaseUnits(amount: string, decimals: int): Option<nat> {
    if decimals < 0 || decimals > 18 then None
    else
      var parsed := ParseDecimal(Trim(amount));
      if parsed.None? then None else Some(TokenUnits(parsed.value, decimals))
  }

  /** The floor of a decimal times 10^decimals, on the exact rational that it denotes. */
  function FloorScaled(d: Decimal, decimals: nat): int
    requires IsDecimal(d)
  {
    var k := |d.fraction|;
    (DigitsValue(d.whole) * Pow10(k) + DigitsValue(d.fraction)) * Pow10(decimals) / Pow10(k)
  }

  lemma {:induction false} Pow10Add(a: nat, b: nat)
    ensures Pow10(a + b) == Pow10(a) * Pow10(b)
  {
    if a > 0 {
      Pow10Add(a - 1, b);
      assert 10 * (Pow10(a - 1) * Pow10(b)) == (10 * Pow10(a - 1)) * Pow10(b);
    }
  }

  lemma MultipleOf(f: int, p: int, k: int, r: int)
    requires k > 0 && p == k * r
    ensures f * p / k == f * r
  {
    assert f * p == k * (f * r);
    Decomposition(f * p, k, f * r, 0);
  }

  lemma CutAlgebra(f: int, q: int, c: int, r: int, p: int, m: int)
    requires 0 <= r < c && p > 0 && f == q * c + r && m == c * p
    ensures f * p / m == q
  {
    assert f * p == m * q + r * p;
    MulMonotone(0, r, p);
    MulStrict(r, c, p);
    Decomposition(f * p, m, q, r * p);
  }

  lemma CutPads(fraction: string, decimals: nat)
    requires AllDigits(fraction) && |fraction| <= decimals
    ensures Cut(fraction, decimals) == fraction + Zeros(decimals - |fraction|)
    ensures DigitsValue(Cut(fraction, decimals)) == DigitsValue(fraction) * Pow10(decimals - |fraction|)
  {
    DigitsValueConcat(fraction, Zeros(decimals - |fraction|));
    ZerosValue(decimals - |fraction|);
  }

  lemma CutShortens(fraction: string, decimals: nat)
    requires AllDigits(fraction) && decimals <= |fraction|
    ensures var cut := DigitsValue(fraction[decimals..]);
            && DigitsValue(fraction) == DigitsValue(Cut(fraction, decimals)) * Pow10(|fraction| - decimals) + cut
            && cut < Pow10(|fraction| - decimals)
  {
    assert Cut(fraction, decimals) == fraction[..decimals];
    assert fraction == fraction[..decimals] + fraction[decimals..];
    DigitsValueConcat(fraction[..decimals], fraction[decimals..]);
    DigitsValueBound(fraction[decimals..]);
  }

  /** Padding with zeros and cutting to `decimals` digits keeps exactly the digits that count. */
  lemma CutFraction(fraction: string, decimals: nat)
    requires AllDigits(fraction)
    ensures DigitsValue(Cut(fraction, decimals)) == DigitsValue(fraction) * Pow10(decimals) / Pow10(|fraction|)
  {
    var k := |fraction|;
    if decimals >= k {
      CutPads(fraction, decimals);
      Pow10Add(k, decimals - k);
      MultipleOf(DigitsValue(fraction), Pow10(decimals), Pow10(k), Pow10(decimals - k));
    } else {
      CutShortens(fraction, decimals);
      Pow10Add(k - decimals, decimals);
      CutAlgebra(DigitsValue(fraction), DigitsValue(Cut(fraction, decimals)), Pow10(k - decimals),
                 DigitsValue(fraction[decimals..]), Pow10(decimals), Pow10(k));
    }
  }

  lemma SplitAlgebra(w: int, m: int, f: int, p: int)
    requires m > 0
    ensures (w * m + f) * p / m == w * p + f * p / m
  {
    var q, r := f * p / m, f * p % m;
    assert f * p == m * q + r;
    assert (w * m + f) * p == m * (w * p) + f * p;
    assert m * (w * p) + m * q == m * (w * p + q);
    Decomposition((w * m + f) * p, m, w * p + q, r);
  }

  /** The whole part can be taken out of the floor. */
  lemma FloorScaledSplit(d: Decimal, decimals: nat)
    requires IsDecimal(d)
    ensures FloorScaled(d, decimals)
         == DigitsValue(d.whole) * Pow10(decimals) + DigitsValue(d.fraction) * Pow10(decimals) / Pow10(|d.fraction|)
  {
    SplitAlgebra(DigitsValue(d.whole), Pow10(|d.fraction|), DigitsValue(d.fraction), Pow10(decimals));
  }

  lemma NoDecimalsAlgebra(w: int, m: int, f: int)
    requires 0 <= f < m
    ensures (w * m + f) * 1 / m == w
  {
    assert w * m == m * w;
    Decomposition(w * m + f, m, w, f);
  }

  /** Dropping the fraction altogether is the floor for 0 decimals. */
  lemma FloorOfNoDecimals(d: Decimal)
    requires IsDecimal(d)
    ensures FloorScaled(d, 0) == DigitsValue(d.whole)
  {
    DigitsValueBound(d.fraction);
    NoDecimalsAlgebra(DigitsValue(d.whole), Pow10(|d.fraction|), DigitsValue(d.fraction));
  }

  /** With 0 decimals the code adds the first fraction digit, if there is one. */
  lemma NoDecimalsAddsDigit(d: Decimal)
    requires IsDecimal(d)
    ensures TokenUnits(d, 0)
         == DigitsValue(d.whole) + if d.fraction == [] then 0 else DigitValue(d.fraction[0])
  {
    assert d.fraction + Zeros(0) == d.fraction && Pow10(0) == 1;
    if d.fraction == [] {
      assert TokenFraction(d.fraction, 0) == "";
    } else {
      var digit := TokenFraction(d.fraction, 0);
      assert digit == [d.fraction[0]] && digit[..|digit| - 1] == "";
      assert DigitsValue(digit) == DigitValue(d.fraction[0]);
    }
  }

  lemma SomeDecimalsFloor(d: Decimal, decimals: nat)
    requires IsDecimal(d) && decimals > 0
    ensures TokenUnits(d, decimals) == FloorScaled(d, decimals)
  {
    FloorScaledSplit(d, decimals);
    CutFraction(d.fraction, decimals);
    assert TokenFraction(d.fraction, decimals) == Cut(d.fraction, decimals);
  }

  /**
   * For 1 to 18 decimals the result is the exact floor of the amount times 10^decimals. For 0
   * decimals it is so exactly when the fraction is absent or starts with 0: otherwise the code
   * adds the first fraction digit to the whole part.
   */
  lemma TokenAmountIsFloor(amount: string, decimals: nat)
    requires decimals <= 18 && ParseDecimal(Trim(amount)).Some?
    ensures var d := ParseDecimal(Trim(amount)).value;
            TokenAmountToBaseUnits(amount, decimals) == Some(FloorScaled(d, decimals)) <==>
            decimals > 0 || d.fraction == [] || d.fraction[0] == '0'
  {
    var d := ParseDecimal(Trim(amount)).value;
    if decimals > 0 {
      SomeDecimalsFloor(d, decimals);
    } else {
      FloorOfNoDecimals(d);
      NoDecimalsAddsDigit(d);
    }
  }

  lemma XlmToStroopsIsFloor(amount: string)
    ensures XlmToStroops(amount).None? <==> ParseDecimal(Trim(amount)).None?
    ensures ParseDecimal(Trim(amount)).Some? ==>
              XlmToStroops(amount) == Some(FloorScaled(ParseDecimal(Trim(amount)).value, 7))
    ensures XlmToStroops(amount) == TokenAmountToBaseUnits(amount, 7)
  {
    if ParseDecimal(Trim(amount)).Some? {
      var d := ParseDecimal(Trim(amount)).value;
      FloorScaledSplit(d, 7);
      CutFraction(d.fraction, 7);
      assert TokenFraction(d.fraction, 7) == Cut(d.fraction, 7);
    }
  }

  lemma DigitIsNoSpace(c: char)
    requires IsDigit(c)
    ensures !IsSpace(c)
  {
  }

  lemma DigitsAreTrimmed(s: string)
    requires s != [] && IsDigit(s[0]) && IsDigit(s[|s| - 1])
    ensures Trim(s) == s
  {
    DigitIsNoSpace(s[0]);
    DigitIsNoSpace(s[|s| - 1]);
    TrimFixpoint(s);
  }

  /** An amount that matches the pattern carries no white space for `trim` to remove. */
  lemma DecimalIsTrimmed(s: string)
    requires ParseDecimal(s).Some?
    ensures Trim(s) == s
  {
    var parts := Split(s, ".");
    JoinSplit(s, ".");
    if |parts| == 1 {
      assert s == parts[0];
    } else {
      assert parts[1..] == [parts[1]] && s == parts[0] + "." + parts[1];
    }
    DigitsAreTrimmed(s);
  }

  /** No digit up to the seventh after the point is anything but 0. */
  predicate BelowOneStroop(d: Decimal) {
    && (forall i :: 0 <= i < |d.whole| ==> d.whole[i] == '0')
    && forall i :: 0 <= i < |d.fraction| && i < 7 ==> d.fraction[i] == '0'
  }

  lemma {:induction false} DigitsValueZero(s: string)
    requires AllDigits(s)
    ensures DigitsValue(s) == 0 <==> forall i :: 0 <= i < |s| ==> s[i] == '0'
  {
    if s != [] {
      DigitsValueZero(s[..|s| - 1]);
      assert forall i :: 0 <= i < |s| - 1 ==> s[..|s| - 1][i] == s[i];
    }
  }

  /** The amounts that are worth nothing. */
  lemma WorthNothing(amount: string)
    requires ParseDecimal(Trim(amount)).Some?
    ensures XlmToStroops(amount) == Some(0) <==> BelowOneStroop(ParseDecimal(Trim(amount)).value)
  {
    var d := ParseDecimal(Trim(amount)).value;
    var cut := Cut(d.fraction, 7);
    DigitsValueZero(d.whole);
    DigitsValueZero(cut);
    assert forall i :: 0 <= i < 7 ==> cut[i] == if i < |d.fraction| then d.fraction[i] else '0';
  }

  // ----- Printing -----

  /** `s.padStart(width, "0")` */
  function PadStart(s: string, width: nat): string {
    if |s| >= width then s else Zeros(width - |s|) + s
  }

  /** `s.replace(/0+$/, "")` */
  function StripZeros(s: string): (t: string)
    ensures |t| <= |s| && s == t + Zeros(|s| - |t|)
  {
    if s != [] && s[|s| - 1] == '0' then
      var t := StripZeros(s[..|s| - 1]);
      assert s == s[..|s| - 1] + "0";
      assert t + (Zeros(|s| - 1 - |t|) + "0") == (t + Zeros(|s| - 1 - |t|)) + "0";
      t
    else s
  }

  function FractionText(frac: int): string {
    var stripped := StripZeros(PadStart(IntString(frac), 7));
    if stripped == "" then "0" else stripped
  }

  function StroopsToXlm(s: int): string {
    IntString(TruncDiv(s, Pow10(7))) + "." + FractionText(TruncMod(s, Pow10(7)))
  }

  lemma PadStartValue(text: string, width: nat)
    requires IsDigits(text) && |text| <= width
    ensures var padded := PadStart(text, width);
            IsDigits(padded) && |padded| == width && DigitsValue(padded) == DigitsValue(text)
  {
    if |text| < width {
      DigitsValueConcat(Zeros(width - |text|), text);
      ZerosValue(width - |text|);
    }
  }

  /** Padding on the right restores the zeros that were stripped, or the ones that "0" replaces. */
  lemma StripThenCut(padded: string)
    requires IsDigits(padded)
    ensures var stripped := StripZeros(padded);
            var text := if stripped == "" then "0" else stripped;
            IsDigits(text) && |text| <= |padded| && Cut(text, |padded|) == padded
  {
    var stripped := StripZeros(padded);
    assert forall i :: 0 <= i < |stripped| ==> stripped[i] == padded[i];
    if stripped == "" {
      assert padded == Zeros(|padded|);
    }
  }

  /** What is printed after the point, padded again, is the seven digits that were there before. */
  lemma FractionTextValue(frac: nat)
    requires frac < Pow10(7)
    ensures IsDigits(FractionText(frac)) && DigitsValue(Cut(FractionText(frac), 7)) == frac
  {
    NatStringLength(frac, 7);
    PadStartValue(NatString(frac), 7);
    StripThenCut(PadStart(NatString(frac), 7));
  }

  lemma StripKeeps(s: string, c: char)
    requires c in s && c != '0'
    ensures c in StripZeros(s)
  {
    var t := StripZeros(s);
    var i :| 0 <= i < |s| && s[i] == c;
    var z := Zeros(|s| - |t|);
    assert s == t + z && forall j :: 0 <= j < |z| ==> z[j] == '0';
    assert c !in z;
  }

  /** A negative amount leaves a minus sign in the text, in front or after the point. */
  lemma NegativeHasMinus(s: int)
    requires s < 0
    ensures '-' in StroopsToXlm(s)
  {
    var p := Pow10(7);
    var whole, frac := TruncDiv(s, p), TruncMod(s, p);
    if whole < 0 {
      assert IntString(whole)[0] == '-';
      assert StroopsToXlm(s)[0] == '-';
    } else {
      assert frac < 0;
      var text := IntString(frac);
      assert text[0] == '-';
      var padded := PadStart(text, 7);
      assert padded == Zeros(|padded| - |text|) + text;
      assert padded[|padded| - |text|] == '-';
      StripKeeps(padded, '-');
      var fraction := FractionText(frac);
      assert '-' in fraction && StroopsToXlm(s) == (IntString(whole) + ".") + fraction;
    }
  }

  lemma {:induction false} JoinMembers(parts: seq<string>, c: char)
    requires forall p :: p in parts ==> AllDigits(p)
    requires c in Join(parts, ".")
    ensures IsDigit(c) || c == '.'
  {
    if |parts| == 1 {
      assert parts[0] in parts;
    } else if |parts| > 1 {
      assert parts[0] in parts && forall p :: p in parts[1..] ==> p in parts;
      if c !in parts[0] && c != '.' {
        JoinMembers(parts[1..], c);
      }
    }
  }

  lemma MinusIsRejected(s: string)
    requires '-' in s
    ensures ParseDecimal(s).None?
  {
    var parts := Split(s, ".");
    JoinSplit(s, ".");
    if forall p :: p in parts ==> AllDigits(p) {
      JoinMembers(parts, '-');
      assert false;
    }
  }

  lemma ParsePrinted(text: string, whole: nat, fraction: string)
    requires IsDigits(fraction) && text == NatString(whole) + "." + fraction
    ensures XlmToStroops(text) == Some(whole * Pow10(7) + DigitsValue(Cut(fraction, 7)))
  {
    DigitsAreTrimmed(text);
    SplitAtPoint(NatString(whole), fraction);
  }

  lemma NegativeIsRejected(s: int)
    requires s < 0
    ensures XlmToStroops(StroopsToXlm(s)) == None
  {
    NegativeHasMinus(s);
    TrimKeeps(StroopsToXlm(s), '-');
    MinusIsRejected(Trim(StroopsToXlm(s)));
  }

  lemma PrintedParts(s: nat, unit: int)
    requires unit == Pow10(7)
    ensures StroopsToXlm(s) == NatString(s / unit) + "." + FractionText(s % unit)
  {
  }

  lemma QuotientAndRemainder(s: int, unit: int)
    requires unit > 0
    ensures (s / unit) * unit + s % unit == s
  {
  }

  lemma PrintedTextParses(s: nat, unit: int, text: string)
    requires unit == Pow10(7) && text == NatString(s / unit) + "." + FractionText(s % unit)
    ensures XlmToStroops(text) == Some(s)
  {
    var whole, frac := s / unit, s % unit;
    FractionTextValue(frac);
    ParsePrinted(text, whole, FractionText(frac));
    QuotientAndRemainder(s, unit);
  }

  lemma NonNegativeRoundTrips(s: nat, text: string)
    requires text == StroopsToXlm(s)
    ensures XlmToStroops(text) == Some(s)
  {
    PrintedParts(s, Pow10(7));
    PrintedTextParses(s, Pow10(7), text);
  }

  /** Printing and parsing again gives the amount back exactly when it is not negative. */
  lemma StroopsRoundTrip(s: int)
    ensures XlmToStroops(StroopsToXlm(s)) == (if s >= 0 then Some(s) else None)
  {
    if s >= 0 {
      NonNegativeRoundTrips(s, StroopsToXlm(s));
    } else {
      NegativeIsRejected(s);
    }
  }

  /** A whole amount typed without a point is that many XLM, and base units of any token. */
  lemma WholeAmounts(n: nat, decimals: nat)
    requires decimals <= 18
    ensures XlmToStroops(NatString(n)) == Some(n * Pow10(7))
    ensures TokenAmountToBaseUnits(NatString(n), decimals) == Some(n * Pow10(decimals))
  {
    var d := Decimal(NatString(n), "");
    DigitsAreTrimmed(NatString(n));
    ParsesExactly(NatString(n), d);
    ZerosValue(7);
    ZerosValue(decimals);
    assert Cut("", 7) == Zeros(7);
    assert TokenFraction("", decimals) == Zeros(decimals);
  }

  /** Base units exist for at most 18 decimals and for the texts of decimals only. */
  lemma RejectedAmounts(amount: string, decimals: int)
    ensures TokenAmountToBaseUnits(amount, decimals).None? <==>
              decimals < 0 || decimals > 18 || forall d :: IsDecimal(d) ==> Trim(amount) != DecimalText(d)
  {
    if ParseDecimal(Trim(amount)).Some? {
      var d := ParseDecimal(Trim(amount)).value;
      ParsesExactly(Trim(amount), d);
    } else {
      forall d | IsDecimal(d)
        ensures Trim(amount) != DecimalText(d)
      {
        ParsesExactly(Trim(amount), d);
      }
    }
  }

  lemma {:induction false} StripsAll(s: string)
    ensures StripZeros(s) == "" || StripZeros(s)[|StripZeros(s)| - 1] != '0'
  {
    if s != [] && s[|s| - 1] == '0' {
      StripsAll(s[..|s| - 1]);
    }
  }

  /**
   * The text of a non-negative amount: the whole part without leading zeros, a point, and one to seven digits that
   * do not end in 0 unless they are just "0".
   */
  lemma PrintedCanonically(s: nat, whole: string, fraction: string)
    requires whole == IntString(s / Pow10(7)) && fraction == FractionText(s % Pow10(7))
    ensures StroopsToXlm(s) == whole + "." + fraction
    ensures IsDigits(whole) && (whole == "0" || whole[0] != '0')
    ensures IsDigits(fraction) && |fraction| <= 7 && (fraction == "0" || fraction[|fraction| - 1] != '0')
  {
    var unit := Pow10(7);
    PrintedParts(s, unit);
    FractionTextValue(s % unit);
    NatStringLength(s % unit, 7);
    PadStartValue(NatString(s % unit), 7);
    StripsAll(PadStart(NatString(s % unit), 7));
  }
}
