/** Decimal amounts: the CLI's printer, Rust's integer parser, and the enclave's amount parser.
    A Rust string is its UTF-8 bytes. */
module Decimal {
  import opened Base

  const DOT: Byte := 46
  const PLUS: Byte := 43
  const ZERO: Byte := 48
  const SCALE_1E18: nat := 1_000_000_000_000_000_000

  predicate IsDigit(b: Byte) {
    48 <= b <= 57
  }

  predicate AllDigits(s: Bytes) {
    forall i :: 0 <= i < |s| ==> IsDigit(s[i])
  }

  /** The number a digit string denotes; the empty string denotes zero. */
  function Value(s: Bytes): (v: nat)
    requires AllDigits(s)
  {
    if s == [] then 0 else 10 * Value(s[..|s| - 1]) + (s[|s| - 1] - 48)
  }

  /** Decimal digits of a number, as `to_string` prints it. */
  function Print(n: nat): (r: Bytes)
    ensures r != [] && AllDigits(r)
  {
    if n < 10 then [48 + n] else Print(n / 10) + [48 + n % 10]
  }

  /** `v` times ten to the `k`. */
  function Shift(v: nat, k: nat): (r: nat)
    ensures r >= v
    ensures v == 0 ==> r == 0
  {
    if k == 0 then v else 10 * Shift(v, k - 1)
  }

  lemma {:induction false} ShiftTwice(v: nat, j: nat, k: nat)
    ensures Shift(Shift(v, j), k) == Shift(v, j + k)
  {
    if k > 0 { ShiftTwice(v, j, k - 1); }
  }

  lemma {:induction false} ShiftSum(u: nat, v: nat, k: nat)
    ensures Shift(u + v, k) == Shift(u, k) + Shift(v, k)
  {
    if k > 0 { ShiftSum(u, v, k - 1); }
  }

  lemma Shift6(v: nat)
    ensures Shift(v, 6) == 1_000_000 * v
  {
    assert Shift(v, 1) == 10 * v;
    assert Shift(v, 2) == 100 * v;
    assert Shift(v, 3) == 1_000 * v;
    assert Shift(v, 4) == 10_000 * v;
    assert Shift(v, 5) == 100_000 * v;
  }

  lemma Shift18(v: nat)
    ensures Shift(v, 18) == v * 1_000_000_000_000_000_000
  {
    Shift6(v);
    Shift6(Shift(v, 6));
    Shift6(Shift(v, 12));
    ShiftTwice(v, 6, 6);
    ShiftTwice(v, 12, 6);
  }

  lemma {:induction false} ShiftMonotone(u: nat, v: nat, j: nat, k: nat)
    requires u <= v && j <= k
    ensures Shift(u, j) <= Shift(v, k)
  {
    if j > 0 {
      ShiftMonotone(u, v, j - 1, k - 1);
    }
  }

  lemma {:induction false} ValueOfPrint(n: nat)
    ensures Value(Print(n)) == n
  {
    if n >= 10 {
      ValueOfPrint(n / 10);
      assert Print(n)[..|Print(n)| - 1] == Print(n / 10);
    } else {
      assert Print(n)[..0] == [];
    }
  }

  lemma PrintInjective(m: nat, n: nat)
    requires Print(m) == Print(n)
    ensures m == n
  {
    ValueOfPrint(m);
    ValueOfPrint(n);
  }

  lemma {:induction false} ValueAppend(a: Bytes, b: Bytes)
    requires AllDigits(a) && AllDigits(b)
    ensures AllDigits(a + b)
    ensures Value(a + b) == Shift(Value(a), |b|) + Value(b)
  {
    if b == [] {
      assert a + b == a;
    } else {
      var front := b[..|b| - 1];
      ValueAppend(a, front);
      assert (a + b)[..|a + b| - 1] == a + front;
    }
  }

  lemma {:induction false} ValueBound(s: Bytes)
    requires AllDigits(s)
    ensures Value(s) < Shift(1, |s|)
  {
    if s != [] { ValueBound(s[..|s| - 1]); }
  }

  // ----- Rust's `str::parse::<u128>` -----

  /** One optional leading plus, then at least one digit, and a value below 2^128. */
  function ParseU128(s: Bytes): (r: Option<U128>) {
    var digits := if s != [] && s[0] == PLUS then s[1..] else s;
    if digits == [] || !AllDigits(digits) || Value(digits) >= TWO_128 then None
    else Some(Value(digits))
  }

  lemma ParsePlain(s: Bytes)
    requires PLUS !in s
    ensures ParseU128(s) == if s != [] && AllDigits(s) && Value(s) < TWO_128 then Some(Value(s)) else None
  {}

  lemma DigitsArePlain(s: Bytes)
    requires AllDigits(s)
    ensures PLUS !in s && DOT !in s
  {
    forall b | b in s ensures IsDigit(b) {}
  }

  // ----- normalize_amount -----

  datatype AmountError = TooManyDecimals | InvalidBase | BaseOverflow | InvalidAtto | AmountOverflow

  /** `checked_mul` by the fixed-point scale. */
  function ScaleUp(a: U256): (r: Option<U256>) {
    if a * 1_000_000_000_000_000_000 < TWO_256 then Some(a * 1_000_000_000_000_000_000) else None
  }

  function CheckedAdd(a: nat, b: nat): (r: Option<U256>) {
    if a + b < TWO_256 then Some(a + b) else None
  }

  /** Index of the first dot, or the length when there is none. */
  function DotIndex(s: Bytes): (i: nat)
    ensures i <= |s|
    ensures i < |s| ==> s[i] == DOT
    ensures forall k :: 0 <= k < i ==> s[k] != DOT
  {
    if s == [] || s[0] == DOT then 0 else 1 + DotIndex(s[1..])
  }

  /** An absent part counts as zero. */
  function PartValue(part: Bytes): (r: Option<U128>) {
    if part == [] then Some(0) else ParseU128(part)
  }

  lemma PartPlain(part: Bytes)
    requires PLUS !in part
    ensures PartValue(part) == if AllDigits(part) && Value(part) < TWO_128 then Some(Value(part)) else None
  {
    ParsePlain(part);
  }

  /** The part before the dot and the part after it. */
  function BaseParts(intPart: Bytes, fracPart: Bytes): (r: Result<U256, AmountError>) {
    if |fracPart| > 18 then Err(TooManyDecimals)
    else
      var intVal, fracVal := PartValue(intPart), PartValue(fracPart);
      if intVal.None? || fracVal.None? then Err(InvalidBase)
      else
        AddScaled(intVal.value, Shift(fracVal.value, 18 - |fracPart|))
  }

  /** The whole part scaled, plus the fraction in minor units. */
  function AddScaled(whole: U256, minor: nat): (r: Result<U256, AmountError>) {
    match ScaleUp(whole)
    case None => Err(BaseOverflow)
    case Some(scaled) =>
      match CheckedAdd(scaled, minor)
      case None => Err(BaseOverflow)
      case Some(total) => Ok(total)
  }

  function BaseMinor(base: Bytes): (r: Result<U256, AmountError>) {
    var dot := DotIndex(base);
    if dot < |base| then BaseParts(base[..dot], base[dot + 1..])
    else
      match ParseU128(base)
      case None => Err(InvalidBase)
      case Some(v) =>
        match ScaleUp(v)
        case None => Err(BaseOverflow)
        case Some(scaled) => Ok(scaled)
  }

  function NormalizeAmount(base: Bytes, atto: Bytes): (r: Result<U256, AmountError>) {
    match BaseMinor(base)
    case Err(e) => Err(e)
    case Ok(minor) =>
      match ParseU128(atto)
      case None => Err(InvalidAtto)
      case Some(v) =>
        match CheckedAdd(minor, v)
        case None => Err(AmountOverflow)
        case Some(total) => Ok(total)
  }

  lemma ShiftFits(v: U128, k: nat)
    requires k <= 18
    ensures Shift(v, k) <= v * 1_000_000_000_000_000_000
  {
    ShiftMonotone(v, v, k, 18);
    Shift18(v);
  }

  /** Parsed parts never overflow when added. */
  lemma AddScaledFits(whole: U128, minor: nat, total: nat)
    requires minor <= TWO_128 * 1_000_000_000_000_000_000 && total == whole * 1_000_000_000_000_000_000 + minor
    ensures total < TWO_256 && AddScaled(whole, minor) == Ok(total)
  {}

  /** An upper bound on every amount the parser can return. */
  const MAX_AMOUNT: nat := 2 * TWO_128 * 1_000_000_000_000_000_000 + TWO_128

  /** The base part stays below the bound, less what an atto count can add. */
  lemma BaseNeverOverflows(base: Bytes)
    ensures BaseMinor(base) != Err(BaseOverflow)
    ensures BaseMinor(base) != Err(AmountOverflow)
    ensures BaseMinor(base).Ok? ==> BaseMinor(base).value <= 2 * TWO_128 * 1_000_000_000_000_000_000
  {
    var dot := DotIndex(base);
    if dot < |base| {
      PartsNeverOverflow(base[..dot], base[dot + 1..]);
    }
  }

  lemma PartsNeverOverflow(i: Bytes, f: Bytes)
    ensures BaseParts(i, f) != Err(BaseOverflow)
    ensures BaseParts(i, f) != Err(AmountOverflow)
    ensures BaseParts(i, f).Ok? ==> BaseParts(i, f).value <= 2 * TWO_128 * 1_000_000_000_000_000_000
  {
    var intVal, fracVal := PartValue(i), PartValue(f);
    if |f| <= 18 && intVal.Some? && fracVal.Some? {
      ShiftFits(fracVal.value, 18 - |f|);
      var minor := Shift(fracVal.value, 18 - |f|);
      AddScaledFits(intVal.value, minor, (intVal.value as int) * 1_000_000_000_000_000_000 + minor);
    }
  }

  /** No overflow reject is reachable, and every accepted amount leaves room for the nominal computation. */
  lemma NormalizeNeverOverflows(base: Bytes, atto: Bytes)
    ensures BaseMinor(base) != Err(BaseOverflow)
    ensures NormalizeAmount(base, atto) != Err(BaseOverflow)
    ensures NormalizeAmount(base, atto) != Err(AmountOverflow)
    ensures NormalizeAmount(base, atto).Ok? ==> NormalizeAmount(base, atto).value <= MAX_AMOUNT
    ensures MAX_AMOUNT * SCALE_1E18 < TWO_256
  {
    BaseNeverOverflows(base);
  }

  // ----- What the accepted strings denote -----

  /** `digits` or `digits.digits`: at most 18 fraction digits, whole part below 2^128, and not the empty string. */
  predicate PlainDecimal(base: Bytes) {
    var dot := DotIndex(base);
    && AllDigits(base[..dot])
    && Value(base[..dot]) < TWO_128
    && (if dot < |base| then AllDigits(base[dot + 1..]) && |base[dot + 1..]| <= 18 else base != [])
  }

  function FractionDigits(base: Bytes): (f: Bytes) {
    var dot := DotIndex(base);
    if dot < |base| then base[dot + 1..] else []
  }

  /** The digits of a base, without the point. */
  function Digits(base: Bytes): (d: Bytes) {
    base[..DotIndex(base)] + FractionDigits(base)
  }

  lemma FractionParses(f: Bytes)
    requires AllDigits(f) && |f| <= 18
    ensures Value(f) < TWO_128
  {
    ValueBound(f);
    ShiftMonotone(1, 1, |f|, 18);
    Shift18(1);
  }

  /** Two parsed parts: the fraction is at most one whole, so the sum fits. */
  lemma PartsSum(i: Bytes, f: Bytes, v: U128, w: U128)
    requires |f| <= 18 && PartValue(i) == Some(v) && PartValue(f) == Some(w)
    ensures BaseParts(i, f).Ok? && BaseParts(i, f).value == v * SCALE_1E18 + Shift(w, 18 - |f|)
  {
    var minor := Shift(w, 18 - |f|);
    ShiftFits(w, 18 - |f|);
    AddScaledFits(v, minor, v * SCALE_1E18 + minor);
  }

  lemma PartsAreExact(i: Bytes, f: Bytes)
    requires PLUS !in i && PLUS !in f
    ensures BaseParts(i, f).Ok? <==> AllDigits(i) && Value(i) < TWO_128 && AllDigits(f) && |f| <= 18
    ensures BaseParts(i, f).Ok? ==> BaseParts(i, f).value == Value(i) * SCALE_1E18 + Shift(Value(f), 18 - |f|)
  {
    PartPlain(i);
    PartPlain(f);
    if AllDigits(f) && |f| <= 18 {
      FractionParses(f);
      if AllDigits(i) && Value(i) < TWO_128 { PartsSum(i, f, Value(i), Value(f)); }
    }
  }

  /** What the base string alone contributes. */
  lemma BaseIsExact(base: Bytes)
    requires PLUS !in base
    ensures BaseMinor(base).Ok? <==> PlainDecimal(base)
    ensures PlainDecimal(base) ==>
              && AllDigits(FractionDigits(base)) && |FractionDigits(base)| <= 18
              && BaseMinor(base).value == Value(base[..DotIndex(base)]) * SCALE_1E18
                   + Shift(Value(FractionDigits(base)), 18 - |FractionDigits(base)|)
  {
    var dot := DotIndex(base);
    if dot == |base| {
      assert base[..dot] == base;
      ParsePlain(base);
    } else {
      PartsAreExact(base[..dot], base[dot + 1..]);
    }
  }

  /** Plus-free input is accepted exactly when it is a plain decimal and a plain atto count, and the two add up. */
  lemma NormalizeAccepts(base: Bytes, atto: Bytes)
    requires PLUS !in base && PLUS !in atto
    ensures NormalizeAmount(base, atto).Ok? <==>
            PlainDecimal(base) && atto != [] && AllDigits(atto) && Value(atto) < TWO_128
    ensures NormalizeAmount(base, atto).Ok? ==>
              NormalizeAmount(base, atto).value == BaseMinor(base).value + Value(atto)
  {
    NormalizeNeverOverflows(base, atto);
    ParsePlain(atto);
    BaseIsExact(base);
  }

  /** Reading all digits of a plain base as one integer, the decimal point has moved the 18 places it should. */
  lemma BaseDigitsExact(base: Bytes)
    requires PLUS !in base && PlainDecimal(base)
    ensures BaseMinor(base).Ok? && AllDigits(Digits(base))
    ensures Shift(BaseMinor(base).value, |FractionDigits(base)|) == Value(Digits(base)) * SCALE_1E18
  {
    BaseIsExact(base);
    var intPart, frac := base[..DotIndex(base)], FractionDigits(base);
    ValueAppend(intPart, frac);
    MovePoint(Value(intPart), Value(frac), |frac|);
  }

  /** An accepted plus-free input yields the atto count plus exactly its decimal value in units of 10^-18. */
  lemma NormalizeIsExact(base: Bytes, atto: Bytes)
    requires PLUS !in base && PLUS !in atto && NormalizeAmount(base, atto).Ok?
    ensures AllDigits(Digits(base)) && AllDigits(atto) && BaseMinor(base).Ok?
    ensures NormalizeAmount(base, atto).value == BaseMinor(base).value + Value(atto)
    ensures Shift(BaseMinor(base).value, |FractionDigits(base)|) == Value(Digits(base)) * SCALE_1E18
  {
    NormalizeAccepts(base, atto);
    BaseDigitsExact(base);
  }

  lemma ShiftSwap(i: nat, n: nat, d: nat)
    ensures Shift(Shift(i, n), d) == Shift(Shift(i, d), n)
  {
    ShiftTwice(i, n, d);
    ShiftTwice(i, d, n);
  }

  lemma ShiftRest(f: nat, n: nat, d: nat)
    requires d <= n
    ensures Shift(Shift(f, n - d), d) == Shift(f, n)
  {
    ShiftTwice(f, n - d, d);
    assert n - d + d == n;
  }

  lemma MoveShift(i: nat, f: nat, n: nat, d: nat)
    requires d <= n
    ensures Shift(Shift(i, n) + Shift(f, n - d), d) == Shift(Shift(i, d) + f, n)
  {
    var a, b, c := Shift(i, n), Shift(f, n - d), Shift(i, d);
    assert Shift(a, d) == Shift(c, n) by { ShiftSwap(i, n, d); }
    assert Shift(b, d) == Shift(f, n) by { ShiftRest(f, n, d); }
    ShiftSum(a, b, d);
    ShiftSum(c, f, n);
  }

  lemma MovePoint(i: nat, f: nat, d: nat)
    requires d <= 18
    ensures Shift(i * SCALE_1E18 + Shift(f, 18 - d), d) == (Shift(i, d) + f) * SCALE_1E18
  {
    Shift18(i);
    MoveShift(i, f, 18, d);
    Shift18(Shift(i, d) + f);
  }

  // ----- format_unit -----

  function Zeros(n: nat): (r: Bytes)
    ensures |r| == n && AllDigits(r)
  {
    seq(n, _ => ZERO)
  }

  function PadLeft(s: Bytes, width: nat): (r: Bytes) {
    if |s| >= width then s else Zeros(width - |s|) + s
  }

  function TrimZeros(s: Bytes): (r: Bytes)
    ensures r <= s
  {
    if s != [] && s[|s| - 1] == ZERO then TrimZeros(s[..|s| - 1]) else s
  }

  function FormatUnit(value: U256): (r: Bytes) {
    if value == 0 then [ZERO]
    else
      FormatParts(value / 1_000_000_000_000_000_000, value % 1_000_000_000_000_000_000)
  }

  function FormatParts(whole: nat, frac: nat): (r: Bytes) {
    if frac == 0 then Print(whole)
    else Print(whole) + [DOT] + TrimZeros(PadLeft(Print(frac), 18))
  }

  lemma {:induction false} ZerosDenoteZero(n: nat)
    ensures Value(Zeros(n)) == 0
  {
    if n > 0 {
      ZerosDenoteZero(n - 1);
      assert Zeros(n)[..n - 1] == Zeros(n - 1);
    }
  }

  lemma {:induction false} PrintLength(n: nat, k: nat)
    requires n < Shift(1, k) && k > 0
    ensures |Print(n)| <= k
  {
    if n >= 10 { PrintLength(n / 10, k - 1); }
  }

  lemma PaddedFraction(frac: nat)
    requires frac < SCALE_1E18
    ensures |PadLeft(Print(frac), 18)| == 18
    ensures AllDigits(PadLeft(Print(frac), 18)) && Value(PadLeft(Print(frac), 18)) == frac
  {
    Shift18(1);
    PrintLength(frac, 18);
    var pad := Zeros(18 - |Print(frac)|);
    ZerosDenoteZero(|pad|);
    ValueAppend(pad, Print(frac));
    ValueOfPrint(frac);
    if |Print(frac)| == 18 { assert pad + Print(frac) == Print(frac); }
  }

  lemma {:induction false} TrimmedValue(s: Bytes)
    requires AllDigits(s)
    ensures AllDigits(TrimZeros(s))
    ensures Value(s) == Shift(Value(TrimZeros(s)), |s| - |TrimZeros(s)|)
  {
    if s != [] && s[|s| - 1] == ZERO {
      TrimmedValue(s[..|s| - 1]);
    }
  }

  lemma DotAfterDigits(a: Bytes, b: Bytes)
    requires AllDigits(a)
    ensures DotIndex(a + [DOT] + b) == |a|
    ensures (a + [DOT] + b)[..|a|] == a && (a + [DOT] + b)[|a| + 1..] == b
  {
    var s := a + [DOT] + b;
    assert s[|a|] == DOT;
    assert forall k :: 0 <= k < |a| ==> s[k] == a[k];
  }

  /** The printed fraction reads back. */
  lemma FractionRoundTrip(frac: nat)
    requires 0 < frac < SCALE_1E18
    ensures var f := TrimZeros(PadLeft(Print(frac), 18));
            && f != [] && |f| <= 18 && ParseU128(f).Some?
            && Shift(ParseU128(f).value, 18 - |f|) == frac
  {
    var padded := PadLeft(Print(frac), 18);
    PaddedFraction(frac);
    TrimmedValue(padded);
    var f := TrimZeros(padded);
    FractionParses(f);
    DigitsArePlain(f);
    ParsePlain(f);
  }

  lemma PrintParses(n: nat)
    ensures ParseU128(Print(n)) == if n < TWO_128 then Some(n) else None
    ensures DotIndex(Print(n)) == |Print(n)|
  {
    ValueOfPrint(n);
    DigitsArePlain(Print(n));
    ParsePlain(Print(n));
  }

  lemma PartsRefuse(p: Bytes, f: Bytes)
    requires p != [] && ParseU128(p) == None
    requires f != [] && |f| <= 18
    ensures BaseParts(p, f) == Err(InvalidBase)
  {}

  lemma PartsAdd(p: Bytes, f: Bytes, v: U128, w: U128, minor: nat)
    requires p != [] && ParseU128(p) == Some(v)
    requires f != [] && |f| <= 18 && ParseU128(f) == Some(w) && Shift(w, 18 - |f|) == minor
    ensures BaseParts(p, f) == AddScaled(v, minor)
  {}

  lemma BaseWithPoint(p: Bytes, f: Bytes)
    requires AllDigits(p)
    ensures BaseMinor(p + [DOT] + f) == BaseParts(p, f)
  {
    DotAfterDigits(p, f);
  }

  lemma BaseOfWhole(whole: nat)
    ensures whole < TWO_128 ==> BaseMinor(Print(whole)) == AddScaled(whole, 0)
    ensures whole >= TWO_128 ==> BaseMinor(Print(whole)) == Err(InvalidBase)
  {
    PrintParses(whole);
    if whole < TWO_128 { AddScaledFits(whole, 0, whole * 1_000_000_000_000_000_000); }
  }

  lemma BaseOfPoint(whole: nat, frac: nat)
    requires 0 < frac < SCALE_1E18
    ensures whole < TWO_128 ==> BaseMinor(FormatParts(whole, frac)) == AddScaled(whole, frac)
    ensures whole >= TWO_128 ==> BaseMinor(FormatParts(whole, frac)) == Err(InvalidBase)
  {
    PrintParses(whole);
    FractionRoundTrip(frac);
    var f := TrimZeros(PadLeft(Print(frac), 18));
    BaseWithPoint(Print(whole), f);
    if whole < TWO_128 {
      PartsAdd(Print(whole), f, whole, ParseU128(f).value, frac);
    } else {
      PartsRefuse(Print(whole), f);
    }
  }

  /** The base the printer writes, read alone. */
  lemma BaseOfFormat(whole: nat, frac: nat, value: nat)
    requires frac < SCALE_1E18 && value == whole * 1_000_000_000_000_000_000 + frac
    ensures whole < TWO_128 ==> value < TWO_256 && BaseMinor(FormatParts(whole, frac)) == Ok(value)
    ensures whole >= TWO_128 ==> BaseMinor(FormatParts(whole, frac)) == Err(InvalidBase)
  {
    if frac == 0 { BaseOfWhole(whole); } else { BaseOfPoint(whole, frac); }
    if whole < TWO_128 { AddScaledFits(whole, frac, value); }
  }

  lemma FormatIsParts(value: U256)
    ensures FormatUnit(value) == FormatParts(value / 1_000_000_000_000_000_000, value % 1_000_000_000_000_000_000)
  {
    if value == 0 { assert Print(0) == [ZERO]; }
  }

  /** Printing then parsing gives the amount back exactly when its whole part fits the parser's u128; otherwise the
      parser refuses it. */
  lemma FormatParseRoundTrip(value: U256)
    ensures value / 1_000_000_000_000_000_000 < TWO_128 ==> NormalizeAmount(FormatUnit(value), [ZERO]) == Ok(value)
    ensures value / 1_000_000_000_000_000_000 >= TWO_128 ==>
              NormalizeAmount(FormatUnit(value), [ZERO]) == Err(InvalidBase)
  {
    FormatIsParts(value);
    PartsRoundTrip(value / 1_000_000_000_000_000_000, value % 1_000_000_000_000_000_000, value);
  }

  lemma PartsRoundTrip(whole: nat, frac: nat, value: U256)
    requires frac < 1_000_000_000_000_000_000 && value == whole * 1_000_000_000_000_000_000 + frac
    ensures whole < TWO_128 ==> NormalizeAmount(FormatParts(whole, frac), [ZERO]) == Ok(value)
    ensures whole >= TWO_128 ==> NormalizeAmount(FormatParts(whole, frac), [ZERO]) == Err(InvalidBase)
  {
    BaseOfFormat(whole, frac, value);
    AddZero(FormatParts(whole, frac), value);
  }

  lemma AddZero(base: Bytes, value: U256)
    ensures BaseMinor(base) == Ok(value) ==> NormalizeAmount(base, [ZERO]) == Ok(value)
    ensures BaseMinor(base).Err? ==> NormalizeAmount(base, [ZERO]) == BaseMinor(base)
  {
    assert ParseU128([ZERO]) == Some(0) by { PrintParses(0); }
  }
}
