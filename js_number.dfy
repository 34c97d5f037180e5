/** JavaScript numbers as the core uses them: `Number(text)` (and unary `+`),
    `toString` / template interpolation, and the arithmetic `*`, `+` and `/`.
    A finite number is an exact real: the rounding of IEEE-754 doubles and the
    sign of zero are not modelled. */
module JsNumber {
  import opened JsStrings
  import opened Wrappers

  datatype Num = NaN | PosInf | NegInf | Fin(v: real)

  // ---------------------------------------------------------------------------
  // Arithmetic
  // ---------------------------------------------------------------------------

  function Negate(a: Num): Num {
    match a
    case NaN => NaN
    case PosInf => NegInf
    case NegInf => PosInf
    case Fin(x) => Fin(-x)
  }

  /** The sign of a non-NaN number, zero counting as positive. */
  function Sign(a: Num): int
    requires !a.NaN?
  {
    match a
    case PosInf => 1
    case NegInf => -1
    case Fin(x) => if x < 0.0 then -1 else 1
  }

  function Infinity(sign: int): Num {
    if sign < 0 then NegInf else PosInf
  }

  /** `a + b` on two numbers. */
  function Add(a: Num, b: Num): Num {
    if a.NaN? || b.NaN? then NaN
    else if a.Fin? && b.Fin? then Fin(a.v + b.v)
    else if (a == PosInf && b == NegInf) || (a == NegInf && b == PosInf) then NaN
    else if a.Fin? then b
    else a
  }

  /** `a - b`, which IEEE arithmetic defines as `a + (-b)`. */
  function Sub(a: Num, b: Num): Num {
    Add(a, Negate(b))
  }

  lemma SubFinite(a: real, b: real)
    ensures Sub(Fin(a), Fin(b)) == Fin(a - b)
  {
  }

  /** `a * b`. */
  function Mul(a: Num, b: Num): Num {
    if a.NaN? || b.NaN? then NaN
    else if a.Fin? && b.Fin? then Fin(a.v * b.v)
    else if a == Fin(0.0) || b == Fin(0.0) then NaN
    else Infinity(Sign(a) * Sign(b))
  }

  /** `a / b`. */
  function Div(a: Num, b: Num): Num {
    if a.NaN? || b.NaN? then NaN
    else if !a.Fin? && !b.Fin? then NaN
    else if !a.Fin? then Infinity(Sign(a) * Sign(b))
    else if !b.Fin? then Fin(0.0)
    else if b.v != 0.0 then Fin(a.v / b.v)
    else if a.v == 0.0 then NaN
    else Infinity(Sign(a))
  }

  /** `Math.floor(a)`. */
  function Floor(a: Num): Num {
    match a
    case Fin(v) => Fin(v.Floor as real)
    case _ => a
  }

  /** `Math.max(a, b)`: NaN when either is NaN. */
  function Max(a: Num, b: Num): Num {
    if a.NaN? || b.NaN? then NaN
    else if a == PosInf || b == PosInf then PosInf
    else if a == NegInf then b
    else if b == NegInf then a
    else if a.v >= b.v then a
    else b
  }

  // ---------------------------------------------------------------------------
  // Number(text)
  // ---------------------------------------------------------------------------

  /** The white space that `Number` strips from both ends of its argument:
      the line terminators, tab, vertical tab, form feed, the byte order mark
      and every space separator of Unicode. */
  predicate IsWhiteSpace(c: char) {
    if c < '\U{00A0}' then c == ' ' || '\t' <= c <= '\r'
    else
      || c == '\U{00A0}' || c == '\U{1680}' || '\U{2000}' <= c <= '\U{200A}'
      || c == '\U{2028}' || c == '\U{2029}' || c == '\U{202F}' || c == '\U{205F}'
      || c == '\U{3000}' || c == '\U{FEFF}'
  }

  function TrimStart(s: string): string {
    if s != [] && IsWhiteSpace(s[0]) then TrimStart(s[1..]) else s
  }

  function TrimEnd(s: string): string {
    if s != [] && IsWhiteSpace(s[|s| - 1]) then TrimEnd(s[..|s| - 1]) else s
  }

  function Trim(s: string): string {
    TrimEnd(TrimStart(s))
  }

  /** Digits with at most one '.' and at least one digit: "12", "12.5", "5.", ".5". */
  predicate IsDecimalLiteral(u: string) {
    var parts := Split(u, '.');
    && |parts| <= 2
    && (forall i :: 0 <= i < |parts| ==> AllDigits(parts[i]))
    && |u| > |parts| - 1
  }

  function DecimalValue(u: string): (x: real)
    requires IsDecimalLiteral(u)
    ensures x >= 0.0
  {
    var parts := Split(u, '.');
    var whole := parts[0];
    var fraction := if |parts| == 2 then parts[1] else "";
    DigitsValue(whole) as real + Unshift(DigitsValue(fraction) as real, |fraction|)
  }

  /** An unsigned numeric literal: "Infinity" or a decimal literal. */
  function UnsignedNumber(u: string): Num {
    if u == "Infinity" then PosInf
    else if IsDecimalLiteral(u) then Fin(DecimalValue(u))
    else NaN
  }

  /** A numeric literal with its surrounding white space removed: empty, or
      an unsigned literal with an optional sign. */
  function SignedNumber(t: string): Num {
    if t == "" then Fin(0.0)
    else if t[0] == '+' then UnsignedNumber(t[1..])
    else if t[0] == '-' then Negate(UnsignedNumber(t[1..]))
    else UnsignedNumber(t)
  }

  /** `Number(s)`, also written `+s`, on a string. */
  function Number(s: string): Num {
    SignedNumber(Trim(s))
  }

  /** `Number(x)` or `+x` on a value that may be `undefined`. */
  function NumberOf(s: Option<string>): Num {
    match s
    case None => NaN
    case Some(t) => Number(t)
  }

  // ---------------------------------------------------------------------------
  // toString
  // ---------------------------------------------------------------------------

  /** The most fractional digits `ToText` writes. */
  const MaxFractionDigits: nat := 20

  predicate IsIntegral(x: real) {
    x.Floor as real == x
  }

  /** `v` with its decimal point moved `k` places to the right. */
  function Shift(v: real, k: nat): (r: real)
    ensures v >= 0.0 ==> r >= 0.0
  {
    if k == 0 then v else Shift(v, k - 1) * 10.0
  }

  /** `v` with its decimal point moved `k` places to the left. */
  function Unshift(v: real, k: nat): (r: real)
    ensures v >= 0.0 ==> r >= 0.0
  {
    if k == 0 then v else Unshift(v, k - 1) / 10.0
  }

  lemma {:induction false} ShiftUnshift(v: real, k: nat)
    ensures Shift(Unshift(v, k), k) == v
  {
    if k > 0 {
      ShiftTenth(Unshift(v, k - 1), k);
      ShiftUnshift(v, k - 1);
    }
  }

  lemma {:induction false} ShiftTenth(x: real, k: nat)
    requires k > 0
    ensures Shift(x / 10.0, k) == Shift(x, k - 1)
  {
    if k > 1 { ShiftTenth(x, k - 1); }
  }

  lemma {:induction false} ShiftAdditive(a: real, b: real, k: nat)
    ensures Shift(a + b, k) == Shift(a, k) + Shift(b, k)
  {
    if k > 0 { ShiftAdditive(a, b, k - 1); }
  }

  lemma {:induction false} ShiftNegated(v: real, k: nat)
    ensures Shift(-v, k) == -Shift(v, k)
  {
    if k > 0 { ShiftNegated(v, k - 1); }
  }

  lemma {:induction false} ShiftMonotone(a: real, b: real, k: nat)
    ensures (a <= b) == (Shift(a, k) <= Shift(b, k))
    ensures (a == b) == (Shift(a, k) == Shift(b, k))
  {
    if k > 0 { ShiftMonotone(a, b, k - 1); }
  }

  lemma {:induction false} ShiftNat(n: nat, k: nat)
    ensures Shift(n as real, k) == (n * Pow10(k)) as real
  {
    if k > 0 {
      ShiftNat(n, k - 1);
      assert (n * Pow10(k - 1)) * 10 == n * Pow10(k);
    }
  }

  /** The fewest fractional digits, from `k` on, that write `v` exactly. */
  function FractionDigits(v: real, k: nat): (r: nat)
    requires k <= MaxFractionDigits
    ensures k <= r <= MaxFractionDigits
    ensures r < MaxFractionDigits ==> IsIntegral(Shift(v, r))
    ensures forall j :: k <= j < r ==> !IsIntegral(Shift(v, j))
    decreases MaxFractionDigits - k
  {
    if k == MaxFractionDigits || IsIntegral(Shift(v, k)) then k
    else FractionDigits(v, k + 1)
  }

  function Zeros(n: nat): (z: string)
    ensures |z| == n && AllDigits(z) && DigitsValue(z) == 0
  {
    if n == 0 then ""
    else
      var z := Zeros(n - 1) + "0";
      assert z[..|z| - 1] == Zeros(n - 1);
      z
  }

  /** The digits of `v` scaled by its fractional digits, at least one more
      digit than there are fractional digits. */
  function ScaledDigits(v: real): (d: string)
    requires v >= 0.0
    ensures |d| > FractionDigits(v, 0) && AllDigits(d)
  {
    var k := FractionDigits(v, 0);
    var n := Shift(v, k).Floor;
    var t := NatText(n);
    if |t| > k then t else Zeros(k + 1 - |t|) + t
  }

  /** The digits before the decimal point. */
  function WholePart(v: real): (w: string)
    requires v >= 0.0
    ensures |w| >= 1 && AllDigits(w)
  {
    var d := ScaledDigits(v);
    d[..|d| - FractionDigits(v, 0)]
  }

  /** The digits after the decimal point; empty for an integer. */
  function FractionPart(v: real): (f: string)
    requires v >= 0.0
    ensures |f| == FractionDigits(v, 0) && AllDigits(f)
  {
    var d := ScaledDigits(v);
    d[|d| - FractionDigits(v, 0)..]
  }

  function UnsignedText(v: real): string
    requires v >= 0.0
  {
    if FractionPart(v) == "" then WholePart(v) else WholePart(v) + "." + FractionPart(v)
  }

  /** The characters a number's text is made of. */
  predicate IsNumeralChar(c: char) {
    || IsDigit(c) || c == '.' || c == '-'
    || c == 'N' || c == 'a' || c == 'I' || c == 'n' || c == 'f' || c == 'i' || c == 't' || c == 'y'
  }

  predicate IsNumeral(s: string) {
    forall i :: 0 <= i < |s| ==> IsNumeralChar(s[i])
  }

  /** `String(n)`: "NaN", "Infinity", "-Infinity", or the decimal text of a
      finite number with no trailing fractional zero. */
  function ToText(n: Num): (s: string)
    ensures |s| >= 1
  {
    match n
    case NaN => "NaN"
    case PosInf => "Infinity"
    case NegInf => "-Infinity"
    case Fin(x) => FiniteText(x)
  }

  /** `String(x)` of a finite number: a minus sign for a negative one, then
      the unsigned text of its magnitude. */
  function FiniteText(x: real): (s: string)
    ensures |s| >= 1
  {
    if x < 0.0 then "-" + UnsignedText(-x) else UnsignedText(x)
  }

  /** A negative number's text starts with a minus sign. */
  lemma NegativeText(x: real)
    requires x < 0.0
    ensures ToText(Fin(x))[0] == '-'
  {
  }

  lemma NumeralConcat(a: string, b: string)
    requires IsNumeral(a) && IsNumeral(b)
    ensures IsNumeral(a + b)
  {
  }

  lemma DigitsAreNumeral(s: string)
    requires AllDigits(s)
    ensures IsNumeral(s)
  {
  }

  lemma UnsignedTextIsNumeral(v: real)
    requires v >= 0.0
    ensures IsNumeral(UnsignedText(v))
  {
    var w, f := WholePart(v), FractionPart(v);
    DigitsAreNumeral(w);
    DigitsAreNumeral(f);
    if f != "" {
      assert IsNumeral(".");
      NumeralConcat(w, ".");
      NumeralConcat(w + ".", f);
    }
  }

  lemma SpecialTextsAreNumeral()
    ensures IsNumeral("NaN") && IsNumeral("Infinity") && IsNumeral("-Infinity")
  {
  }

  /** Every text `String` writes is made of digits, '.', '-' and the letters
      of "NaN" and "Infinity". */
  lemma TextIsNumeral(n: Num)
    ensures IsNumeral(ToText(n))
  {
    if n.Fin? {
      assert ToText(n) == FiniteText(n.v);
      FiniteTextIsNumeral(n.v);
    } else {
      SpecialTextsAreNumeral();
    }
  }

  lemma FiniteTextIsNumeral(x: real)
    ensures IsNumeral(FiniteText(x))
  {
    if x < 0.0 {
      NegativeTextIsNumeral(x);
    } else {
      UnsignedTextIsNumeral(x);
    }
  }

  lemma NegativeTextIsNumeral(x: real)
    requires x < 0.0
    ensures IsNumeral("-" + UnsignedText(-x))
  {
    UnsignedTextIsNumeral(-x);
    assert IsNumeral("-");
    NumeralConcat("-", UnsignedText(-x));
  }

  /** A number's text holds none of the separators that command lines and
      filter graphs use. */
  lemma TextHasNoSeparator(n: Num)
    ensures ',' !in ToText(n) && ';' !in ToText(n) && ':' !in ToText(n) && '/' !in ToText(n)
  {
    var s := ToText(n);
    TextIsNumeral(n);
    forall i | 0 <= i < |s| ensures s[i] != ',' && s[i] != ';' && s[i] != ':' && s[i] != '/' {
      NumeralCharIsNoSeparator(s[i]);
    }
  }

  lemma NumeralCharIsNoSeparator(c: char)
    requires IsNumeralChar(c)
    ensures c != ',' && c != ';' && c != ':' && c != '/'
  {
  }

  // ---------------------------------------------------------------------------
  // Reading back what toString wrote
  // ---------------------------------------------------------------------------

  /** `v` has a decimal expansion with at most `MaxFractionDigits` fractional
      digits: every value that `Number` reads from text of that length is one. */
  predicate IsShortDecimal(v: real) {
    exists k :: 0 <= k <= MaxFractionDigits && IsIntegral(Shift(v, k))
  }

  lemma ExactAtFractionDigits(v: real)
    requires IsShortDecimal(v)
    ensures IsIntegral(Shift(v, FractionDigits(v, 0)))
  {
    var k :| 0 <= k <= MaxFractionDigits && IsIntegral(Shift(v, k));
  }

  /** The scaled digits denote `v` with its point moved past them all. */
  lemma ScaledDigitsValue(v: real)
    requires v >= 0.0 && IsShortDecimal(v)
    ensures DigitsValue(ScaledDigits(v)) as real == Shift(v, FractionDigits(v, 0))
    ensures ScaledDigits(v) == WholePart(v) + FractionPart(v)
  {
    ExactAtFractionDigits(v);
    var k := FractionDigits(v, 0);
    var n := Shift(v, k).Floor;
    assert n as real == Shift(v, k);
    var t := NatText(n);
    var d := ScaledDigits(v);
    if |t| <= k {
      var z := Zeros(k + 1 - |t|);
      assert d == z + t;
      DigitsConcat(z, t);
      assert DigitsValue(d) == 0 * Pow10(|t|) + n;
    } else {
      assert d == t;
    }
    ScaledDigitsSplit(v);
  }

  lemma SliceSplit(d: string, i: nat)
    requires i <= |d|
    ensures d[..i] + d[i..] == d
  {
  }

  lemma ScaledDigitsSplit(v: real)
    requires v >= 0.0
    ensures ScaledDigits(v) == WholePart(v) + FractionPart(v)
  {
    var d, k := ScaledDigits(v), FractionDigits(v, 0);
    assert WholePart(v) == d[..|d| - k];
    assert FractionPart(v) == d[|d| - k..];
    SliceSplit(d, |d| - k);
  }

  lemma TrimUnchanged(s: string)
    requires |s| >= 1 && !IsWhiteSpace(s[0]) && !IsWhiteSpace(s[|s| - 1])
    ensures Trim(s) == s
  {
  }

  /** Text that starts with a digit and ends without white space is read as
      an unsigned decimal. */
  lemma NumberOfUnsigned(t: string)
    requires |t| >= 1 && IsDigit(t[0]) && !IsWhiteSpace(t[|t| - 1])
    ensures Number(t) == UnsignedNumber(t)
    ensures UnsignedNumber(t) == if IsDecimalLiteral(t) then Fin(DecimalValue(t)) else NaN
  {
    TrimUnchanged(t);
    assert t != "Infinity" by {
      assert "Infinity"[0] == 'I';
    }
  }

  /** A non-empty digit string is read as the number it denotes. */
  lemma NumberOfDigits(s: string)
    requires |s| >= 1 && AllDigits(s)
    ensures Number(s) == Fin(DigitsValue(s) as real)
  {
    NumberOfUnsigned(s);
    SplitWithoutSeparator(s, '.');
    assert DigitsValue("") == 0;
  }

  /** Whole digits `W` and fractional digits `F` (`k` of them) that together
      denote `v` scaled by `k` places read back as `v`. */
  lemma WholePlusFraction(W: nat, F: nat, k: nat, v: real)
    requires (W * Pow10(k) + F) as real == Shift(v, k)
    ensures W as real + Unshift(F as real, k) == v
  {
    ShiftAdditive(W as real, Unshift(F as real, k), k);
    ShiftNat(W, k);
    ShiftUnshift(F as real, k);
    ShiftMonotone(W as real + Unshift(F as real, k), v, k);
  }

  /** Reading digits, a point and more digits. */
  lemma NumberOfPointed(w: string, f: string)
    requires |w| >= 1 && |f| >= 1 && AllDigits(w) && AllDigits(f)
    ensures Number(w + "." + f)
         == Fin(DigitsValue(w) as real + Unshift(DigitsValue(f) as real, |f|))
  {
    PointedEnds(w, f);
    PointedLiteral(w, f);
    NumberOfLiteral(w + "." + f, DigitsValue(w) as real + Unshift(DigitsValue(f) as real, |f|));
  }

  lemma PointedEnds(w: string, f: string)
    requires |w| >= 1 && |f| >= 1 && AllDigits(w) && AllDigits(f)
    ensures IsDigit((w + "." + f)[0]) && IsDigit((w + "." + f)[|w + "." + f| - 1])
  {
    var t := w + "." + f;
    assert t[0] == w[0] && t[|t| - 1] == f[|f| - 1];
  }

  lemma PointedLiteral(w: string, f: string)
    requires |w| >= 1 && |f| >= 1 && AllDigits(w) && AllDigits(f)
    ensures IsDecimalLiteral(w + "." + f)
    ensures DecimalValue(w + "." + f) == DigitsValue(w) as real + Unshift(DigitsValue(f) as real, |f|)
  {
    SplitPointed(w, f);
  }

  /** A decimal literal that starts with a digit reads as its value. */
  lemma NumberOfLiteral(t: string, x: real)
    requires |t| >= 1 && IsDigit(t[0]) && IsDigit(t[|t| - 1])
    requires IsDecimalLiteral(t) && DecimalValue(t) == x
    ensures Number(t) == Fin(x)
  {
    DigitIsNotWhiteSpace(t[|t| - 1]);
    NumberOfUnsigned(t);
  }

  lemma DigitIsNotWhiteSpace(c: char)
    requires IsDigit(c)
    ensures !IsWhiteSpace(c)
  {
  }

  lemma NoPointInDigits(s: string)
    requires AllDigits(s)
    ensures '.' !in s
  {
  }

  lemma SplitPointed(w: string, f: string)
    requires AllDigits(w) && AllDigits(f)
    ensures Split(w + "." + f, '.') == [w, f]
  {
    NoPointInDigits(w);
    NoPointInDigits(f);
    assert w + "." + f == w + ['.'] + f;
    SplitAfterPiece(w, '.', f);
    SplitWithoutSeparator(f, '.');
  }

  /** The whole and fractional digits together denote `v` scaled past its
      fractional digits. */
  lemma TextDigitsValue(v: real)
    requires v >= 0.0 && IsShortDecimal(v)
    ensures var w, f := WholePart(v), FractionPart(v);
      (DigitsValue(w) * Pow10(|f|) + DigitsValue(f)) as real == Shift(v, |f|)
  {
    ScaledDigitsValue(v);
    DigitsConcat(WholePart(v), FractionPart(v));
  }

  /** Digits written in front of the text of a non-negative `v` shift their
      value left past the whole part of `v`; with no digits in front this is
      the round trip `Number(String(v)) == v`. */
  lemma NumberAfterDigits(a: string, v: real)
    requires AllDigits(a)
    requires v >= 0.0 && IsShortDecimal(v)
    ensures Number(a + UnsignedText(v))
         == Fin((DigitsValue(a) * Pow10(|WholePart(v)|)) as real + v)
  {
    if FractionPart(v) == "" {
      NumberAfterDigitsWhole(a, v);
    } else {
      NumberAfterDigitsPointed(a, v);
    }
  }

  /** The digits of `a` followed by those of `w` denote `A * 10^|w| + W`, and
      `W` with the fractional digits `f` denotes `v`. */
  lemma DigitsBeforeText(a: string, v: real)
    requires AllDigits(a)
    requires v >= 0.0 && IsShortDecimal(v)
    ensures var w, f := WholePart(v), FractionPart(v);
      && AllDigits(a + w)
      && DigitsValue(a + w) == DigitsValue(a) * Pow10(|w|) + DigitsValue(w)
      && DigitsValue(w) as real + Unshift(DigitsValue(f) as real, |f|) == v
  {
    var w, f := WholePart(v), FractionPart(v);
    TextDigitsValue(v);
    WholePlusFraction(DigitsValue(w), DigitsValue(f), |f|, v);
    DigitsConcat(a, w);
  }

  lemma NumberAfterDigitsWhole(a: string, v: real)
    requires AllDigits(a)
    requires v >= 0.0 && IsShortDecimal(v)
    requires FractionPart(v) == ""
    ensures Number(a + UnsignedText(v))
         == Fin((DigitsValue(a) * Pow10(|WholePart(v)|)) as real + v)
  {
    var w := WholePart(v);
    assert a + UnsignedText(v) == a + w by {
      UnsignedTextShape(v);
    }
    var S := DigitsValue(a) * Pow10(|WholePart(v)|);
    assert Number(a + w) == Fin(S as real + v) by {
      DigitsBeforeText(a, v);
      WholeDigitsRead(a + w, S, DigitsValue(w), v);
    }
  }

  lemma NumberAfterDigitsPointed(a: string, v: real)
    requires AllDigits(a)
    requires v >= 0.0 && IsShortDecimal(v)
    requires FractionPart(v) != ""
    ensures Number(a + UnsignedText(v))
         == Fin((DigitsValue(a) * Pow10(|WholePart(v)|)) as real + v)
  {
    var w, f := WholePart(v), FractionPart(v);
    assert Number(a + UnsignedText(v)) == Number((a + w) + "." + f) by {
      UnsignedTextShape(v);
      PointedConcat(a, w, f);
    }
    var S := DigitsValue(a) * Pow10(|WholePart(v)|);
    assert Number((a + w) + "." + f) == Fin(S as real + v) by {
      DigitsBeforeText(a, v);
      PointedDigitsRead(a + w, f, S, DigitsValue(w), v);
    }
  }

  lemma PointedConcat(a: string, w: string, f: string)
    ensures a + (w + "." + f) == (a + w) + "." + f
  {
  }

  lemma WholeDigitsRead(aw: string, S: int, W: int, v: real)
    requires |aw| >= 1 && AllDigits(aw) && DigitsValue(aw) == S + W
    requires W as real == v
    ensures Number(aw) == Fin(S as real + v)
  {
    NumberOfDigits(aw);
  }

  lemma PointedDigitsRead(aw: string, f: string, S: int, W: int, v: real)
    requires |aw| >= 1 && |f| >= 1 && AllDigits(aw) && AllDigits(f)
    requires DigitsValue(aw) == S + W
    requires W as real + Unshift(DigitsValue(f) as real, |f|) == v
    ensures Number(aw + "." + f) == Fin(S as real + v)
  {
    NumberOfPointed(aw, f);
  }


  lemma UnsignedTextShape(v: real)
    requires v >= 0.0
    ensures FractionPart(v) == "" ==> UnsignedText(v) == WholePart(v)
    ensures FractionPart(v) != "" ==> UnsignedText(v) == WholePart(v) + "." + FractionPart(v)
    ensures IsDigit(UnsignedText(v)[0]) && IsDigit(UnsignedText(v)[|UnsignedText(v)| - 1])
  {
  }

  /** `Number(String(x)) == x` for every finite `x` with a short decimal
      expansion. */
  lemma NumberAfterText(x: real)
    requires IsShortDecimal(x)
    ensures Number(ToText(Fin(x))) == Fin(x)
  {
    if x >= 0.0 {
      var u := UnsignedText(x);
      assert ToText(Fin(x)) == u;
      NumberAfterUnsignedText(x);
      assert Number(u) == Fin(x);
    } else {
      var u := "-" + UnsignedText(-x);
      NegativeTextShape(x);
      NumberAfterNegativeText(x);
      assert Number(u) == Fin(x);
    }
  }

  lemma NegativeTextShape(x: real)
    requires x < 0.0
    ensures ToText(Fin(x)) == "-" + UnsignedText(-x)
  {
    assert ToText(Fin(x)) == FiniteText(x);
  }

  lemma NumberAfterNegativeText(x: real)
    requires IsShortDecimal(x) && x < 0.0
    ensures Number("-" + UnsignedText(-x)) == Fin(x)
  {
    NegatedShortDecimal(x);
    NumberAfterUnsignedText(-x);
    UnsignedTextShape(-x);
    NegatedTextRead(UnsignedText(-x), -x);
  }

  lemma NegatedTextRead(u: string, y: real)
    requires |u| >= 1 && IsDigit(u[0]) && IsDigit(u[|u| - 1])
    requires Number(u) == Fin(y)
    ensures Number("-" + u) == Fin(-y)
  {
    NumberOfNegative(u);
  }

  lemma NumberAfterUnsignedText(v: real)
    requires v >= 0.0 && IsShortDecimal(v)
    ensures Number(UnsignedText(v)) == Fin(v)
  {
    var w, f := WholePart(v), FractionPart(v);
    TextDigitsValue(v);
    WholePlusFraction(DigitsValue(w), DigitsValue(f), |f|, v);
    UnsignedTextShape(v);
    if f == "" {
      NumberOfDigits(w);
    } else {
      NumberOfPointed(w, f);
    }
  }

  lemma NegatedShortDecimal(x: real)
    requires IsShortDecimal(x)
    ensures IsShortDecimal(-x)
  {
    var k :| 0 <= k <= MaxFractionDigits && IsIntegral(Shift(x, k));
    ShiftNegated(x, k);
    var y := Shift(x, k);
    assert (-y).Floor == -(y.Floor);
    assert IsIntegral(Shift(-x, k));
  }

  /** A leading ideographic space, a space separator, is stripped. */
  lemma SpaceSeparatorTrimmed()
    ensures Number("\U{3000}5") == Fin(5.0)
  {
    assert TrimStart("\U{3000}5") == TrimStart("5");
    TrimUnchanged("5");
    assert AllDigits("5");
    NumberOfDigits("5");
  }

  /** A '-' in front of unsigned text negates it. */
  lemma NumberOfNegative(u: string)
    requires |u| >= 1 && IsDigit(u[0]) && !IsWhiteSpace(u[|u| - 1])
    ensures Number("-" + u) == Negate(Number(u))
  {
    var t := "-" + u;
    TrimUnchanged(t);
    TrimUnchanged(u);
    assert t[1..] == u;
  }

  lemma FloorOfScaled(W: nat, F: nat, k: nat, v: real)
    requires F < Pow10(k)
    requires (W * Pow10(k) + F) as real == Shift(v, k)
    ensures v.Floor == W
  {
    ShiftNat(W, k);
    ShiftNat(W + 1, k);
    assert (W + 1) * Pow10(k) == W * Pow10(k) + Pow10(k);
    ShiftMonotone(W as real, v, k);
    ShiftMonotone(v, (W + 1) as real, k);
    assert W as real <= v < W as real + 1.0;
  }

  /** The whole part of the text is the floor's own decimal text. */
  lemma WholePartIsFloor(v: real)
    requires v >= 0.0 && IsShortDecimal(v)
    ensures WholePart(v) == NatText(v.Floor)
  {
    var w, f := WholePart(v), FractionPart(v);
    TextDigitsValue(v);
    DigitsBound(f);
    FloorOfScaled(DigitsValue(w), DigitsValue(f), |f|, v);
    LeadingDigitOfWholePart(v);
    NatTextOfDigits(w);
  }

  lemma LeadingDigitOfWholePart(v: real)
    requires v >= 0.0
    ensures |WholePart(v)| == 1 || WholePart(v)[0] != '0'
  {
    var k := FractionDigits(v, 0);
    var t := NatText(Shift(v, k).Floor);
    var d := ScaledDigits(v);
    var w := WholePart(v);
    if |t| > k {
      assert d == t;
      if |w| > 1 {
        assert w[0] == t[0];
        assert |t| > 1;
        assert NatText(0) == "0";
      }
    }
  }

  /** Integers are written in plain decimal. */
  lemma IntegerText(n: nat)
    ensures ToText(Fin(n as real)) == NatText(n)
  {
    var v := n as real;
    assert IsIntegral(Shift(v, 0));
    assert FractionDigits(v, 0) == 0;
    assert IsShortDecimal(v);
    WholePartIsFloor(v);
  }
}
