/** The subset of Jackson's JsonNode that the LeetCode ingestion reads:
    field access with `get`, `has` and `path`, and the lenient `asText`,
    `asInt`, `asLong` and `asDouble` conversions. */
module Json {
  import opened Wrappers
  import opened Strings

  /** A parsed JSON value. `JMissing` is Jackson's MissingNode: it never comes
      from the wire, only from `Path` on a field that is not there. An object
      holds each field name once (the parser keeps the last duplicate). */
  datatype Json =
    | JNull
    | JBool(b: bool)
    | JInt(i: int)
    | JDouble(d: real)
    | JText(s: string)
    | JArray(items: seq<Json>)
    | JObject(fields: map<string, Json>)
    | JMissing

  /** JsonNode.get(String): the field's node, or Java null when the node is not
      an object or has no such field. */
  function Get(n: Json, key: string): Option<Json> {
    if n.JObject? && key in n.fields then Some(n.fields[key]) else None
  }

  /** JsonNode.has(String): `get` would not return null. */
  predicate Has(n: Json, key: string) {
    Get(n, key).Some?
  }

  /** JsonNode.path(String): like `get`, but a MissingNode instead of null. */
  function Path(n: Json, key: string): (r: Json)
    ensures Get(n, key).Some? ==> r == Get(n, key).value
    ensures Get(n, key).None? ==> r == JMissing
  {
    if n.JObject? && key in n.fields then n.fields[key] else JMissing
  }

  /** JsonNode.isNull: only an explicit JSON null; a MissingNode is not null. */
  predicate IsNull(n: Json) {
    n.JNull?
  }

  predicate IsArray(n: Json) {
    n.JArray?
  }

  /** The elements `for (JsonNode x : node)` visits for an array. */
  function Elements(n: Json): seq<Json> {
    if n.JArray? then n.items else []
  }

  /** JsonNode.asText(): a text node's text, "null" for null, "true"/"false",
      the decimal text of an integer node, and "" for containers and
      MissingNode. A floating-point node's text (Double.toString) is not part
      of this model: it gives "". */
  function AsText(n: Json): string {
    match n
    case JText(s) => s
    case JNull => "null"
    case JBool(b) => if b then "true" else "false"
    case JInt(i) => IntToString(i)
    case _ => ""
  }

  /** JsonNode.asText(default): the default for null and MissingNode. */
  function AsTextOr(n: Json, default: string): (r: string)
    ensures n.JText? ==> r == n.s
    ensures n.JNull? || n.JMissing? ==> r == default
  {
    if n.JNull? || n.JMissing? then default else AsText(n)
  }

  /** The two Java integer types a conversion can produce: `int` and `long`. */
  datatype Width = Int32 | Int64 {
    function Modulus(): int {
      match this
      case Int32 => 0x1_0000_0000
      case Int64 => 0x1_0000_0000_0000_0000
    }
    function Min(): int { 0 - Modulus() / 2 }
    function Max(): int { Modulus() / 2 - 1 }
  }

  predicate InRange(i: int, w: Width) {
    w.Min() <= i <= w.Max()
  }

  /** Keeping the low bits in two's complement, as `(int)` of a long and
      BigInteger.intValue()/longValue() do: the result is in range, congruent
      to the input, and an input already in range is kept. */
  function Wrap(i: int, w: Width): (r: int)
    ensures InRange(r, w)
    ensures (r - i) % w.Modulus() == 0
    ensures InRange(i, w) ==> r == i
  {
    var m := i % w.Modulus();
    if m > w.Max() then m - w.Modulus() else m
  }

  /** Rounding toward zero, the first step of Java's `(int)` and `(long)` casts
      of a double. */
  function TruncateReal(d: real): (r: int)
    ensures d >= 0.0 ==> r as real <= d < r as real + 1.0
    ensures d < 0.0 ==> r as real - 1.0 < d <= r as real
  {
    if d >= 0.0 then d.Floor else -((-d).Floor)
  }

  /** A double as Java's `Double.parseDouble` can produce it. */
  datatype JavaDouble = Finite(value: real) | NaN | Infinity(negative: bool)

  function Negate(d: JavaDouble): JavaDouble {
    match d
    case Finite(v) => Finite(0.0 - v)
    case NaN => NaN
    case Infinity(neg) => Infinity(!neg)
  }

  /** Java's narrowing cast of a double to `int` or `long`: NaN gives 0, a value
      beyond the range gives the nearest bound, any other rounds toward zero. */
  function CastDouble(d: JavaDouble, w: Width): (r: int)
    ensures InRange(r, w)
    ensures d.Finite? && InRange(TruncateReal(d.value), w) ==> r == TruncateReal(d.value)
    ensures d.NaN? ==> r == 0
    ensures d.Infinity? ==> r == (if d.negative then w.Min() else w.Max())
  {
    match d
    case NaN => 0
    case Infinity(neg) => if neg then w.Min() else w.Max()
    case Finite(v) => Clamp(TruncateReal(v), w)
  }

  /** The nearest value of the range. */
  function Clamp(i: int, w: Width): (r: int)
    ensures InRange(r, w)
    ensures InRange(i, w) ==> r == i
    ensures i < w.Min() ==> r == w.Min()
    ensures i > w.Max() ==> r == w.Max()
  {
    if i < w.Min() then w.Min() else if i > w.Max() then w.Max() else i
  }

  /** Every character is an ASCII digit. */
  predicate AllDigits(s: string)
    decreases |s|
  {
    s == [] || ('0' <= s[0] <= '9' && AllDigits(s[1..]))
  }

  /** Each character of a digit string is a digit. */
  lemma {:induction false} DigitAt(s: string, i: nat)
    requires AllDigits(s) && i < |s|
    ensures '0' <= s[i] <= '9'
    decreases i
  {
    if i > 0 {
      DigitAt(s[1..], i - 1);
    }
  }

  /** A string with a non-digit somewhere is not a digit string. */
  lemma {:induction false} NotAllDigits(s: string, i: nat)
    requires i < |s| && !('0' <= s[i] <= '9')
    ensures !AllDigits(s)
    decreases i
  {
    if i > 0 && '0' <= s[0] <= '9' {
      NotAllDigits(s[1..], i - 1);
    }
  }

  function Pow10(n: nat): (r: nat)
    ensures r >= 1
  {
    if n == 0 then 1 else 10 * Pow10(n - 1)
  }

  /** `x` divided by ten, `n` times. */
  function Shift(x: real, n: nat): real
    decreases n
  {
    if n == 0 then x else Shift(x / 10.0, n - 1)
  }

  /** `m` times ten to the power `e`. */
  function Scale(m: nat, e: int): real {
    if e >= 0 then (m * Pow10(e)) as real else Shift(m as real, -e)
  }

  /** The index of the first exponent mark, or the length when there is none. */
  function ExponentIndex(b: string): (k: nat)
    ensures k <= |b|
    ensures k < |b| ==> b[k] == 'e' || b[k] == 'E'
  {
    if b == [] then 0 else if b[0] == 'e' || b[0] == 'E' then 0 else 1 + ExponentIndex(b[1..])
  }

  /** The index of the first decimal point, or the length when there is none. */
  function PointIndex(m: string): (k: nat)
    ensures k <= |m|
    ensures k < |m| ==> m[k] == '.'
  {
    if m == [] then 0 else if m[0] == '.' then 0 else 1 + PointIndex(m[1..])
  }

  /** The exponent after 'e' or 'E': an optional sign, then digits. */
  function ParseExponent(x: string): Option<int> {
    if |x| > 1 && (x[0] == '+' || x[0] == '-') && AllDigits(x[1..]) then
      Some(if x[0] == '-' then 0 - DigitsValue(x[1..]) as int else DigitsValue(x[1..]) as int)
    else if x != [] && AllDigits(x) then Some(DigitsValue(x) as int)
    else None
  }

  /** An unsigned decimal literal: digits with an optional point, at least one
      digit in all, then an optional exponent. Its exact value. */
  function ParseDecimal(b: string): Option<real> {
    var k := ExponentIndex(b);
    var mantissa := b[..k];
    var p := PointIndex(mantissa);
    var whole := mantissa[..p];
    var frac := if p < |mantissa| then mantissa[p + 1..] else "";
    var exp := if k < |b| then ParseExponent(b[k + 1..]) else Some(0);
    if AllDigits(whole) && AllDigits(frac) && |whole| + |frac| > 0 && exp.Some? then
      Some(Scale(DigitsValue(whole + frac), exp.value - |frac|))
    else None
  }

  /** The type suffixes a double literal may end with. */
  predicate IsTypeSuffix(c: char) {
    c == 'f' || c == 'F' || c == 'd' || c == 'D'
  }

  /** An unsigned double text: "NaN", "Infinity", or a decimal literal with an
      optional type suffix 'f', 'F', 'd' or 'D'. */
  function ParseUnsignedDouble(u: string): Option<JavaDouble> {
    if u == "NaN" then Some(NaN)
    else if u == "Infinity" then Some(Infinity(false))
    else
      var body := if u != [] && IsTypeSuffix(u[|u| - 1]) then u[..|u| - 1] else u;
      match ParseDecimal(body)
      case Some(v) => Some(Finite(v))
      case None => None
  }

  /** Double.parseDouble: the trimmed text, an optional sign, then an unsigned
      double text; None where Java throws NumberFormatException. */
  function ParseJavaDouble(s: string): Option<JavaDouble> {
    var t := Trim(s);
    if t != [] && (t[0] == '-' || t[0] == '+') then
      match ParseUnsignedDouble(t[1..])
      case Some(d) => Some(if t[0] == '-' then Negate(d) else d)
      case None => None
    else ParseUnsignedDouble(t)
  }

  /** Integer.parseInt / Long.parseLong of a text whose characters after an
      optional leading '-' are ASCII digits: the value, or the default where
      Java throws (no digits, or a value out of range). */
  function ParseIntegerOr(u: string, default: int, w: Width): (r: int)
    requires u == [] || AllDigits(if u[0] == '-' then u[1..] else u)
    ensures r == default || InRange(r, w)
  {
    if u == [] then default
    else if u[0] == '-' then
      if |u| == 1 then default
      else
        var v := 0 - DigitsValue(u[1..]) as int;
        if w.Min() <= v then v else default
    else
      var v := DigitsValue(u);
      if v <= w.Max() then v else default
  }

  /** Jackson's NumberInput.parseAsInt / parseAsLong: the text is trimmed; a
      leading '+' is dropped and a leading '-' kept; when the rest is all
      digits, parseInt/parseLong decides, otherwise the text is parsed as a
      double and cast; any parse failure gives the default. */
  function ParseAsIntegral(s: string, default: int, w: Width): (r: int)
    ensures r == default || InRange(r, w)
  {
    ParseTrimmedIntegral(Trim(s), default, w)
  }

  /** The parse of the trimmed text. */
  function ParseTrimmedIntegral(t: string, default: int, w: Width): (r: int)
    ensures r == default || InRange(r, w)
  {
    if t == [] then default
    else
      var u := if t[0] == '+' then t[1..] else t;
      var start := if t[0] == '-' then 1 else 0;
      if AllDigits(u[start..]) then ParseIntegerOr(u, default, w)
      else
        match ParseJavaDouble(u)
        case Some(d) => CastDouble(d, w)
        case None => default
  }

  /** Trimmed text parses as it stands. */
  lemma {:induction false} ParseOfTrimmed(t: string, default: int, w: Width)
    requires IsTrimmed(t)
    ensures ParseAsIntegral(t, default, w) == ParseTrimmedIntegral(t, default, w)
  {
    TrimOfTrimmed(t);
  }

  /** The digits of `a` then `b` read as `a` shifted left by the length of `b`. */
  lemma {:induction false} DigitsValueAppend(a: string, b: string)
    ensures DigitsValue(a + b) == DigitsValue(a) * Pow10(|b|) + DigitsValue(b)
    decreases |b|
  {
    if b == [] {
      assert a + b == a;
    } else {
      var b' := b[..|b| - 1];
      var c := DigitValue(b[|b| - 1]);
      assert (a + b)[..|a + b| - 1] == a + b';
      assert (a + b)[|a + b| - 1] == b[|b| - 1];
      assert DigitsValue(a + b) == DigitsValue(a + b') * 10 + c;
      assert DigitsValue(b) == DigitsValue(b') * 10 + c;
      DigitsValueAppend(a, b');
      ShiftStep(DigitsValue(a), Pow10(|b'|), DigitsValue(b'), c);
    }
  }

  lemma {:induction false} ShiftStep(x: int, p: int, y: int, c: int)
    ensures (x * p + y) * 10 + c == x * (10 * p) + (y * 10 + c)
  {
  }

  /** A digit string reads below ten to the power of its length. */
  lemma {:induction false} DigitsValueBound(b: string)
    ensures DigitsValue(b) < Pow10(|b|)
    decreases |b|
  {
    if b != [] {
      DigitsValueBound(b[..|b| - 1]);
    }
  }

  /** Leading digits hold neither an exponent mark nor a point. */
  lemma {:induction false} IndicesAfterDigits(digits: string, rest: string)
    requires AllDigits(digits)
    ensures ExponentIndex(digits + rest) == |digits| + ExponentIndex(rest)
    ensures PointIndex(digits + rest) == |digits| + PointIndex(rest)
    decreases |digits|
  {
    if digits == [] {
      assert digits + rest == rest;
    } else {
      assert (digits + rest)[0] == digits[0];
      assert (digits + rest)[1..] == digits[1..] + rest;
      IndicesAfterDigits(digits[1..], rest);
    }
  }

  /** Trimmed text without a sign is parsed unsigned. */
  lemma {:induction false} UnsignedTextParse(t: string)
    requires IsTrimmed(t) && t != [] && t[0] != '-' && t[0] != '+'
    ensures ParseJavaDouble(t) == ParseUnsignedDouble(t)
  {
    TrimOfTrimmed(t);
  }

  /** Text from a digit to a digit is neither "NaN", "Infinity" nor suffixed,
      so it is parsed as a decimal literal. */
  lemma {:induction false} DecimalTextParse(u: string)
    requires u != [] && '0' <= u[0] <= '9' && '0' <= u[|u| - 1] <= '9'
    ensures ParseUnsignedDouble(u)
            == (if ParseDecimal(u).Some? then Some(Finite(ParseDecimal(u).value)) else None)
  {
    assert u[0] != "NaN"[0] && u[0] != "Infinity"[0];
    assert !IsTypeSuffix(u[|u| - 1]);
  }

  /** A digit string is a decimal literal of its value. */
  lemma {:induction false} DigitsDecimal(digits: string)
    requires AllDigits(digits) && digits != []
    ensures ParseDecimal(digits) == Some(DigitsValue(digits) as real)
  {
    IndicesAfterDigits(digits, "");
    assert digits + "" == digits;
    assert digits[..|digits|] == digits;
  }

  /** A digit string is an unsigned double text of its value. */
  lemma {:induction false} DigitsParseAsDouble(digits: string)
    requires AllDigits(digits) && digits != []
    ensures ParseUnsignedDouble(digits) == Some(Finite(DigitsValue(digits) as real))
  {
    DigitAt(digits, |digits| - 1);
    DigitsDecimal(digits);
    DecimalTextParse(digits);
  }

  /** Where the exponent mark and the point are found in digits, a point and digits. */
  lemma {:induction false} FractionLayout(whole: string, frac: string)
    requires AllDigits(whole) && AllDigits(frac)
    ensures ExponentIndex(whole + "." + frac) == |whole| + 1 + |frac|
    ensures PointIndex(whole + "." + frac) == |whole|
  {
    assert whole + "." + frac == whole + ("." + frac);
    IndicesAfterDigits(whole, "." + frac);
    IndicesAfterPoint(frac);
  }

  /** Where the exponent mark and the point are found in a point and digits. */
  lemma {:induction false} IndicesAfterPoint(frac: string)
    requires AllDigits(frac)
    ensures ExponentIndex("." + frac) == 1 + |frac|
    ensures PointIndex("." + frac) == 0
  {
    IndicesAfterDigits(frac, "");
    assert ("." + frac)[1..] == frac + "";
  }

  /** Digits, a point and digits: a decimal literal of the digits together,
      scaled down by the length of the fraction. */
  lemma {:induction false} FractionDecimal(whole: string, frac: string)
    requires AllDigits(whole) && AllDigits(frac) && whole != [] && frac != []
    ensures ParseDecimal(whole + "." + frac) == Some(Scale(DigitsValue(whole + frac), 0 - |frac|))
  {
    var b := whole + "." + frac;
    FractionLayout(whole, frac);
    assert b[..|b|] == b;
    assert b[..|whole|] == whole && b[|whole| + 1..] == frac;
  }

  /** The same text as a Java double. */
  lemma {:induction false} FractionParsesAsDouble(whole: string, frac: string)
    requires AllDigits(whole) && AllDigits(frac) && whole != [] && frac != []
    ensures ParseJavaDouble(whole + "." + frac)
            == Some(Finite(Scale(DigitsValue(whole + frac), 0 - |frac|)))
  {
    var b := whole + "." + frac;
    assert b[0] == whole[0] && b[|b| - 1] == frac[|frac| - 1];
    DigitAt(frac, |frac| - 1);
    FractionDecimal(whole, frac);
    DecimalTextParse(b);
    UnsignedTextParse(b);
  }

  /** Shifting divides by ten to the power `n`. */
  lemma {:induction false} ShiftIsDivision(x: real, n: nat)
    ensures Shift(x, n) == x / Pow10(n) as real
    decreases n
  {
    if n > 0 {
      var m := n - 1;
      ShiftIsDivision(x / 10.0, m);
      var p := Pow10(m) as real;
      assert Pow10(n) as real == 10.0 * p;
      assert x / 10.0 / p == x / (10.0 * p);
    }
  }

  lemma {:induction false} ShiftSum(a: real, b: real, n: nat)
    ensures Shift(a + b, n) == Shift(a, n) + Shift(b, n)
    decreases n
  {
    if n > 0 {
      var m := n - 1;
      assert (a + b) / 10.0 == a / 10.0 + b / 10.0;
      ShiftSum(a / 10.0, b / 10.0, m);
    }
  }

  lemma {:induction false} ShiftScaled(x: real, n: nat)
    ensures Shift(x * Pow10(n) as real, n) == x
    decreases n
  {
    if n > 0 {
      var m := n - 1;
      ShiftScaled(x, m);
      assert Pow10(n) as real == 10.0 * Pow10(m) as real;
      var y := x * Pow10(n) as real;
      assert y / 10.0 == x * Pow10(m) as real;
      assert Shift(y, n) == Shift(y / 10.0, m);
    }
  }

  lemma {:induction false} ShiftBelowOne(y: real, n: nat)
    requires 0.0 <= y < Pow10(n) as real
    ensures 0.0 <= Shift(y, n) < 1.0
    decreases n
  {
    if n > 0 {
      var m := n - 1;
      assert Pow10(n) as real == 10.0 * Pow10(m) as real;
      ShiftBelowOne(y / 10.0, m);
    }
  }

  /** The value of a fraction text: its whole part plus the fraction. */
  lemma {:induction false} FractionValue(whole: string, frac: string)
    requires AllDigits(whole) && AllDigits(frac) && frac != []
    ensures Scale(DigitsValue(whole + frac), 0 - |frac|)
            == DigitsValue(whole) as real + Shift(DigitsValue(frac) as real, |frac|)
  {
    DigitsValueAppend(whole, frac);
    ScaleSplit(DigitsValue(whole), DigitsValue(frac), |frac|);
  }

  /** Scaling down a shifted whole part plus a remainder. */
  lemma {:induction false} ScaleSplit(x: nat, y: nat, n: nat)
    requires n > 0
    ensures Scale(x * Pow10(n) + y, 0 - n) == x as real + Shift(y as real, n)
  {
    var m := x * Pow10(n) + y;
    var scaled := x as real * Pow10(n) as real;
    ScaleNegative(m, n);
    RealOfAffine(x, Pow10(n), y);
    assert Shift(m as real, n) == Shift(scaled + y as real, n);
    ShiftSum(scaled, y as real, n);
    ShiftScaled(x as real, n);
  }

  lemma {:induction false} ScaleNegative(m: nat, n: nat)
    requires n > 0
    ensures Scale(m, 0 - n) == Shift(m as real, n)
  {
  }

  /** The value of a fraction text rounds toward zero to its whole part. */
  lemma {:induction false} FractionValueTruncates(whole: string, frac: string)
    requires AllDigits(whole) && AllDigits(frac) && frac != []
    ensures TruncateReal(Scale(DigitsValue(whole + frac), 0 - |frac|)) == DigitsValue(whole)
  {
    FractionValue(whole, frac);
    DigitsValueBound(frac);
    ShiftBelowOne(DigitsValue(frac) as real, |frac|);
    TruncateWholePlusFraction(DigitsValue(whole), Shift(DigitsValue(frac) as real, |frac|));
  }

  lemma {:induction false} RealOfAffine(x: int, p: int, y: int)
    ensures (x * p + y) as real == x as real * p as real + y as real
  {
  }

  lemma {:induction false} TruncateWholePlusFraction(x: nat, f: real)
    requires 0.0 <= f < 1.0
    ensures TruncateReal(x as real + f) == x
  {
    var r := TruncateReal(x as real + f);
    assert r as real <= x as real + f < r as real + 1.0;
  }

  /** Integer text within the range reads as its value and beyond it gives the
      default, as parseInt/parseLong throw; a leading '+' is ignored. */
  lemma {:induction false} IntegerTextValues(digits: string, default: int, w: Width)
    requires AllDigits(digits) && digits != []
    ensures ParseAsIntegral(digits, default, w)
            == (if DigitsValue(digits) <= w.Max() then DigitsValue(digits) else default)
    ensures ParseAsIntegral("+" + digits, default, w) == ParseAsIntegral(digits, default, w)
    ensures ParseAsIntegral("-" + digits, default, w)
            == (if w.Min() <= 0 - DigitsValue(digits) as int then 0 - DigitsValue(digits) as int else default)
    ensures ParseAsIntegral("", default, w) == default
  {
    var plus, neg := "+" + digits, "-" + digits;
    assert plus[1..] == digits && neg[1..] == digits;
    assert plus[|plus| - 1] == digits[|digits| - 1] && neg[|neg| - 1] == digits[|digits| - 1];
    assert digits[0..] == digits;
    DigitAt(digits, |digits| - 1);
    ParseOfTrimmed(digits, default, w);
    ParseOfTrimmed(plus, default, w);
    ParseOfTrimmed(neg, default, w);
    ParseOfTrimmed("", default, w);
  }

  /** Rounding an integral value toward zero keeps it. */
  lemma {:induction false} TruncateIntegral(i: int)
    ensures TruncateReal(i as real) == i
  {
  }

  /** Casting a double that holds an integer clamps that integer. */
  lemma {:induction false} CastIntegral(i: int, w: Width)
    ensures CastDouble(Finite(i as real), w) == Clamp(i, w)
  {
    TruncateIntegral(i);
  }

  /** Trimmed text that starts with a digit and holds a non-digit goes to
      parseDouble and the cast. */
  lemma {:induction false} DoubleFallback(t: string, default: int, w: Width)
    requires t != [] && '0' <= t[0] <= '9' && !AllDigits(t)
    ensures ParseTrimmedIntegral(t, default, w)
            == (if ParseJavaDouble(t).Some? then CastDouble(ParseJavaDouble(t).value, w) else default)
  {
    assert t[0..] == t;
  }

  /** Text with a fraction goes through parseDouble and the cast: "3.7" reads as 3. */
  lemma {:induction false} FractionTextTruncates(whole: string, frac: string, default: int, w: Width)
    requires AllDigits(whole) && AllDigits(frac) && whole != [] && frac != []
    ensures ParseAsIntegral(whole + "." + frac, default, w) == Clamp(DigitsValue(whole), w)
  {
    var t := whole + "." + frac;
    assert t[0] == whole[0] && t[|t| - 1] == frac[|frac| - 1] && t[|whole|] == '.';
    DigitAt(frac, |frac| - 1);
    NotAllDigits(t, |whole|);
    ParseOfTrimmed(t, default, w);
    DoubleFallback(t, default, w);
    FractionParsesAsDouble(whole, frac);
    FractionValueTruncates(whole, frac);
  }

  /** An exponent of digits alone is their value. */
  lemma {:induction false} ExponentDigits(exponent: string)
    requires AllDigits(exponent) && exponent != []
    ensures ParseExponent(exponent) == Some(DigitsValue(exponent) as int)
  {
  }

  /** Where the exponent mark and the point are found in digits, 'e' and digits. */
  lemma {:induction false} ExponentLayout(digits: string, exponent: string)
    requires AllDigits(digits)
    ensures ExponentIndex(digits + "e" + exponent) == |digits|
    ensures PointIndex(digits) == |digits|
  {
    assert digits + "e" + exponent == digits + ("e" + exponent);
    IndicesAfterDigits(digits, "e" + exponent);
    IndicesAfterDigits(digits, "");
    assert digits + "" == digits;
  }

  /** Digits, 'e' and digits: a decimal literal of the digits scaled up. */
  lemma {:induction false} ExponentDecimal(digits: string, exponent: string)
    requires AllDigits(digits) && AllDigits(exponent) && digits != [] && exponent != []
    ensures ParseDecimal(digits + "e" + exponent)
            == Some(Scale(DigitsValue(digits), DigitsValue(exponent)))
  {
    var t := digits + "e" + exponent;
    ExponentLayout(digits, exponent);
    assert t[..|digits|] == digits && t[|digits| + 1..] == exponent;
    assert digits[..|digits|] == digits && digits + "" == digits;
    ExponentDigits(exponent);
  }

  /** Text with an exponent goes through parseDouble: "1e3" reads as 1000. */
  lemma {:induction false} ExponentTextScales(digits: string, exponent: string, default: int, w: Width)
    requires AllDigits(digits) && AllDigits(exponent) && digits != [] && exponent != []
    ensures ParseAsIntegral(digits + "e" + exponent, default, w)
            == Clamp(DigitsValue(digits) * Pow10(DigitsValue(exponent)), w)
  {
    var t := digits + "e" + exponent;
    assert t[0] == digits[0] && t[|t| - 1] == exponent[|exponent| - 1] && t[|digits|] == 'e';
    DigitAt(exponent, |exponent| - 1);
    NotAllDigits(t, |digits|);
    ParseOfTrimmed(t, default, w);
    DoubleFallback(t, default, w);
    ExponentDecimal(digits, exponent);
    DecimalTextParse(t);
    UnsignedTextParse(t);
    TruncateIntegral(DigitsValue(digits) * Pow10(DigitsValue(exponent)));
  }

  /** Trimmed text with a '+' before a non-digit drops the '+' and goes to
      parseDouble and the cast. */
  lemma {:induction false} PlusFallback(t: string, d: JavaDouble, default: int, w: Width)
    requires |t| > 1 && t[0] == '+' && !('0' <= t[1] <= '9')
    requires ParseJavaDouble(t[1..]) == Some(d)
    ensures ParseTrimmedIntegral(t, default, w) == CastDouble(d, w)
  {
    assert t[1..][0..] == t[1..];
  }

  /** Trimmed text with a leading '-' is the negated unsigned parse. */
  lemma {:induction false} NegativeTextParse(u: string, x: real)
    requires IsTrimmed(u) && |u| > 1 && u[0] == '-'
    requires ParseUnsignedDouble(u[1..]) == Some(Finite(x))
    ensures ParseJavaDouble(u) == Some(Finite(0.0 - x))
  {
    TrimOfTrimmed(u);
  }

  /** A '-' before digits parses as the negated digits. */
  lemma {:induction false} NegativeDigitsParse(digits: string)
    requires AllDigits(digits) && digits != []
    ensures ParseJavaDouble("-" + digits) == Some(Finite(0.0 - DigitsValue(digits) as real))
  {
    var u := "-" + digits;
    assert u[0] == '-' && u[1..] == digits && u[|u| - 1] == digits[|digits| - 1];
    DigitAt(digits, |digits| - 1);
    DigitsParseAsDouble(digits);
    NegativeTextParse(u, DigitsValue(digits) as real);
  }

  /** Casting the negation of a count clamps the negated count. */
  lemma {:induction false} CastNegated(v: nat, w: Width)
    ensures CastDouble(Finite(0.0 - v as real), w) == Clamp(0 - v, w)
  {
    assert (0 - v) as real == 0.0 - v as real;
    CastIntegral(0 - v, w);
  }

  /** A '+' before a '-' sends the trimmed text to parseDouble and the cast,
      which saturates (CastNegated) where the plain negative text gives the
      default: "+-5" reads as -5. ParseOfTrimmed carries this over to
      untrimmed input. */
  lemma {:induction false} PlusMinusTextIsADouble(digits: string, default: int, w: Width)
    requires AllDigits(digits) && digits != []
    ensures ParseTrimmedIntegral("+-" + digits, default, w)
            == CastDouble(Finite(0.0 - DigitsValue(digits) as real), w)
  {
    var t := "+-" + digits;
    assert t[0] == '+' && t[1] == '-' && t[1..] == "-" + digits;
    NegativeDigitsParse(digits);
    PlusFallback(t, Finite(0.0 - DigitsValue(digits) as real), default, w);
  }

  /** An integer node keeps its low bits: 2^31 reads as -2^31 through asInt,
      and as itself through asLong. */
  lemma {:induction false} IntegerNodeWraps(default: int)
    requires InRange(default, Int32)
    ensures AsIntOr(JInt(0x8000_0000), default) == -0x8000_0000
    ensures AsLongOr(JInt(0x8000_0000), default) == 0x8000_0000
  {
  }

  /** asDouble of decimal text is its value: the whole part plus the fraction
      digits shifted right by their number (ShiftIsDivision). */
  lemma {:induction false} DecimalTextAsDouble(whole: string, frac: string, default: real)
    requires AllDigits(whole) && AllDigits(frac) && whole != [] && frac != []
    ensures AsDoubleOr(JText(whole + "." + frac), default)
            == DigitsValue(whole) as real + Shift(DigitsValue(frac) as real, |frac|)
  {
    var x := Scale(DigitsValue(whole + frac), 0 - |frac|);
    FractionParsesAsDouble(whole, frac);
    ParsedTextAsDouble(whole + "." + frac, default, x);
    FractionValue(whole, frac);
  }

  /** asDouble of a text that parses to a finite double is that double. */
  lemma {:induction false} ParsedTextAsDouble(s: string, default: real, x: real)
    requires ParseJavaDouble(s) == Some(Finite(x))
    ensures AsDoubleOr(JText(s), default) == x
  {
  }

  /** JsonNode.asInt(default). An integer node keeps its low 32 bits (an
      IntNode, or the wrap of a LongNode or BigIntegerNode), a double node is
      cast, a boolean is 1 or 0, a text node is parsed by ParseAsIntegral, and
      anything else gives the default. */
  function AsIntOr(n: Json, default: int): (r: int)
    requires InRange(default, Int32)
    ensures InRange(r, Int32)
    ensures n.JInt? && InRange(n.i, Int32) ==> r == n.i
    ensures n.JNull? || n.JMissing? || n.JArray? || n.JObject? ==> r == default
  {
    AsIntegralOr(n, default, Int32)
  }

  /** JsonNode.asLong(default): the same rules at 64 bits. */
  function AsLongOr(n: Json, default: int): (r: int)
    requires InRange(default, Int64)
    ensures InRange(r, Int64)
    ensures n.JInt? && InRange(n.i, Int64) ==> r == n.i
    ensures n.JNull? || n.JMissing? || n.JArray? || n.JObject? ==> r == default
  {
    AsIntegralOr(n, default, Int64)
  }

  /** The conversion asInt and asLong share, at the given width. */
  function AsIntegralOr(n: Json, default: int, w: Width): (r: int)
    requires InRange(default, w)
    ensures InRange(r, w)
  {
    match n
    case JInt(i) => Wrap(i, w)
    case JDouble(d) => CastDouble(Finite(d), w)
    case JBool(b) => if b then 1 else 0
    case JText(s) => ParseAsIntegral(s, default, w)
    case _ => default
  }

  /** JsonNode.asLong(): asLong(0). */
  function AsLong(n: Json): int {
    AsLongOr(n, 0)
  }

  /** JsonNode.asDouble(default). A text node is parsed by NumberInput.parseAsDouble:
      trimmed, then Double.parseDouble, with the default on failure. A NaN or
      infinite result has no value in this model and gives the default. */
  function AsDoubleOr(n: Json, default: real): (r: real)
    ensures n.JDouble? ==> r == n.d
    ensures n.JNull? || n.JMissing? || n.JArray? || n.JObject? ==> r == default
  {
    match n
    case JInt(i) => i as real
    case JDouble(d) => d
    case JBool(b) => if b then 1.0 else 0.0
    case JText(s) =>
      var p := ParseJavaDouble(s);
      if p.Some? && p.value.Finite? then p.value.value else default
    case _ => default
  }
}
