/**
 Scaled integers: a written value is divided by the point's scale factor and saturated to the register
 type, a read one is multiplied and saturated. Scale factors and their products are exact reals here.
 */
module ScaledValue {
  import opened Wrappers
  import opened Arithmetic
  import opened RegisterCodec

  datatype IntType = Int16 | UInt16 | Int32 | UInt32

  function Registers(t: IntType): nat {
    if t.Int16? || t.UInt16? then 1 else 2
  }

  function Span(t: IntType): nat {
    if t.Int16? || t.UInt16? then 0x1_0000 else 0x1_0000_0000
  }

  function Min(t: IntType): int {
    if t.UInt16? || t.UInt32? then 0 else -(Span(t) / 2)
  }

  function Max(t: IntType): int {
    Min(t) + Span(t) - 1
  }

  predicate InRange(t: IntType, x: int) {
    Min(t) <= x <= Max(t)
  }

  function Saturate(t: IntType, x: int): int {
    if x < Min(t) then Min(t) else if x > Max(t) then Max(t) else x
  }

  /** The bounds of the four types. */
  lemma RangeIs(t: IntType, x: int)
    ensures InRange(t, x) <==>
            match t
            case Int16 => -32768 <= x <= 32767
            case UInt16 => 0 <= x <= 65535
            case Int32 => -2147483648 <= x <= 2147483647
            case UInt32 => 0 <= x <= 4294967295
  {
  }

  /** Saturation keeps what is in range and otherwise takes the nearest value that is. */
  lemma SaturateIsNearest(t: IntType, x: int, y: int)
    ensures InRange(t, Saturate(t, x)) && (InRange(t, x) ==> Saturate(t, x) == x)
    ensures InRange(t, y) && y < x ==> y <= Saturate(t, x) <= x
    ensures InRange(t, y) && x < y ==> x <= Saturate(t, x) <= y
  {
  }

  // ----- numbers and digits -----

  function Pow16(n: nat): (r: nat)
    ensures r > 0
  {
    if n == 0 then 1 else 16 * Pow16(n - 1)
  }

  /** The last `n` hex digits of a number. */
  function LastDigits(num: nat, n: nat): (s: string)
    ensures |s| == n && IsHex(s)
  {
    if n == 0 then [] else LastDigits(num / 16, n - 1) + [Digit(num % 16)]
  }

  function Value(s: string): nat
    requires IsHex(s)
  {
    if s == [] then 0 else Value(s[..|s| - 1]) * 16 + Char2Int(s[|s| - 1]).value
  }

  lemma {:induction false} ValueOfLastDigits(num: nat, n: nat)
    requires num < Pow16(n)
    ensures Value(LastDigits(num, n)) == num
  {
    if n == 0 {
    } else {
      ValueOfLastDigits(num / 16, n - 1);
      assert LastDigits(num, n)[..n - 1] == LastDigits(num / 16, n - 1);
    }
  }

  /** Most significant digit first. */
  lemma {:induction false} LastDigitsAt(num: nat, n: nat, i: nat)
    requires i < n
    ensures LastDigits(num, n)[n - 1 - i] == "0123456789ABCDEF"[num / Pow16(i) % 16]
    decreases i
  {
    if i == 0 {
      DigitIs(num % 16);
    } else {
      LastDigitsAt(num / 16, n - 1, i - 1);
      DivideTwice(num, 16, Pow16(i - 1));
    }
  }

  lemma Regroup(p: nat, a: nat, b: nat, q: nat, s: nat)
    requires q == p * b + s
    ensures q * a == p * (a * b) + s * a
  {
  }

  lemma BelowProduct(a: nat, b: nat, r: nat, s: nat)
    requires r < a && s < b
    ensures s * a + r < a * b
  {
    var d: nat := b - 1 - s;
    assert a * b == s * a + a + d * a;
  }

  lemma DivideTwice(x: nat, a: nat, b: nat)
    requires a > 0 && b > 0
    ensures a * b > 0 && x / a / b == x / (a * b)
  {
    var q, r := x / a, x % a;
    var p, s := q / b, q % b;
    Regroup(p, a, b, q, s);
    BelowProduct(a, b, r, s);
    DivModUnique(x, a * b, p, s * a + r);
  }

  lemma {:induction false} UpperOfLastDigits(num: nat, n: nat)
    ensures Upper(LastDigits(num, n)) == LastDigits(num, n)
  {
    if n == 0 {
    } else {
      UpperOfLastDigits(num / 16, n - 1);
    }
  }

  lemma {:induction false} LeadingZero(n: nat)
    ensures "0" + LastDigits(0, n) == LastDigits(0, n + 1)
  {
    if n == 0 {
    } else {
      LeadingZero(n - 1);
      Associate("0", LastDigits(0, n - 1), [Digit(0)]);
    }
  }

  lemma {:induction false} Pow16Grows(m: nat, n: nat)
    requires m <= n
    ensures 0 < Pow16(m) <= Pow16(n)
  {
    if m < n {
      Pow16Grows(m, n - 1);
    } else if m > 0 {
      Pow16Grows(m - 1, m - 1);
    }
  }

  /** `hexVal` holds the digits of `number` below its part `num`. */
  ghost predicate Split(number: nat, num: nat, hexVal: string) {
    num * Pow16(|hexVal|) <= number
    && forall m: nat :: LastDigits(number, m + |hexVal|) == LastDigits(num, m) + hexVal
  }

  lemma SplitDigit(number: nat, num: nat, hexVal: string)
    requires Split(number, num, hexVal)
    ensures Split(number, num / 16, [Digit(num % 16)] + hexVal)
  {
    var k, digit := |hexVal|, [Digit(num % 16)];
    forall m: nat
      ensures LastDigits(number, m + |digit + hexVal|) == LastDigits(num / 16, m) + (digit + hexVal)
    {
      assert LastDigits(number, (m + 1) + k) == LastDigits(num, m + 1) + hexVal;
      Associate(LastDigits(num / 16, m), digit, hexVal);
    }
    assert (num / 16) * Pow16(k + 1) <= num * Pow16(k) by {
      Quotient(num, Pow16(k));
    }
  }

  lemma Quotient(num: nat, p: nat)
    ensures (num / 16) * (16 * p) <= num * p
  {
    var q, r := num / 16, num % 16;
    assert num * p == q * (16 * p) + r * p;
  }

  lemma Lead(num: nat, p: nat)
    requires num > 0
    ensures num * p >= p
  {
  }

  /** The digits of a number, none for zero. */
  method SignificantDigits(number: nat) returns (hexVal: string)
    ensures Split(number, 0, hexVal)
    ensures hexVal != "" ==> Pow16(|hexVal| - 1) <= number
  {
    var num: nat := number;
    hexVal := "";
    while num != 0
      invariant Split(number, num, hexVal)
      invariant hexVal != "" ==> Pow16(|hexVal| - 1) <= number
    {
      Lead(num, Pow16(|hexVal|));
      SplitDigit(number, num, hexVal);
      hexVal := [Digit(num % 16)] + hexVal;
      num := num / 16;
    }
  }

  method PadWithZeros(digits: string, length: nat) returns (hexVal: string)
    ensures |hexVal| == if |digits| < length then length else |digits|
    ensures hexVal == LastDigits(0, |hexVal| - |digits|) + digits
  {
    hexVal := digits;
    while |hexVal| < length
      invariant |digits| <= |hexVal| && (|hexVal| <= length || hexVal == digits)
      invariant hexVal == LastDigits(0, |hexVal| - |digits|) + digits
    {
      LeadingZero(|hexVal| - |digits|);
      Associate("0", LastDigits(0, |hexVal| - |digits|), digits);
      hexVal := "0" + hexVal;
    }
  }

  /** At least four digits a register, more only if the number needs them. */
  method ConvertToHexString(number: nat, width: nat) returns (r: string)
    ensures |r| >= 2 + 4 * width && r == "0x" + LastDigits(number, |r| - 2)
    ensures number < Pow16(4 * width) ==> |r| == 2 + 4 * width
  {
    var digits := SignificantDigits(number);
    var hexVal := PadWithZeros(digits, 4 * width);
    assert hexVal == LastDigits(number, |hexVal| - |digits| + |digits|);
    if number < Pow16(4 * width) && |digits| > 4 * width {
      Pow16Grows(4 * width, |digits| - 1);
    }
    r := "0x" + hexVal;
  }

  // ----- register types -----

  /** The bits of a value in range, as an unsigned number. */
  function Encode(t: IntType, x: int): nat {
    x % Span(t)
  }

  /** The largest number that the parse behind each decoder accepts: int, long long or unsigned long. */
  function ParseLimit(t: IntType): nat {
    match t
    case Int16 => 0x7FFF_FFFF
    case UInt16 => 0x7FFF_FFFF
    case Int32 => 0x7FFF_FFFF_FFFF_FFFF
    case UInt32 => 0xFFFF_FFFF_FFFF_FFFF
  }

  /** A parsed number cut to the type's width; 0 where the parse is out of range. */
  function Decode(t: IntType, n: nat): (x: int)
    ensures InRange(t, x)
  {
    if n > ParseLimit(t) then 0
    else
      var low := n % Span(t);
      if low <= Max(t) then low else low - Span(t)
  }

  /** A number within the parser's limit decodes to the value of the type with the same low bits; beyond it the
      decoder gives 0. */
  lemma DecodedIs(t: IntType, n: nat)
    ensures
      var limit := match t
                   case Int16 => 2147483647
                   case UInt16 => 2147483647
                   case Int32 => 9223372036854775807
                   case UInt32 => 18446744073709551615;
      if n > limit then Decode(t, n) == 0
      else InRange(t, Decode(t, n))
           && (n - Decode(t, n)) % (if t == Int16 || t == UInt16 then 65536 else 4294967296) == 0
  {
    if n <= ParseLimit(t) {
      var m, low := Span(t), n % Span(t);
      IsMultiple(n - low, m, n / m);
      ModShift(n - low, m);
    }
  }

  lemma DecodeEncode(t: IntType, x: int)
    requires InRange(t, x)
    ensures Decode(t, Encode(t, x)) == x
  {
    DivModUnique(x, Span(t), if x < 0 then -1 else 0, if x < 0 then x + Span(t) else x);
    DivModUnique(Encode(t, x), Span(t), 0, Encode(t, x));
  }

  /** Two's complement: a negative value is written as itself plus 2^16 or 2^32. */
  lemma EncodedIs(t: IntType, x: int)
    requires InRange(t, x)
    ensures Encode(t, x) ==
            if x >= 0 then x else if t == Int16 then x + 65536 else x + 4294967296
  {
    DivModUnique(x, Span(t), if x < 0 then -1 else 0, if x < 0 then x + Span(t) else x);
  }

  lemma EncodedFits(t: IntType, x: int)
    ensures Encode(t, x) < Span(t) == Pow16(4 * Registers(t))
  {
    assert Pow16(4) == 0x1_0000;
    assert Pow16(8) == 0x1_0000_0000 by {
      assert Pow16(6) == 256 * Pow16(4);
    }
  }

  // ----- scaling -----

  /** Conversion of a floating value to an integer: towards zero. */
  function Trunc(x: real): int {
    if x >= 0.0 then x.Floor else 0 - (0.0 - x).Floor
  }

  /** Dividing by the scale factor, which is not zero but may be negative, gives a 64-bit integer; anything
      else is undefined. */
  predicate WriteDefined(s: real, v: int) {
    s != 0.0 && -0x8000_0000_0000_0000 <= Trunc(v as real / s) <= 0x7FFF_FFFF_FFFF_FFFF
  }

  /** Multiplying by it gives a value of the variable that it is assigned to. */
  predicate ReadDefined(t: IntType, s: real, x: int) {
    s != 0.0 &&
    var y := Trunc(x as real * s);
    match t
    case Int16 => -0x8000_0000 <= y <= 0x7FFF_FFFF
    case UInt16 => 0 <= y <= 0xFFFF_FFFF
    case Int32 => -0x8000_0000_0000_0000 <= y <= 0x7FFF_FFFF_FFFF_FFFF
    case UInt32 => 0 <= y <= 0xFFFF_FFFF_FFFF_FFFF
  }

  /** The register value for a scaled value. */
  function Unscale(t: IntType, s: real, v: int): (x: int)
    requires WriteDefined(s, v)
    ensures InRange(t, x)
  {
    Saturate(t, Trunc(v as real / s))
  }

  /** The scaled value of a register value. */
  function Scale(t: IntType, s: real, x: int): int
    requires ReadDefined(t, s, x)
  {
    Saturate(t, Trunc(x as real * s))
  }

  predicate Between(a: int, x: int, b: int) {
    a <= x <= b || b <= x <= a
  }

  lemma TruncBounds(x: real)
    ensures x >= 0.0 ==> Trunc(x) as real <= x < Trunc(x) as real + 1.0
    ensures x <= 0.0 ==> Trunc(x) as real - 1.0 < x <= Trunc(x) as real
  {
  }

  /** A value converts into a range around zero exactly if it is less than one beyond it. */
  lemma TruncWithin(x: real, low: int, high: int)
    requires low <= 0 <= high
    ensures low <= Trunc(x) <= high <==> low as real - 1.0 < x < high as real + 1.0
  {
    TruncBounds(x);
  }

  /** When the conversions are defined, in literal bounds of the quotient and the product. */
  lemma DefinedExactly(t: IntType, s: real, v: int, x: int, q: real, p: real)
    requires s != 0.0 && q == v as real / s && p == x as real * s
    ensures WriteDefined(s, v) <==> -9223372036854775809.0 < q < 9223372036854775808.0
    ensures ReadDefined(t, s, x) <==>
            match t
            case Int16 => -2147483649.0 < p < 2147483648.0
            case UInt16 => -1.0 < p < 4294967296.0
            case Int32 => -9223372036854775809.0 < p < 9223372036854775808.0
            case UInt32 => -1.0 < p < 18446744073709551616.0
  {
    TruncWithin(q, -9223372036854775808, 9223372036854775807);
    match t
    case Int16 => TruncWithin(p, -2147483648, 2147483647);
    case UInt16 => TruncWithin(p, 0, 4294967295);
    case Int32 => TruncWithin(p, -9223372036854775808, 9223372036854775807);
    case UInt32 => TruncWithin(p, 0, 18446744073709551615);
  }

  /** What goes to the device: the quotient without its fraction where that is in range, else the bound that
      it is beyond. */
  lemma WrittenIs(t: IntType, s: real, v: int, n: int)
    requires WriteDefined(s, v) && n == Trunc(v as real / s)
    ensures InRange(t, n) ==> Unscale(t, s, v) == n
    ensures t == Int16 && n > 32767 ==> Unscale(t, s, v) == 32767
    ensures t == Int16 && n < -32768 ==> Unscale(t, s, v) == -32768
    ensures t == Int32 && n > 2147483647 ==> Unscale(t, s, v) == 2147483647
    ensures t == Int32 && n < -2147483648 ==> Unscale(t, s, v) == -2147483648
    ensures t == UInt16 && n > 65535 ==> Unscale(t, s, v) == 65535
    ensures t == UInt32 && n > 4294967295 ==> Unscale(t, s, v) == 4294967295
    ensures (t == UInt16 || t == UInt32) && n < 0 ==> Unscale(t, s, v) == 0
  {
  }

  lemma SignOfProduct(a: real, s: real, p: real)
    requires s > 0.0 && p == a * s
    ensures a > 0.0 ==> p > 0.0
    ensures a == 0.0 ==> p == 0.0
    ensures a < 0.0 ==> p < 0.0
  {
  }

  /** Multiplying by a positive factor, the products named. */
  lemma Times(a: real, b: real, s: real, p: real, r: real)
    requires s > 0.0 && p == a * s && r == b * s
    ensures a <= b <==> p <= r
    ensures a <= b < a + 1.0 ==> r - p < s
  {
    var d, e := b - a, 1.0 - (b - a);
    var m, n := d * s, e * s;
    assert m == r - p;
    assert n == s - m;
    SignOfProduct(d, s, m);
    SignOfProduct(e, s, n);
  }

  lemma SaturateBetween(t: IntType, y: int)
    ensures Between(0, Saturate(t, y), y) && InRange(t, Saturate(t, y))
  {
  }

  function Abs(s: real): real {
    if s >= 0.0 then s else 0.0 - s
  }

  /** `x` lies between zero and the truncated quotient `q` of `w`; so does its multiple `p` with `w`. */
  lemma TimesBetween(w: real, q: real, s: real, x: int, p: real)
    requires s > 0.0 && w == q * s && p == x as real * s && Between(0, x, Trunc(q))
    ensures if w >= 0.0 then 0.0 <= p <= w else w <= p <= 0.0
    ensures x == Trunc(q) ==> Abs(w - p) < s
  {
    TruncBounds(q);
    SignOfProduct(q, s, w);
    SignOfProduct(x as real, s, p);
    Times(x as real, q, s, p, w);
    Times(q, x as real, s, w, p);
  }

  lemma FlipSigns(a: real, s: real, m: real, p: real)
    requires p == a * s && m == 0.0 - s
    ensures p == (0.0 - a) * m
  {
  }

  lemma TruncFlips(q: real)
    ensures Trunc(0.0 - q) == 0 - Trunc(q)
  {
  }

  /** The same for a factor of either sign: two minus signs cancel. */
  lemma TimesBetweenSigned(w: real, q: real, s: real, x: int, p: real)
    requires s != 0.0 && w == q * s && p == x as real * s && Between(0, x, Trunc(q))
    ensures if w >= 0.0 then 0.0 <= p <= w else w <= p <= 0.0
    ensures x == Trunc(q) ==> Abs(w - p) < Abs(s)
  {
    if s > 0.0 {
      TimesBetween(w, q, s, x, p);
    } else {
      var m, y := 0.0 - s, 0 - x;
      FlipSigns(q, s, m, w);
      FlipSigns(x as real, s, m, p);
      TruncFlips(q);
      TimesBetween(w, 0.0 - q, m, y, p);
    }
  }

  lemma RealQuotient(w: real, s: real, q: real)
    requires s != 0.0 && q == w / s
    ensures w == q * s
  {
  }

  lemma SaturatedTimesBetween(t: IntType, w: real, q: real, s: real, x: int, p: real)
    requires s != 0.0 && w == q * s && x == Saturate(t, Trunc(q)) && p == x as real * s
    ensures if w >= 0.0 then 0.0 <= p <= w else w <= p <= 0.0
    ensures InRange(t, Trunc(q)) ==> Abs(w - p) < Abs(s)
  {
    SaturateBetween(t, Trunc(q));
    TimesBetweenSigned(w, q, s, x, p);
  }

  /** The saturated quotient, multiplied again, never passes zero nor the value. */
  lemma UnscaledBetween(t: IntType, s: real, v: int, p: real)
    requires WriteDefined(s, v) && p == Unscale(t, s, v) as real * s
    ensures if v >= 0 then 0.0 <= p <= v as real else v as real <= p <= 0.0
    ensures InRange(t, Trunc(v as real / s)) ==> Abs(v as real - p) < Abs(s)
  {
    var q := v as real / s;
    RealQuotient(v as real, s, q);
    SaturatedTimesBetween(t, v as real, q, s, Unscale(t, s, v), p);
  }

  /** Every scaled value that the accumulator of its decoder can hold is read without overflow. An unsigned
      accumulator cannot hold the negative products that a negative factor makes. */
  predicate Accumulates(t: IntType, s: real, v: int) {
    match t
    case Int16 => -0x8000_0000 <= v <= 0x7FFF_FFFF
    case UInt16 => v <= 0xFFFF_FFFF && (s > 0.0 || v >= 0)
    case Int32 => -0x8000_0000_0000_0000 <= v <= 0x7FFF_FFFF_FFFF_FFFF
    case UInt32 => v <= 0xFFFF_FFFF_FFFF_FFFF && (s > 0.0 || v >= 0)
  }

  lemma ReadIsDefined(t: IntType, s: real, v: int)
    requires WriteDefined(s, v) && Accumulates(t, s, v)
    ensures ReadDefined(t, s, Unscale(t, s, v))
  {
    ProductAccumulates(t, s, v, Unscale(t, s, v), Unscale(t, s, v) as real * s);
  }

  lemma ProductAccumulates(t: IntType, s: real, v: int, x: int, p: real)
    requires WriteDefined(s, v) && Accumulates(t, s, v) && x == Unscale(t, s, v) && p == x as real * s
    ensures Accumulates(t, s, Trunc(p)) && (Min(t) == 0 ==> Trunc(p) >= 0)
  {
    UnscaledBetween(t, s, v, p);
    TruncBetween(v, p);
    BetweenAccumulates(t, s, v, Trunc(p));
    if s > 0.0 {
      TruncSign(x, s, p);
    }
  }

  lemma TruncBetween(v: int, p: real)
    requires if v >= 0 then 0.0 <= p <= v as real else v as real <= p <= 0.0
    ensures Between(0, Trunc(p), v)
  {
    TruncBounds(p);
  }

  lemma BetweenAccumulates(t: IntType, s: real, v: int, y: int)
    requires Accumulates(t, s, v) && Between(0, y, v)
    ensures Accumulates(t, s, y)
  {
  }

  lemma TruncSign(x: int, s: real, p: real)
    requires s > 0.0 && p == x as real * s
    ensures x >= 0 ==> Trunc(p) >= 0
  {
    SignOfProduct(x as real, s, p);
  }

  /** That is not necessary: a write that saturates may bring a larger value into reach of the reader. */
  lemma SaturatedIsReadable()
    ensures WriteDefined(1.0, 3_000_000_000) && !Accumulates(Int16, 1.0, 3_000_000_000)
    ensures Unscale(Int16, 1.0, 3_000_000_000) == 32767 && ReadDefined(Int16, 1.0, 32767)
  {
    assert 3_000_000_000.0 / 1.0 == 3_000_000_000.0;
    assert Trunc(3_000_000_000.0) == 3_000_000_000;
  }

  /** Writing a value and reading it back: between zero and the value, and off by less than s + 1 unless
      one of the two saturates. */
  lemma ScaledRoundTrip(t: IntType, s: real, v: int)
    requires WriteDefined(s, v) && ReadDefined(t, s, Unscale(t, s, v))
    ensures
      var x := Unscale(t, s, v);
      && Between(0, Scale(t, s, x), v)
      && (InRange(t, Trunc(v as real / s)) && InRange(t, Trunc(x as real * s)) ==> Near(v, Scale(t, s, x), s))
  {
    var p := Unscale(t, s, v) as real * s;
    UnscaledBetween(t, s, v, p);
    TruncBounds(p);
    SaturateBetween(t, Trunc(p));
  }

  /** `r` is off from `v` by less than the size of the factor plus one. */
  predicate Near(v: int, r: int, s: real) {
    Abs((v - r) as real) < Abs(s) + 1.0
  }

  /** `v` is a multiple of the scale factor, by an integer that fits the type. */
  ghost predicate MultipleOf(t: IntType, s: real, v: int) {
    exists c: int :: InRange(t, c) && c as real * s == v as real
  }

  /** Exactly the multiples that fit the type come back unchanged. */
  lemma ExactRoundTrip(t: IntType, s: real, v: int)
    requires WriteDefined(s, v) && ReadDefined(t, s, Unscale(t, s, v))
    ensures Scale(t, s, Unscale(t, s, v)) == v <==> InRange(t, v) && MultipleOf(t, s, v)
  {
    MultipleRestored(t, s, v, Unscale(t, s, v) as real * s);
  }

  lemma MultipleRestored(t: IntType, s: real, v: int, p: real)
    requires WriteDefined(s, v) && p == Unscale(t, s, v) as real * s
    ensures Saturate(t, Trunc(p)) == v <==> InRange(t, v) && MultipleOf(t, s, v)
  {
    RestoredExactly(t, s, v, p);
    WholeIsMultiple(t, s, v, p);
  }

  lemma RestoredExactly(t: IntType, s: real, v: int, p: real)
    requires WriteDefined(s, v) && p == Unscale(t, s, v) as real * s
    ensures Saturate(t, Trunc(p)) == v <==> InRange(t, v) && p == v as real
  {
    UnscaledBetween(t, s, v, p);
    SaturatedExactly(t, v, p);
  }

  /** The multiples are the values that the division leaves whole. */
  lemma WholeIsMultiple(t: IntType, s: real, v: int, p: real)
    requires WriteDefined(s, v) && p == Unscale(t, s, v) as real * s
    ensures p == v as real <==> MultipleOf(t, s, v)
  {
    forall c: int | InRange(t, c) && c as real * s == v as real
      ensures c == Unscale(t, s, v)
    {
      UnscaledMultiple(t, s, v, c);
    }
    OnlyMultiplier(t, s, v, Unscale(t, s, v), p);
  }

  lemma OnlyMultiplier(t: IntType, s: real, v: int, x: int, p: real)
    requires InRange(t, x) && p == x as real * s
    requires forall c: int :: InRange(t, c) && c as real * s == v as real ==> c == x
    ensures p == v as real <==> MultipleOf(t, s, v)
  {
  }

  lemma UnscaledMultiple(t: IntType, s: real, v: int, c: int)
    requires WriteDefined(s, v) && InRange(t, c) && c as real * s == v as real
    ensures Unscale(t, s, v) == c
  {
    var q := v as real / s;
    RealQuotient(v as real, s, q);
    SameFactor(c as real, q, s, v as real);
  }

  lemma SameFactor(a: real, b: real, s: real, p: real)
    requires s != 0.0 && p == a * s && p == b * s
    ensures a == b
  {
    var d := a - b;
    var m := d * s;
    assert m == 0.0;
  }

  lemma SaturatedExactly(t: IntType, v: int, p: real)
    requires if v >= 0 then 0.0 <= p <= v as real else v as real <= p <= 0.0
    ensures Saturate(t, Trunc(p)) == v <==> InRange(t, v) && p == v as real
  {
    TruncBounds(p);
    SaturateBetween(t, Trunc(p));
  }

  /** For an integer factor the multiples are those of integer arithmetic whose quotient fits the type. */
  lemma WholeMultiples(t: IntType, s: real, k: int, v: int)
    requires k != 0 && s == k as real
    ensures MultipleOf(t, s, v) <==> v % k == 0 && InRange(t, v / k)
  {
    if MultipleOf(t, s, v) {
      MultipleHasQuotient(t, s, k, v);
    } else if v % k == 0 && InRange(t, v / k) {
      QuotientIsMultiplier(t, s, k, v, v / k);
    }
  }

  /** If the factor is positive, the quotient of a value that fits does fit. */
  lemma PositiveQuotientFits(t: IntType, k: nat, v: int)
    requires k > 0 && InRange(t, v) && v % k == 0
    ensures InRange(t, v / k)
  {
    QuotientBetween(v, k, v / k);
  }

  lemma MultipleHasQuotient(t: IntType, s: real, k: int, v: int)
    requires k != 0 && s == k as real && MultipleOf(t, s, v)
    ensures v % k == 0 && InRange(t, v / k)
  {
    var c: int :| InRange(t, c) && c as real * s == v as real;
    MultiplierIsQuotient(s, k, v, c);
  }

  lemma QuotientIsMultiplier(t: IntType, s: real, k: int, v: int, c: int)
    requires k != 0 && s == k as real && v % k == 0 && c == v / k && InRange(t, c)
    ensures MultipleOf(t, s, v)
  {
    WholeProduct(c, s, k, v, c as real * s);
  }

  lemma MultiplierIsQuotient(s: real, k: int, v: int, c: int)
    requires k != 0 && s == k as real && c as real * s == v as real
    ensures v % k == 0 && v / k == c
  {
    WholeProduct(c, s, k, c * k, v as real);
    WholeQuotient(v, k, c);
  }

  lemma WholeProduct(x: int, s: real, k: int, n: int, p: real)
    requires s == k as real && n == x * k && p == x as real * s
    ensures p == n as real
  {
  }

  lemma WholeQuotient(v: int, k: int, c: int)
    requires k != 0 && v == c * k
    ensures v % k == 0 && v / k == c
  {
    var d, m: nat := c - v / k, if k > 0 then k else 0 - k;
    assert d * k == v % k;
    Scaled(d, m);
    Scaled(0 - d, m);
    assert d * m == (if k > 0 then d * k else 0 - d * k);
    assert (0 - d) * m == 0 - d * m;
  }

  lemma QuotientBetween(v: int, k: nat, n: int)
    requires k > 0 && v % k == 0 && n == v / k
    ensures n * k == v && Between(0, n, v)
  {
    SignOfMultiple(n, k - 1, n * (k - 1));
    assert v == n + n * (k - 1);
  }

  lemma SignOfMultiple(n: int, m: nat, p: int)
    requires p == n * m
    ensures n >= 0 ==> p >= 0
    ensures n <= 0 ==> p <= 0
  {
  }

  // ----- through the hex string and the buffer -----

  /** The hex string for a register value. */
  function HexText(t: IntType, x: int): string {
    "0x" + LastDigits(Encode(t, x), 4 * Registers(t))
  }

  /** The register value in a hex string. */
  function RegisterValue(t: IntType, text: string): int
    requires IsHex(Body(text))
  {
    Decode(t, Value(Body(text)))
  }

  method ReverseScaledValueToHex(t: IntType, s: real, v: int) returns (hex: string)
    requires WriteDefined(s, v)
    ensures hex == HexText(t, Unscale(t, s, v))
  {
    var originalVal := Trunc(v as real / s);
    if originalVal < Min(t) {
      originalVal := Min(t);
    } else if originalVal > Max(t) {
      originalVal := Max(t);
    }
    EncodedFits(t, originalVal);
    hex := ConvertToHexString(Encode(t, originalVal), Registers(t));
  }

  /** A register value survives the hex string, the buffer, the swaps and the decoder. */
  lemma RegisterRoundTrip(t: IntType, x: int, byteSwap: bool, wordSwap: bool)
    requires InRange(t, x)
    ensures
      var (outcome, data) := WriteData(HexText(t, x), byteSwap, wordSwap, 2 * Registers(t));
      outcome == Stored && RegisterValue(t, Hex(Reordered(data, byteSwap, wordSwap))) == x
  {
    var n := 4 * Registers(t);
    var digits := LastDigits(Encode(t, x), n);
    TextReadsBack(digits, 2 * Registers(t), byteSwap, wordSwap, Encode(t, x));
    DigitsTell(t, x, n, digits);
  }

  lemma TextReadsBack(digits: string, count: nat, byteSwap: bool, wordSwap: bool, num: nat)
    requires count > 0 && digits == LastDigits(num, 2 * count)
    ensures
      var (outcome, data) := WriteData("0x" + digits, byteSwap, wordSwap, count);
      outcome == Stored && Hex(Reordered(data, byteSwap, wordSwap)) == "0x" + digits
      && Body("0x" + digits) == digits
  {
    BodyOfText(digits);
    WrittenReadsBack("0x" + digits, byteSwap, wordSwap);
    UpperOfLastDigits(num, 2 * count);
  }

  lemma BodyOfText(digits: string)
    ensures Body("0x" + digits) == digits
  {
  }

  lemma DigitsTell(t: IntType, x: int, n: nat, digits: string)
    requires InRange(t, x) && n == 4 * Registers(t) && digits == LastDigits(Encode(t, x), n)
    ensures Decode(t, Value(digits)) == x
  {
    EncodedFits(t, x);
    ValueOfLastDigits(Encode(t, x), n);
    DecodeEncode(t, x);
  }

  /** `r`, read back for a written `v`, lies between zero and `v`, is near it if nothing saturates, and equals
      it exactly if `v` is a multiple of the scale factor that fits. */
  ghost predicate ReadsBack(t: IntType, s: real, v: int, x: int, r: int)
    requires s != 0.0
  {
    && Between(0, r, v)
    && (InRange(t, Trunc(v as real / s)) && InRange(t, Trunc(x as real * s)) ==> Near(v, r, s))
    && (r == v <==> InRange(t, v) && MultipleOf(t, s, v))
  }

  lemma RoundTrip(t: IntType, s: real, v: int, x: int, r: int)
    requires WriteDefined(s, v) && x == Unscale(t, s, v) && ReadDefined(t, s, x) && r == Scale(t, s, x)
    ensures ReadsBack(t, s, v, x, r)
  {
    ScaledRoundTrip(t, s, v);
    ExactRoundTrip(t, s, v);
  }

  /** The whole way of a scaled value, for every swap setting. */
  lemma EndToEnd(t: IntType, s: real, v: int, byteSwap: bool, wordSwap: bool)
    requires WriteDefined(s, v) && ReadDefined(t, s, Unscale(t, s, v))
    ensures
      var (outcome, data) := WriteData(HexText(t, Unscale(t, s, v)), byteSwap, wordSwap, 2 * Registers(t));
      && outcome == Stored
      && var x := RegisterValue(t, Hex(Reordered(data, byteSwap, wordSwap)));
         ReadDefined(t, s, x) && ReadsBack(t, s, v, x, Scale(t, s, x))
  {
    RegisterRoundTrip(t, Unscale(t, s, v), byteSwap, wordSwap);
    RoundTrip(t, s, v, Unscale(t, s, v), Scale(t, s, Unscale(t, s, v)));
  }
}
