/** The fixed-point multiplier and shift that stand for a real scale in a TOSA RESCALE
    (`compute_multiplier_and_shift`), over the reals. */
module TosaRescale {
  import opened Powers

  /** Two to the power of any integer. */
  ghost function Power(k: int): (p: real)
    ensures p > 0.0
    decreases if k >= 0 then k else -k
  {
    if k == 0 then 1.0 else if k > 0 then 2.0 * Power(k - 1) else Power(k + 1) / 2.0
  }

  lemma PowerStep(k: int)
    ensures Power(k) == 2.0 * Power(k - 1)
  {
  }

  lemma {:induction false} PowerAdd(a: int, b: nat)
    ensures Power(a + b) == Power(a) * Power(b)
  {
    hide Power;
    if b == 0 {
      PowerOfZero();
    } else {
      PowerAdd(a, b - 1);
      PowerStep(a + b);
      PowerStep(b);
      DoubledFactor(Power(a), Power(b - 1), Power(a + b - 1), Power(b), Power(a + b));
    }
  }

  lemma DoubledFactor(x: real, y: real, p: real, y2: real, p2: real)
    requires p == x * y && y2 == 2.0 * y && p2 == 2.0 * p
    ensures p2 == x * y2
  {
  }

  lemma Associates(x: real, y: real, z: real)
    ensures x * (y * z) == y * (x * z)
  {
  }

  /** Python's round: to the nearest integer, ties to the even one. */
  function RoundHalfEven(x: real): (r: int)
    ensures -0.5 <= r as real - x <= 0.5
    ensures (r as real - x == 0.5 || r as real - x == -0.5) ==> r % 2 == 0
  {
    var low := x.Floor;
    var rest := x - low as real;
    if rest < 0.5 then low
    else if rest > 0.5 then low + 1
    else if low % 2 == 0 then low else low + 1
  }

  lemma HalvingLowersFloor(x: real)
    requires x >= 1.0
    ensures 0 <= (x / 2.0).Floor < x.Floor
  {
  }

  lemma SameProduct(m: real, e: int)
    ensures (m / 2.0) * Power(e + 1) == m * Power(e)
    ensures (m * 2.0) * Power(e - 1) == m * Power(e)
  {
    PowerStep(e + 1);
    PowerStep(e);
    Associates(2.0, m / 2.0, Power(e));
    Associates(2.0, m, Power(e - 1));
  }

  lemma LargeInverse(x: real, m: real)
    requires x * m == 1.0 && 0.0 < m < 0.5
    ensures x > 2.0 && (x / 2.0) * (m * 2.0) == 1.0
  {
    if x <= 2.0 {
      AtMostTwice(x, m);
    }
  }

  lemma AtMostTwice(x: real, m: real)
    requires 0.0 < m && x <= 2.0
    ensures x * m <= 2.0 * m
  {
  }

  method Halve(size: real) returns (m: real, e: int)
    requires size > 0.0
    ensures 0.0 < m < 1.0 && m * Power(e) == size
  {
    hide Power;
    m, e := size, 0;
    PowerOfZero();
    while m >= 1.0
      invariant m > 0.0 && m * Power(e) == size
      decreases m.Floor
    {
      HalvingLowersFloor(m);
      SameProduct(m, e);
      m, e := m / 2.0, e + 1;
    }
  }

  lemma PowerOfZero()
    ensures Power(0) == 1.0
  {
  }

  method Double(size: real, start: real, from: int) returns (m: real, e: int)
    requires 0.0 < start < 1.0 && start * Power(from) == size
    ensures 0.5 <= m < 1.0 && m * Power(e) == size
  {
    hide Power;
    m, e := start, from;
    ghost var inverse := 1.0 / m;
    while m < 0.5
      invariant 0.0 < m < 1.0 && m * Power(e) == size && inverse * m == 1.0
      decreases inverse.Floor
    {
      LargeInverse(inverse, m);
      HalvingLowersFloor(inverse);
      SameProduct(m, e);
      m, e, inverse := m * 2.0, e - 1, inverse / 2.0;
    }
  }

  /** Mantissa and exponent of a scale (`math.frexp`). */
  method Frexp(scale: real) returns (m: real, e: int)
    ensures scale == m * Power(e)
    ensures scale == 0.0 ==> m == 0.0 && e == 0
    ensures scale > 0.0 ==> 0.5 <= m < 1.0
    ensures scale < 0.0 ==> -1.0 < m <= -0.5
  {
    hide Power;
    if scale == 0.0 {
      return 0.0, 0;
    }
    var size := if scale > 0.0 then scale else -scale;
    m, e := Halve(size);
    m, e := Double(size, m, e);
    if scale < 0.0 {
      Negated(m, Power(e));
      m := -m;
    }
  }

  lemma Negated(x: real, y: real)
    ensures (-x) * y == -(x * y)
  {
  }

  lemma {:induction false} Pow2IsPower(k: nat)
    ensures Pow2(k) as real == Power(k)
  {
    if k > 0 {
      Pow2IsPower(k - 1);
    }
  }

  /** How far the multiplier is from the scale it stands for. */
  ghost function Error(scale: real, multiplier: int, shift: int): real {
    multiplier as real - scale * Power(shift)
  }

  ghost predicate Within(x: real, bound: real) {
    -bound <= x <= bound
  }

  ghost predicate Below(x: real, bound: real) {
    -bound < x < bound
  }

  /** A rounded mantissa: close to the scale, and in range. */
  ghost predicate IsRounded(scale: real, half: int, multiplier: int, shift: int) {
    && Within(Error(scale, multiplier, shift), 0.5) && Below(scale * Power(shift), (2 * half) as real)
    && -2 * half <= multiplier <= 2 * half - 1
    && (scale > 0.0 ==> half <= multiplier) && (scale == 0.0 ==> multiplier == 0)
  }

  /** Rounding the mantissa to the fraction bits, with the carry into the exponent. */
  method Round(scale: real, bits: nat) returns (multiplier: int, shift: int, carry: bool)
    requires bits > 0
    ensures IsRounded(scale, Pow2(bits - 1), multiplier, shift)
    ensures carry && shift > 62 <==> IsUnshiftable(scale, bits)
  {
    hide Power, IsRounded, Pow2, IsUnshiftable;
    var m, e := Frexp(scale);
    var unit := Pow2(bits);
    var x := m * unit as real;
    multiplier, shift := RoundHalfEven(x), e;
    ghost var rounded := multiplier;
    carry := multiplier == unit;
    if carry {
      multiplier, shift := multiplier / 2, shift + 1;
    }
    shift := bits - shift;
    RoundIsClose(scale, m, e, bits, x, rounded, multiplier, shift);
    UnshiftableIff(scale, m, e, bits, x);
  }

  /** A scale so close below a power of two that its mantissa rounds up to a whole unit. */
  ghost predicate RoundsUp(scale: real, bits: nat, e: int) {
    (1.0 - Power(-(bits as int) - 1)) * Power(e) <= scale < Power(e)
  }

  /** Such a scale, and so small that its shift exceeds 62. The carry turns the multiplier into
      a float, which the clamp then cannot shift. */
  ghost predicate IsUnshiftable(scale: real, bits: nat) {
    exists e :: e <= bits as int - 64 && RoundsUp(scale, bits, e)
  }

  lemma UnshiftableIff(scale: real, m: real, e: int, bits: nat, x: real)
    requires bits > 0 && scale == m * Power(e) && x == m * Pow2(bits) as real
    requires (scale > 0.0 ==> 0.5 <= m < 1.0) && (scale <= 0.0 ==> -1.0 < m <= 0.0)
    ensures RoundHalfEven(x) == Pow2(bits) && e <= bits as int - 64 <==> IsUnshiftable(scale, bits)
  {
    hide Power, Pow2, RoundHalfEven, RoundsUp;
    CarryIff(scale, m, e, bits, x);
    forall e' | RoundsUp(scale, bits, e')
      ensures e' == e
    {
      RoundsUpIsBetween(scale, bits, e');
      MantissaIsBetween(scale, m, e);
      ExponentIsUnique(scale, e, e');
    }
  }

  /** The carry happens exactly for the scales that round up. */
  lemma CarryIff(scale: real, m: real, e: int, bits: nat, x: real)
    requires bits > 0 && scale == m * Power(e) && x == m * Pow2(bits) as real
    requires (scale > 0.0 ==> 0.5 <= m < 1.0) && (scale <= 0.0 ==> -1.0 < m <= 0.0)
    ensures RoundHalfEven(x) == Pow2(bits) <==> RoundsUp(scale, bits, e)
  {
    hide Power, Pow2, RoundHalfEven;
    var t, u := Power(-(bits as int) - 1), Pow2(bits) as real;
    LastBit(bits);
    Distributes(1.0, t, u);
    Orders(1.0 - t, m, u, u - 0.5, x);
    Orders(1.0 - t, m, Power(e), (1.0 - t) * Power(e), scale);
    Orders(m, 1.0, u, x, u);
    Orders(m, 1.0, Power(e), scale, Power(e));
    DoubledUnit(bits - 1);
    RoundsToUnit(x, Pow2(bits - 1));
  }

  lemma LastBit(bits: nat)
    ensures Power(-(bits as int) - 1) * Pow2(bits) as real == 0.5
    ensures Power(-(bits as int) - 1) <= 0.5
  {
    hide Power;
    PowerAdd(-(bits as int) - 1, bits);
    Pow2IsPower(bits);
    PowerOfZero();
    PowerStep(0);
    PowerGrows(-(bits as int) - 1, -1);
  }

  lemma RoundsToUnit(x: real, half: nat)
    requires x < (2 * half) as real
    ensures RoundHalfEven(x) == 2 * half <==> x >= (2 * half) as real - 0.5
  {
  }

  lemma RoundsUpIsBetween(scale: real, bits: nat, e: int)
    requires RoundsUp(scale, bits, e)
    ensures Power(e - 1) <= scale < Power(e)
  {
    hide Power;
    LastBit(bits);
    PowerStep(e);
    var t := Power(-(bits as int) - 1);
    Orders(0.5, 1.0 - t, Power(e), Power(e - 1), (1.0 - t) * Power(e));
  }

  lemma MantissaIsBetween(scale: real, m: real, e: int)
    requires scale == m * Power(e) && 0.5 <= m < 1.0
    ensures Power(e - 1) <= scale < Power(e)
  {
    hide Power;
    PowerStep(e);
    Orders(0.5, m, Power(e), Power(e - 1), scale);
    Orders(m, 1.0, Power(e), scale, Power(e));
  }

  lemma ExponentIsUnique(scale: real, e: int, e': int)
    requires Power(e - 1) <= scale < Power(e) && Power(e' - 1) <= scale < Power(e')
    ensures e == e'
  {
    hide Power;
    if e < e' {
      PowerGrows(e, e' - 1);
    }
    if e' < e {
      PowerGrows(e', e - 1);
    }
  }

  lemma RoundsUpAt(scale: real, m: real, bits: nat, e: int)
    requires 1.0 - Power(-(bits as int) - 1) <= m < 1.0 && scale == m * Power(e)
    ensures RoundsUp(scale, bits, e)
  {
    hide Power;
    var t := Power(-(bits as int) - 1);
    Orders(1.0 - t, m, Power(e), (1.0 - t) * Power(e), scale);
    Orders(m, 1.0, Power(e), scale, Power(e));
  }

  lemma IsUnshiftableAt(scale: real, bits: nat, e: int)
    requires e <= bits as int - 64 && RoundsUp(scale, bits, e)
    ensures IsUnshiftable(scale, bits)
  {
    hide RoundsUp;
  }

  lemma UnshiftableBelow(scale: real, k: int, bits: nat, e: int)
    requires k <= -(bits as int) - 1 && e <= bits as int - 64 && scale == (1.0 - Power(k)) * Power(e)
    ensures IsUnshiftable(scale, bits)
  {
    hide Power, RoundsUp, IsUnshiftable;
    PowerGrows(k, -(bits as int) - 1);
    RoundsUpAt(scale, 1.0 - Power(k), bits, e);
    IsUnshiftableAt(scale, bits, e);
  }

  /** An ordinary small scale for which the call fails at width 32. */
  lemma UnshiftableExample()
    ensures IsUnshiftable((1.0 - Power(-40)) * Power(-33), 31)
  {
    hide *;
    UnshiftableBelow((1.0 - Power(-40)) * Power(-33), -40, 31, -33);
  }

  lemma RoundIsClose(scale: real, m: real, e: int, bits: nat, x: real, rounded: int, multiplier: int, shift: int)
    requires bits > 0 && scale == m * Power(e) && x == m * Pow2(bits) as real && Within(rounded as real - x, 0.5)
    requires (scale == 0.0 ==> m == 0.0) && (scale > 0.0 ==> 0.5 <= m) && -1.0 < m < 1.0
    requires if rounded == Pow2(bits) then multiplier == rounded / 2 && shift == bits - (e + 1)
             else multiplier == rounded && shift == bits - e
    ensures IsRounded(scale, Pow2(bits - 1), multiplier, shift)
  {
    hide *;
    ShiftedScale(scale, m, e, bits, x, rounded == Pow2(bits), shift);
    MantissaRange(m, bits, x);
    RoundIsCloseAt(scale, x, scale * Power(shift), Pow2(bits - 1), rounded, multiplier, shift);
  }

  lemma ShiftedScale(scale: real, m: real, e: int, bits: nat, x: real, carry: bool, shift: int)
    requires bits > 0 && scale == m * Power(e) && x == m * Pow2(bits) as real
    requires shift == if carry then bits - (e + 1) else bits - e
    ensures scale * Power(shift) == if carry then x / 2.0 else x
    ensures Pow2(bits) == 2 * Pow2(bits - 1)
  {
    hide Power;
    Scaled(scale, m, e, bits);
    Carried(scale, m, e, bits);
  }

  lemma RoundIsCloseAt(scale: real, x: real, y: real, half: nat, rounded: int, multiplier: int, shift: int)
    requires half > 0 && Within(rounded as real - x, 0.5) && Below(x, (2 * half) as real) && y == scale * Power(shift)
    requires if rounded == 2 * half then multiplier == half && y == x / 2.0 else multiplier == rounded && y == x
    requires (scale > 0.0 ==> x >= half as real) && (scale == 0.0 ==> x == 0.0)
    ensures IsRounded(scale, half, multiplier, shift)
  {
    hide Power;
    Carry(x, y, half, rounded, multiplier);
  }

  /** The carry: a mantissa that rounds up to a whole unit is halved, together with the unit. */
  lemma Carry(x: real, y: real, half: nat, rounded: int, r: int)
    requires half > 0 && Within(rounded as real - x, 0.5) && Below(x, (2 * half) as real)
    requires if rounded == 2 * half then r == half && y == x / 2.0 else r == rounded && y == x
    ensures Within(r as real - y, 0.5) && Below(y, (2 * half) as real) && -2 * half <= r <= 2 * half - 1
    ensures (x >= half as real ==> half <= r) && (x == 0.0 ==> r == 0)
  {
  }

  /** The scale shifted by the fraction bits is the mantissa in units of the last bit. */
  lemma Scaled(scale: real, m: real, e: int, bits: nat)
    requires scale == m * Power(e)
    ensures scale * Power(bits - e) == m * Pow2(bits) as real
  {
    hide Power;
    Pow2IsPower(bits);
    PowerCancels(e, bits);
    Regroup(m, Power(e), Power(bits - e));
  }

  lemma Regroup(x: real, y: real, z: real)
    ensures (x * y) * z == x * (y * z)
  {
  }

  lemma {:induction false} PowerCancels(e: int, bits: nat)
    ensures Power(e) * Power(bits - e) == Power(bits)
  {
    hide Power;
    if e >= 0 {
      PowerAdd(bits - e, e);
    } else {
      PowerAdd(e, bits - e);
    }
  }

  lemma MantissaRange(m: real, bits: nat, x: real)
    requires bits > 0 && -1.0 < m < 1.0 && x == m * Pow2(bits) as real
    ensures Pow2(bits - 1) > 0 && Below(x, (2 * Pow2(bits - 1)) as real)
    ensures (m >= 0.5 ==> x >= Pow2(bits - 1) as real) && (m == 0.0 ==> x == 0.0)
  {
    hide *;
    DoubledUnit(bits - 1);
    ScalesTo(m, Pow2(bits) as real, x);
    InRange(x, Pow2(bits - 1));
  }

  lemma ScalesTo(m: real, u: real, x: real)
    requires u > 0.0 && x == m * u && -1.0 < m < 1.0
    ensures -u < x < u && (m >= 0.5 ==> x >= 0.5 * u) && (m == 0.0 ==> x == 0.0)
  {
    Orders(m, 1.0, u, x, u);
    Orders(-1.0, m, u, -u, x);
    Orders(0.5, m, u, 0.5 * u, x);
  }

  /** Multiplying by a positive number keeps the order. */
  lemma Orders(a: real, b: real, u: real, x: real, y: real)
    requires u > 0.0 && x == a * u && y == b * u
    ensures (a <= b <==> x <= y) && (a < b <==> x < y)
  {
    if a < b {
      Positive(b - a, u);
      Distributes(b, a, u);
    } else if b < a {
      Positive(a - b, u);
      Distributes(a, b, u);
    }
  }

  lemma InRange(x: real, half: nat)
    requires -2.0 * half as real < x < 2.0 * half as real
    ensures Below(x, (2 * half) as real)
  {
  }

  lemma DoubledUnit(k: nat)
    ensures Pow2(k) > 0 && Pow2(k + 1) == 2 * Pow2(k)
    ensures Pow2(k + 1) as real == 2.0 * Pow2(k) as real
  {
  }

  lemma Positive(x: real, y: real)
    requires x > 0.0 && y > 0.0
    ensures x * y > 0.0
  {
  }

  /** One bit less on both sides. */
  lemma Carried(scale: real, m: real, e: int, bits: nat)
    requires bits > 0 && scale == m * Power(e)
    ensures scale * Power(bits - (e + 1)) == m * Pow2(bits) as real / 2.0
    ensures Pow2(bits) == 2 * Pow2(bits - 1)
  {
    hide Power;
    Scaled(scale, m, e, bits);
    PowerStep(bits - e);
    Associates(2.0, scale, Power(bits - e - 1));
  }

  /** The pair for a scale: an exact multiplier up to half a unit, or, where the shift would
      not fit, one off by less than a unit. */
  ghost predicate Represents(scale: real, half: int, multiplier: int, shift: int) {
    || (IsRounded(scale, half, multiplier, shift) && shift <= 62)
    || (shift == 62 && Below(Error(scale, multiplier, 62), 1.0) && -half <= multiplier < half
        && (scale > 0.0 ==> 0 <= multiplier) && scale * Power(62) < half as real)
  }

  datatype Rescale =
    | Pair(multiplier: int, shift: int)
    | UnsupportedWidth
    | CannotShift

  /** q is m divided by 2^k, rounded down. */
  ghost predicate IsShifted(m: int, k: nat, q: int) {
    q * Pow2(k) <= m < (q + 1) * Pow2(k)
  }

  /** The clamp: a shift above 62 is cut back to 62, and the multiplier loses the bits below. */
  ghost predicate IsCut(m: int, s: int, multiplier: int, shift: int) {
    if s <= 62 then multiplier == m && shift == s else shift == 62 && IsShifted(m, s - 62, multiplier)
  }

  /** The outcome for a multiplier of `bits` fraction bits, the highest of them worth `half`. */
  ghost predicate Rescaled(scale: real, bits: nat, half: int, r: Rescale) {
    && !r.UnsupportedWidth? && (r.CannotShift? <==> IsUnshiftable(scale, bits))
    && (r.Pair? ==> r.shift <= 62 && Represents(scale, half, r.multiplier, r.shift))
    && (r.Pair? ==> exists m, s :: IsRounded(scale, half, m, s) && IsCut(m, s, r.multiplier, r.shift))
  }

  /** Multiplier and shift of a scale: 15 fraction bits at width 16, 31 at width 32. It fails on
      other widths, and on exactly those scales for which the clamp meets a multiplier the carry
      turned into a float. */
  method ComputeMultiplierAndShift(scale: real, scaleWidth: int) returns (r: Rescale)
    ensures r.UnsupportedWidth? <==> scaleWidth != 16 && scaleWidth != 32
    ensures scaleWidth == 16 ==> Rescaled(scale, 15, 0x4000, r)
    ensures scaleWidth == 32 ==> Rescaled(scale, 31, 0x4000_0000, r)
    ensures scaleWidth == 16 && r.Pair? ==> -0x8000 <= r.multiplier <= 0x7FFF
    ensures scaleWidth == 16 && r.Pair? && scale > 0.0 && r.shift < 62 ==> 0x4000 <= r.multiplier <= 0x7FFF
    ensures scaleWidth == 32 && r.Pair? ==> -0x8000_0000 <= r.multiplier <= 0x7FFF_FFFF
    ensures scaleWidth == 32 && r.Pair? && scale > 0.0 && r.shift < 62 ==> 0x4000_0000 <= r.multiplier <= 0x7FFF_FFFF
  {
    hide Power, IsRounded, Represents, IsUnshiftable, Pow2, IsCut;
    var offset;
    if scaleWidth == 16 {
      offset := 15;
    } else if scaleWidth == 32 {
      offset := 31;
    } else {
      return UnsupportedWidth;
    }
    ghost var half := if scaleWidth == 16 then 0x4000 else 0x4000_0000;
    HalfUnit(offset, half);
    var multiplier, shift, carry := Round(scale, offset);
    ghost var m, s := multiplier, shift;
    if shift > 62 {
      if carry {
        return CannotShift;
      }
      Clamped(scale, half, multiplier, shift);
      multiplier := multiplier / Pow2(if shift - 62 < 31 then shift - 62 else 31);
      shift := 62;
    } else {
      Unclamped(scale, half, multiplier, shift);
    }
    InWidth(scale, half, multiplier, shift);
    r := Pair(multiplier, shift);
  }

  /** The call on such a scale at width 32. */
  method RescaleUnshiftable(scale: real) returns (r: Rescale)
    requires scale == (1.0 - Power(-40)) * Power(-33)
    ensures r.CannotShift?
  {
    hide IsUnshiftable, Power;
    UnshiftableExample();
    r := ComputeMultiplierAndShift(scale, 32);
  }

  lemma InWidth(scale: real, half: int, multiplier: int, shift: int)
    requires half > 0 && Represents(scale, half, multiplier, shift)
    ensures -2 * half <= multiplier <= 2 * half - 1
    ensures scale > 0.0 && shift < 62 ==> half <= multiplier
  {
    hide Power;
  }

  /** Shifting by 31 at most still rounds down to the same number: further down nothing is left. */
  lemma CutIsFloor(m: int, k: nat, half: int)
    requires k > 0 && 0 < half <= 0x4000_0000 && -2 * half <= m <= 2 * half - 1
    ensures IsShifted(m, k, m / Pow2(if k < 31 then k else 31))
  {
    hide Pow2;
    if k <= 31 {
      FloorOf(m, Pow2(k));
    } else {
      HalfUnit(31, 0x4000_0000);
      DoubledUnit(30);
      PowersGrow(1, 31, k);
      TopBit(m, Pow2(31));
    }
  }

  lemma FloorOf(m: int, d: nat)
    requires d > 0
    ensures (m / d) * d <= m < (m / d + 1) * d
  {
    Euclid(m, d);
  }

  lemma HalfUnit(offset: nat, half: int)
    requires (offset == 15 && half == 0x4000) || (offset == 31 && half == 0x4000_0000)
    ensures Pow2(offset - 1) == half
  {
    assert Pow2(10) == 1024;
    assert Pow2(14) == 16 * Pow2(10);
    if offset == 31 {
      assert Pow2(18) == 16 * Pow2(14);
      assert Pow2(22) == 16 * Pow2(18);
      assert Pow2(26) == 16 * Pow2(22);
      assert Pow2(30) == 16 * Pow2(26);
    }
  }

  lemma Unclamped(scale: real, half: int, multiplier: int, shift: int)
    requires IsRounded(scale, half, multiplier, shift) && shift <= 62
    ensures Represents(scale, half, multiplier, shift) && IsCut(multiplier, shift, multiplier, shift)
  {
    hide Power, IsRounded;
  }

  /** Dropping the bits below d costs less than one unit. */
  lemma ShiftedOut(m: int, y: real, x: real, d: nat, half: int)
    requires d >= 2 && half > 0 && y == x * d as real && Within(m as real - y, 0.5) && Below(y, (2 * half) as real)
    requires -2 * half <= m <= 2 * half - 1
    ensures Below((m / d) as real - x, 1.0) && -half <= m / d < half && (m >= 0 ==> m / d >= 0) && x < half as real
  {
    var q, r, u := m / d, m % d, d as real;
    Euclid(m, d);
    QuotientBound(q, r, d, half);
    assert q as real * u == (q * d) as real == m as real - r as real;
    CloseQuotient(q as real, x, u, y, m as real, r as real);
    SmallerByHalf(x, u, half as real);
  }

  lemma CloseQuotient(q: real, x: real, u: real, y: real, m: real, r: real)
    requires u >= 2.0 && q * u == m - r && y == x * u && -0.5 <= m - y <= 0.5 && 0.0 <= r <= u - 1.0
    ensures Below(q - x, 1.0)
  {
    Distributes(q, x, u);
    UnitsToOneAt(q - x, u, m - r - y);
  }

  lemma Euclid(m: int, d: nat)
    requires d > 0
    ensures m == (m / d) * d + m % d && 0 <= m % d < d
  {
  }

  lemma Distributes(a: real, b: real, c: real)
    ensures (a - b) * c == a * c - b * c
  {
  }

  lemma UnitsToOneAt(z: real, u: real, w: real)
    requires u > 0.0 && w == z * u && -u < w < u
    ensures -1.0 < z < 1.0
  {
    UnitsToOne(z, u);
  }

  lemma UnitsToOne(z: real, u: real)
    requires u > 0.0 && -u < z * u < u
    ensures -1.0 < z < 1.0
  {
    if z >= 1.0 {
      AtLeast(z, u);
    } else if z <= -1.0 {
      AtLeast(-z, u);
    }
  }

  lemma AtLeast(z: real, u: real)
    requires z >= 1.0 && u > 0.0
    ensures z * u >= u && (-z) * u <= -u
  {
    if z > 1.0 {
      Positive(z - 1.0, u);
    }
  }

  lemma SmallerByHalf(x: real, u: real, half: real)
    requires u >= 2.0 && half > 0.0 && x * u < 2.0 * half
    ensures x < half
  {
    if x >= half {
      TwiceAtLeast(x, u);
    }
  }

  lemma TwiceAtLeast(x: real, u: real)
    requires u >= 2.0 && x > 0.0
    ensures x * u >= 2.0 * x
  {
    if u > 2.0 {
      Positive(x, u - 2.0);
    }
  }

  lemma Monotone(a: int, b: int, c: nat)
    requires a <= b
    ensures a * c <= b * c
  {
  }

  lemma QuotientBound(q: int, r: int, d: nat, half: int)
    requires d >= 2 && 0 <= r < d && half > 0 && -2 * half <= q * d + r <= 2 * half - 1
    ensures -half <= q < half && (q * d + r >= 0 ==> q >= 0)
  {
    Monotone(2, d, half);
    if q >= half {
      Monotone(half, q, d);
    }
    if q < -half {
      Monotone(q, -half - 1, d);
    }
    if q < 0 {
      Monotone(q, -1, d);
    }
  }

  lemma AtLeastTwo(k: nat)
    requires k > 0
    ensures Pow2(k) >= 2
  {
  }

  /** Further down nothing of the multiplier is left. */
  lemma AllShiftedOut(m: int, y: real, x: real, p: real, d: nat, half: int)
    requires 0 < half && 2 * half <= d && p >= d as real && y == x * p && Below(y, (2 * half) as real)
    requires -2 * half <= m <= 2 * half - 1 && (m < 0 ==> x < 0.0)
    ensures Below((m / d) as real - x, 1.0) && -half <= m / d < half && (m >= 0 ==> m / d >= 0) && x < half as real
  {
    TopBit(m, d);
    SmallScale(y, x, p, d as real);
    OffByLess(m / d, x, half);
  }

  lemma SmallScale(y: real, x: real, p: real, d: real)
    requires 0.0 < d <= p && y == x * p && Below(y, d)
    ensures -1.0 < x < 1.0
  {
    BelowScaled(y, d, p);
    UnitsToOne(x, p);
  }

  lemma OffByLess(q: int, x: real, half: int)
    requires -1.0 < x < 1.0 && half > 0 && (q == 0 || (q == -1 && x < 0.0))
    ensures Below(q as real - x, 1.0) && -half <= q < half && x < half as real
  {
  }

  lemma BelowScaled(y: real, d: real, p: real)
    requires Below(y, d) && p >= d
    ensures Below(y, p)
  {
  }

  lemma TopBit(m: int, d: nat)
    requires 0 < d && -(d as int) <= m < d
    ensures m / d == if m >= 0 then 0 else -1
  {
    Euclid(m, d);
    if m / d >= 1 {
      Monotone(1, m / d, d);
    }
    if m / d < -1 {
      Monotone(m / d, -2, d);
    }
  }

  lemma SplitShift(scale: real, shift: int)
    requires shift > 62
    ensures scale * Power(shift) == (scale * Power(62)) * Power(shift - 62)
  {
    hide Power;
    PowerAdd(62, shift - 62);
    Regroup(scale, Power(62), Power(shift - 62));
  }

  /** The clamp: the bits shifted out cost less than one unit. */
  lemma Clamped(scale: real, half: int, multiplier: int, shift: int)
    requires 0 < half <= 0x4000_0000 && IsRounded(scale, half, multiplier, shift) && shift > 62
    ensures var q := multiplier / Pow2(if shift - 62 < 31 then shift - 62 else 31);
            Represents(scale, half, q, 62) && IsCut(multiplier, shift, q, 62)
  {
    hide *;
    CutMultiplier(scale, half, multiplier, shift);
    if shift - 62 < 31 {
      CutNear(scale, half, multiplier, shift);
    } else if shift - 62 == 31 {
      CutNear(scale, half, multiplier, shift);
    } else {
      CutFar(scale, half, multiplier, shift);
    }
  }

  lemma CutNear(scale: real, half: int, multiplier: int, shift: int)
    requires 0 < half <= 0x4000_0000 && IsRounded(scale, half, multiplier, shift) && 62 < shift <= 93
    ensures Represents(scale, half, multiplier / Pow2(shift - 62), 62)
  {
    hide *;
    SplitShift(scale, shift);
    RoundedFacts(scale, half, multiplier, shift, scale * Power(shift));
    ClampedNear(multiplier, scale * Power(shift), scale * Power(62), shift - 62, half);
    IsClamped(scale, half, multiplier / Pow2(shift - 62), scale * Power(62));
  }

  lemma CutFar(scale: real, half: int, multiplier: int, shift: int)
    requires 0 < half <= 0x4000_0000 && IsRounded(scale, half, multiplier, shift) && shift > 93
    ensures Represents(scale, half, multiplier / Pow2(31), 62)
  {
    hide *;
    SplitShift(scale, shift);
    RoundedFacts(scale, half, multiplier, shift, scale * Power(shift));
    ScaleSign(scale);
    ClampedFar(multiplier, scale * Power(shift), scale * Power(62), shift - 62, half);
    IsClamped(scale, half, multiplier / Pow2(31), scale * Power(62));
  }

  lemma CutMultiplier(scale: real, half: int, multiplier: int, shift: int)
    requires 0 < half <= 0x4000_0000 && IsRounded(scale, half, multiplier, shift) && shift > 62
    ensures IsCut(multiplier, shift, multiplier / Pow2(if shift - 62 < 31 then shift - 62 else 31), 62)
  {
    hide Power, Pow2, IsShifted, Error;
    CutIsFloor(multiplier, shift - 62, half);
  }

  lemma ScaleSign(scale: real)
    ensures scale < 0.0 ==> scale * Power(62) < 0.0
  {
    hide Power;
    if scale < 0.0 {
      Negative(scale, Power(62));
    }
  }

  lemma RoundedFacts(scale: real, half: int, multiplier: int, shift: int, y: real)
    requires IsRounded(scale, half, multiplier, shift) && y == scale * Power(shift) && half > 0
    ensures Within(multiplier as real - y, 0.5) && Below(y, (2 * half) as real) && -2 * half <= multiplier <= 2 * half - 1
    ensures (multiplier < 0 ==> scale < 0.0) && (scale > 0.0 ==> multiplier >= 0)
  {
    hide Power;
  }

  lemma IsClamped(scale: real, half: int, q: int, x: real)
    requires x == scale * Power(62) && Below(q as real - x, 1.0) && -half <= q < half
    requires (scale > 0.0 ==> q >= 0) && x < half as real
    ensures Represents(scale, half, q, 62)
  {
    hide Power;
  }

  lemma ClampedNear(m: int, y: real, x: real, k: nat, half: int)
    requires k > 0 && half > 0 && y == x * Power(k) && Within(m as real - y, 0.5) && Below(y, (2 * half) as real)
    requires -2 * half <= m <= 2 * half - 1
    ensures var q := m / Pow2(k);
            Below(q as real - x, 1.0) && -half <= q < half && (m >= 0 ==> q >= 0) && x < half as real
  {
    hide Power, Pow2;
    AtLeastTwo(k);
    Pow2IsPower(k);
    ShiftedOut(m, y, x, Pow2(k), half);
  }

  lemma ClampedFar(m: int, y: real, x: real, k: nat, half: int)
    requires k > 31 && 0 < half <= 0x4000_0000 && y == x * Power(k) && Below(y, (2 * half) as real)
    requires -2 * half <= m <= 2 * half - 1 && (m < 0 ==> x < 0.0)
    ensures var q := m / Pow2(31);
            Below(q as real - x, 1.0) && -half <= q < half && (m >= 0 ==> q >= 0) && x < half as real
  {
    hide Power, Pow2;
    HalfUnit(31, 0x4000_0000);
    DoubledUnit(30);
    Pow2IsPower(31);
    PowerGrows(31, k);
    AllShiftedOut(m, y, x, Power(k), Pow2(31), half);
  }

  lemma {:induction false} PowerGrows(j: int, k: int)
    requires j <= k
    ensures Power(j) <= Power(k)
    decreases k - j
  {
    if j < k {
      PowerGrows(j, k - 1);
      PowerStep(k);
    }
  }

  lemma Negative(x: real, y: real)
    requires x < 0.0 && y > 0.0
    ensures x * y < 0.0
  {
    Positive(-x, y);
    Negated(x, y);
  }
}
