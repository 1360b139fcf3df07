/**
 The numpy scalar element types a raster can be read into, described by their
 kind (floating point, signed or unsigned integer) and their width in bits,
 and the conversion that storing a value into an array of that type applies.
 Cell values are integers here; floating-point rounding is not modelled.
 */
module NumpyDType {

  /** The kind of a scalar element type. */
  datatype Kind = FloatKind | SignedKind | UnsignedKind

  /** `np.float64`, `np.float32`, `np.int64`, ..., `np.uint8`. */
  datatype DType =
    | Float64 | Float32
    | Int64 | UInt64
    | Int32 | UInt32
    | Int16 | UInt16
    | Int8 | UInt8

  function KindOf(t: DType): Kind {
    match t
    case Float64 | Float32 => FloatKind
    case Int64 | Int32 | Int16 | Int8 => SignedKind
    case UInt64 | UInt32 | UInt16 | UInt8 => UnsignedKind
  }

  /** Width of one element in bits. */
  function Bits(t: DType): nat {
    match t
    case Float64 | Int64 | UInt64 => 64
    case Float32 | Int32 | UInt32 => 32
    case Int16 | UInt16 => 16
    case Int8 | UInt8 => 8
  }

  predicate IsInteger(t: DType) {
    KindOf(t) != FloatKind
  }

  function Pow2(n: nat): (r: nat)
    ensures r >= 1
  {
    if n == 0 then 1 else 2 * Pow2(n - 1)
  }

  /** Number of distinct values an integer type of width `Bits(t)` holds. */
  function Modulus(t: DType): (m: nat)
    ensures m >= 2 && m % 2 == 0
  {
    Pow2(Bits(t))
  }

  /** Smallest value an integer type holds. */
  function Lo(t: DType): int {
    if KindOf(t) == SignedKind then 0 - Modulus(t) / 2 else 0
  }

  /** Largest value an integer type holds. */
  function Hi(t: DType): int {
    if KindOf(t) == SignedKind then Modulus(t) / 2 - 1 else Modulus(t) - 1
  }

  /** Whether `v` is representable in `t`; every integer counts for a float type. */
  predicate InRange(t: DType, v: int) {
    !IsInteger(t) || Lo(t) <= v <= Hi(t)
  }

  /**
   Reduction of `v` modulo `m` into `[0, m)`, or into `[-m/2, m/2)` when
   `signed`: the value a two's complement integer of that modulus keeps.
   */
  function Wrap(v: int, m: int, signed: bool): (r: int)
    requires m >= 2 && m % 2 == 0
    ensures signed ==> -(m / 2) <= r < m / 2
    ensures !signed ==> 0 <= r < m
    ensures (v - r) % m == 0
  {
    var u := v % m;
    ModCongruent(v, m);
    if signed && u >= m / 2 then
      ShiftCongruent(v, u, m);
      u - m
    else u
  }

  lemma ModCongruent(v: int, m: int)
    requires m > 0
    ensures (v - v % m) % m == 0
  {
    DivModUnique(v - v % m, v / m, 0, m);
  }

  lemma ShiftCongruent(v: int, u: int, m: int)
    requires m > 0 && (v - u) % m == 0
    ensures (v - (u - m)) % m == 0
  {
    var q := (v - u) / m;
    assert v - u == q * m + 0;
    assert (q + 1) * m == q * m + m;
    DivModUnique(v - (u - m), q + 1, 0, m);
  }

  /** `x % m` is the only remainder `r` in `[0, m)` with `x == k * m + r`. */
  lemma DivModUnique(x: int, k: int, r: int, m: int)
    requires m > 0 && 0 <= r < m && x == k * m + r
    ensures x % m == r
  {
    var q := x / m;
    assert x == q * m + x % m;
    var d := k - q;
    assert d * m == k * m - q * m;
    assert d * m == x % m - r;
    if d > 0 {
      MulAtLeast(d, m);
    } else if d < 0 {
      MulAtLeast(-d, m);
    }
  }

  lemma {:induction false} MulAtLeast(d: int, m: int)
    requires d >= 1 && m > 0
    ensures d * m >= m
    decreases d
  {
    if d > 1 {
      MulAtLeast(d - 1, m);
      assert d * m == (d - 1) * m + m;
    }
  }

  /** A value already in `[lo, lo + m)` is left unchanged by `Wrap`. */
  lemma WrapKeepsSmall(v: int, m: int, signed: bool)
    requires m >= 2 && m % 2 == 0
    requires signed ==> -(m / 2) <= v < m / 2
    requires !signed ==> 0 <= v < m
    ensures Wrap(v, m, signed) == v
  {
    if 0 <= v {
      DivModUnique(v, 0, v, m);
    } else {
      DivModUnique(v, -1, v + m, m);
    }
  }

  /**
   The value an element of type `t` holds after `v` is stored into it:
   unchanged for float types, reduced to the two's complement range
   for integer types.
   */
  function Cast(t: DType, v: int): (r: int)
    ensures InRange(t, r)
    ensures InRange(t, v) ==> r == v
    ensures IsInteger(t) ==> (v - r) % Modulus(t) == 0
  {
    if !IsInteger(t) then v
    else
      var signed := KindOf(t) == SignedKind;
      if InRange(t, v) then WrapKeepsSmall(v, Modulus(t), signed); Wrap(v, Modulus(t), signed)
      else Wrap(v, Modulus(t), signed)
  }

  /** Two types with the same kind and width are the same type. */
  lemma KindAndBitsDetermine(a: DType, b: DType)
    requires KindOf(a) == KindOf(b) && Bits(a) == Bits(b)
    ensures a == b
  {
  }
}
