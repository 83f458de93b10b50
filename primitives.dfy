/** Rust's fixed-width integer types as the converters use them: their
    bounds, the `as` cast between integers and from a float, and the
    little-endian byte image that `to_le_bytes` produces. */
module Primitives {
  import opened Common

  type u8 = x: int | 0 <= x < 0x100
  type u16 = x: int | 0 <= x < 0x1_0000
  type u32 = x: int | 0 <= x < 0x1_0000_0000
  type u64 = x: int | 0 <= x < 0x1_0000_0000_0000_0000
  type i8 = x: int | -0x80 <= x < 0x80
  type i16 = x: int | -0x8000 <= x < 0x8000
  type i32 = x: int | -0x8000_0000 <= x < 0x8000_0000
  type i64 = x: int | -0x8000_0000_0000_0000 <= x < 0x8000_0000_0000_0000

  /** The element types a field can be declared with (`type = "u8"` …
      `"f64"` in a layout file). */
  datatype ScalarType = U8 | U16 | U32 | U64 | I8 | I16 | I32 | I64 | F32 | F64
  {
    predicate IsInteger() { !F32? && !F64? }

    /** `size_bytes`: the width of the type, which is also its alignment. */
    function SizeBytes(): (r: nat)
      ensures r in {1, 2, 4, 8}
      ensures r == 1 <==> this in {U8, I8}
      ensures r == 2 <==> this in {U16, I16}
      ensures r == 4 <==> this in {U32, I32, F32}
      ensures r == 8 <==> this in {U64, I64, F64}
    {
      match this
      case U8 | I8 => 1
      case U16 | I16 => 2
      case U32 | I32 | F32 => 4
      case U64 | I64 | F64 => 8
    }
  }

  /** The name a layout file uses for the type. */
  function TypeName(t: ScalarType): string
  {
    match t
    case U8 => "u8" case U16 => "u16" case U32 => "u32" case U64 => "u64"
    case I8 => "i8" case I16 => "i16" case I32 => "i32" case I64 => "i64"
    case F32 => "f32" case F64 => "f64"
  }

  /** The type a name denotes, if any: the match on `"u8"` … `"f64"`. */
  function ParseTypeName(s: string): (r: Option<ScalarType>)
    ensures r.Some? ==> TypeName(r.value) == s
    ensures r.None? ==> forall t: ScalarType :: TypeName(t) != s
  {
    if s == "u8" then Some(U8) else if s == "u16" then Some(U16)
    else if s == "u32" then Some(U32) else if s == "u64" then Some(U64)
    else if s == "i8" then Some(I8) else if s == "i16" then Some(I16)
    else if s == "i32" then Some(I32) else if s == "i64" then Some(I64)
    else if s == "f32" then Some(F32) else if s == "f64" then Some(F64)
    else None
  }

  /** The eight integer types. */
  type IntType = t: ScalarType | t.IsInteger() witness U8

  predicate Signed(t: IntType) { t.I8? || t.I16? || t.I32? || t.I64? }

  /** 2 to the power of the type's bit width. */
  function Modulus(t: IntType): (r: int)
    ensures r == Pow256(t.SizeBytes())
  {
    match t
    case U8 | I8 => 0x100
    case U16 | I16 => 0x1_0000
    case U32 | I32 => 0x1_0000_0000
    case U64 | I64 => 0x1_0000_0000_0000_0000
    case F32 | F64 => assert false; 0
  }

  /** `T::MIN` */
  function MinValue(t: IntType): int
  {
    if Signed(t) then -(Modulus(t) / 2) else 0
  }

  /** `T::MAX` */
  function MaxValue(t: IntType): int
  {
    if Signed(t) then Modulus(t) / 2 - 1 else Modulus(t) - 1
  }

  predicate InRange(v: int, t: IntType) { MinValue(t) <= v <= MaxValue(t) }

  /** 256 to the power n. */
  function Pow256(n: nat): (r: int)
    ensures r >= 1
  {
    if n == 0 then 1 else 256 * Pow256(n - 1)
  }

  /** `v as T` from any integer type: keep the low bits and read them back in
      two's complement when T is signed. */
  function Cast(v: int, t: IntType): (r: int)
    ensures InRange(r, t)
    ensures (v - r) % Modulus(t) == 0
  {
    var M := Modulus(t);
    var m := v % M;
    if Signed(t) && m > MaxValue(t) then
      DivUnique(v - (m - M), M, v / M + 1, 0);
      m - M
    else
      DivUnique(v - m, M, v / M, 0);
      m
  }

  /** Euclidean division has a single quotient: the uniqueness the cast and
      byte lemmas below rest on. */
  lemma DivUnique(v: int, d: int, q: int, r: int)
    requires d > 0 && 0 <= r < d && v == d * q + r
    ensures v / d == q && v % d == r
  {
    var q' := v / d;
    var r' := v % d;
    assert d * q' + r' == d * q + r;
    assert d * (q' - q) == r - r' by {
      assert d * (q' - q) == d * q' - d * q;
    }
    if q' - q >= 1 {
      MulAtLeast(d, q' - q);
    } else if q - q' >= 1 {
      assert d * (q - q') == r' - r by {
        assert d * (q - q') == d * q - d * q';
      }
      MulAtLeast(d, q - q');
    }
  }

  lemma MulAtLeast(d: int, m: int)
    requires d > 0 && m >= 1
    ensures d * m >= d
  {
    assert d * m == d * (m - 1) + d;
    assert d * (m - 1) >= 0;
  }

  /** Two values of a type that differ by a multiple of its modulus are the
      same value: the cast is the only in-range value congruent to v. */
  lemma CastUnique(v: int, t: IntType, r: int)
    requires InRange(r, t) && (v - r) % Modulus(t) == 0
    ensures r == Cast(v, t)
  {
    var M := Modulus(t);
    var k := (v - r) / M;
    assert v - r == M * k;
    if Signed(t) {
      if r < 0 {
        DivUnique(v, M, k - 1, r + M);
      } else {
        DivUnique(v, M, k, r);
      }
    } else {
      DivUnique(v, M, k, r);
    }
  }

  /** An in-range value survives the cast unchanged. */
  lemma CastOfInRange(v: int, t: IntType)
    requires InRange(v, t)
    ensures Cast(v, t) == v
  {
    CastUnique(v, t, v);
  }

  /** The cast only depends on v modulo the type's modulus. */
  lemma CastCongruent(v: int, w: int, t: IntType)
    requires (v - w) % Modulus(t) == 0
    ensures Cast(v, t) == Cast(w, t)
  {
    var M := Modulus(t);
    var r := Cast(w, t);
    var a := (v - w) / M;
    var b := (w - r) / M;
    assert v - w == M * a;
    assert w - r == M * b;
    assert v - r == M * (a + b);
    DivUnique(v - r, M, a + b, 0);
    CastUnique(v, t, r);
  }

  /** The `n`-byte little-endian image of v's two's-complement bits: Rust's
      `to_le_bytes` for an `n`-byte integer. */
  function LeBytes(v: int, n: nat): (r: seq<byte>)
    ensures |r| == n
    decreases n
  {
    if n == 0 then [] else [(v % 256) as byte] + LeBytes(v / 256, n - 1)
  }

  /** The unsigned value of a little-endian byte string. */
  function FromLe(b: seq<byte>): (r: int)
    ensures 0 <= r < Pow256(|b|)
  {
    if b == [] then 0 else b[0] as int + 256 * FromLe(b[1..])
  }

  lemma DivDiv(v: int, n: nat)
    ensures v / 256 / Pow256(n) == v / Pow256(n + 1)
  {
    var a := v / 256;
    var q := a / Pow256(n);
    var r1 := v % 256;
    var r2 := a % Pow256(n);
    assert v == 256 * a + r1;
    assert a == Pow256(n) * q + r2;
    assert v == Pow256(n + 1) * q + (256 * r2 + r1);
    DivUnique(v, Pow256(n + 1), q, 256 * r2 + r1);
  }

  /** Byte i of the image is `(v >> 8i) & 0xFF`. */
  lemma {:induction false} LeByteIsShift(v: int, n: nat, i: nat)
    requires i < n
    decreases i
    ensures LeBytes(v, n)[i] as int == (v / Pow256(i)) % 256
  {
    if i > 0 {
      LeByteIsShift(v / 256, n - 1, i - 1);
      DivDiv(v, i - 1);
    }
  }

  /** Peeling the low byte off v modulo 256p. */
  lemma ModStep(v: int, p: int)
    requires p > 0
    ensures v % 256 + 256 * ((v / 256) % p) == v % (256 * p)
  {
    var a := v / 256;
    var q := a / p;
    var r2 := a % p;
    assert a == p * q + r2;
    assert v == (256 * p) * q + (256 * r2 + v % 256);
    DivUnique(v, 256 * p, q, 256 * r2 + v % 256);
  }

  /** Decoding the image gives back v modulo 256^n. */
  lemma {:induction false} FromLeOfLeBytes(v: int, n: nat)
    ensures FromLe(LeBytes(v, n)) == v % Pow256(n)
    decreases n
  {
    if n > 0 {
      var b := LeBytes(v, n);
      assert b[1..] == LeBytes(v / 256, n - 1);
      FromLeOfLeBytes(v / 256, n - 1);
      assert FromLe(b) == v % 256 + 256 * ((v / 256) % Pow256(n - 1));
      ModStep(v, Pow256(n - 1));
    }
  }

  /** Encoding a byte string's value gives back the byte string. */
  lemma {:induction false} LeBytesOfFromLe(b: seq<byte>)
    ensures LeBytes(FromLe(b), |b|) == b
  {
    if b != [] {
      var v := FromLe(b);
      DivUnique(v, 256, FromLe(b[1..]), b[0] as int);
      LeBytesOfFromLe(b[1..]);
    }
  }

  /** Values that differ by a multiple of d leave the same remainder. */
  lemma ModCongruent(v: int, w: int, d: int)
    requires d > 0 && (v - w) % d == 0
    ensures v % d == w % d
  {
    var k := (v - w) / d;
    var q := w / d;
    assert v - w == d * k;
    assert w == d * q + w % d;
    assert v == d * (q + k) + w % d;
    DivUnique(v, d, q + k, w % d);
  }

  /** v differs from its remainder by a multiple of d. */
  lemma RemainderCongruent(v: int, d: int)
    requires d > 0
    ensures (v % d - v) % d == 0
  {
    assert v == d * (v / d) + v % d;
    assert v % d - v == d * -(v / d) + 0;
    DivUnique(v % d - v, d, -(v / d), 0);
  }

  /** Two values congruent modulo 256^n have the same n-byte image. */
  lemma LeBytesCongruent(v: int, w: int, n: nat)
    requires (v - w) % Pow256(n) == 0
    ensures LeBytes(v, n) == LeBytes(w, n)
  {
    ModCongruent(v, w, Pow256(n));
    FromLeOfLeBytes(v, n);
    FromLeOfLeBytes(w, n);
    LeBytesOfFromLe(LeBytes(v, n));
    LeBytesOfFromLe(LeBytes(w, n));
  }

  /** The image of a cast value is the image of the original: narrowing
      keeps exactly the low bytes. */
  lemma CastKeepsLowBytes(v: int, t: IntType)
    ensures LeBytes(Cast(v, t), t.SizeBytes()) == LeBytes(v, t.SizeBytes())
  {
    LeBytesCongruent(Cast(v, t), v, t.SizeBytes());
  }

  /** `x as T` for a finite float x: rounding toward zero, then saturation at
      the type's bounds. */
  function SaturatingCast(x: real, t: IntType): (r: int)
    ensures InRange(r, t)
    ensures InRange(TruncateTowardZero(x), t) ==> r == TruncateTowardZero(x)
    ensures TruncateTowardZero(x) < MinValue(t) ==> r == MinValue(t)
    ensures TruncateTowardZero(x) > MaxValue(t) ==> r == MaxValue(t)
  {
    var n := TruncateTowardZero(x);
    if n < MinValue(t) then MinValue(t)
    else if n > MaxValue(t) then MaxValue(t)
    else n
  }

  /** The integer part of x. */
  function TruncateTowardZero(x: real): (r: int)
    ensures 0.0 <= x ==> r as real <= x < r as real + 1.0
    ensures x < 0.0 ==> r as real - 1.0 < x <= r as real
  {
    if x >= 0.0 then x.Floor else -((-x).Floor)
  }

  /** Rounding of a real to the nearest IEEE-754 single and double, with the
      bit patterns that result, and the value of the nearest double. The
      model does not define floating-point arithmetic: every float
      operation takes this as a parameter. */
  datatype FloatCodec = FloatCodec(single: real -> bv32, double: real -> bv64, nearestDouble: real -> real)
}
