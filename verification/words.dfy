/**
 Machine-word vocabulary shared by the port model: the C integer widths of a
 32-bit ARM target, powers of two, and the division facts the encoders need.
 */
module Words {

  /** `uint8_t` */
  type uint8 = x: int | 0 <= x < 0x100

  /** `uint32_t`, and `size_t` / `unsigned long` on this 32-bit target */
  type uint32 = x: int | 0 <= x < 0x1_0000_0000

  const WordModulus: int := 0x1_0000_0000

  /** A 32-bit register or memory word where the source shifts, masks or XORs it. */
  type Word = bv32

  /** A value that may be absent: a NULL pointer, a frame that does not fit. */
  datatype Option<T> = None | Some(value: T)

  /** C's unsigned 32-bit addition, which wraps around. */
  function AddU32(a: uint32, b: uint32): (r: uint32)
    ensures a + b < WordModulus ==> r == a + b
    ensures a + b >= WordModulus ==> r == a + b - WordModulus
  {
    (a + b) % WordModulus
  }

  function Pow2(n: nat): (r: nat)
    ensures r >= 1
  {
    if n == 0 then 1 else 2 * Pow2(n - 1)
  }

  function Pow10(n: nat): (r: nat)
    ensures r >= 1
  {
    if n == 0 then 1 else 10 * Pow10(n - 1)
  }

  lemma Pow2Add4(n: nat)
    ensures Pow2(n + 4) == 16 * Pow2(n)
  {
    calc {
      Pow2(n + 4);
      2 * Pow2(n + 3);
      2 * (2 * Pow2(n + 2));
      2 * (2 * (2 * Pow2(n + 1)));
      2 * (2 * (2 * (2 * Pow2(n))));
    }
  }

  /** 2^32 is the size of the 32-bit word space. */
  lemma Pow2Word()
    ensures Pow2(32) == WordModulus
  {
    Pow2Add4(0); Pow2Add4(4); Pow2Add4(8); Pow2Add4(12);
    Pow2Add4(16); Pow2Add4(20); Pow2Add4(24); Pow2Add4(28);
  }

  /** Quotient and remainder are unique: the lever for every division fact below. */
  lemma DivModUnique(v: int, d: int, q: int, r: int)
    requires d > 0 && 0 <= r < d && v == q * d + r
    ensures v / d == q && v % d == r
  {
    var q0, r0 := v / d, v % d;
    assert (q0 - q) * d == r - r0 by {
      assert q0 * d + r0 == q * d + r;
      assert (q0 - q) * d == q0 * d - q * d;
    }
    if q0 - q >= 1 {
      MulAtLeast(q0 - q, d);
    } else if q - q0 >= 1 {
      MulAtLeast(q - q0, d);
    }
  }

  lemma MulAtLeast(x: int, d: int)
    requires x >= 1 && d > 0
    ensures x * d >= d
  {
    assert x * d == (x - 1) * d + d;
    assert (x - 1) * d >= 0;
  }

  /** Shifting right by a then by b is shifting right by a * b (as divisions). */
  lemma DivDiv(v: nat, a: nat, b: nat)
    requires a > 0 && b > 0
    ensures (v / a) / b == v / (a * b)
  {
    var q, r := v / a, v % a;
    var q2, r2 := q / b, q % b;
    Regroup(v, a, b, q, r, q2, r2);
    DivModUnique(v, a * b, q2, a * r2 + r);
  }

  /** The remainder modulo b * m is rebuilt from the remainder modulo b and the quotient's remainder modulo m. */
  lemma ModMul(v: nat, b: nat, m: nat)
    requires b > 0 && m > 0
    ensures ((v / b) % m) * b + v % b == v % (b * m)
  {
    var q, r := v / b, v % b;
    var q2, r2 := q / m, q % m;
    Regroup(v, b, m, q, r, q2, r2);
    DivModUnique(v, b * m, q2, b * r2 + r);
  }

  /** v = a*q + r with q = b*q2 + r2 regroups as v = (a*b)*q2 + (a*r2 + r), the new remainder below a*b. */
  lemma Regroup(v: int, a: int, b: int, q: int, r: int, q2: int, r2: int)
    requires a > 0 && b > 0 && 0 <= r < a && 0 <= r2 < b
    requires v == a * q + r && q == b * q2 + r2
    ensures v == (a * b) * q2 + (a * r2 + r)
    ensures 0 <= a * r2 + r < a * b
  {
    Distribute(a, b, q2, r2);
    RemainderBelow(a, b, r, r2);
  }

  lemma Distribute(a: int, b: int, q2: int, r2: int)
    ensures a * (b * q2 + r2) == (a * b) * q2 + a * r2
  {
    assert a * (b * q2 + r2) == a * (b * q2) + a * r2;
  }

  lemma RemainderBelow(a: int, b: int, r: int, r2: int)
    requires a > 0 && 0 <= r < a && 0 <= r2 < b
    ensures 0 <= a * r2 + r < a * b
  {
    MulAtLeast(b - r2, a);
    assert a * b - a * r2 == (b - r2) * a;
    assert a * r2 >= 0 by {
      if r2 > 0 {
        MulAtLeast(r2, a);
      }
    }
  }
}
