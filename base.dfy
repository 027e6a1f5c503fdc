// Shared vocabulary for the kernel model: optional values, error numbers
// (returned negated, as the kernel does) and power-of-two alignment.

module Base {

  datatype Option<T> = None | Some(value: T)

  // errno values of the Linux generic ABI.
  const EPERM: int := 1
  const ENOMEM: int := 12
  const EBUSY: int := 16
  const ENODEV: int := 19
  const EINVAL: int := 22
  const ENOSPC: int := 28
  const EOPNOTSUPP: int := 95

  const PAGE_SHIFT: nat := 12
  const PAGE_SIZE: nat := 4096

  // 2^64: unsigned long on a 64-bit kernel wraps modulo this.
  const WORD: nat := 0x1_0000_0000_0000_0000
  const ULONG_MAX: nat := WORD - 1

  function Min(a: int, b: int): int { if a <= b then a else b }
  function Max(a: int, b: int): int { if a >= b then a else b }

  function Pow2(n: nat): (r: nat)
    ensures r >= 1
  {
    if n == 0 then 1 else 2 * Pow2(n - 1)
  }

  // fls: the 1-based position of the most significant set bit, 0 for 0.
  function Fls(x: nat): (r: nat)
    ensures x > 0 ==> r >= 1
  {
    if x == 0 then 0 else 1 + Fls(x / 2)
  }

  // 2^fls(x) is the least power of two above x.
  lemma {:induction false} FlsBounds(x: nat)
    ensures Pow2(Fls(x)) > x
    ensures x > 0 ==> Pow2(Fls(x) - 1) <= x
  {
    if x > 0 {
      FlsBounds(x / 2);
    }
  }

  // ALIGN(x, a) for a power of two a: the least multiple of a that is >= x.
  // The kernel computes it as (x + a - 1) & ~(a - 1); on non-negative values
  // and power-of-two a this is the arithmetic rounding below.
  function AlignUp(x: int, a: nat): int
    requires a > 0
  {
    ((x + a - 1) / a) * a
  }

  // ALIGN on natural numbers: the least multiple of a that is >= x.
  function RoundUp(x: nat, a: nat): (r: nat)
    requires a > 0
    ensures x <= r < x + a && r % a == 0
  {
    AlignUpBounds(x, a);
    AlignUp(x, a)
  }

  // x & ~(a - 1) for a power of two a.
  function AlignDown(x: int, a: nat): int
    requires a > 0
  {
    (x / a) * a
  }

  lemma AlignUpBounds(x: int, a: nat)
    requires a > 0
    ensures x <= AlignUp(x, a) < x + a
    ensures AlignUp(x, a) % a == 0
  {
    var q := (x + a - 1) / a;
    var r := (x + a - 1) % a;
    assert x + a - 1 == q * a + r;
    assert (q * a) % a == 0 by { MulMod(q, a); }
  }

  lemma AlignDownBounds(x: int, a: nat)
    requires a > 0
    ensures x - a < AlignDown(x, a) <= x
    ensures AlignDown(x, a) % a == 0
  {
    var q := x / a;
    assert x == q * a + x % a;
    assert (q * a) % a == 0 by { MulMod(q, a); }
  }

  // A multiple of a is left alone by ALIGN.
  lemma AlignUpAligned(x: int, a: nat)
    requires a > 0 && x % a == 0
    ensures AlignUp(x, a) == x
  {
    AlignUpBounds(x, a);
    var y := AlignUp(x, a);
    assert y % a == 0;
    if y != x {
      assert x < y < x + a;
      DistinctMultiples(x, y, a);
    }
  }

  lemma {:induction false} MulAtLeast(k: int, a: nat)
    requires k >= 1
    ensures k * a >= a
  {
    if k > 1 {
      MulAtLeast(k - 1, a);
      assert k * a == (k - 1) * a + a;
    }
  }

  lemma MulMod(q: int, a: nat)
    requires a > 0
    ensures (q * a) % a == 0
  {
    var r := (q * a) % a;
    var d := (q * a) / a;
    assert q * a == d * a + r;
    assert (q - d) * a == r by {
      assert q * a - d * a == (q - d) * a;
    }
    if q - d >= 1 {
      MulAtLeast(q - d, a);
    } else if q - d <= -1 {
      MulAtLeast(d - q, a);
    }
  }

  lemma DistinctMultiples(x: int, y: int, a: nat)
    requires a > 0 && x % a == 0 && y % a == 0 && x < y
    ensures y - x >= a
  {
    var qx, qy := x / a, y / a;
    assert x == qx * a;
    assert y == qy * a;
    assert y - x == (qy - qx) * a by {
      assert qy * a - qx * a == (qy - qx) * a;
    }
    if qy - qx >= 1 {
      MulAtLeast(qy - qx, a);
    } else {
      assert qy - qx <= 0;
      if qy - qx <= -1 {
        MulAtLeast(qx - qy, a);
      }
    }
  }

  // n is q whole multiples of d exactly when d divides n with quotient q.
  lemma ExactDiv(n: nat, d: nat, q: nat)
    requires d > 0
    ensures n == q * d <==> n % d == 0 && n / d == q
  {
    if n == q * d {
      MulMod(q, d);
    }
  }

  // Euclidean division is unique: q and o are the quotient and remainder.
  lemma DivMod(v: int, q: int, d: nat, o: int)
    requires d > 0 && 0 <= o < d && v == q * d + o
    ensures v / d == q && v % d == o
  {
    var q', o' := v / d, v % d;
    assert (q - q') * d == o' - o by {
      assert q * d - q' * d == (q - q') * d;
    }
    if q - q' >= 1 {
      MulAtLeast(q - q', d);
    } else if q' - q >= 1 {
      MulAtLeast(q' - q, d);
    }
  }
}
