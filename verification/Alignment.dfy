/** Powers of two, rounding up and machine words, as used throughout the system. */
module Alignment {

  /** The machine words, and the bytes of a page. */
  const WORD: nat := 0x1_0000_0000_0000_0000
  const PAGE_SIZE: nat := 4096

  function Wrap(x: int): (r: nat)
    ensures r < WORD
  {
    x % WORD
  }

  function Pow2(k: nat): (p: nat)
    ensures p > 0
  {
    if k == 0 then 1 else 2 * Pow2(k - 1)
  }

  ghost predicate IsPow2(n: nat) {
    exists k: nat :: n == Pow2(k)
  }

  /** `align_up` for a power-of-two alignment: the mask form rounds up to a multiple. */
  function AlignUp(addr: nat, align: nat): (r: nat)
    requires align > 0
    ensures addr <= r
  {
    if addr % align == 0 then addr else addr - addr % align + align
  }

  lemma MulAtLeast(k: int, a: int)
    requires k >= 1 && a >= 0
    ensures k * a >= a
  {
    assert (k - 1) * a >= 0;
    assert k * a == (k - 1) * a + a;
  }

  /** Quotient and remainder are unique. */
  lemma DivModUnique(x: int, a: int, q: int, r: int)
    requires a > 0 && x == q * a + r && 0 <= r < a
    ensures x / a == q && x % a == r
  {
    var q', r' := x / a, x % a;
    DivModOf(x, a);
    assert (q - q') * a == r' - r by {
      assert (q - q') * a == q * a - q' * a;
    }
    if q > q' {
      MulAtLeast(q - q', a);
    } else if q < q' {
      MulAtLeast(q' - q, a);
    }
  }

  lemma DivModOf(x: int, a: int)
    requires a > 0
    ensures x == x / a * a + x % a && 0 <= x % a < a
  {
  }

  lemma MultipleMod(q: int, a: int)
    requires a > 0
    ensures (q * a) % a == 0
  {
    DivModUnique(q * a, a, q, 0);
  }

  /** A multiple of a multiple of `b` is a multiple of `b`. */
  lemma MultipleTrans(x: nat, a: nat, b: nat)
    requires b > 0 && a > 0 && x % a == 0 && a % b == 0
    ensures x % b == 0
  {
    var q, m := x / a, a / b;
    assert x == q * a && a == m * b;
    assert x == (q * m) * b by {
      assert q * (m * b) == (q * m) * b;
    }
    MultipleMod(q * m, b);
  }

  /** Two multiples of `a` that differ are at least `a` apart. */
  lemma MultiplesApart(x: nat, y: nat, a: nat)
    requires a > 0 && x % a == 0 && y % a == 0 && x < y
    ensures x + a <= y
  {
    var p, q := x / a, y / a;
    DivModOf(x, a);
    DivModOf(y, a);
    assert (q - p) * a == y - x by {
      assert (q - p) * a == q * a - p * a;
    }
    if q > p {
      MulAtLeast(q - p, a);
    }
  }

  /** `AlignUp` is the least multiple of `align` that is not below `addr`. */
  lemma AlignUpLeast(addr: nat, align: nat)
    requires align > 0
    ensures addr <= AlignUp(addr, align) < addr + align
    ensures AlignUp(addr, align) % align == 0
    ensures forall p: nat :: p % align == 0 && addr <= p ==> AlignUp(addr, align) <= p
    ensures AlignUp(addr, align) == addr <==> addr % align == 0
  {
    var r := AlignUp(addr, align);
    DivModOf(addr, align);
    if addr % align != 0 {
      assert r == (addr / align + 1) * align;
      MultipleMod(addr / align + 1, align);
    }
    forall p: nat | p % align == 0 && addr <= p
      ensures r <= p
    {
      if p < r {
        MultiplesApart(p, r, align);
      }
    }
  }

  /** A power of two either divides eight or is a multiple of eight. */
  lemma Pow2Eight(n: nat)
    requires IsPow2(n)
    ensures n == 1 || n == 2 || n == 4 || (n >= 8 && n % 8 == 0)
  {
    var k: nat :| n == Pow2(k);
    Pow2EightAt(k);
  }

  lemma {:induction false} Pow2EightAt(k: nat)
    ensures Pow2(k) == 1 || Pow2(k) == 2 || Pow2(k) == 4 || (Pow2(k) >= 8 && Pow2(k) % 8 == 0)
  {
    if k > 0 {
      Pow2EightAt(k - 1);
    }
  }
}
