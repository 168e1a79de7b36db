/**
 Powers of two and the bit tricks of include/priskv-utils.h and server/buddy.c.
 The C code tests `x & (x - 1)` and shifts by a count of leading zeros; both are
 written here on natural numbers, bit by bit, and given their arithmetic meaning.
 */
module Powers {

  predicate IsPow2(n: nat) {
    n == 1 || (n > 1 && n % 2 == 0 && IsPow2(n / 2))
  }

  /** Bitwise conjunction of two non-negative numbers. */
  function And(x: nat, y: nat): nat {
    if x == 0 || y == 0 then 0 else (x % 2) * (y % 2) + 2 * And(x / 2, y / 2)
  }

  /** The number of significant bits, 32 - __builtin_clz(x) in the source. */
  function BitLength(x: nat): nat {
    if x == 0 then 0 else 1 + BitLength(x / 2)
  }

  function Shift(n: nat): (r: nat)
    ensures IsPow2(r)
  {
    if n == 0 then 1 else 2 * Shift(n - 1)
  }

  /** IS_POWER_OF_2; on unsigned values 0 - 1 is all ones, so 0 passes the test. */
  predicate PassesPow2Test(x: nat) {
    x == 0 || And(x, x - 1) == 0
  }

  /** The value roundup_power_of_2 is used for: the block count actually reserved. */
  function RoundUp(x: nat): nat {
    if PassesPow2Test(x) then x else Shift(BitLength(x))
  }

  lemma {:induction false} AndSelf(x: nat)
    ensures And(x, x) == x
  {
    if x != 0 { AndSelf(x / 2); }
  }

  lemma {:induction false} Pow2Test(x: nat)
    ensures PassesPow2Test(x) <==> x == 0 || IsPow2(x)
  {
    if x > 1 {
      if x % 2 == 0 {
        assert (x - 1) / 2 == x / 2 - 1;
        Pow2Test(x / 2);
      } else {
        assert (x - 1) / 2 == x / 2;
        AndSelf(x / 2);
      }
    }
  }

  lemma {:induction false} BitLengthBounds(x: nat)
    requires x > 0
    ensures x < Shift(BitLength(x)) <= 2 * x
  {
    if x > 1 { BitLengthBounds(x / 2); }
  }

  /** Two powers of two that are strictly ordered differ by at least a factor of two. */
  lemma {:induction false} Pow2Gap(a: nat, b: nat)
    requires IsPow2(a) && IsPow2(b) && a < b
    ensures 2 * a <= b
  {
    if a > 1 { Pow2Gap(a / 2, b / 2); }
  }

  lemma {:induction false} Pow2Divides(a: nat, b: nat) returns (k: nat)
    requires IsPow2(a) && IsPow2(b) && a <= b
    ensures b == k * a && IsPow2(k)
    decreases b
  {
    if a == b {
      k := 1;
    } else {
      Pow2Gap(a, b);
      k := Pow2Divides(a, b / 2);
      MulAdd(k, k, a);
      k := 2 * k;
    }
  }

  lemma {:induction false} Pow2Mul(a: nat, b: nat)
    requires IsPow2(a) && IsPow2(b)
    ensures IsPow2(a * b)
  {
    if b > 1 {
      var h := b / 2;
      Pow2Mul(a, h);
      Pow2Double(a * h);
      MulAdd(h, h, a);
    }
  }

  lemma {:induction false} Pow2Double(a: nat)
    requires IsPow2(a)
    ensures IsPow2(2 * a)
  {
  }

  lemma {:induction false} MulAdd(a: int, b: int, s: int)
    ensures (a + b) * s == a * s + b * s
  {
  }

  lemma {:induction false} MulMono(a: int, b: int, s: nat)
    requires a <= b
    ensures a * s <= b * s
  {
  }

  /** Halving a power of two and doubling the other factor. */
  lemma {:induction false} MulHalf(a: int, s: int)
    requires s % 2 == 0
    ensures (2 * a) * (s / 2) == a * s
    ensures (2 * a + 1) * (s / 2) == a * s + s / 2
  {
    var h := s / 2;
    assert s == 2 * h;
    MulAdd(2 * a, 1, h);
  }

  lemma {:induction false} Quotient(k: nat, a: nat)
    requires a > 0
    ensures (k * a) / a == k && (k * a) % a == 0
  {
    var q, r := (k * a) / a, (k * a) % a;
    assert k * a == q * a + r;
    MulAdd(k, -q, a);
    if q < k { MulMono(1, k - q, a); }
    if k < q { MulMono(1, q - k, a); }
  }

  /** RoundUp gives the least power of two that is at least x. */
  lemma {:induction false} RoundUpLeast(x: nat)
    requires x > 0
    ensures IsPow2(RoundUp(x)) && x <= RoundUp(x) < 2 * x
    ensures forall p: nat :: IsPow2(p) && x <= p ==> RoundUp(x) <= p
  {
    Pow2Test(x);
    if !PassesPow2Test(x) {
      BitLengthBounds(x);
      var r := Shift(BitLength(x));
      forall p: nat | IsPow2(p) && x <= p
        ensures r <= p
      {
        if p < r { Pow2Gap(p, r); }
      }
    }
  }
}
