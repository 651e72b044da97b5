// The machine's 32-bit `int` and `long`, and C's division.
module Word32 {
  const TWO32: int := 0x1_0000_0000
  const TWO31: int := 0x8000_0000

  predicate IsLong(x: int) { -TWO31 <= x < TWO31 }

  // The value a 32-bit two's complement register keeps of x.
  function Wrap(x: int): (w: int)
    ensures IsLong(w)
    ensures IsLong(x) ==> w == x
  {
    (x + TWO31) % TWO32 - TWO31
  }

  lemma {:induction false} AddMultiple(x: int, k: int)
    ensures (x + k * TWO32) % TWO32 == x % TWO32
    decreases if k < 0 then -k else k
  {
    if k > 0 {
      AddMultiple(x, k - 1);
      assert x + k * TWO32 == (x + (k - 1) * TWO32) + TWO32;
    } else if k < 0 {
      AddMultiple(x, k + 1);
      assert x + k * TWO32 == (x + (k + 1) * TWO32) - TWO32;
    }
  }

  // x and its wrapped value differ by a multiple of 2^32.
  lemma WrapShift(x: int, k: int)
    ensures Wrap(x + k * TWO32) == Wrap(x)
  {
    AddMultiple(x + TWO31, k);
  }

  lemma WrapOf(x: int) returns (k: int)
    ensures Wrap(x) == x + k * TWO32
  {
    k := -((x + TWO31) / TWO32);
  }

  lemma Distribute(x: int, k: int, m: int)
    ensures (x + k * TWO32) * m == x * m + (k * m) * TWO32
  {
  }

  // Wrapping early or late makes no difference to sums and products.
  lemma WrapLinear(x: int, m: int, d: int)
    ensures Wrap(Wrap(x) * m + d) == Wrap(x * m + d)
  {
    var k := WrapOf(x);
    Distribute(x, k, m);
    WrapShift(x * m + d, k * m);
  }

  function Abs(a: int): nat { if a < 0 then -a else a }

  // C truncates towards zero.
  function TruncDiv(a: int, b: int): int
    requires b != 0
  {
    if (a < 0) == (b < 0) then Abs(a) / Abs(b) else -(Abs(a) / Abs(b))
  }

  function TruncMod(a: int, b: int): int
    requires b != 0
  {
    a - b * TruncDiv(a, b)
  }

  function Pow2(k: nat): (p: nat)
    ensures p > 0
  {
    if k == 0 then 1 else 2 * Pow2(k - 1)
  }
}
