/** Rounding a byte count up to the platform's allocation alignment (round_size_up,
    defined elsewhere in ArduinoJson). Every fact used elsewhere is derived from the
    three properties in RoundUp's postcondition alone. */
module Alignment {

  /** An alignment: a positive number of bytes (sizeof(void*) on the target). */
  type Align = a: nat | a > 0 witness 1

  /** The smallest multiple of `a` that is at least `x`. */
  function RoundUp(x: nat, a: Align): (r: nat)
    ensures x <= r < x + a
    ensures r % a == 0
  {
    if x % a == 0 then x else MultipleAbove(x, a)
  }

  /** The next multiple of `a` strictly above a value that is not one. */
  function MultipleAbove(x: nat, a: Align): (r: nat)
    requires x % a != 0
    ensures x < r < x + a && r % a == 0
  {
    DivMod(x, a);
    MulMod(x / a + 1, a);
    assert (x / a + 1) * a == (x / a) * a + a;
    (x / a + 1) * a
  }

  lemma DivMod(x: nat, a: Align)
    ensures x == (x / a) * a + x % a && 0 <= x % a < a
  {
  }

  lemma {:induction false} MulAtLeast(t: nat, a: Align)
    requires t >= 1
    ensures t * a >= a
  {
    if t > 1 {
      MulAtLeast(t - 1, a);
      assert t * a == (t - 1) * a + a;
    }
  }

  /** Euclidean division is determined by quotient and remainder. */
  lemma ModUnique(x: nat, a: Align, q: nat, m: nat)
    requires m < a && x == q * a + m
    ensures x / a == q && x % a == m
  {
    DivMod(x, a);
    var q', m' := x / a, x % a;
    if q' > q {
      MulAtLeast(q' - q, a);
      assert false;
    } else if q' < q {
      MulAtLeast(q - q', a);
      assert false;
    }
  }

  lemma MulMod(k: nat, a: Align)
    ensures (k * a) % a == 0
  {
    ModUnique(k * a, a, k, 0);
  }

  /** Two multiples of `a` closer than `a` to each other are equal. */
  lemma MultiplesApart(r: nat, s: nat, a: Align)
    requires r % a == 0 && s % a == 0
    requires r <= s < r + a
    ensures r == s
  {
    DivMod(r, a);
    DivMod(s, a);
    var k, m := r / a, s / a;
    if k < m {
      MulAtLeast(m - k, a);
      assert false;
    }
  }

  /** The three properties determine the rounded value uniquely. */
  lemma {:induction false} RoundUpUnique(x: nat, a: Align, r: nat)
    requires x <= r < x + a && r % a == 0
    ensures RoundUp(x, a) == r
  {
    var q := RoundUp(x, a);
    if q <= r {
      MultiplesApart(q, r, a);
    } else {
      MultiplesApart(r, q, a);
    }
  }

  /** The very first allocation starts at offset 0. */
  lemma RoundUpZero(a: Align)
    ensures RoundUp(0, a) == 0
  {
    RoundUpUnique(0, a, 0);
  }

  /** Rounding is idempotent: an aligned cursor is left where it is. */
  lemma RoundUpIdempotent(x: nat, a: Align)
    ensures RoundUp(RoundUp(x, a), a) == RoundUp(x, a)
  {
    var r := RoundUp(x, a);
    RoundUpUnique(r, a, r);
  }

  /** Rounding preserves order. */
  lemma RoundUpMonotone(x: nat, y: nat, a: Align)
    requires x <= y
    ensures RoundUp(x, a) <= RoundUp(y, a)
  {
    var rx, ry := RoundUp(x, a), RoundUp(y, a);
    if ry < rx {
      MultiplesApart(ry, rx, a);
    }
  }
}
