/** Facts about integer division, and counting, shared by the modules of the model. */
module Arith {

  /** The number of `true` entries. */
  function CountOn(s: seq<bool>): (r: nat)
    ensures r <= |s|
  {
    if |s| == 0 then 0 else CountOn(s[..|s| - 1]) + (if s[|s| - 1] then 1 else 0)
  }

  /** Setting one entry moves the count by that entry alone. */
  lemma {:induction false} CountOnUpdate(s: seq<bool>, i: nat, v: bool)
    requires i < |s|
    ensures CountOn(s[i := v]) == CountOn(s) - (if s[i] then 1 else 0) + (if v then 1 else 0)
  {
    var n := |s| - 1;
    if i < n {
      assert s[i := v][..n] == s[..n][i := v];
      CountOnUpdate(s[..n], i, v);
    } else {
      assert s[i := v][..n] == s[..n];
    }
  }

  /** Appending one entry adds it to the count. */
  lemma CountOnSnoc(s: seq<bool>, v: bool)
    ensures CountOn(s + [v]) == CountOn(s) + (if v then 1 else 0)
  {
    assert (s + [v])[..|s|] == s;
  }

  /** Euclidean division is unique: any `q`, `r` with `x == q * d + r` and `0 <= r < d` are `x / d` and `x % d`. */
  lemma DivModUnique(x: int, d: int, q: int, r: int)
    requires d > 0 && 0 <= r < d && x == q * d + r
    ensures x / d == q && x % d == r
  {
    var q', r' := x / d, x % d;
    assert x == q' * d + r';
    assert (q' - q) * d == r - r' by {
      assert q' * d - q * d == (q' - q) * d;
    }
    if q' > q {
      MulAtLeast(q' - q, d);
    } else if q' < q {
      MulAtLeast(q - q', d);
    }
  }

  /** Truncating to 32 bits first does not change the value modulo 64. */
  lemma ModOfTruncation(x: nat)
    ensures x % 0x1_0000_0000 % 64 == x % 64
  {
    var q, low := x / 0x1_0000_0000, x % 0x1_0000_0000;
    assert x == q * 0x1_0000_0000 + low;
    assert low == (low / 64) * 64 + low % 64;
    assert q * 0x1_0000_0000 == (q * 0x400_0000) * 64;
    DivModUnique(x, 64, q * 0x400_0000 + low / 64, low % 64);
  }

  /** A positive multiple of `d` is at least `d`. */
  lemma MulAtLeast(a: int, d: int)
    requires a >= 1 && d > 0
    ensures a * d >= d
  {
    assert a * d == (a - 1) * d + d;
    assert (a - 1) * d >= 0;
  }

  /** Reducing modulo `m` never increases a natural number. */
  lemma ModAtMost(x: nat, m: nat)
    requires m > 0
    ensures x % m <= x
  {
    assert x == (x / m) * m + x % m;
    if x / m > 0 {
      MulAtLeast(x / m, m);
    }
  }

  /** Rotating the single bit 1 left by less than the width is a shift. */
  lemma RotateOne(k: nat)
    requires k < 64
    ensures (1 as bv64).RotateLeft(k) == (1 as bv64) << k
  {
  }
}
