/**
 Bit arithmetic of the buddy allocator on 64-bit unsigned numbers, and when rounding up to a power
 of two is exact.
 */
module BuddyUtil {
  import opened Arithmetic

  const TWO32: nat := 0x1_0000_0000
  const TWO63: nat := 0x8000_0000_0000_0000
  const TWO64: nat := 0x1_0000_0000_0000_0000

  function Pow2(k: nat): (r: nat)
    ensures r >= 1
  {
    if k == 0 then 1 else 2 * Pow2(k - 1)
  }

  function BitAnd(x: nat, y: nat): nat {
    if x == 0 || y == 0 then 0 else 2 * BitAnd(x / 2, y / 2) + (if x % 2 == 1 && y % 2 == 1 then 1 else 0)
  }

  function BitOr(x: nat, y: nat): nat {
    if x == 0 && y == 0 then 0
    else 2 * BitOr(x / 2, y / 2) + (if x % 2 == 1 || y % 2 == 1 then 1 else 0)
  }

  function Shr(x: nat, i: nat): nat
    decreases i
  {
    if i == 0 then x else Shr(x / 2, i - 1)
  }

  predicate IsPowerOf2(number: nat) { number != 0 && BitAnd(number, number - 1) == 0 }

  // Exactly the powers of two pass the mask test.
  lemma {:induction false} IsPowerOf2Iff(number: nat)
    ensures IsPowerOf2(number) <==> exists k: nat :: number == Pow2(k)
    decreases number
  {
    if number == 0 {
      forall k: nat ensures number != Pow2(k) { assert Pow2(k) >= 1; }
    } else if number == 1 {
      assert number == Pow2(0) && BitAnd(1, 0) == 0;
    } else if number % 2 == 1 {
      AndSelf(number / 2);
      assert (number - 1) / 2 == number / 2;
      assert BitAnd(number, number - 1) == 2 * BitAnd(number / 2, number / 2);
      forall k: nat ensures number != Pow2(k) { assert k > 0 ==> Pow2(k) == 2 * Pow2(k - 1); }
    } else {
      var half := number / 2;
      IsPowerOf2Iff(half);
      assert (number - 1) / 2 == half - 1;
      assert BitAnd(number, number - 1) == 2 * BitAnd(half, half - 1);
      if k: nat :| half == Pow2(k) { assert number == Pow2(k + 1); }
      if k: nat :| number == Pow2(k) {
        assert k > 0 && Pow2(k) == 2 * Pow2(k - 1);
        assert half == Pow2(k - 1);
      }
    }
  }

  lemma {:induction false} AndSelf(x: nat)
    ensures BitAnd(x, x) == x
    decreases x
  {
    if x > 0 { AndSelf(x / 2); }
  }

  // The loop doubles the shift while it is not half the bits of a size_t, so it stops at 32.
  method NearestUpperPowerOf2(number: nat) returns (r: nat)
    requires 0 < number < TWO64
    ensures r == Rounded(number)
  {
    var n := number - 1;
    var i := 1;
    while i != 32
      invariant i in {1, 2, 4, 8, 16, 32} && n == Smeared(number - 1, i)
      decreases 32 - i
    {
      n := BitOr(n, Shr(n, i));
      i := i * 2;
    }
    r := (n + 1) % TWO64;
  }

  // The number with every bit spread over the `w` positions downwards from it.
  function Smeared(x: nat, w: nat): nat
    requires w in {1, 2, 4, 8, 16, 32}
    decreases w
  {
    if w == 1 then x else var y := Smeared(x, w / 2); BitOr(y, Shr(y, w / 2))
  }

  function Rounded(number: nat): nat
    requires 0 < number
  {
    (Smeared(number - 1, 32) + 1) % TWO64
  }

  // The least power of two that is not below `number`.
  function UpperPow2(number: nat): nat
    decreases number
  {
    if number <= 1 then 1 else 2 * UpperPow2((number + 1) / 2)
  }

  lemma {:induction false} UpperPow2IsLeast(number: nat) returns (k: nat)
    ensures UpperPow2(number) == Pow2(k) && number <= Pow2(k)
    ensures forall j: nat :: number <= Pow2(j) ==> Pow2(k) <= Pow2(j)
    decreases number
  {
    if number <= 1 {
      k := 0;
    } else {
      var half := UpperPow2IsLeast((number + 1) / 2);
      k := half + 1;
      forall j: nat | number <= Pow2(j) ensures Pow2(k) <= Pow2(j) {
        assert (number + 1) / 2 <= Pow2(j - 1);
      }
    }
  }

  // ---------------------------------------------------------------- bits

  predicate Bit(x: nat, k: nat)
    decreases k
  {
    if k == 0 then x % 2 == 1 else Bit(x / 2, k - 1)
  }

  lemma {:induction false} BitOfOr(x: nat, y: nat, k: nat)
    ensures Bit(BitOr(x, y), k) <==> Bit(x, k) || Bit(y, k)
    decreases k
  {
    var low := if x % 2 == 1 || y % 2 == 1 then 1 else 0;
    assert BitOr(x, y) == 2 * BitOr(x / 2, y / 2) + low;
    if k > 0 { BitOfOr(x / 2, y / 2, k - 1); }
  }

  lemma {:induction false} BitOfShr(x: nat, i: nat, k: nat)
    ensures Bit(Shr(x, i), k) <==> Bit(x, k + i)
    decreases i
  {
    if i > 0 { BitOfShr(x / 2, i - 1, k); }
  }

  ghost predicate InWindow(x: nat, k: nat, w: nat) { exists j :: k <= j < k + w && Bit(x, j) }

  // Each doubling step widens the window from which a bit is collected.
  lemma {:induction false} SmearedBit(x: nat, w: nat, k: nat)
    requires w in {1, 2, 4, 8, 16, 32}
    ensures Bit(Smeared(x, w), k) <==> InWindow(x, k, w)
    decreases w
  {
    if w == 1 {
      assert Bit(x, k) ==> InWindow(x, k, 1);
    } else {
      var y, v := Smeared(x, w / 2), w / 2;
      SmearedBit(x, v, k);
      SmearedBit(x, v, k + v);
      BitOfOr(y, Shr(y, v), k);
      BitOfShr(y, v, k);
      assert InWindow(x, k, w) <==> InWindow(x, k, v) || InWindow(x, k + v, v);
    }
  }

  // The number of significant bits.
  function Width(x: nat): (m: nat)
    ensures x < Pow2(m) && (m > 0 ==> Pow2(m - 1) <= x)
  {
    if x == 0 then 0 else Width(x / 2) + 1
  }

  lemma {:induction false} TopBit(x: nat, k: nat)
    ensures k >= Width(x) ==> !Bit(x, k)
    ensures k + 1 == Width(x) ==> Bit(x, k)
    decreases k
  {
    if k > 0 { TopBit(x / 2, k - 1); }
  }

  lemma {:induction false} AllOnes(y: nat, m: nat)
    requires forall k: nat :: Bit(y, k) <==> k < m
    ensures y == Pow2(m) - 1
    decreases y
  {
    if y == 0 {
      assert Bit(0, 0) <==> 0 < m;
    } else {
      forall k: nat ensures Bit(y / 2, k) <==> k + 1 < m { assert Bit(y, k + 1) == Bit(y / 2, k); }
      if m == 0 {
        TopBit(y, Width(y) - 1);
        assert false;
      }
      AllOnes(y / 2, m - 1);
      assert Bit(y, 0);
    }
  }

  lemma {:induction false} OnesBits(m: nat, k: nat)
    ensures Bit(Pow2(m) - 1, k) <==> k < m
    decreases m
  {
    if m == 0 {
      TopBit(0, k);
    } else {
      assert (Pow2(m) - 1) / 2 == Pow2(m - 1) - 1;
      if k > 0 { OnesBits(m - 1, k - 1); }
    }
  }

  // ---------------------------------------------------------------- when rounding is exact

  // No 32 zero bits in a row below the leading one.
  ghost predicate NoLongGap(x: nat) {
    forall b: nat :: Pow2(b) <= x ==> Shr(x, b) % TWO32 != 0
  }

  lemma {:induction false} ShrZero(x: nat, b: nat)
    ensures Pow2(b) <= x <==> Shr(x, b) > 0
    ensures b < Width(x) <==> Pow2(b) <= x
    decreases b
  {
    if b > 0 { ShrZero(x / 2, b - 1); }
  }

  lemma {:induction false} LowBits(x: nat, w: nat)
    ensures x % Pow2(w) != 0 <==> InWindow(x, 0, w)
    decreases w
  {
    if w > 0 {
      LowBits(x / 2, w - 1);
      Halve(x, Pow2(w - 1));
      if InWindow(x / 2, 0, w - 1) {
        var j :| 0 <= j < w - 1 && Bit(x / 2, j);
        assert Bit(x, j + 1);
      }
      if InWindow(x, 0, w) {
        var j :| 0 <= j < w && Bit(x, j);
        if j > 0 { assert Bit(x / 2, j - 1); }
      }
      assert x % 2 == 1 ==> Bit(x, 0);
    }
  }

  lemma Halve(x: nat, p: nat)
    requires p >= 1
    ensures x % (2 * p) == 2 * ((x / 2) % p) + x % 2
  {
    var q, r := (x / 2) / p, (x / 2) % p;
    assert x / 2 == q * p + r;
    assert x == 2 * (x / 2) + x % 2;
    assert x == q * (2 * p) + (2 * r + x % 2);
    Remainder(x, 2 * p, q, 2 * r + x % 2);
  }

  lemma WindowOfShr(x: nat, b: nat, w: nat)
    ensures InWindow(Shr(x, b), 0, w) <==> InWindow(x, b, w)
  {
    if InWindow(Shr(x, b), 0, w) {
      var j :| 0 <= j < w && Bit(Shr(x, b), j);
      BitOfShr(x, b, j);
      assert Bit(x, j + b);
    }
    if InWindow(x, b, w) {
      var j :| b <= j < b + w && Bit(x, j);
      BitOfShr(x, b, j - b);
      assert Bit(Shr(x, b), j - b);
    }
  }

  // A gap of 32 zeros at `b` is what the smearing cannot fill.
  lemma GapIff(x: nat, b: nat)
    ensures Shr(x, b) % TWO32 != 0 <==> Bit(Smeared(x, 32), b)
  {
    assert Pow2(32) == TWO32 by { assert Pow2(8) == 256; Pow2Add(8, 8); Pow2Add(16, 16); }
    LowBits(Shr(x, b), 32);
    WindowOfShr(x, b, 32);
    SmearedBit(x, 32, b);
  }

  lemma {:induction false} Pow2Add(m: nat, n: nat)
    ensures Pow2(m + n) == Pow2(m) * Pow2(n)
    decreases m
  {
    if m > 0 { Pow2Add(m - 1, n); }
  }

  lemma {:induction false} Pow2Monotone(m: nat, n: nat)
    requires m <= n
    ensures Pow2(m) <= Pow2(n) && (m < n ==> 2 * Pow2(m) <= Pow2(n))
    decreases n
  {
    if m < n { Pow2Monotone(m, n - 1); }
  }

  lemma Pow2Order(m: nat, n: nat)
    ensures Pow2(m) < Pow2(n) ==> m < n
    ensures Pow2(m) < 2 * Pow2(n) ==> m <= n
  {
    if n < m { Pow2Monotone(n, m); }
  }

  lemma Pow2Sixty()
    ensures Pow2(32) == TWO32 && Pow2(63) == TWO63 && Pow2(64) == TWO64
  {
    assert Pow2(8) == 256;
    Pow2Add(8, 8);
    Pow2Add(16, 16);
    Pow2Add(32, 32);
  }

  // The width of n - 1 is the exponent to round up to.
  lemma UpperPow2Width(number: nat)
    requires number > 0
    ensures UpperPow2(number) == Pow2(Width(number - 1))
  {
    var m := Width(number - 1);
    var k := UpperPow2IsLeast(number);
    if m < k { Pow2Monotone(m, k); } else if k < m { Pow2Monotone(k, m - 1); }
  }

  lemma SmearedBelow(x: nat)
    ensures Smeared(x, 32) < Pow2(Width(x))
  {
    var y, m := Smeared(x, 32), Width(x);
    if Width(y) > m {
      var k := Width(y) - 1;
      TopBit(y, k);
      SmearedBit(x, 32, k);
      var j :| k <= j < k + 32 && Bit(x, j);
      TopBit(x, j);
    }
    Pow2Monotone(Width(y), m);
  }

  lemma {:induction false} OrGrows(x: nat, y: nat)
    ensures BitOr(x, y) >= x
    decreases x
  {
    if x > 0 { OrGrows(x / 2, y / 2); }
  }

  lemma {:induction false} SmearedAbove(x: nat, w: nat)
    requires w in {1, 2, 4, 8, 16, 32}
    ensures Smeared(x, w) >= x
    decreases w
  {
    if w > 1 {
      SmearedAbove(x, w / 2);
      OrGrows(Smeared(x, w / 2), Shr(Smeared(x, w / 2), w / 2));
    }
  }

  lemma SmearedTop(x: nat, k: nat)
    requires k >= Width(x)
    ensures !Bit(Smeared(x, 32), k)
  {
    hide Smeared;
    SmearedBit(x, 32, k);
    forall j | k <= j < k + 32 ensures !Bit(x, j) { TopBit(x, j); }
  }

  // The smeared number is all ones exactly when there is no long gap.
  lemma SmearedOnes(x: nat)
    ensures Smeared(x, 32) == Pow2(Width(x)) - 1 <==> NoLongGap(x)
  {
    hide Smeared, Shr, Bit, Width, Pow2;
    var y, m := Smeared(x, 32), Width(x);
    forall b: nat ensures (Shr(x, b) % TWO32 != 0 <==> Bit(y, b)) && (b < m <==> Pow2(b) <= x) {
      GapIff(x, b);
      ShrZero(x, b);
    }
    if NoLongGap(x) {
      forall k: nat ensures Bit(y, k) <==> k < m {
        if k >= m { SmearedTop(x, k); }
      }
      AllOnes(y, m);
    }
    if y == Pow2(m) - 1 {
      forall b: nat | Pow2(b) <= x ensures Shr(x, b) % TWO32 != 0 { OnesBits(m, b); }
    }
  }

  // Rounding gives the least power of two at or above the number exactly when that fits in 64
  // bits and the number before it has no 32 zero bits in a row below its leading one.
  lemma RoundedExactIff(number: nat)
    requires 0 < number < TWO64
    ensures Rounded(number) == UpperPow2(number) <==> number <= TWO63 && NoLongGap(number - 1)
  {
    hide NoLongGap, Smeared, Pow2, Width, UpperPow2;
    var x := number - 1;
    UpperPow2Width(number);
    SmearedOnes(x);
    SmearedBelow(x);
    WidthRange(x);
  }

  lemma WidthRange(x: nat)
    requires x < TWO64
    ensures x < TWO63 ==> Pow2(Width(x)) <= TWO63
    ensures x >= TWO63 ==> Pow2(Width(x)) == TWO64
  {
    var m := Width(x);
    Pow2Sixty();
    hide Pow2;
    if x < TWO63 {
      if m > 63 { Pow2Monotone(63, m - 1); } else { Pow2Monotone(m, 63); }
    } else {
      if m > 64 { Pow2Monotone(64, m - 1); } else if m < 64 { Pow2Monotone(m, 63); }
    }
  }

  // It is exact for 1..2^32.
  lemma RoundedExact(number: nat)
    requires 0 < number <= TWO32
    ensures Rounded(number) == UpperPow2(number)
  {
    forall b: nat | Pow2(b) <= number - 1 ensures Shr(number - 1, b) % TWO32 != 0 {
      ShrZero(number - 1, b);
      ShrSmaller(number - 1, b);
    }
    RoundedExactIff(number);
  }

  lemma {:induction false} ShrSmaller(x: nat, b: nat)
    ensures Shr(x, b) <= x
    decreases b
  {
    if b > 0 { ShrSmaller(x / 2, b - 1); }
  }

  // Where it is not exact, the result lies strictly between two powers of two, or is the zero that
  // the increment of 2^64 - 1 wraps to.
  lemma RoundedBetween(number: nat)
    requires 0 < number < TWO64 && !(number <= TWO63 && NoLongGap(number - 1))
    ensures Width(number - 1) > 0 && Rounded(number) < Pow2(Width(number - 1))
    ensures Rounded(number) == 0 || Pow2(Width(number - 1) - 1) < Rounded(number)
  {
    hide NoLongGap, Smeared, Pow2, Width;
    var x := number - 1;
    var y, m := Smeared(x, 32), Width(x);
    NoBits(x);
    WidthRange(x);
    SmearedAbove(x, 32);
    SmearedBelow(x);
    SmearedOnes(x);
    WrappedBetween(x, y, Pow2(m - 1), Pow2(m));
  }

  lemma WrappedBetween(x: nat, y: nat, low: nat, high: nat)
    requires low <= x <= y < high <= TWO64 && (high < TWO64 ==> y + 1 != high)
    ensures var r := (y + 1) % TWO64; r < high && (r == 0 || low < r)
  {
  }

  lemma NoBits(x: nat)
    ensures Width(x) == 0 ==> x == 0 && NoLongGap(x)
  {
  }

  lemma NotPow2(n: nat, m: nat)
    requires m > 0 && n < Pow2(m) && (n == 0 || Pow2(m - 1) < n)
    ensures forall j: nat :: n != Pow2(j)
  {
    forall j: nat ensures n != Pow2(j) {
      if j < m { Pow2Monotone(j, m - 1); } else { Pow2Monotone(m, j); }
    }
  }

  // The first number where it is not: the single bit of 2^32 does not reach bit 0.
  lemma RoundedInexact()
    ensures Rounded(TWO32 + 1) != UpperPow2(TWO32 + 1)
  {
    RoundedExactIff(TWO32 + 1);
    assert Pow2(0) <= TWO32 && Shr(TWO32, 0) % TWO32 == 0;
    hide Rounded, UpperPow2;
  }
}
