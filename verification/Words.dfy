/**
 Machine words: 64-bit wrap-around and the bit mask that replaces a modulo when
 the divisor is a power of two.
 */
module Words {
  const TWO32: nat := 0x1_0000_0000
  const TWO64: nat := 0x1_0000_0000_0000_0000

  type byte = x: int | 0 <= x < 256
  type u32 = x: int | 0 <= x < TWO32
  type u64 = x: int | 0 <= x < TWO64

  /** Unsigned 64-bit addition. */
  function Add64(a: u64, b: u64): u64 {
    (a + b) % TWO64
  }

  /** Unsigned 64-bit subtraction. */
  function Sub64(a: u64, b: u64): u64 {
    (a - b) % TWO64
  }

  function Pow2(k: nat): (p: nat)
    ensures p >= 1
  {
    if k == 0 then 1 else 2 * Pow2(k - 1)
  }

  /** Bitwise `&` of two non-negative numbers, bit by bit from the lowest. */
  function BitAnd(x: nat, y: nat): (r: nat)
    ensures r <= x && r <= y
  {
    if x == 0 || y == 0 then 0
    else 2 * BitAnd(x / 2, y / 2) + (x % 2) * (y % 2)
  }

  lemma {:induction false} Pow2Add(j: nat, k: nat)
    ensures Pow2(j + k) == Pow2(j) * Pow2(k)
  {
    if j == 0 {
    } else {
      Pow2Add(j - 1, k);
      assert j + k - 1 == (j - 1) + k;
      assert 2 * (Pow2(j - 1) * Pow2(k)) == (2 * Pow2(j - 1)) * Pow2(k);
    }
  }

  lemma {:induction false} Pow2Monotone(j: nat, k: nat)
    requires j <= k
    ensures Pow2(j) <= Pow2(k)
  {
    if j < k {
      Pow2Monotone(j, k - 1);
    }
  }

  lemma Pow2AtSmall()
    ensures Pow2(4) == 16
  {
    assert Pow2(2) == 4;
  }

  lemma Pow2At64()
    ensures Pow2(64) == TWO64
  {
    hide Pow2;
    Pow2AtSmall();
    Pow2Add(4, 4);
    Pow2Add(8, 8);
    Pow2Add(16, 16);
    Pow2Add(32, 32);
  }

  lemma DivModUnique(n: int, d: int, q: int, r: int)
    requires d > 0 && 0 <= r < d && n == q * d + r
    ensures n / d == q && n % d == r
  {
    var q' := n / d;
    var r' := n % d;
    assert n == q' * d + r';
    assert (q - q') * d == r' - r;
    assert q - q' >= 1 ==> (q - q') * d >= d;
    assert q - q' <= -1 ==> (q - q') * d <= -d;
  }

  lemma HalfMod(x: nat, m: nat)
    requires m >= 1
    ensures x % (2 * m) == 2 * ((x / 2) % m) + x % 2
  {
    var q := (x / 2) / m;
    var s := (x / 2) % m;
    assert x / 2 == q * m + s;
    var rest := 2 * s + x % 2;
    assert x == q * (2 * m) + rest by {
      assert 2 * (q * m) == q * (2 * m);
    }
    assert 0 <= rest < 2 * m;
    DivModUnique(x, 2 * m, q, rest);
  }

  lemma BitAndHalves(x: nat, y: nat)
    ensures BitAnd(x, y) == 2 * BitAnd(x / 2, y / 2) + (x % 2) * (y % 2)
    ensures BitAnd(x, 0) == 0
  {
  }

  /** The mask `2^k - 1` keeps exactly the remainder modulo `2^k`. */
  lemma {:induction false} MaskIsModulo(x: nat, k: nat)
    ensures BitAnd(x, Pow2(k) - 1) == x % Pow2(k)
    decreases k
  {
    hide BitAnd;
    BitAndHalves(x, Pow2(k) - 1);
    if k == 0 {
    } else {
      var half := Pow2(k - 1);
      assert (Pow2(k) - 1) / 2 == half - 1 && (Pow2(k) - 1) % 2 == 1;
      MaskIsModulo(x / 2, k - 1);
      HalfMod(x, half);
    }
  }

  lemma AddMultiple(n: int, q: int, d: int)
    requires d > 0
    ensures (n + q * d) % d == n % d
  {
    DivModUnique(n + q * d, d, n / d + q, n % d);
  }

  /** Reducing modulo a multiple first does not change the remainder. */
  lemma ModOfMod(n: nat, m: nat, c: nat)
    requires m > 0 && c > 0
    ensures m * c > 0 && (n % (m * c)) % c == n % c
  {
    var d := m * c;
    var q := n / d;
    assert n == q * d + n % d;
    assert q * d == (q * m) * c;
    AddMultiple(n % d, q * m, c);
  }

  /** A 64-bit index selects the same slot as the unbounded count it wraps. */
  lemma WrapKeepsSlot(n: nat, k: nat)
    requires k <= 64
    ensures (n % TWO64) % Pow2(k) == n % Pow2(k)
  {
    assert Pow2(64 - k) * Pow2(k) == TWO64 by {
      Pow2At64();
      Pow2Add(64 - k, k);
    }
    ModOfMod(n, Pow2(64 - k), Pow2(k));
  }

  /** Counts that wrap to the same index select the same slot. */
  lemma SameWrapSameSlot(x: nat, y: nat, k: nat)
    requires k <= 64 && x % TWO64 == y % TWO64
    ensures x % Pow2(k) == y % Pow2(k)
  {
    WrapKeepsSlot(x, k);
    WrapKeepsSlot(y, k);
  }

  lemma WrapFirst(n: nat, i: nat)
    ensures (n % TWO64 + i) % TWO64 == (n + i) % TWO64
  {
  }

  lemma WrapAdd(n: nat, b: u64)
    ensures Add64(n % TWO64, b) == (n + b) % TWO64
  {
  }

  /** The wrapped difference of two free-running indices is their true distance. */
  lemma WrapDifference(hi: nat, lo: nat)
    requires lo <= hi < lo + TWO64
    ensures Sub64(hi % TWO64, lo % TWO64) == hi - lo
  {
  }

  /** Two different positions less than one capacity apart never share a slot. */
  lemma DistinctSlots(i: nat, j: nat, c: nat)
    requires c > 0 && i < j < i + c
    ensures i % c != j % c
  {
    var d := j / c - i / c;
    assert j - i == d * c + (j % c - i % c);
    assert d >= 1 ==> d * c >= c;
    assert d <= 0 ==> d * c <= 0;
  }

  lemma MulMonotone(a: int, b: int, c: int)
    requires a <= b && c >= 0
    ensures a * c <= b * c
  {
    assert (b - a) * c >= 0;
  }

  /** The capacities a ring may have leave room for a difference one larger. */
  lemma CapacityBound(k: nat)
    requires 1 <= k <= 63
    ensures 2 <= Pow2(k) && Pow2(k) + 1 < TWO64
  {
    Pow2Monotone(1, k);
    Pow2Monotone(k, 63);
    Pow2At64();
    assert Pow2(64) == 2 * Pow2(63);
  }
}
