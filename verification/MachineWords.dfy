/** Unsigned 32-bit machine arithmetic as the C sources use it: counters wrap
    modulo 2^32, and a ring index is taken with a bitwise mask. */
module MachineWords {

  const U32: nat := 0x1_0000_0000

  function Pow2(k: nat): (p: nat)
    ensures p >= 1
  {
    if k == 0 then 1 else 2 * Pow2(k - 1)
  }

  function Add32(a: nat, b: nat): (w: nat)
    requires a < U32 && b < U32
    ensures w < U32
  {
    if a + b < U32 then a + b else a + b - U32
  }

  function Sub32(a: nat, b: nat): (w: nat)
    requires a < U32 && b < U32
    ensures w < U32
  {
    if a >= b then a - b else a - b + U32
  }

  lemma WordsAreModular(a: nat, b: nat)
    requires a < U32 && b < U32
    ensures Add32(a, b) == (a + b) % U32
    ensures Sub32(a, b) == (a - b) % U32
  {
  }

  /** The 32-bit word w is what is left of the unbounded counter x. */
  ghost predicate Tracks(w: nat, x: nat) {
    if x < U32 then w == x else Tracks(w, x - U32)
  }

  /** Bitwise and of two unsigned words, one bit at a time. */
  function BitAnd(x: nat, y: nat): nat
  {
    if x == 0 || y == 0 then 0
    else (if x % 2 == 1 && y % 2 == 1 then 1 else 0) + 2 * BitAnd(x / 2, y / 2)
  }

  function BitXor(x: nat, y: nat): nat
    decreases x + y
  {
    if x == 0 then y else if y == 0 then x
    else (if x % 2 != y % 2 then 1 else 0) + 2 * BitXor(x / 2, y / 2)
  }

  lemma ModOfHalf(x: nat, p: nat)
    requires p >= 1
    ensures x % (2 * p) == x % 2 + 2 * ((x / 2) % p)
  {
    var h := x / 2;
    var q := h / p;
    assert h == q * p + h % p;
    var r := x % 2 + 2 * (h % p);
    assert x == q * (2 * p) + r by {
      assert 2 * (q * p) == q * (2 * p);
    }
    QuotientUnique(x, 2 * p, q, r);
  }

  lemma MultipleAtLeast(k: int, d: nat)
    requires k >= 1
    ensures k * d >= d
  {
    if k > 1 { MultipleAtLeast(k - 1, d); }
  }

  lemma QuotientUnique(x: int, d: nat, q: int, r: int)
    requires d > 0 && 0 <= r < d && x == q * d + r
    ensures x % d == r && x / d == q
  {
    var q', r' := x / d, x % d;
    assert (q' - q) * d == r - r' && (q - q') * d == r' - r;
    if q' > q {
      MultipleAtLeast(q' - q, d);
    } else if q' < q {
      MultipleAtLeast(q - q', d);
    }
  }

  lemma BitAndOddMask(x: nat, m: nat)
    ensures BitAnd(x, 2 * m + 1) == x % 2 + 2 * BitAnd(x / 2, m)
  {
    assert (2 * m + 1) % 2 == 1 && (2 * m + 1) / 2 == m;
  }

  /** Masking with size - 1 is reduction modulo a power-of-two size. */
  lemma {:induction false} MaskIsMod(x: nat, k: nat)
    ensures BitAnd(x, Pow2(k) - 1) == x % Pow2(k)
  {
    if k > 0 {
      MaskIsMod(x / 2, k - 1);
      MaskStep(x, Pow2(k - 1), Pow2(k));
    }
  }

  lemma {:induction false} MaskStep(x: nat, p: nat, p': nat)
    requires p >= 1 && p' == 2 * p && BitAnd(x / 2, p - 1) == (x / 2) % p
    ensures BitAnd(x, p' - 1) == x % p'
  {
    BitAndOddMask(x, p - 1);
    ModOfHalf(x, p);
  }

  lemma {:induction false} Pow2Add(a: nat, b: nat)
    ensures Pow2(a + b) == Pow2(a) * Pow2(b)
  {
    if a > 0 {
      Pow2Add(a - 1, b);
      assert Pow2(a + b) == 2 * Pow2((a - 1) + b);
    }
  }

  lemma Pow2At32()
    ensures Pow2(32) == U32
  {
    assert Pow2(8) == 256 by {
      assert Pow2(4) == 16;
    }
    Pow2Add(8, 8);
    Pow2Add(16, 16);
  }

  lemma NestedMod(x: int, c: nat, p: nat)
    requires c > 0 && p > 0 && c * p > 0
    ensures (x % (c * p)) % p == x % p
  {
    var m := c * p;
    var q, r := x / m, x % m;
    var q', r' := r / p, r % p;
    assert x == q * m + r && r == q' * p + r';
    assert q * m == (q * c) * p;
    assert (q * c) * p + q' * p == (q * c + q') * p;
    QuotientUnique(x, p, q * c + q', r');
  }

  lemma TracksIsMod(w: nat, x: nat)
    ensures Tracks(w, x) <==> w == x % U32
  {
    if x >= U32 { TracksIsMod(w, x - U32); }
  }

  /** The difference of two wrapped counters is their true distance, whenever
      that distance fits in 32 bits. */
  lemma DistanceSurvivesWrap(a: nat, x: nat, b: nat, y: nat)
    requires Tracks(a, x) && Tracks(b, y) && 0 <= x - y < U32
    ensures a < U32 && b < U32 && Sub32(a, b) == x - y
  {
    TracksIsMod(a, x);
    TracksIsMod(b, y);
    WordsAreModular(a, b);
  }

  lemma AddSurvivesWrap(a: nat, x: nat, n: nat)
    requires Tracks(a, x) && n < U32
    ensures a < U32 && Tracks(Add32(a, n), x + n)
  {
    TracksIsMod(a, x);
    WordsAreModular(a, n);
    TracksIsMod(Add32(a, n), x + n);
  }

  /** Two positions less than one lap apart never share a slot. */
  lemma SlotsDistinct(a: int, b: int, size: nat)
    requires size > 0
    requires a < b < a + size
    ensures a % size != b % size
  {
    if a % size == b % size {
      var k := b / size - a / size;
      assert b - a == k * size;
      if k >= 1 { MultipleAtLeast(k, size); } else { MultipleAtLeast(1 - k, size); }
      assert false;
    }
  }

  /** Adding before or after reducing modulo a power of two is the same. */
  lemma ModAdd(x: int, n: int, p: nat)
    requires p > 0
    ensures (x % p + n) % p == (x + n) % p
  {
    var q := x / p;
    assert x == q * p + x % p;
    var q', r' := (x + n) / p, (x + n) % p;
    assert x + n == q' * p + r';
    assert x % p + n == (q' - q) * p + r';
    QuotientUnique(x % p + n, p, q' - q, r');
  }

  lemma {:induction false} Pow2Grows(a: nat, b: nat)
    requires a <= b
    ensures Pow2(a) <= Pow2(b)
  {
    if a < b { Pow2Grows(a, b - 1); }
  }

  lemma Pow2FitsWord(k: nat)
    requires k < 32
    ensures Pow2(k) < U32
  {
    Pow2At32();
    Pow2Grows(k, 31);
  }

  /** `counter & mask` is the slot of the counter's true position. */
  lemma MaskedCounter(w: nat, x: nat, k: nat)
    requires k <= 32 && Tracks(w, x)
    ensures BitAnd(w, Pow2(k) - 1) == x % Pow2(k)
  {
    TracksIsMod(w, x);
    MaskIsMod(w, k);
    Pow2At32();
    Pow2Add(32 - k, k);
    NestedMod(x, Pow2(32 - k), Pow2(k));
  }

  /** `(idx + n) & mask` is the slot n entries after slot idx. */
  lemma MaskedIndex(x: nat, n: nat, k: nat)
    requires k < 32 && n < Pow2(k) < U32
    ensures x % Pow2(k) < U32
    ensures BitAnd(Add32(x % Pow2(k), n), Pow2(k) - 1) == (x + n) % Pow2(k)
  {
    var idx := x % Pow2(k);
    WordsAreModular(idx, n);
    TracksIsMod(Add32(idx, n), idx + n);
    MaskedCounter(Add32(idx, n), idx + n, k);
    ModAdd(x, n, Pow2(k));
  }
}
