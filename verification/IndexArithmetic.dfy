/**
 The block queue's index arithmetic on 64-bit unsigned words, against the same computations on
 unbounded integers. The other models use unbounded indices; this module shows that the words the
 program holds, `U(x)` for an unbounded `x`, give the same answers through any number of
 wrap-arounds, as long as the indices compared are less than half the range apart.
 */
module IndexArithmetic {
  import Arithmetic

  const RANGE: int := 0x1_0000_0000_0000_0000

  const HALF: int := 0x8000_0000_0000_0000

  /** The word that holds `x`. */
  function U(x: int): (w: nat)
    ensures w < RANGE
  {
    x % RANGE
  }

  /** The word read as a signed number. */
  function Signed(w: nat): int { if w >= HALF then w - RANGE else w }

  /** Division that truncates toward zero. */
  function Truncated(a: int, b: int): int
    requires b > 0
  {
    if a >= 0 then a / b else -(-a / b)
  }

  predicate CircularLess(a: nat, b: nat) { U(a - b) > HALF }

  /** Circular comparison agrees with `<` for indices less than a full range apart exactly when they are
      less than half the range apart, or half the range with the larger one on the left. */
  lemma CircularLessIsLess(a: int, b: int)
    requires -RANGE < a - b < RANGE
    ensures (CircularLess(U(a), U(b)) <==> a < b) <==> -HALF < a - b <= HALF
  {
    WrappedDifference(a, b);
    if a < b { Arithmetic.DivMod(a - b, RANGE, -1, a - b + RANGE); } else { Arithmetic.DivMod(a - b, RANGE, 0, a - b); }
  }

  lemma WrapLeft(a: int, b: int)
    ensures U(U(a) + b) == U(a + b)
  {
    Arithmetic.AddMultiple(U(a) + b, a / RANGE, RANGE);
  }

  lemma WrappedDifference(a: int, b: int)
    ensures U(U(a) - U(b)) == U(a - b)
    ensures 0 <= a - b < RANGE ==> U(U(a) - U(b)) == a - b
  {
    var k := a / RANGE - b / RANGE;
    Arithmetic.AddMultiple(U(a) - U(b), k, RANGE);
    assert U(a) - U(b) + k * RANGE == a - b;
  }

  lemma SignedOfWord(x: int)
    requires -HALF <= x < HALF
    ensures Signed(U(x)) == x
  {
    if x < 0 { Arithmetic.DivMod(x, RANGE, -1, x + RANGE); } else { Arithmetic.DivMod(x, RANGE, 0, x); }
  }

  /** The test whether another block fits, as the producers make it: on words, and on unbounded indices. */
  predicate FullWords(head: nat, tail: nat, blockSize: nat, maxSize: nat) {
    || !CircularLess(head, U(tail + blockSize))
    || (maxSize != RANGE - 1 && (maxSize == 0 || U(maxSize - blockSize) < U(tail - head)))
  }

  predicate Full(head: int, tail: int, blockSize: nat, maxSize: nat) {
    maxSize != RANGE - 1 && (maxSize == 0 || maxSize - blockSize < tail - head)
  }

  lemma FullTestIsFaithful(head: int, tail: int, blockSize: nat, maxSize: nat)
    requires 0 < blockSize && head <= tail && tail + blockSize - head < HALF
    requires maxSize == 0 || blockSize <= maxSize < RANGE
    ensures FullWords(U(head), U(tail), blockSize, maxSize) <==> Full(head, tail, blockSize, maxSize)
  {
    WrapLeft(tail, blockSize);
    CircularLessIsLess(head, tail + blockSize);
    WrappedDifference(tail, head);
    WrappedDifference(maxSize, blockSize);
  }

  /** The size limit in use: the one asked for, rounded up to whole blocks, or none. */
  function MaxSubqueueSize(requested: nat, blockSize: nat): nat
    requires requested < RANGE && blockSize > 0
  {
    if RANGE - 1 - requested < blockSize then RANGE - 1 else (requested + (blockSize - 1)) / blockSize * blockSize
  }

  /** It is the least multiple of the block size that is not below the request, unless there is no limit. */
  lemma LimitIsRounded(requested: nat, blockSize: nat)
    requires requested < RANGE && blockSize > 0
    ensures var limit := MaxSubqueueSize(requested, blockSize);
      limit == RANGE - 1 || (limit % blockSize == 0 && requested <= limit < requested + blockSize && limit < RANGE - 1)
  {
    var x := requested + (blockSize - 1);
    Arithmetic.DivMod(x / blockSize * blockSize, blockSize, x / blockSize, 0);
  }

  // ------------------------------------------------------------------------------- masking

  function Pow2(k: nat): (p: nat)
    ensures p > 0
  {
    if k == 0 then 1 else 2 * Pow2(k - 1)
  }

  /** Bitwise and. */
  function And(x: nat, y: nat): nat
    decreases x
  {
    if x == 0 then 0 else (if x % 2 == 1 && y % 2 == 1 then 1 else 0) + 2 * And(x / 2, y / 2)
  }

  /** Masking with a power of two minus one is taking the remainder. */
  lemma {:induction false} MaskIsRemainder(x: nat, k: nat)
    ensures And(x, Pow2(k) - 1) == x % Pow2(k)
    decreases k
  {
    if k == 0 {
      AndZero(x);
    } else {
      var p := Pow2(k - 1);
      AndOdd(x, p);
      MaskIsRemainder(x / 2, k - 1);
      HalveTwice(x, p);
    }
  }

  lemma AndOdd(x: nat, p: nat)
    requires p > 0
    ensures And(x, 2 * p - 1) == x % 2 + 2 * And(x / 2, p - 1)
  {
    assert (2 * p - 1) / 2 == p - 1 && (2 * p - 1) % 2 == 1;
  }

  lemma HalveTwice(x: nat, p: nat)
    requires p > 0
    ensures x % (2 * p) == 2 * (x / 2 % p) + x % 2
  {
    var q, r := x / 2 / p, x / 2 % p;
    assert q * (2 * p) == 2 * (q * p);
    Arithmetic.DivMod(x, 2 * p, q, 2 * r + x % 2);
  }

  /** Masking with the complement of a power of two minus one, in words of `n` bits, takes the remainder away. */
  lemma {:induction false} MaskIsBase(x: nat, k: nat, n: nat)
    requires k <= n && x < Pow2(n)
    ensures Pow2(k) <= Pow2(n) && And(x, Pow2(n) - Pow2(k)) == x - x % Pow2(k)
    decreases k
  {
    if k == 0 {
      MaskIsRemainder(x, n);
      Arithmetic.DivMod(x, Pow2(n), 0, x);
    } else {
      var p := Pow2(k - 1);
      MaskIsBase(x / 2, k - 1, n - 1);
      HalveTwice(x, p);
    }
  }

  lemma {:induction false} Pow2Divides(k: nat, n: nat)
    requires k <= n
    ensures Pow2(n) % Pow2(k) == 0 && Pow2(k) <= Pow2(n)
    decreases n - k
  {
    if k == n {
      Arithmetic.DivMod(Pow2(n), Pow2(k), 1, 0);
    } else {
      Pow2Divides(k + 1, n);
      var q := Pow2(n) / Pow2(k + 1);
      assert Pow2(n) == q * (2 * Pow2(k)) == 2 * q * Pow2(k);
      Arithmetic.DivMod(Pow2(n), Pow2(k), 2 * q, 0);
    }
  }

  lemma {:induction false} Squared(k: nat, p: nat)
    requires Pow2(k) == p
    ensures Pow2(2 * k) == p * p
  {
    if k > 0 {
      var q := Pow2(k - 1);
      Squared(k - 1, q);
      assert Pow2(2 * k) == 2 * Pow2(2 * k - 1) == 4 * Pow2(2 * k - 2);
      assert p * p == 4 * (q * q);
    }
  }

  /** The exponent is a parameter because the verifier would unroll `Pow2` on a literal. */
  lemma RangeIsPow2(n: nat)
    requires n == 64
    ensures Pow2(n) == RANGE
  {
    var k := n / 64;
    Squared(k, 2);
    Squared(2 * k, 4);
    Squared(4 * k, 0x10);
    Squared(8 * k, 0x100);
    Squared(16 * k, 0x1_0000);
    Squared(32 * k, 0x1_0000_0000);
  }

  lemma {:induction false} AndZero(x: nat)
    ensures And(x, 0) == 0
    decreases x
  {
    if x > 0 { AndZero(x / 2); }
  }

  // ---------------------------------------------------------------------- blocks and rings

  /** A remainder by a divisor of the range does not see the wrap. */
  lemma RemainderOfWord(x: int, d: nat)
    requires d > 0 && RANGE % d == 0
    ensures U(x) % d == x % d
  {
    var k := x / RANGE;
    assert x == U(x) + k * RANGE && RANGE == RANGE / d * d;
    assert k * (RANGE / d * d) == k * (RANGE / d) * d;
    Arithmetic.AddMultiple(U(x), k * (RANGE / d), d);
  }

  /** The first index of the block that index `i` lies in. */
  function BlockBase(i: int, blockSize: nat): int
    requires blockSize > 0
  {
    i - i % blockSize
  }

  /** `w & ~(BLOCK_SIZE - 1)` on 64-bit words. */
  function MaskedBase(w: nat, blockSize: nat): nat
    requires blockSize <= RANGE
  {
    And(w, RANGE - blockSize)
  }

  /** Masking the word of an index gives the word of its block's first index. */
  lemma BlockBaseOfWord(i: int, k: nat)
    requires k < 64
    ensures 0 < Pow2(k) <= RANGE && RANGE % Pow2(k) == 0
    ensures MaskedBase(U(i), Pow2(k)) == U(i) - U(i) % Pow2(k) == U(BlockBase(i, Pow2(k)))
  {
    var blockSize := Pow2(k);
    var n := 64;
    RangeIsPow2(n);
    Pow2Divides(k, n);
    MaskIsBase(U(i), k, n);
    BaseOfWord(i, blockSize);
  }

  lemma BaseOfWord(i: int, blockSize: nat)
    requires blockSize > 0 && RANGE % blockSize == 0
    ensures U(i) - U(i) % blockSize == U(BlockBase(i, blockSize))
  {
    RemainderOfWord(i, blockSize);
    assert 0 <= U(i) % blockSize <= U(i) by { RemainderAtMost(U(i), blockSize); }
    assert BlockBase(i, blockSize) == U(i) - U(i) % blockSize + i / RANGE * RANGE;
    Arithmetic.DivMod(BlockBase(i, blockSize), RANGE, i / RANGE, U(i) - U(i) % blockSize);
  }

  lemma RemainderAtMost(x: nat, d: nat)
    requires d > 0
    ensures x % d <= x
  {
    if x < d { Arithmetic.DivMod(x, d, 0, x); }
  }

  lemma ExactDivision(k: int, d: nat)
    requires d > 0
    ensures Truncated(k * d, d) == k
  {
    if k >= 0 {
      Arithmetic.DivMod(k * d, d, k, 0);
    } else {
      assert -(k * d) == -k * d;
      Arithmetic.DivMod(-k * d, d, -k, 0);
      assert k * d < 0 by { Arithmetic.MulAtLeast(-k, d); }
    }
  }

  /** Where a block lies in the ring relative to the newest one at `position`: the word computation, with its
      signed division and mask, finds the slot `k` before or after it. */
  lemma RingPosition(base: int, k: int, blockSize: nat, position: nat, capacity: nat)
    requires blockSize > 0 && capacity > 0 && RANGE % capacity == 0 && -HALF <= k * blockSize < HALF
    ensures var offset := U(Truncated(Signed(U(U(base + k * blockSize) - U(base))), blockSize));
      U(position + offset) % capacity == (position + k) % capacity
  {
    WrappedDifference(base + k * blockSize, base);
    SignedOfWord(k * blockSize);
    ExactDivision(k, blockSize);
    WrapLeft(k, position);
    RemainderOfWord(position + k, capacity);
  }

  // ------------------------------------------------------------------------- bulk boundaries

  /** How many blocks a bulk enqueue of `count` elements at `start` must begin. */
  function BlocksToBegin(start: nat, count: nat, blockSize: nat): int
    requires blockSize > 0
  {
    (start + count - 1) / blockSize - (start - 1) / blockSize
  }

  /** The word computation of the bulk enqueues, also where `start - 1` wraps below zero. */
  lemma BulkDifference(start: nat, count: nat, k: nat)
    requires k < 63 && count < HALF
    ensures 0 < Pow2(k) <= RANGE
    ensures U(MaskedBase(U(start + count - 1), Pow2(k)) - MaskedBase(U(start - 1), Pow2(k))) ==
      BlocksToBegin(start, count, Pow2(k)) * Pow2(k)
  {
    HalfAtMost(k);
    BlockBaseOfWord(start + count - 1, k);
    BlockBaseOfWord(start - 1, k);
    DifferenceOfBases(start, count, Pow2(k));
  }

  lemma HalfAtMost(k: nat)
    requires k < 63
    ensures Pow2(k) <= HALF
  {
    var n := 64;
    RangeIsPow2(n);
    Pow2Divides(k + 1, n);
  }

  lemma DifferenceOfBases(start: nat, count: nat, blockSize: nat)
    requires 0 < blockSize <= HALF && count < HALF
    ensures U(U(BlockBase(start + count - 1, blockSize)) - U(BlockBase(start - 1, blockSize))) ==
      BlocksToBegin(start, count, blockSize) * blockSize
  {
    BasesApart(start + count - 1, start - 1, blockSize);
    WrappedDifference(BlockBase(start + count - 1, blockSize), BlockBase(start - 1, blockSize));
  }

  lemma BasesApart(a: int, b: int, d: nat)
    requires d > 0 && b <= a
    ensures 0 <= BlockBase(a, d) - BlockBase(b, d) < a - b + d
    ensures BlockBase(a, d) - BlockBase(b, d) == (a / d - b / d) * d
  {
    var n := a / d - b / d;
    Arithmetic.Distribute(a / d, b / d, d);
    if n < 0 { Arithmetic.MulAtLeast(-n, d); }
  }

  /** They are the multiples of the block size among the indices enqueued. */
  lemma BoundariesEntered(start: nat, count: nat, blockSize: nat, k: int)
    requires blockSize > 0
    ensures start <= k * blockSize < start + count <==> (start - 1) / blockSize < k <= (start + count - 1) / blockSize
  {
    AtOrBefore(k, start - 1, blockSize);
    AtOrBefore(k, start + count - 1, blockSize);
  }

  lemma AtOrBefore(k: int, x: int, d: nat)
    requires d > 0
    ensures k * d <= x <==> k <= x / d
  {
    Arithmetic.Distribute(x / d, k, d);
    if k > x / d { Arithmetic.MulAtLeast(k - x / d, d); }
    if k < x / d { Arithmetic.MulAtLeast(x / d - k, d); }
  }
}
