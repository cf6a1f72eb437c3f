/**
 A 64-bit machine word, seen as the set of the positions of its 1 bits, and the
 unsigned 64-bit numbers it stands for.

 With this reading AND, ORR and BIC are set intersection, union and difference,
 and a population count is a cardinality.
 */
module Words {

  type Word = w: set<nat> | forall i :: i in w ==> i < 64

  const TWO64: nat := 0x1_0000_0000_0000_0000

  type U64 = n: nat | n < TWO64

  /** n modulo 2^64, as unsigned 64-bit arithmetic wraps around. */
  function Wrap(n: int): U64
    decreases n < 0, if n < 0 then -n else n
  {
    if n < 0 then Wrap(n + TWO64)
    else if n >= TWO64 then Wrap(n - TWO64)
    else n
  }

  lemma {:induction false} WrapIsMod(n: int)
    ensures Wrap(n) == n % TWO64
    decreases n < 0, if n < 0 then -n else n
  {
    if n < 0 {
      WrapIsMod(n + TWO64);
      ModUnique(n, TWO64, (n + TWO64) / TWO64 - 1, (n + TWO64) % TWO64);
    } else if n >= TWO64 {
      WrapIsMod(n - TWO64);
      ModUnique(n, TWO64, (n - TWO64) / TWO64 + 1, (n - TWO64) % TWO64);
    } else {
      ModUnique(n, TWO64, 0, n);
    }
  }

  predicate Lane(i: nat) {
    i < 64
  }

  function Ones(): (w: Word)
    ensures forall i: nat :: i in w <==> Lane(i)
  {
    set i: nat | i < 64 && Lane(i)
  }

  function Eor(a: Word, b: Word): (w: Word) {
    (a - b) + (b - a)
  }

  function Mvn(a: Word): (w: Word) {
    Ones() - a
  }

  /** The lanes below n: the value (1 << n) - 1 for n < 64, and ~0 for n == 64. */
  function LowLanes(n: nat): (w: Word)
    requires n <= 64
    ensures forall i: nat :: i in w <==> i < n
  {
    set i: nat | i < n && Lane(i)
  }

  function LsrWord(w: Word, n: nat): (r: Word)
    ensures forall i: nat :: i in r <==> Lane(i) && i + n in w
  {
    set i: nat | i < 64 && Lane(i) && i + n in w
  }

  function LslWord(w: Word, n: nat): (r: Word)
    ensures forall i: nat :: i in r <==> Lane(i) && n <= i && i - n in w
  {
    set i: nat | i < 64 && Lane(i) && n <= i && i - n in w
  }

  // ----- numbers and their bits -----

  function Pow2(k: nat): (p: nat)
    ensures p > 0
  {
    if k == 0 then 1 else 2 * Pow2(k - 1)
  }

  predicate NatBit(n: nat, b: nat) {
    if b == 0 then n % 2 == 1 else NatBit(n / 2, b - 1)
  }

  /** Bit 0 is the parity, and halving moves every bit down by one. */
  lemma {:induction false} BitsOfNumber(n: nat, b: nat)
    ensures NatBit(n, 0) <==> n % 2 == 1
    ensures NatBit(n, b + 1) <==> NatBit(n / 2, b)
    ensures NatBit(n, b) <==> (n / Pow2(b)) % 2 == 1
    ensures Pow2(0) == 1 && Pow2(b + 1) == 2 * Pow2(b)
    decreases b
  {
    if b > 0 {
      BitsOfNumber(n / 2, b - 1);
      HalfThenRest(n, Pow2(b - 1));
    }
  }

  lemma {:induction false} HalfThenRest(n: nat, d: nat)
    requires d > 0
    ensures n / 2 / d == n / (2 * d)
  {
    var q, r := n / 2 / d, n / 2 % d;
    assert n / 2 == q * d + r && n == 2 * (n / 2) + n % 2;
    assert 2 * (q * d + r) + n % 2 == q * (2 * d) + (2 * r + n % 2);
    ModUnique(n, 2 * d, q, 2 * r + n % 2);
  }

  lemma {:induction false} ZeroHasNoBits(b: nat)
    ensures !NatBit(0, b)
  {
    if b > 0 {
      ZeroHasNoBits(b - 1);
    }
  }

  /** n >> k on numbers. */
  function Shr(n: nat, k: nat): nat {
    if k == 0 then n else Shr(n, k - 1) / 2
  }

  function BitValue(b: bool): nat {
    if b then 1 else 0
  }

  function ToWord(n: nat): (w: Word)
    ensures forall b: nat :: b in w <==> Lane(b) && NatBit(n, b)
  {
    set b: nat | b < 64 && NatBit(n, b)
  }

  /** The number whose bits are those of w from position i upward. */
  function ValFrom(w: Word, i: nat): nat
    decreases 64 - i
  {
    if i >= 64 then 0 else BitValue(i in w) + 2 * ValFrom(w, i + 1)
  }

  function Val(w: Word): nat {
    ValFrom(w, 0)
  }

  lemma {:induction false} NatBitShr(n: nat, k: nat)
    ensures NatBit(n, k) == (Shr(n, k) % 2 == 1)
    ensures Shr(n, k) == BitValue(NatBit(n, k)) + 2 * Shr(n, k + 1)
  {
    if k > 0 {
      NatBitShr(n / 2, k - 1);
      ShrHalf(n, k);
    }
  }

  lemma {:induction false} ShrHalf(n: nat, k: nat)
    requires k > 0
    ensures Shr(n, k) == Shr(n / 2, k - 1)
  {
    if k > 1 {
      ShrHalf(n, k - 1);
    }
  }

  lemma {:induction false} ShrBelowPow2(n: nat, k: nat)
    requires n < Pow2(k)
    ensures Shr(n, k) == 0
  {
    if k > 0 {
      ShrHalf(n, k);
      ShrBelowPow2(n / 2, k - 1);
    }
  }

  lemma {:induction false} Pow2Double(k: nat, v: nat)
    requires Pow2(k) == v
    ensures Pow2(2 * k) == v * v
  {
    Pow2Add(k, k);
  }

  lemma {:induction false} Pow2Values()
    ensures Pow2(1) == 2 && Pow2(2) == 4 && Pow2(4) == 0x10 && Pow2(8) == 0x100
    ensures Pow2(16) == 0x1_0000 && Pow2(32) == 0x1_0000_0000
  {
    Pow2Double(2, 4);
    Pow2Double(4, 0x10);
    Pow2Double(8, 0x100);
    Pow2Double(16, 0x1_0000);
  }

  lemma {:induction false} Pow2At64()
    ensures Pow2(64) == TWO64
  {
    Pow2Values();
    Pow2Double(32, 0x1_0000_0000);
  }

  lemma {:induction false} Pow2Add(a: nat, b: nat)
    ensures Pow2(a + b) == Pow2(a) * Pow2(b)
  {
    if a > 0 {
      Pow2Add(a - 1, b);
      assert Pow2(a + b) == 2 * (Pow2(a - 1) * Pow2(b));
    }
  }

  lemma {:induction false} U64Shr(n: U64)
    ensures Shr(n, 64) == 0
  {
    Pow2At64();
    ShrBelowPow2(n, 64);
  }

  /** Subtracting 2^k keeps every bit below k. */
  lemma {:induction false} NatBitMinus(n: nat, k: nat, b: nat)
    requires n >= Pow2(k) && b < k
    ensures NatBit(n - Pow2(k), b) == NatBit(n, b)
    decreases k
  {
    var h := Pow2(k - 1);
    assert (n - 2 * h) / 2 == n / 2 - h && (n - 2 * h) % 2 == n % 2;
    if b > 0 {
      NatBitMinus(n / 2, k - 1, b - 1);
    }
  }

  lemma {:induction false} ModUnique(n: int, d: nat, q: int, r: nat)
    requires d > 0 && n == q * d + r && r < d
    ensures n % d == r && n / d == q
  {
    var q', r' := n / d, n % d;
    assert n == q' * d + r';
    MulGap(q' - q, d, r - r');
  }

  lemma {:induction false} MulGap(m: int, d: int, e: int)
    requires d >= 0 && m * d == e && -d < e < d
    ensures m == 0
  {
    if m > 0 {
      MulAtLeast(m, d);
    } else if m < 0 {
      MulAtLeast(-m, d);
    }
  }

  lemma {:induction false} MulAtLeast(m: int, d: int)
    requires m >= 1 && d >= 0
    ensures m * d >= d
  {
  }

  /** Wrapping around keeps the low 64 bits. */
  lemma {:induction false} NatBitWrap(n: nat, b: nat)
    requires b < 64
    ensures NatBit(Wrap(n), b) == NatBit(n, b)
  {
    if n >= TWO64 {
      Pow2At64();
      NatBitMinus(n, 64, b);
      NatBitWrap(n - TWO64, b);
    }
  }

  // ----- word <-> number -----

  lemma {:induction false} ValFromBit(w: Word, i: nat, k: nat)
    requires i + k < 64
    ensures NatBit(ValFrom(w, i), k) == (i + k in w)
    decreases k
  {
    if k > 0 {
      ValFromBit(w, i + 1, k - 1);
    }
  }

  lemma {:induction false} ValFromBound(w: Word, i: nat)
    requires i <= 64
    ensures ValFrom(w, i) < Pow2(64 - i)
    decreases 64 - i
  {
    if i < 64 {
      ValFromBound(w, i + 1);
    }
  }

  lemma {:induction false} ValBound(w: Word)
    ensures Val(w) < TWO64
  {
    Pow2At64();
    ValFromBound(w, 0);
  }

  lemma {:induction false} WordRoundTrip(w: Word)
    ensures ToWord(Val(w)) == w
  {
    forall b: nat | b < 64
      ensures b in ToWord(Val(w)) <==> b in w
    {
      ValFromBit(w, 0, b);
    }
  }

  lemma {:induction false} ValFromToWord(n: U64, i: nat)
    requires i <= 64
    ensures ValFrom(ToWord(n), i) == Shr(n, i)
    decreases 64 - i
  {
    if i < 64 {
      ValFromToWord(n, i + 1);
      NatBitShr(n, i);
    } else {
      U64Shr(n);
    }
  }

  lemma {:induction false} NatRoundTrip(n: U64)
    ensures Val(ToWord(n)) == n
  {
    ValFromToWord(n, 0);
  }

  // ----- columns of 64 rows and their bit planes -----

  type Column = c: seq<U64> | |c| == 64 witness seq(64, i => 0)

  /** Bit-plane b of a column: lane r holds bit b of row r. */
  function Plane(c: Column, b: nat): (w: Word)
    ensures forall r: nat :: r in w <==> Lane(r) && NatBit(c[r], b)
  {
    set r: nat | r < 64 && NatBit(c[r], b)
  }
}
