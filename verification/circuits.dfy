/**
 The bit-plane circuits that the compiler unrolls (src/jit/compiler.cpp), word by
 word: ripple-carry addition, two's complement subtraction, most-significant-first
 comparison, selection and the broadcast of a constant.
 */
module Circuits {
  import opened Words
  import opened Machine

  // ----- addition -----

  /** The carry into bit k of a + b + c. */
  predicate CarryIn(a: nat, b: nat, c: bool, k: nat) {
    if k == 0 then c
    else
      var prev := CarryIn(a, b, c, k - 1);
      var x, y := NatBit(a, k - 1), NatBit(b, k - 1);
      (x && y) || ((x != y) && prev)
  }

  lemma {:induction false} CarryHalf(a: nat, b: nat, c: bool, k: nat)
    requires k > 0
    ensures CarryIn(a, b, c, k) == CarryIn(a / 2, b / 2, CarryIn(a, b, c, 1), k - 1)
  {
    if k > 1 {
      CarryHalf(a, b, c, k - 1);
    }
  }

  lemma {:induction false} SumBit(a: nat, b: nat, c: bool, k: nat)
    ensures NatBit(a + b + BitValue(c), k) == ((NatBit(a, k) != NatBit(b, k)) != CarryIn(a, b, c, k))
  {
    if k > 0 {
      var c1 := CarryIn(a, b, c, 1);
      assert (a + b + BitValue(c)) / 2 == a / 2 + b / 2 + BitValue(c1) by {
        assert CarryIn(a, b, c, 0) == c;
      }
      SumBit(a / 2, b / 2, c1, k - 1);
      CarryHalf(a, b, c, k);
    }
  }

  function RippleColumn(a: Column, b: Column, seed: Word): (c: Column)
    ensures forall r: nat :: r < 64 ==> c[r] == Wrap(a[r] + b[r] + BitValue(r in seed))
  {
    RippleTo(a, b, seed, 64)
  }

  function RippleTo(a: Column, b: Column, seed: Word, k: nat): (c: seq<U64>)
    requires k <= 64
    ensures |c| == k && forall r: nat :: r < k ==> c[r] == Wrap(a[r] + b[r] + BitValue(r in seed))
  {
    if k == 0 then [] else RippleTo(a, b, seed, k - 1) + [Wrap(a[k - 1] + b[k - 1] + BitValue(k - 1 in seed))]
  }

  function CarryWord(a: Column, b: Column, seed: Word, k: nat): (w: Word)
    ensures forall r: nat :: r in w <==> Lane(r) && CarryIn(a[r], b[r], r in seed, k)
  {
    set r: nat | r < 64 && CarryIn(a[r], b[r], r in seed, k)
  }

  lemma {:induction false} CarrySeed(a: Column, b: Column, seed: Word)
    ensures CarryWord(a, b, seed, 0) == seed
  {
  }

  lemma {:induction false} SumLane(a: Column, b: Column, seed: Word, k: nat, r: nat)
    requires k < 64 && r < 64
    ensures NatBit(RippleColumn(a, b, seed)[r], k)
        <==> (NatBit(a[r], k) != NatBit(b[r], k)) != CarryIn(a[r], b[r], r in seed, k)
  {
    NatBitWrap(a[r] + b[r] + BitValue(r in seed), k);
    SumBit(a[r], b[r], r in seed, k);
  }

  /** One full-adder step produces the sum plane of all 64 lanes, */
  lemma {:induction false} RippleSum(a: Column, b: Column, seed: Word, k: nat)
    requires k < 64
    ensures Plane(RippleColumn(a, b, seed), k) ==
            Eor(Eor(Plane(a, k), Plane(b, k)), CarryWord(a, b, seed, k))
  {
    forall r: nat | r < 64
      ensures r in Plane(RippleColumn(a, b, seed), k)
        <==> r in Eor(Eor(Plane(a, k), Plane(b, k)), CarryWord(a, b, seed, k))
    {
      SumLane(a, b, seed, k, r);
    }
  }

  /** and the carries into the next bit. */
  lemma {:induction false} RippleCarry(a: Column, b: Column, seed: Word, k: nat)
    requires k < 64
    ensures CarryWord(a, b, seed, k + 1) ==
            (Plane(a, k) * Plane(b, k)) + (Eor(Plane(a, k), Plane(b, k)) * CarryWord(a, b, seed, k))
  {
  }

  // ----- subtraction: a + ~b + seed -----

  function Complement(b: Column): (c: Column)
    ensures forall r: nat :: r < 64 ==> c[r] == TWO64 - 1 - b[r]
  {
    ComplementTo(b, 64)
  }

  function ComplementTo(b: Column, k: nat): (c: seq<U64>)
    requires k <= 64
    ensures |c| == k && forall r: nat :: r < k ==> c[r] == TWO64 - 1 - b[r]
  {
    if k == 0 then [] else ComplementTo(b, k - 1) + [TWO64 - 1 - b[k - 1]]
  }

  lemma {:induction false} ComplementBit(n: nat, k: nat, b: nat)
    requires n < Pow2(k) && b < k
    ensures NatBit(Pow2(k) - 1 - n, b) == !NatBit(n, b)
    decreases k
  {
    var h := Pow2(k - 1);
    assert Pow2(k) == 2 * h;
    assert (2 * h - 1 - n) / 2 == h - 1 - n / 2;
    if b > 0 {
      ComplementBit(n / 2, k - 1, b - 1);
    }
  }

  lemma {:induction false} ComplementPlane(b: Column, k: nat)
    requires k < 64
    ensures Plane(Complement(b), k) == Mvn(Plane(b, k))
  {
    Pow2At64();
    forall r: nat | r < 64
      ensures r in Plane(Complement(b), k) <==> r !in Plane(b, k)
    {
      ComplementBit(b[r], 64, k);
    }
  }

  // ----- comparison, most significant bit first -----

  /** Lanes where a > b on the bits from k upward. */
  function GtWord(a: Column, b: Column, k: nat): (w: Word)
    ensures forall r: nat :: r in w <==> Lane(r) && Shr(a[r], k) > Shr(b[r], k)
  {
    set r: nat | r < 64 && Shr(a[r], k) > Shr(b[r], k)
  }

  /** Lanes where a == b on the bits from k upward. */
  function EqWord(a: Column, b: Column, k: nat): (w: Word)
    ensures forall r: nat :: r in w <==> Lane(r) && Shr(a[r], k) == Shr(b[r], k)
  {
    set r: nat | r < 64 && Shr(a[r], k) == Shr(b[r], k)
  }

  lemma {:induction false} CompareStart(a: Column, b: Column)
    ensures GtWord(a, b, 64) == {}
    ensures EqWord(a, b, 64) == Ones()
  {
    forall r: nat | r < 64
      ensures Shr(a[r], 64) == 0 && Shr(b[r], 64) == 0
    {
      U64Shr(a[r]);
      U64Shr(b[r]);
    }
  }

  lemma {:induction false} CompareStep(a: Column, b: Column, k: nat)
    ensures GtWord(a, b, k) ==
            GtWord(a, b, k + 1) + ((Plane(a, k) - Plane(b, k)) * EqWord(a, b, k + 1))
    ensures EqWord(a, b, k) == EqWord(a, b, k + 1) - Eor(Plane(a, k), Plane(b, k))
  {
    forall r: nat | r < 64
      ensures Shr(a[r], k) == BitValue(r in Plane(a, k)) + 2 * Shr(a[r], k + 1)
      ensures Shr(b[r], k) == BitValue(r in Plane(b, k)) + 2 * Shr(b[r], k + 1)
    {
      NatBitShr(a[r], k);
      NatBitShr(b[r], k);
    }
  }

  /** At bit 0 the two masks compare whole values. */
  lemma {:induction false} CompareEnd(a: Column, b: Column, r: nat)
    requires r < 64
    ensures r in GtWord(a, b, 0) <==> a[r] > b[r]
    ensures r in EqWord(a, b, 0) <==> a[r] == b[r]
  {
  }

  // ----- constants -----

  function ConstColumn(v: U64): (c: Column)
    ensures forall r: nat :: r < 64 ==> c[r] == v
  {
    ConstTo(v, 64)
  }

  function ConstTo(v: U64, k: nat): (c: seq<U64>)
    ensures |c| == k && forall r: nat :: r < k ==> c[r] == v
  {
    if k == 0 then [] else ConstTo(v, k - 1) + [v]
  }

  lemma {:induction false} ConstPlane(v: U64, k: nat)
    ensures Plane(ConstColumn(v), k) == if NatBit(v, k) then Ones() else {}
  {
  }

  lemma {:induction false} OneIsNegatedToOnes()
    ensures NegWord({0}) == Ones() && NegWord({}) == {}
  {
    var one: Word := {0};
    assert ToWord(1) == one by {
      forall b: nat | b < 64
        ensures NatBit(1, b) == (b == 0)
      {
        if b > 0 { ZeroHasNoBits(b - 1); }
      }
    }
    NatRoundTrip(1);
    var top: U64 := TWO64 - 1;
    forall b: nat | b < 64
      ensures NatBit(top, b)
    {
      Pow2At64();
      ZeroHasNoBits(b);
      ComplementBit(0, 64, b);
    }
    assert ToWord(top) == Ones();
    var none: Word := {};
    assert ToWord(0) == none by {
      forall b: nat | b < 64
        ensures !NatBit(0, b)
      {
        ZeroHasNoBits(b);
      }
    }
    NatRoundTrip(0);
  }

  /** lsr, and #1, neg broadcast bit k of a constant to all lanes. */
  lemma {:induction false} BroadcastBit(v: U64, k: nat)
    requires k < 64
    ensures NegWord(LsrWord(ToWord(v), k) * {0}) == Plane(ConstColumn(v), k)
  {
    OneIsNegatedToOnes();
    ConstPlane(v, k);
    var bit := LsrWord(ToWord(v), k) * {0};
    assert bit == if NatBit(v, k) then {0} else {};
  }
}
