/**
 The 64x64 bit-matrix transpose (src/compute/bit_slicer.cpp) and the in-place
 wrapper that turns 64 gathered values into bit-planes (src/compute/bit_slicer_fast.cpp).
 */
module BitSlicer {
  import opened Words

  // ----- the transpose and its partial forms -----

  /** Word i of the transposed matrix: bit j is bit i of word j. */
  function TransposedWord(m: seq<Word>, i: nat): (w: Word)
    requires |m| == 64
    ensures forall j: nat :: j in w <==> Lane(j) && i in m[j]
  {
    set j: nat | j < 64 && i in m[j]
  }

  /** The strides of the six stages, in the order the stages run. */
  predicate IsStride(t: nat) {
    t == 32 || t == 16 || t == 8 || t == 4 || t == 2 || t == 1
  }

  /** The mask constant of the stage with the given stride. */
  function StageMask(t: nat): nat
    requires IsStride(t)
  {
    if t == 32 then 0x0000_0000_FFFF_FFFF
    else if t == 16 then 0x0000_FFFF_0000_FFFF
    else if t == 8 then 0x00FF_00FF_00FF_00FF
    else if t == 4 then 0x0F0F_0F0F_0F0F_0F0F
    else if t == 2 then 0x3333_3333_3333_3333
    else 0x5555_5555_5555_5555
  }

  /** The stripe of width t that position c lies on is an even one: (c / t) % 2 == 0. */
  predicate Even(c: nat, t: nat)
    requires t > 0
  {
    c < t || !Even(c - t, t)
  }

  /** c is a multiple of w. */
  predicate Aligned(c: nat, w: nat)
    requires w > 0
  {
    c == 0 || (c >= w && Aligned(c - w, w))
  }

  lemma {:induction false} AlignedProduct(q: nat, w: nat)
    requires w > 0
    ensures Aligned(q * w, w)
  {
    if q > 0 {
      AlignedProduct(q - 1, w);
      assert q * w == (q - 1) * w + w;
    }
  }

  lemma {:induction false} AlignedGap(c: nat, d: nat, w: nat)
    requires w > 0 && Aligned(c, w) && Aligned(d, w) && c < d
    ensures c + w <= d
  {
    if c > 0 {
      AlignedGap(c - w, d - w, w);
    }
  }

  lemma {:induction false} AlignedStripe(c: nat, t: nat, r: nat)
    requires t > 0 && Aligned(c, 2 * t) && r < t
    ensures Even(c + r, t) && !Even(c + r + t, t)
  {
    if c > 0 {
      AlignedStripe(c - 2 * t, t, r);
    }
  }

  lemma {:induction false} EvenFits(i: nat, t: nat, n: nat)
    requires t > 0 && Aligned(n, 2 * t) && i < n && Even(i, t)
    ensures i + t < n
  {
    if i >= 2 * t {
      EvenFits(i - 2 * t, t, n - 2 * t);
    }
  }

  lemma {:induction false} StridesAlign(t: nat)
    requires IsStride(t)
    ensures Aligned(64, 2 * t)
  {
    AlignedProduct(32 / t, 2 * t);
  }

  /** The low w bits of n have a 1 exactly on the even stripes of width t. */
  ghost predicate StripedTo(n: nat, w: nat, t: nat)
    requires t > 0
  {
    n < Pow2(w) && forall b: nat :: b < w ==> NatBit(n, b) == Even(b, t)
  }

  lemma {:induction false} StripedOnce(t: nat)
    requires t > 0
    ensures StripedTo(Pow2(t) - 1, 2 * t, t)
  {
    Pow2Add(t, t);
    assert Pow2(t) <= Pow2(2 * t) by {
      MulAtLeast(Pow2(t), Pow2(t));
    }
    forall b: nat | b < 2 * t
      ensures NatBit(Pow2(t) - 1, b) == Even(b, t)
    {
      BitsOfOnes(t, b);
    }
  }

  lemma {:induction false} BitsOfOnes(t: nat, b: nat)
    ensures NatBit(Pow2(t) - 1, b) == (b < t)
  {
    if t == 0 {
      ZeroHasNoBits(b);
    } else if b > 0 {
      BitsOfOnes(t - 1, b - 1);
    }
  }

  lemma {:induction false} StripedTwice(n: nat, w: nat, t: nat)
    requires t > 0 && Aligned(w, 2 * t) && StripedTo(n, w, t)
    ensures StripedTo(n + Pow2(w) * n, 2 * w, t)
  {
    var m := n + Pow2(w) * n;
    Pow2Add(w, w);
    MulBound(Pow2(w), n);
    forall b: nat | b < 2 * w
      ensures NatBit(m, b) == Even(b, t)
    {
      NatBitSplit(n, n, w, b);
      if b >= w {
        EvenShift(b - w, t, w);
      }
    }
  }

  lemma {:induction false} MulBound(p: nat, n: nat)
    requires n < p
    ensures n + p * n < p * p
  {
    MulMonotone(p, n, p - 1);
  }

  lemma {:induction false} MulMonotone(p: nat, x: nat, y: nat)
    requires x <= y
    ensures p * x <= p * y
  {
  }

  lemma {:induction false} EvenShift(c: nat, t: nat, w: nat)
    requires t > 0 && Aligned(w, 2 * t)
    ensures Even(c + w, t) == Even(c, t)
    decreases w
  {
    if w > 0 {
      EvenShift(c, t, w - 2 * t);
    }
  }

  lemma {:induction false} NatBitSplit(lo: nat, hi: nat, w: nat, b: nat)
    requires lo < Pow2(w)
    ensures NatBit(lo + Pow2(w) * hi, b) == if b < w then NatBit(lo, b) else NatBit(hi, b - w)
    decreases w
  {
    if w > 0 {
      var h := Pow2(w - 1) * hi;
      assert Pow2(w) * hi == 2 * h;
      assert (lo + 2 * h) / 2 == lo / 2 + h;
      assert (lo + 2 * h) % 2 == lo % 2;
      if b > 0 {
        NatBitSplit(lo / 2, hi, w - 1, b - 1);
      }
    }
  }

  lemma {:induction false} MaskIsStriped(t: nat)
    requires IsStride(t)
    ensures StripedTo(StageMask(t), 64, t)
  {
    Pow2Values();
    StripedOnce(t);
    if t == 32 {
    } else if t == 16 {
      StripedTwice(0xFFFF, 32, 16);
    } else if t == 8 {
      StripedTwice(0xFF, 16, 8);
      StripedTwice(0x00FF_00FF, 32, 8);
    } else if t == 4 {
      StripedTwice(0xF, 8, 4);
      StripedTwice(0x0F0F, 16, 4);
      StripedTwice(0x0F0F_0F0F, 32, 4);
    } else if t == 2 {
      StripedTwice(0x3, 4, 2);
      StripedTwice(0x33, 8, 2);
      StripedTwice(0x3333, 16, 2);
      StripedTwice(0x3333_3333, 32, 2);
    } else {
      StripedTwice(0x1, 2, 1);
      StripedTwice(0x5, 4, 1);
      StripedTwice(0x55, 8, 1);
      StripedTwice(0x5555, 16, 1);
      StripedTwice(0x5555_5555, 32, 1);
    }
  }

  /**
   Bit j of word i after exchanging, in m, the bit of weight t of the word index
   with the bit of weight t of the bit index.
   */
  predicate ExchangedBit(m: seq<Word>, t: nat, i: nat, j: nat)
    requires |m| == 64 && t > 0 && i < 64
  {
    if Even(i, t) == Even(j, t) then j in m[i]
    else if Even(i, t) then i + t < 64 && j >= t && j - t in m[i + t]
    else i >= t && j + t in m[i - t]
  }

  ghost predicate Exchanged(m: seq<Word>, t: nat, i: nat, w: Word)
    requires |m| == 64 && t > 0 && i < 64
  {
    forall j: nat :: j < 64 ==> (j in w <==> ExchangedBit(m, t, i, j))
  }

  /** The lower word of a pair after the exchange: its odd stripes come from the upper word. */
  lemma {:induction false} LowerWord(x: Word, y: Word, t: nat, mask: Word, tw: Word, j: nat)
    requires t > 0 && j < 64
    requires forall c: nat :: c in mask <==> Lane(c) && Even(c, t)
    requires tw == Eor(LsrWord(x, t), y) * mask
    ensures j in Eor(x, LslWord(tw, t)) <==> if Even(j, t) then j in x else j >= t && j - t in y
  {
    if j >= t {
      assert j - t in tw <==> (j in x) != (j - t in y) && Even(j - t, t);
    }
  }

  /** The upper word of a pair after the exchange: its even stripes come from the lower word. */
  lemma {:induction false} UpperWord(x: Word, y: Word, t: nat, mask: Word, tw: Word, j: nat)
    requires t > 0 && j < 64
    requires forall c: nat :: c in mask <==> Lane(c) && Even(c, t)
    requires tw == Eor(LsrWord(x, t), y) * mask
    ensures j in Eor(y, tw) <==> if Even(j, t) then j + t in x else j in y
  {
  }

  /** One exchange of a pair of words, as every stage performs it. */
  lemma {:induction false} PairExchange(m: seq<Word>, t: nat, k: nat, mask: Word, tw: Word)
    requires |m| == 64 && t > 0 && k + t < 64
    requires Even(k, t) && !Even(k + t, t)
    requires forall c: nat :: c in mask <==> Lane(c) && Even(c, t)
    requires tw == Eor(LsrWord(m[k], t), m[k + t]) * mask
    ensures Exchanged(m, t, k, Eor(m[k], LslWord(tw, t)))
    ensures Exchanged(m, t, k + t, Eor(m[k + t], tw))
  {
    var a, b := Eor(m[k], LslWord(tw, t)), Eor(m[k + t], tw);
    forall j: nat | j < 64
      ensures j in a <==> ExchangedBit(m, t, k, j)
      ensures j in b <==> ExchangedBit(m, t, k + t, j)
    {
      LowerWord(m[k], m[k + t], t, mask, tw, j);
      UpperWord(m[k], m[k + t], t, mask, tw, j);
    }
  }

  // ----- the in-place stages -----

  /**
   Stage5 .. Stage0, one method for the six strides: exchange the two off-diagonal
   t-by-t blocks of every 2t-by-2t block on the diagonal band.
   */
  method Stage(a: array<Word>, t: nat)
    requires a.Length == 64 && IsStride(t)
    modifies a
    ensures forall i: nat :: i < 64 ==> Exchanged(old(a[..]), t, i, a[i])
  {
    var mask := ToWord(StageMask(t));
    MaskIsStriped(t);
    forall c: nat | c < 64
      ensures c in mask <==> Even(c, t)
    {
      assert NatBit(StageMask(t), c) == Even(c, t);
    }
    StridesAlign(t);
    ghost var m := a[..];
    var block := 0;
    while block < 64
      invariant block <= 64 && Aligned(block, 2 * t)
      invariant forall i: nat :: i < block ==> Exchanged(m, t, i, a[i])
      invariant forall i: nat :: block <= i < 64 ==> a[i] == m[i]
    {
      AlignedGap(block, 64, 2 * t);
      ExchangeBlock(a, t, mask, block, m);
      block := block + 2 * t;
    }
  }

  /** The inner loop of a stage, on the words block .. block + 2t. */
  method ExchangeBlock(a: array<Word>, t: nat, mask: Word, block: nat, ghost m: seq<Word>)
    requires a.Length == 64 && |m| == 64 && t > 0 && Aligned(block, 2 * t) && block + 2 * t <= 64
    requires forall c: nat :: c in mask <==> Lane(c) && Even(c, t)
    requires forall i: nat :: block <= i < 64 ==> a[i] == m[i]
    modifies a
    ensures forall i: nat :: i < block ==> a[i] == old(a[i])
    ensures forall i: nat :: block <= i < block + 2 * t ==> Exchanged(m, t, i, a[i])
    ensures forall i: nat :: block + 2 * t <= i < 64 ==> a[i] == m[i]
  {
    hide Exchanged;
    var k := block;
    while k < block + t
      invariant block <= k <= block + t
      invariant forall i: nat :: i < block ==> a[i] == old(a[i])
      invariant forall i: nat :: block <= i < k ==> Exchanged(m, t, i, a[i])
      invariant forall i: nat :: k <= i < block + t ==> a[i] == m[i]
      invariant forall i: nat :: block + t <= i < k + t ==> Exchanged(m, t, i, a[i])
      invariant forall i: nat :: k + t <= i < 64 ==> a[i] == m[i]
    {
      AlignedStripe(block, t, k - block);
      ExchangePair(a, t, mask, k, m);
      k := k + 1;
    }
  }

  method ExchangePair(a: array<Word>, t: nat, mask: Word, k: nat, ghost m: seq<Word>)
    requires a.Length == 64 && |m| == 64 && t > 0 && k + t < 64
    requires Even(k, t) && !Even(k + t, t)
    requires forall c: nat :: c in mask <==> Lane(c) && Even(c, t)
    requires a[k] == m[k] && a[k + t] == m[k + t]
    modifies a
    ensures Exchanged(m, t, k, a[k]) && Exchanged(m, t, k + t, a[k + t])
    ensures forall i: nat :: i < 64 && i != k && i != k + t ==> a[i] == old(a[i])
  {
    var tw := Eor(LsrWord(a[k], t), a[k + t]) * mask;
    PairExchange(m, t, k, mask, tw);
    a[k + t] := Eor(a[k + t], tw);
    a[k] := Eor(a[k], LslWord(tw, t));
  }

  // ----- composing the stages -----

  /** (c / t) * t */
  function Floor(c: nat, t: nat): nat
    requires t > 0
  {
    if c < t then 0 else t + Floor(c - t, t)
  }

  /** c % t */
  function Rem(c: nat, t: nat): nat
    requires t > 0
  {
    if c < t then c else Rem(c - t, t)
  }

  /** The multiple of t below hi, plus the part of lo below t. */
  function Mix(hi: nat, lo: nat, t: nat): nat
    requires t > 0
  {
    Floor(hi, t) + Rem(lo, t)
  }

  /** m is orig with the index bits of weight t and more exchanged between row and column. */
  ghost predicate ExchangedAbove(orig: seq<Word>, m: seq<Word>, t: nat)
    requires |orig| == |m| == 64 && t > 0
  {
    forall i: nat, j: nat :: i < 64 && j < 64 ==>
      (j in m[i] <==> Mix(j, i, t) < 64 && Mix(i, j, t) in orig[Mix(j, i, t)])
  }

  lemma {:induction false} FloorRemTwice(c: nat, t: nat)
    requires t > 0
    ensures Floor(c, t) == Floor(c, 2 * t) + if Even(c, t) then 0 else t
    ensures Rem(c, 2 * t) == Rem(c, t) + if Even(c, t) then 0 else t
  {
    if c >= 2 * t {
      FloorRemTwice(c - 2 * t, t);
    }
  }

  lemma {:induction false} MixStep(i: nat, j: nat, t: nat)
    requires t > 0 && Aligned(64, 2 * t) && i < 64 && j < 64
    ensures Even(i, t) == Even(j, t) ==> Mix(j, i, 2 * t) == Mix(j, i, t)
    ensures Even(i, t) && !Even(j, t) ==> i + t < 64 && j >= t && Mix(j - t, i + t, 2 * t) == Mix(j, i, t)
    ensures !Even(i, t) && Even(j, t) ==> i >= t && j + t < 64 && Mix(j + t, i - t, 2 * t) == Mix(j, i, t)
  {
    if Even(i, t) == Even(j, t) {
      FloorRemTwice(i, t);
      FloorRemTwice(j, t);
    } else if Even(i, t) {
      EvenFits(i, t, 64);
      FloorRemTwice(i + t, t);
      FloorRemTwice(j - t, t);
    } else {
      EvenFits(j, t, 64);
      FloorRemTwice(i - t, t);
      FloorRemTwice(j + t, t);
    }
  }

  lemma {:induction false} AllStridesAlign()
    ensures Aligned(64, 32) && Aligned(64, 16) && Aligned(64, 8) && Aligned(64, 4) && Aligned(64, 2)
  {
    StridesAlign(16);
    StridesAlign(8);
    StridesAlign(4);
    StridesAlign(2);
    StridesAlign(1);
  }

  lemma {:induction false} FloorRemUnit(c: nat)
    ensures Floor(c, 1) == c && Rem(c, 1) == 0
  {
    if c > 0 {
      FloorRemUnit(c - 1);
    }
  }

  lemma {:induction false} StageComposes(orig: seq<Word>, before: seq<Word>, after: seq<Word>, t: nat)
    requires |orig| == |before| == |after| == 64 && t > 0 && Aligned(64, 2 * t)
    requires ExchangedAbove(orig, before, 2 * t)
    requires forall i: nat :: i < 64 ==> Exchanged(before, t, i, after[i])
    ensures ExchangedAbove(orig, after, t)
  {
    forall i: nat, j: nat | i < 64 && j < 64
      ensures j in after[i] <==> Mix(j, i, t) < 64 && Mix(i, j, t) in orig[Mix(j, i, t)]
    {
      assert j in after[i] <==> ExchangedBit(before, t, i, j);
      MixStep(i, j, t);
      MixStep(j, i, t);
    }
  }

  /**
   The six stages transpose the matrix: bit j of word i becomes bit i of word j.
   */
  method Transpose64x64(a: array<Word>)
    requires a.Length == 64
    modifies a
    ensures forall i: nat :: i < 64 ==> a[i] == TransposedWord(old(a[..]), i)
  {
    ghost var m := a[..];
    ghost var prev := a[..];
    assert ExchangedAbove(m, prev, 64);
    AllStridesAlign();
    Stage(a, 32);
    StageComposes(m, prev, a[..], 32);
    prev := a[..];
    Stage(a, 16);
    StageComposes(m, prev, a[..], 16);
    prev := a[..];
    Stage(a, 8);
    StageComposes(m, prev, a[..], 8);
    prev := a[..];
    Stage(a, 4);
    StageComposes(m, prev, a[..], 4);
    prev := a[..];
    Stage(a, 2);
    StageComposes(m, prev, a[..], 2);
    prev := a[..];
    Stage(a, 1);
    StageComposes(m, prev, a[..], 1);
    forall i: nat | i < 64 {
      FullyExchanged(m, a[..], i);
    }
  }

  lemma {:induction false} FullyExchangedBit(orig: seq<Word>, m: seq<Word>, i: nat, j: nat)
    requires |orig| == |m| == 64 && ExchangedAbove(orig, m, 1) && i < 64 && j < 64
    ensures j in m[i] <==> i in orig[j]
  {
    FloorRemUnit(i);
    FloorRemUnit(j);
    assert Mix(j, i, 1) == j && Mix(i, j, 1) == i;
  }

  lemma {:induction false} FullyExchanged(orig: seq<Word>, m: seq<Word>, i: nat)
    requires |orig| == |m| == 64 && ExchangedAbove(orig, m, 1) && i < 64
    ensures m[i] == TransposedWord(orig, i)
  {
    forall j: nat | j < 64
      ensures j in m[i] <==> i in orig[j]
    {
      FullyExchangedBit(orig, m, i, j);
    }
  }

  /** Transposing is its own inverse. */
  lemma {:induction false} TransposeTwice(m: seq<Word>, t: seq<Word>, u: seq<Word>)
    requires |m| == |t| == |u| == 64
    requires forall i: nat :: i < 64 ==> t[i] == TransposedWord(m, i)
    requires forall i: nat :: i < 64 ==> u[i] == TransposedWord(t, i)
    ensures u == m
  {
    forall i: nat | i < 64
      ensures u[i] == m[i]
    {
      forall j: nat | j < 64
        ensures j in u[i] <==> j in m[i]
      {
        assert u[i] == TransposedWord(t, i);
        assert t[j] == TransposedWord(m, j);
      }
    }
  }

  /** Copies unless the caller passes the same buffer, transposes in place, and clears the planes from n on. */
  method SliceN(data: array<Word>, outPlanes: array<Word>, n: nat)
    requires data.Length == 64 && outPlanes.Length == 64
    modifies outPlanes
    ensures forall b: nat :: b < 64 ==>
      outPlanes[b] == if b < n then TransposedWord(old(data[..]), b) else {}
  {
    if data != outPlanes {
      forall i | 0 <= i < 64 {
        outPlanes[i] := data[i];
      }
    }
    assert outPlanes[..] == old(data[..]);
    Transpose64x64(outPlanes);
    var b := n;
    while b < 64
      invariant n <= b
      invariant forall i: nat :: i < n && i < 64 ==> outPlanes[i] == TransposedWord(old(data[..]), i)
      invariant forall i: nat :: n <= i < b && i < 64 ==> outPlanes[i] == {}
    {
      outPlanes[b] := {};
      b := b + 1;
    }
  }

  /** Slicing the words of a column yields its bit-planes. */
  lemma {:induction false} SlicedColumn(c: Column, m: seq<Word>, b: nat)
    requires |m| == 64 && b < 64
    requires forall r: nat :: r < 64 ==> m[r] == ToWord(c[r])
    ensures TransposedWord(m, b) == Plane(c, b)
  {
    forall r: nat | r < 64
      ensures r in TransposedWord(m, b) <==> r in Plane(c, b)
    {
      assert m[r] == ToWord(c[r]);
    }
  }
}
