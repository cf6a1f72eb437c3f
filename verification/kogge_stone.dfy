/**
 The prefix adder of the generated GPU kernel (generate_msl_source in
 src/api/engine.cpp): thread i of a group of 64 holds bit-plane i, and the carries are
 scanned in two SIMD groups of 32 lanes. All lanes of a group are active in a shuffle.
 */
module KoggeStone {
  import opened Words
  import opened Circuits

  type Lanes = s: seq<Word> | |s| == 32 witness seq<Word>(32, i => {})

  // ----- carries over a span of bits -----

  /** A carry is generated somewhere in bits lo .. hi and survives to the top. */
  function Generate(g: seq<Word>, p: seq<Word>, lo: nat, hi: nat): Word
    requires lo <= hi < |g| && |p| == |g|
  {
    if lo == hi then g[hi] else g[hi] + (p[hi] * Generate(g, p, lo, hi - 1))
  }

  /** A carry into bit lo passes through all of lo .. hi. */
  function Propagate(p: seq<Word>, lo: nat, hi: nat): Word
    requires lo <= hi < |p|
  {
    if lo == hi then p[hi] else p[hi] * Propagate(p, lo, hi - 1)
  }

  /** A span generates a carry at its last bit, or below it when that bit passes the carry on. */
  lemma {:induction false} SpanMeaning(g: seq<Word>, p: seq<Word>, lo: nat, hi: nat)
    requires lo <= hi < |g| && |p| == |g|
    ensures Generate(g, p, lo, lo) == g[lo] && Propagate(p, lo, lo) == p[lo]
    ensures lo < hi ==> Generate(g, p, lo, hi) == g[hi] + (p[hi] * Generate(g, p, lo, hi - 1))
    ensures lo < hi ==> Propagate(p, lo, hi) == p[hi] * Propagate(p, lo, hi - 1)
  {
  }

  /** Two adjacent spans combine into one. */
  lemma {:induction false} Combine(g: seq<Word>, p: seq<Word>, lo: nat, mid: nat, hi: nat)
    requires lo < mid <= hi < |g| && |p| == |g|
    ensures Generate(g, p, lo, hi) == Generate(g, p, mid, hi) + (Propagate(p, mid, hi) * Generate(g, p, lo, mid - 1))
    ensures Propagate(p, lo, hi) == Propagate(p, mid, hi) * Propagate(p, lo, mid - 1)
    decreases hi
  {
    if mid < hi {
      Combine(g, p, lo, mid, hi - 1);
      Distribute(g[hi], p[hi], Generate(g, p, mid, hi - 1), Propagate(p, mid, hi - 1), Generate(g, p, lo, mid - 1));
      Associate(p[hi], Propagate(p, mid, hi - 1), Propagate(p, lo, mid - 1));
    }
  }

  lemma {:induction false} Distribute(g: Word, p: Word, x: Word, y: Word, z: Word)
    ensures g + (p * (x + (y * z))) == (g + (p * x)) + ((p * y) * z)
  {
  }

  lemma {:induction false} Associate(x: Word, y: Word, z: Word)
    ensures x * (y * z) == (x * y) * z
  {
  }

  // ----- the scan of one SIMD group -----

  function Source(l: nat, d: nat): (k: nat)
    ensures k <= l
  {
    if l >= d then l - d else l
  }

  /** simd_shuffle_up: lane l reads lane l - d; the lanes below d keep their own value. */
  function ShuffleUp(v: Lanes, d: nat): (r: Lanes)
    ensures forall l: nat :: l < 32 ==> r[l] == v[Source(l, d)]
  {
    ShuffleTo(v, d, 32)
  }

  function ShuffleTo(v: Lanes, d: nat, k: nat): (r: seq<Word>)
    requires k <= 32
    ensures |r| == k && forall l: nat :: l < k ==> r[l] == v[Source(l, d)]
  {
    if k == 0 then [] else ShuffleTo(v, d, k - 1) + [v[Source(k - 1, d)]]
  }

  /** The first bit of the span that lane l has combined after spans of length d. */
  function SpanStart(l: nat, d: nat): nat {
    if l + 1 >= d then l + 1 - d else 0
  }

  ghost predicate Scanned(g: Lanes, p: Lanes, curG: Lanes, curP: Lanes, d: nat)
    requires d > 0
  {
    forall l: nat :: l < 32 ==>
      curG[l] == Generate(g, p, SpanStart(l, d), l) && curP[l] == Propagate(p, SpanStart(l, d), l)
  }

  /** One doubling step, all lanes at once. */
  method ScanStep(curG: Lanes, curP: Lanes, d: nat, ghost g: Lanes, ghost p: Lanes) returns (nextG: Lanes, nextP: Lanes)
    requires 0 < d && Scanned(g, p, curG, curP, d)
    ensures Scanned(g, p, nextG, nextP, 2 * d)
  {
    var gPrev, pPrev := ShuffleUp(curG, d), ShuffleUp(curP, d);
    var accG: seq<Word>, accP: seq<Word> := [], [];
    while |accG| < 32
      invariant |accG| == |accP| <= 32
      invariant forall l: nat :: l < |accG| ==>
        accG[l] == Generate(g, p, SpanStart(l, 2 * d), l) && accP[l] == Propagate(p, SpanStart(l, 2 * d), l)
    {
      var l := |accG|;
      var x, y := curG[l], curP[l];
      if l >= d {
        SpanDoubles(g, p, curG, curP, d, l);
        x := curG[l] + (curP[l] * gPrev[l]);
        y := curP[l] * pPrev[l];
      }
      accG, accP := accG + [x], accP + [y];
    }
    nextG, nextP := accG, accP;
  }

  lemma {:induction false} SpanDoubles(g: Lanes, p: Lanes, curG: Lanes, curP: Lanes, d: nat, l: nat)
    requires 0 < d <= l < 32 && Scanned(g, p, curG, curP, d)
    ensures Generate(g, p, SpanStart(l, 2 * d), l) == curG[l] + (curP[l] * curG[l - d])
    ensures Propagate(p, SpanStart(l, 2 * d), l) == curP[l] * curP[l - d]
  {
    assert SpanStart(l - d, d) == SpanStart(l, 2 * d) && SpanStart(l, d) == l - d + 1;
    Combine(g, p, SpanStart(l, 2 * d), l - d + 1, l);
  }

  /** kogge_stone_scan: after the steps 1, 2, 4, 8, 16 every lane has combined all lanes up to itself. */
  method KoggeStoneScan(g: Lanes, p: Lanes) returns (curG: Lanes, curP: Lanes)
    ensures forall l: nat :: l < 32 ==> curG[l] == Generate(g, p, 0, l) && curP[l] == Propagate(p, 0, l)
  {
    curG, curP := g, p;
    curG, curP := ScanStep(curG, curP, 1, g, p);
    curG, curP := ScanStep(curG, curP, 2, g, p);
    curG, curP := ScanStep(curG, curP, 4, g, p);
    curG, curP := ScanStep(curG, curP, 8, g, p);
    curG, curP := ScanStep(curG, curP, 16, g, p);
  }

  // ----- both groups -----

  lemma {:induction false} UpperSpan(g: seq<Word>, p: seq<Word>, l: nat)
    requires |g| == |p| == 64 && l < 32
    ensures Generate(g[32..], p[32..], 0, l) == Generate(g, p, 32, 32 + l)
    ensures Propagate(p[32..], 0, l) == Propagate(p, 32, 32 + l)
  {
    if l > 0 {
      UpperSpan(g, p, l - 1);
    }
  }

  lemma {:induction false} LowerSpan(g: seq<Word>, p: seq<Word>, l: nat)
    requires |g| == |p| == 64 && l < 32
    ensures Generate(g[..32], p[..32], 0, l) == Generate(g, p, 0, l)
  {
    if l > 0 {
      LowerSpan(g, p, l - 1);
    }
  }

  /** Scan both groups and let the carry of the lower one into the upper one. */
  method CarriesOut(g: seq<Word>, p: seq<Word>) returns (c: seq<Word>)
    requires |g| == |p| == 64
    ensures |c| == 64 && forall i: nat :: i < 64 ==> c[i] == Generate(g, p, 0, i)
  {
    var lowG, _ := KoggeStoneScan(g[..32], p[..32]);
    var highG, highP := KoggeStoneScan(g[32..], p[32..]);
    var sharedCarry := lowG[31];
    c := [];
    while |c| < 64
      invariant |c| <= 64 && forall i: nat :: i < |c| ==> c[i] == Generate(g, p, 0, i)
    {
      var i := |c|;
      if i < 32 {
        LowerSpan(g, p, i);
        c := c + [lowG[i]];
      } else {
        UpperSpan(g, p, i - 32);
        LowerSpan(g, p, 31);
        Combine(g, p, 0, 32, i);
        c := c + [highG[i - 32] + (sharedCarry * highP[i - 32])];
      }
    }
  }

  ghost predicate IsPlanes(s: seq<Word>, c: Column) {
    |s| == 64 && forall i: nat :: i < 64 ==> s[i] == Plane(c, i)
  }

  /** Generated carries are ripple carries, for any seed that the first bit has taken in. */
  lemma {:induction false} GenerateIsRipple(a: Column, b: Column, seed: Word, g: seq<Word>, p: seq<Word>, i: nat)
    requires |g| == |p| == 64 && i < 64
    requires forall k: nat :: k < 64 ==> p[k] == Eor(Plane(a, k), Plane(b, k))
    requires forall k: nat :: 0 < k < 64 ==> g[k] == Plane(a, k) * Plane(b, k)
    requires g[0] == (Plane(a, 0) * Plane(b, 0)) + (p[0] * seed)
    ensures Generate(g, p, 0, i) == CarryWord(a, b, seed, i + 1)
  {
    hide Plane, CarryWord, Eor;
    RippleCarry(a, b, seed, i);
    if i == 0 {
      CarrySeed(a, b, seed);
    } else {
      GenerateIsRipple(a, b, seed, g, p, i - 1);
    }
  }

  /** The carries out of every bit; a subtraction lets a carry into bit 0 of every row. */
  method Carries(x: seq<Word>, y: seq<Word>, subtract: bool, ghost a: Column, ghost b: Column) returns (c: seq<Word>)
    requires IsPlanes(x, a) && IsPlanes(y, b)
    ensures |c| == 64 && forall i: nat :: i < 64 ==> c[i] == CarryWord(a, b, if subtract then Ones() else {}, i + 1)
  {
    hide Plane, CarryWord, Generate, Eor, Ones;
    var g, p := Gates(x, y);
    ghost var seed := if subtract then Ones() else {};
    AllOnes(p[0]);
    if subtract {
      g := g[0 := g[0] + p[0]];
    }
    c := CarriesOut(g, p);
    forall i: nat | i < 64
      ensures c[i] == CarryWord(a, b, seed, i + 1)
    {
      GenerateIsRipple(a, b, seed, g, p, i);
    }
  }

  lemma {:induction false} AllOnes(w: Word)
    ensures w * Ones() == w && w * {} == {} && forall v: Word :: v + {} == v
  {
  }

  /** The ADD of the generated kernel: 64 sum planes, (a + b) mod 2^64 in every row. */
  method AddPlanes(x: seq<Word>, y: seq<Word>, ghost a: Column, ghost b: Column) returns (sum: seq<Word>)
    requires IsPlanes(x, a) && IsPlanes(y, b)
    ensures IsPlanes(sum, RippleColumn(a, b, {}))
  {
    hide Plane, CarryWord, RippleColumn;
    var carries := Carries(x, y, false, a, b);
    sum := [];
    while |sum| < 64
      invariant |sum| <= 64 && forall i: nat :: i < |sum| ==> sum[i] == Plane(RippleColumn(a, b, {}), i)
    {
      var i := |sum|;
      var carryIn: Word := if i == 0 then {} else carries[i - 1];
      CarrySeed(a, b, {});
      RippleSum(a, b, {}, i);
      sum := sum + [Eor(Eor(x[i], y[i]), carryIn)];
    }
  }

  /** g and p of every thread. */
  method Gates(x: seq<Word>, y: seq<Word>) returns (g: seq<Word>, p: seq<Word>)
    requires |x| == |y| == 64
    ensures |g| == |p| == 64 && forall k: nat :: k < 64 ==> g[k] == x[k] * y[k] && p[k] == Eor(x[k], y[k])
  {
    g, p := [], [];
    while |g| < 64
      invariant |g| == |p| <= 64 && forall k: nat :: k < |g| ==> g[k] == x[k] * y[k] && p[k] == Eor(x[k], y[k])
    {
      g, p := g + [x[|g|] * y[|g|]], p + [Eor(x[|g|], y[|g|])];
    }
  }

  // ----- SUB of the generated kernel -----

  method Inverted(y: seq<Word>) returns (z: seq<Word>)
    ensures |z| == |y| && forall k: nat :: k < |y| ==> z[k] == Mvn(y[k])
  {
    z := [];
    while |z| < |y|
      invariant |z| <= |y| && forall k: nat :: k < |z| ==> z[k] == Mvn(y[k])
    {
      z := z + [Mvn(y[|z|])];
    }
  }

  /**
   The SUB as it is generated: the carries assume a carry into bit 0 of every row, bit 0 itself adds it in row 0
   only.
   */
  method SubPlanes(x: seq<Word>, y: seq<Word>, ghost a: Column, ghost b: Column) returns (diff: seq<Word>)
    requires IsPlanes(x, a) && IsPlanes(y, b)
    ensures |diff| == 64
    ensures forall i: nat :: 0 < i < 64 ==> diff[i] == Plane(RippleColumn(a, Complement(b), Ones()), i)
    ensures diff[0] == Eor(Plane(RippleColumn(a, Complement(b), Ones()), 0), Ones() - {0})
  {
    hide Plane, CarryWord, RippleColumn, Complement, Eor, Mvn, Ones;
    var z := Inverted(y);
    ghost var nb := Complement(b);
    InvertedPlanes(y, z, b);
    var carries := Carries(x, z, true, a, nb);
    RippleSum(a, nb, Ones(), 0);
    CarrySeed(a, nb, Ones());
    FlipLow(Eor(x[0], z[0]));
    diff := [Eor(Eor(x[0], z[0]), {0})];
    while |diff| < 64
      invariant 0 < |diff| <= 64 && diff[0] == Eor(Plane(RippleColumn(a, nb, Ones()), 0), Ones() - {0})
      invariant forall i: nat :: 0 < i < |diff| ==> diff[i] == Plane(RippleColumn(a, nb, Ones()), i)
    {
      var i := |diff|;
      RippleSum(a, nb, Ones(), i);
      diff := diff + [Eor(Eor(x[i], z[i]), carries[i - 1])];
    }
  }

  lemma {:induction false} InvertedPlanes(y: seq<Word>, z: seq<Word>, b: Column)
    requires IsPlanes(y, b) && |z| == 64 && forall k: nat :: k < 64 ==> z[k] == Mvn(y[k])
    ensures IsPlanes(z, Complement(b))
  {
    hide Plane, Complement, Mvn;
    forall k: nat | k < 64
      ensures z[k] == Plane(Complement(b), k)
    {
      ComplementPlane(b, k);
    }
  }

  lemma {:induction false} FlipLow(w: Word)
    ensures Eor(w, {0}) == Eor(Eor(w, Ones()), Ones() - {0})
  {
  }

  /** The prefix adder's planes, bit by bit: a + b modulo 2^64 in every row. */
  lemma {:induction false} AddLaw(a: Column, b: Column, sum: seq<Word>, r: nat, k: nat)
    requires IsPlanes(sum, RippleColumn(a, b, {})) && r < 64 && k < 64
    ensures
      var x: int, y: int := a[r], b[r];
      |sum| == 64 && (r in sum[k] <==> NatBit((x + y) % 0x1_0000_0000_0000_0000, k))
  {
    hide Wrap, NatBit;
    var x: int, y: int := a[r], b[r];
    WrapIsMod(x + y);
    assert Lane(r);
  }

  /** Row by row: a - b in row 0, and a - b with bit 0 inverted in every other row. */
  lemma {:induction false} SubLaw(a: Column, b: Column, diff: seq<Word>, r: nat, k: nat)
    requires |diff| == 64 && r < 64 && k < 64
    requires forall i: nat :: 0 < i < 64 ==> diff[i] == Plane(RippleColumn(a, Complement(b), Ones()), i)
    requires diff[0] == Eor(Plane(RippleColumn(a, Complement(b), Ones()), 0), Ones() - {0})
    ensures
      var x: int, y: int := a[r], b[r];
      && (r == 0 || k > 0 ==> (r in diff[k] <==> NatBit((x - y) % 0x1_0000_0000_0000_0000, k)))
      && (r > 0 && k == 0 ==> (r in diff[k] <==> !NatBit((x - y) % 0x1_0000_0000_0000_0000, k)))
  {
    hide Wrap, NatBit;
    var c := RippleColumn(a, Complement(b), Ones());
    assert Lane(r) && r in Ones();
    WrapMinus(a[r], b[r]);
    var x: int, y: int := a[r], b[r];
    assert c[r] == (x - y) % 0x1_0000_0000_0000_0000;
    assert r in Plane(c, k) <==> NatBit(c[r], k);
  }

  lemma {:induction false} WrapMinus(x: U64, y: U64)
    ensures Wrap(x + (TWO64 - 1 - y) + 1) == (x - y) % 0x1_0000_0000_0000_0000
  {
    WrapIsMod(x + (TWO64 - 1 - y) + 1);
    ModUnique(x - y, TWO64, if x >= y then 0 else -1, if x >= y then x - y else x - y + TWO64);
    ModUnique(x + (TWO64 - 1 - y) + 1, TWO64, if x >= y then 1 else 0, if x >= y then x - y else x - y + TWO64);
  }
}
