/**
 Gathering up to 64 rows of a field into a column buffer and slicing it (gather_field
 and the gather part of process_chunk_expr in src/api/engine.cpp).
 */
module Gather {
  import opened Words
  import opened BitSlicer
  import opened Table

  type Buffer = array<Word>

  /** Lane r of a gathered field holds the load of row r, for the first n rows. */
  ghost predicate Gathered(m: seq<Word>, mem: Memory, base: int, stride: nat, offset: nat, n: nat) {
    |m| == 64 && n <= 64 && forall r: nat :: r < n ==> m[r] == ToWord(mem(base + r * stride + offset))
  }

  /** The first r rows of one field are in place. */
  ghost predicate FieldUpTo(buf: Buffer, mem: Memory, base: int, stride: nat, offset: nat, r: nat)
    requires buf.Length == 64 && r <= 64
    reads buf
  {
    forall x: nat :: x < r ==> buf[x] == ToWord(mem(base + x * stride + offset))
  }

  /** One word of row r. */
  method StoreOne(mem: Memory, base: int, stride: nat, at: int, offset: nat, r: nat, buf: Buffer)
    requires buf.Length == 64 && r < 64 && at == base + r * stride && FieldUpTo(buf, mem, base, stride, offset, r)
    modifies buf
    ensures FieldUpTo(buf, mem, base, stride, offset, r + 1)
  {
    buf[r] := ToWord(mem(at + offset));
  }

  /** gather_field: four rows at a time, the rest one by one, then zero padding. */
  method GatherField(mem: Memory, base: int, stride: nat, offset: nat, rowCount: nat, out: Buffer)
    requires out.Length == 64
    modifies out
    ensures
      var n := if rowCount < 64 then rowCount else 64;
      Gathered(out[..], mem, base, stride, offset, n) && forall r :: n <= r < 64 ==> out[r] == {}
  {
    var n := if rowCount < 64 then rowCount else 64;
    GatherRowsByFour(mem, base, stride, offset, n, out);
    var i := n;
    while i < 64
      invariant n <= i <= 64 && FieldUpTo(out, mem, base, stride, offset, n)
      invariant forall r :: n <= r < i ==> out[r] == {}
    {
      out[i] := {};
      i := i + 1;
    }
  }

  method GatherRowsByFour(mem: Memory, base: int, stride: nat, offset: nat, n: nat, out: Buffer)
    requires out.Length == 64 && n <= 64
    modifies out
    ensures FieldUpTo(out, mem, base, stride, offset, n)
  {
    NoRowYet(out, mem, base, stride, offset);
    hide FieldUpTo;
    var i := 0;
    while i + 4 <= n
      invariant 0 <= i <= n && FieldUpTo(out, mem, base, stride, offset, i)
    {
      StoreOne(mem, base, stride, base + i * stride, offset, i, out);
      StoreOne(mem, base, stride, base + (i + 1) * stride, offset, i + 1, out);
      StoreOne(mem, base, stride, base + (i + 2) * stride, offset, i + 2, out);
      StoreOne(mem, base, stride, base + (i + 3) * stride, offset, i + 3, out);
      i := i + 4;
    }
    while i < n
      invariant 0 <= i <= n && FieldUpTo(out, mem, base, stride, offset, i)
    {
      StoreOne(mem, base, stride, base + i * stride, offset, i, out);
      i := i + 1;
    }
  }

  lemma {:induction false} NoRowYet(out: Buffer, mem: Memory, base: int, stride: nat, offset: nat)
    requires out.Length == 64
    ensures FieldUpTo(out, mem, base, stride, offset, 0)
  {
  }

  /** Distinct columns of 64 words, at least five of them. */
  ghost predicate BuffersOk(bufs: seq<Buffer>)
  {
    && |bufs| >= 5
    && (forall i :: 0 <= i < |bufs| ==> bufs[i].Length == 64)
    && (forall i, j :: 0 <= i < j < |bufs| ==> bufs[i] != bufs[j])
  }

  method NewBuffers(n: nat) returns (bufs: seq<Buffer>)
    requires n >= 5
    ensures BuffersOk(bufs) && |bufs| == n && forall i :: 0 <= i < n ==> fresh(bufs[i])
  {
    bufs := [];
    while |bufs| < n
      invariant |bufs| <= n
      invariant forall i :: 0 <= i < |bufs| ==> fresh(bufs[i]) && bufs[i].Length == 64
      invariant forall i, j :: 0 <= i < j < |bufs| ==> bufs[i] != bufs[j]
    {
      var b := new Word[64](i => {});
      bufs := bufs + [b];
    }
  }

  /** The first r rows of the five front fields are in place. */
  ghost predicate FiveUpTo(bufs: seq<Buffer>, mem: Memory, base: int, stride: nat, r: nat)
    requires BuffersOk(bufs) && r <= 64
    reads bufs[0], bufs[1], bufs[2], bufs[3], bufs[4]
  {
    && FieldUpTo(bufs[0], mem, base, stride, 0, r) && FieldUpTo(bufs[1], mem, base, stride, 8, r)
    && FieldUpTo(bufs[2], mem, base, stride, 16, r) && FieldUpTo(bufs[3], mem, base, stride, 24, r)
    && FieldUpTo(bufs[4], mem, base, stride, 32, r)
  }

  lemma {:induction false} NoneYet(bufs: seq<Buffer>, mem: Memory, base: int, stride: nat)
    requires BuffersOk(bufs)
    ensures FiveUpTo(bufs, mem, base, stride, 0)
  {
  }

  lemma {:induction false} FiveGathered(bufs: seq<Buffer>, mem: Memory, base: int, stride: nat, n: nat)
    requires BuffersOk(bufs) && n <= 64 && FiveUpTo(bufs, mem, base, stride, n)
    ensures forall k: nat :: k < 5 ==> Gathered(bufs[k][..], mem, base, stride, 8 * k, n)
  {
    forall k: nat | k < 5
      ensures Gathered(bufs[k][..], mem, base, stride, 8 * k, n)
    {
      assert k == 0 || k == 1 || k == 2 || k == 3 || k == 4;
      assert FieldUpTo(bufs[k], mem, base, stride, 8 * k, n);
    }
  }

  /** The five words at the front of row r. */
  method StoreFive(mem: Memory, base: int, stride: nat, at: int, r: nat, bufs: seq<Buffer>)
    requires BuffersOk(bufs) && r < 64 && at == base + r * stride && FiveUpTo(bufs, mem, base, stride, r)
    modifies bufs[0], bufs[1], bufs[2], bufs[3], bufs[4]
    ensures FiveUpTo(bufs, mem, base, stride, r + 1)
  {
    hide FieldUpTo;
    StoreOne(mem, base, stride, at, 0, r, bufs[0]);
    StoreOne(mem, base, stride, at, 8, r, bufs[1]);
    StoreOne(mem, base, stride, at, 16, r, bufs[2]);
    StoreOne(mem, base, stride, at, 24, r, bufs[3]);
    StoreOne(mem, base, stride, at, 32, r, bufs[4]);
  }

  /**
   The five-field fast path: the fields at offsets 0, 8, 16, 24 and 32 are read row by
   row. Lanes beyond the last row keep whatever an earlier chunk left there.
   */
  method GatherFive(mem: Memory, base: int, stride: nat, rowCount: nat, bufs: seq<Buffer>)
    requires BuffersOk(bufs) && rowCount <= 64
    modifies bufs[0], bufs[1], bufs[2], bufs[3], bufs[4]
    ensures forall k: nat :: k < 5 ==> Gathered(bufs[k][..], mem, base, stride, 8 * k, rowCount)
  {
    hide FiveUpTo, ToWord;
    NoneYet(bufs, mem, base, stride);
    var r := 0;
    while r < rowCount
      invariant 0 <= r <= rowCount && FiveUpTo(bufs, mem, base, stride, r)
    {
      StoreFive(mem, base, stride, base + r * stride, r, bufs);
      r := r + 1;
    }
    FiveGathered(bufs, mem, base, stride, rowCount);
  }

  datatype Offset = NoField | At(offset: nat)

  /** The condition of the fast path. */
  predicate FiveInFront(fields: seq<Offset>) {
    |fields| >= 5 && fields[0] == At(0) && fields[1] == At(8) && fields[2] == At(16) && fields[3] == At(24) &&
      fields[4] == At(32)
  }

  /** planes is the slicing of raw, and raw holds the first n rows of the field. */
  ghost predicate FieldSliced(planes: seq<Word>, raw: seq<Word>, mem: Memory, base: int, stride: nat, f: Offset,
      n: nat) {
    f.At? ==>
      && Gathered(raw, mem, base, stride, f.offset, n)
      && |planes| == 64 && forall b: nat :: b < 64 ==> planes[b] == TransposedWord(raw, b)
  }

  /** Gather and slice one field into buffer i. */
  method SliceField(mem: Memory, base: int, stride: nat, rowCount: nat, f: Offset, buf: Buffer)
    returns (planes: seq<Word>, ghost raw: seq<Word>)
    requires buf.Length == 64 && rowCount <= 64
    modifies buf
    ensures FieldSliced(planes, raw, mem, base, stride, f, rowCount)
  {
    planes, raw := [], [];
    if f.At? {
      GatherField(mem, base, stride, f.offset, rowCount, buf);
      raw := buf[..];
      SliceN(buf, buf, 64);
      planes := buf[..];
    }
  }

  /** Slice a buffer that has been gathered already. */
  method SliceGathered(buf: Buffer) returns (planes: seq<Word>, ghost raw: seq<Word>)
    requires buf.Length == 64
    modifies buf
    ensures |planes| == |raw| == 64 && raw == old(buf[..]) && forall b: nat :: b < 64 ==>
      planes[b] == TransposedWord(raw, b)
  {
    raw := buf[..];
    SliceN(buf, buf, 64);
    planes := buf[..];
  }

  /** All fields of a chunk, by the fast path where it applies. */
  method SliceFields(mem: Memory, base: int, stride: nat, rowCount: nat, fields: seq<Offset>, bufs: seq<Buffer>)
    returns (planes: seq<seq<Word>>, ghost raws: seq<seq<Word>>)
    requires BuffersOk(bufs) && |fields| <= |bufs| && rowCount <= 64
    modifies bufs
    ensures |planes| == |raws| == |fields|
    ensures forall k :: 0 <= k < |fields| ==> FieldSliced(planes[k], raws[k], mem, base, stride, fields[k], rowCount)
  {
    planes, raws := [], [];
    if FiveInFront(fields) {
      planes, raws := SliceFive(mem, base, stride, rowCount, fields, bufs);
    }
    var i := |planes|;
    while i < |fields|
      invariant |planes| == |raws| == i <= |fields|
      invariant forall k :: 0 <= k < i ==> FieldSliced(planes[k], raws[k], mem, base, stride, fields[k], rowCount)
    {
      var p: seq<Word>;
      ghost var r: seq<Word>;
      p, r := SliceField(mem, base, stride, rowCount, fields[i], bufs[i]);
      planes, raws := planes + [p], raws + [r];
      i := i + 1;
    }
  }

  method SliceFive(mem: Memory, base: int, stride: nat, rowCount: nat, fields: seq<Offset>, bufs: seq<Buffer>)
    returns (planes: seq<seq<Word>>, ghost raws: seq<seq<Word>>)
    requires BuffersOk(bufs) && FiveInFront(fields) && rowCount <= 64
    modifies bufs
    ensures |planes| == |raws| == 5
    ensures forall k :: 0 <= k < 5 ==> FieldSliced(planes[k], raws[k], mem, base, stride, fields[k], rowCount)
  {
    GatherFive(mem, base, stride, rowCount, bufs);
    planes, raws := [], [];
    var i := 0;
    while i < 5
      invariant |planes| == |raws| == i <= 5
      invariant forall k :: 0 <= k < i ==> FieldSliced(planes[k], raws[k], mem, base, stride, fields[k], rowCount)
      invariant forall k: nat :: i <= k < 5 ==> Gathered(bufs[k][..], mem, base, stride, 8 * k, rowCount)
    {
      var p: seq<Word>;
      ghost var r: seq<Word>;
      p, r := SliceGathered(bufs[i]);
      assert fields[i] == At(8 * i);
      planes, raws := planes + [p], raws + [r];
      i := i + 1;
    }
  }
}
