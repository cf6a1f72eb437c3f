/**
 The streaming hash and the keyed hash of common/crypto.h, over an abstract compression
 function: buffering and padding as in section 5.1.1 of FIPS 180-4, and the
 construction of section 2 of RFC 2104.
 */
module Sha256 {
  import opened Words

  type Byte = b: nat | b < 256

  /** The eight words of a chaining value. */
  type Chain = h: seq<nat> | |h| == 8 witness [0, 0, 0, 0, 0, 0, 0, 0]

  type Compression = (Chain, seq<Byte>) -> Chain

  // ----- numbers as bytes -----

  /** The k low bytes of n, most significant first. */
  function BigEndian(n: nat, k: nat): (s: seq<Byte>)
    ensures |s| == k
  {
    if k == 0 then [] else BigEndian(n / 256, k - 1) + [n % 256]
  }

  /** n >> (8 * k) */
  function ShiftBytes(n: nat, k: nat): nat {
    if k == 0 then n else ShiftBytes(n / 256, k - 1)
  }

  lemma {:induction false} ByteAt(n: nat, k: nat, i: nat)
    requires i < k
    ensures BigEndian(n, k)[k - 1 - i] == ShiftBytes(n, i) % 256
    decreases k
  {
    if i > 0 {
      ByteAt(n / 256, k - 1, i - 1);
    }
  }

  lemma {:induction false} ShiftTwice(n: nat, k: nat)
    ensures ShiftBytes(n, k + 1) == ShiftBytes(n, k) / 256
    decreases k
  {
    if k > 0 {
      ShiftTwice(n / 256, k - 1);
    }
  }

  lemma {:induction false} Shifts(n: nat)
    ensures ShiftBytes(n, 0) == n && ShiftBytes(n, 1) == n / 0x100 && ShiftBytes(n, 2) == n / 0x1_0000
    ensures ShiftBytes(n, 3) == n / 0x100_0000 && ShiftBytes(n, 4) == n / 0x1_0000_0000
    ensures ShiftBytes(n, 5) == n / 0x100_0000_0000 && ShiftBytes(n, 6) == n / 0x1_0000_0000_0000
    ensures ShiftBytes(n, 7) == n / 0x100_0000_0000_0000
  {
    assert ShiftBytes(n, 0) == n;
    hide ShiftBytes;
    ShiftTwice(n, 0);
    ShiftTwice(n, 1);
    ShiftTwice(n, 2);
    ShiftTwice(n, 3);
    ShiftTwice(n, 4);
    ShiftTwice(n, 5);
    ShiftTwice(n, 6);
  }

  /** The four bytes of a word, most significant first. */
  lemma {:induction false} FourBytes(n: nat)
    ensures BigEndian(n, 4) == [n / 0x100_0000 % 256, n / 0x1_0000 % 256, n / 0x100 % 256, n % 256]
  {
    hide BigEndian, ShiftBytes;
    Shifts(n);
    ByteAt(n, 4, 0);
    ByteAt(n, 4, 1);
    ByteAt(n, 4, 2);
    ByteAt(n, 4, 3);
  }

  /** The eight bytes of a length, most significant first. */
  lemma {:induction false} EightBytes(n: nat)
    ensures BigEndian(n, 8) == [
      n / 0x100_0000_0000_0000 % 256, n / 0x1_0000_0000_0000 % 256, n / 0x100_0000_0000 % 256,
      n / 0x1_0000_0000 % 256, n / 0x100_0000 % 256, n / 0x1_0000 % 256, n / 0x100 % 256, n % 256]
  {
    hide BigEndian, ShiftBytes;
    Shifts(n);
    ByteAt(n, 8, 0);
    ByteAt(n, 8, 1);
    ByteAt(n, 8, 2);
    ByteAt(n, 8, 3);
    ByteAt(n, 8, 4);
    ByteAt(n, 8, 5);
    ByteAt(n, 8, 6);
    ByteAt(n, 8, 7);
  }

  function Pow256(k: nat): nat {
    if k == 0 then 1 else 256 * Pow256(k - 1)
  }

  lemma {:induction false} HighByteDrop(n: nat, h: nat)
    ensures (n + 256 * h) / 256 == n / 256 + h && (n + 256 * h) % 256 == n % 256
  {
  }

  lemma {:induction false} Pow256Times(m: nat, k: nat)
    requires k > 0
    ensures m * Pow256(k) == 256 * (m * Pow256(k - 1))
  {
    var x := Pow256(k - 1);
    assert m * (256 * x) == 256 * (m * x);
  }

  /** Bits above the k low bytes do not show. */
  lemma {:induction false} HighBitsDrop(n: nat, m: nat, k: nat)
    ensures BigEndian(n + m * Pow256(k), k) == BigEndian(n, k)
    decreases k
  {
    hide Pow256;
    if k > 0 {
      Pow256Times(m, k);
      HighByteDrop(n, m * Pow256(k - 1));
      HighBitsDrop(n / 256, m, k - 1);
    }
  }

  lemma {:induction false} Pow256At8()
    ensures Pow256(8) == TWO64
  {
    assert Pow256(2) == 0x1_0000;
    assert Pow256(4) == 0x1_0000_0000;
    assert Pow256(6) == 0x1_0000_0000_0000;
  }

  /** A counter kept modulo 2^64 encodes like the true count. */
  lemma {:induction false} WrappedLength(n: nat)
    ensures BigEndian(n % TWO64, 8) == BigEndian(n, 8)
  {
    Pow256At8();
    HighBitsDrop(n % TWO64, n / TWO64, 8);
    assert n == n % TWO64 + (n / TWO64) * TWO64;
  }

  // ----- the reference -----

  /** n zero bytes. */
  function Zeros(n: nat): (s: seq<Byte>)
    ensures |s| == n && forall i :: 0 <= i < n ==> s[i] == 0
  {
    if n == 0 then [] else Zeros(n - 1) + [0]
  }

  /** How many zero bytes follow the 0x80 byte. */
  function PadZeros(len: nat): nat {
    if len % 64 < 56 then 55 - len % 64 else 119 - len % 64
  }

  /** It is the least number that leaves room for the length at the end of a block. */
  lemma {:induction false} PadZerosIsLeast(len: nat, k: nat)
    ensures (len + 1 + PadZeros(len) + 8) % 64 == 0
    ensures (len + 1 + k + 8) % 64 == 0 ==> PadZeros(len) <= k
  {
  }

  function Padded(m: seq<Byte>): seq<Byte> {
    m + [0x80] + Zeros(PadZeros(|m|)) + BigEndian(8 * |m|, 8)
  }

  /**
   The padded message byte by byte: the message, 0x80, fewer than 64 zeros, and the number of message bits in
   eight bytes, most significant first; whole blocks.
   */
  lemma {:induction false} PaddedBytes(m: seq<Byte>)
    ensures
      var p, bits := Padded(m), 8 * |m|;
      && |p| % 64 == 0 && |m| + 9 <= |p| < |m| + 9 + 64
      && p[..|m|] == m && p[|m|] == 0x80 && (forall i :: |m| < i < |p| - 8 ==> p[i] == 0)
      && p[|p| - 8..] == [
           bits / 0x100_0000_0000_0000 % 256, bits / 0x1_0000_0000_0000 % 256, bits / 0x100_0000_0000 % 256,
           bits / 0x1_0000_0000 % 256, bits / 0x100_0000 % 256, bits / 0x1_0000 % 256, bits / 0x100 % 256, bits % 256]
  {
    hide BigEndian, Zeros;
    PadZerosIsLeast(|m|, 0);
    EightBytes(8 * |m|);
    var p := Padded(m);
    assert |p| == |m| + 1 + PadZeros(|m|) + 8;
    assert p[|p| - 8..] == BigEndian(8 * |m|, 8);
  }

  /** The chaining value after the first n blocks of m. */
  function Fold(f: Compression, iv: Chain, m: seq<Byte>, n: nat): Chain
    requires 64 * n <= |m|
  {
    if n == 0 then iv else f(Fold(f, iv, m, n - 1), m[64 * (n - 1)..64 * n])
  }

  lemma {:induction false} FoldPrefix(f: Compression, iv: Chain, m: seq<Byte>, m': seq<Byte>, n: nat)
    requires 64 * n <= |m| && 64 * n <= |m'| && m[..64 * n] == m'[..64 * n]
    ensures Fold(f, iv, m, n) == Fold(f, iv, m', n)
  {
    if n > 0 {
      assert m[..64 * (n - 1)] == m[..64 * n][..64 * (n - 1)];
      assert m'[..64 * (n - 1)] == m'[..64 * n][..64 * (n - 1)];
      assert m[64 * (n - 1)..64 * n] == m[..64 * n][64 * (n - 1)..];
      assert m'[64 * (n - 1)..64 * n] == m'[..64 * n][64 * (n - 1)..];
      FoldPrefix(f, iv, m, m', n - 1);
    }
  }

  /** The eight words, four bytes each. */
  function Digest(h: Chain): (s: seq<Byte>)
    ensures |s| == 32
  {
    BigEndian(h[0], 4) + BigEndian(h[1], 4) + BigEndian(h[2], 4) + BigEndian(h[3], 4)
    + BigEndian(h[4], 4) + BigEndian(h[5], 4) + BigEndian(h[6], 4) + BigEndian(h[7], 4)
  }

  function Hash(f: Compression, iv: Chain, m: seq<Byte>): (s: seq<Byte>)
    ensures |s| == 32
  {
    Digest(Fold(f, iv, Padded(m), |Padded(m)| / 64))
  }

  /** Word w of the digest, most significant byte first. */
  lemma {:induction false} DigestWord(h: Chain, w: nat)
    requires w < 8
    ensures Digest(h)[4 * w..4 * w + 4] ==
      [h[w] / 0x100_0000 % 256, h[w] / 0x1_0000 % 256, h[w] / 0x100 % 256, h[w] % 256]
  {
    FourBytes(h[w]);
    DigestSlice(h, w);
  }

  lemma {:induction false} DigestSlice(h: Chain, w: nat)
    requires w < 8
    ensures Digest(h)[4 * w..4 * w + 4] == BigEndian(h[w], 4)
  {
    hide BigEndian;
  }

  /** The hash is the last of the chaining values that start at iv and take one padded block each, in order. */
  lemma {:induction false} HashChain(f: Compression, iv: Chain, m: seq<Byte>) returns (chain: seq<Chain>)
    ensures |Padded(m)| == 64 * (|chain| - 1) && |chain| > 0 && chain[0] == iv
    ensures forall k: nat :: k < |chain| - 1 ==> chain[k + 1] == f(chain[k], Padded(m)[64 * k..64 * k + 64])
    ensures Hash(f, iv, m) == Digest(chain[|chain| - 1])
  {
    hide Digest, BigEndian, Zeros;
    PadZerosIsLeast(|m|, 0);
    chain := FoldChain(f, iv, Padded(m), |Padded(m)| / 64);
  }

  lemma {:induction false} FoldChain(f: Compression, iv: Chain, p: seq<Byte>, n: nat) returns (chain: seq<Chain>)
    requires 64 * n <= |p|
    ensures |chain| == n + 1 && chain[0] == iv && chain[n] == Fold(f, iv, p, n)
    ensures forall k: nat :: k < n ==> chain[k + 1] == f(chain[k], p[64 * k..64 * k + 64])
  {
    if n == 0 {
      chain := [iv];
    } else {
      var front := FoldChain(f, iv, p, n - 1);
      chain := front + [Fold(f, iv, p, n)];
      forall k: nat | k < n
        ensures chain[k + 1] == f(chain[k], p[64 * k..64 * k + 64])
      {
        if k < n - 1 {
          assert front[k + 1] == f(front[k], p[64 * k..64 * k + 64]);
        }
      }
    }
  }

  // ----- the streaming object -----

  class Hasher {
    const f: Compression
    const iv: Chain
    const data: array<Byte>
    var dataLen: nat
    var bitLen: nat
    var state: Chain
    ghost var message: seq<Byte>
    ghost var blocks: nat

    /** The buffer holds the bytes of the message behind its last whole block. */
    ghost predicate Valid()
      reads this, data
    {
      && data.Length == 64 && dataLen < 64 && |message| == 64 * blocks + dataLen
      && data[..dataLen] == message[64 * blocks..]
      && state == Fold(f, iv, message, blocks) && bitLen == (512 * blocks) % TWO64
    }

    constructor (f: Compression, iv: Chain)
      ensures Valid() && message == [] && fresh(data) && this.f == f && this.iv == iv
    {
      this.f := f;
      this.iv := iv;
      data := new Byte[64](i => 0);
      dataLen, bitLen, state := 0, 0, iv;
      message, blocks := [], 0;
    }

    /** update: however a message is cut into calls, the object stands for all bytes so far. */
    method Update(input: seq<Byte>)
      requires Valid()
      modifies this, data
      ensures Valid() && message == old(message) + input
    {
      var i := 0;
      assert input[..0] == [];
      while i < |input|
        invariant 0 <= i <= |input| && Valid() && message == old(message) + input[..i]
      {
        UpdateByte(input[i]);
        assert input[..i + 1] == input[..i] + [input[i]];
        i := i + 1;
      }
      assert input[..i] == input;
    }

    method UpdateByte(b: Byte)
      requires Valid()
      modifies this, data
      ensures Valid() && message == old(message) + [b]
    {
      hide Fold;
      ghost var tail := message[64 * blocks..];
      data[dataLen] := b;
      assert data[..dataLen + 1] == tail + [b];
      TailGrows(f, iv, message, b, blocks);
      message := message + [b];
      dataLen := dataLen + 1;
      if dataLen == 64 {
        assert data[..] == tail + [b];
        BlockDone(f, iv, message, blocks);
        CountBlock(bitLen, blocks);
        state := f(state, data[..]);
        bitLen := (bitLen + 512) % TWO64;
        blocks := blocks + 1;
        dataLen := 0;
      }
    }

    /** final: pad, add the length, and give out the chaining value. */
    method Final() returns (hash: seq<Byte>)
      requires Valid()
      modifies this, data
      ensures hash == Hash(f, iv, message) && message == old(message)
    {
      hide Hash, Fold, BigEndian, Digest, Zeros;
      ghost var tail, chain := message[64 * blocks..], state;
      assert data[..dataLen] == tail;
      if dataLen < 56 {
        PadShort(data, dataLen);
      } else {
        PadLong(data, dataLen);
        state := f(state, data[..]);
        Fill(data, 0, 56);
        assert data[..56] == Zeros(56);
      }
      CountBytes(bitLen, blocks, dataLen);
      bitLen := (bitLen + dataLen * 8) % TWO64;
      WrappedLength(8 * |message|);
      WriteLength(data, bitLen);
      assert data[..] == data[..56] + data[56..];
      if dataLen < 56 {
        ShortPad(f, iv, message, blocks, tail, data[..]);
      } else {
        LongPad(f, iv, message, blocks, tail, data[..]);
      }
      state := f(state, data[..]);
      hash := Output(state);
    }
  }

  method PadShort(data: array<Byte>, len: nat)
    requires data.Length == 64 && len < 56
    modifies data
    ensures data[..56] == old(data[..len]) + [0x80] + Zeros(55 - len)
  {
    hide Zeros;
    data[len] := 0x80;
    Fill(data, len + 1, 56);
    assert data[..56] == data[..len + 1] + data[len + 1..56];
  }

  method PadLong(data: array<Byte>, len: nat)
    requires data.Length == 64 && 56 <= len < 64
    modifies data
    ensures data[..] == old(data[..len]) + [0x80] + Zeros(63 - len)
  {
    hide Zeros;
    data[len] := 0x80;
    Fill(data, len + 1, 64);
    assert data[..] == data[..len + 1] + data[len + 1..64];
  }

  lemma {:induction false} TailGrows(f: Compression, iv: Chain, m: seq<Byte>, b: Byte, n: nat)
    requires 64 * n <= |m|
    ensures (m + [b])[64 * n..] == m[64 * n..] + [b] && Fold(f, iv, m + [b], n) == Fold(f, iv, m, n)
  {
    assert (m + [b])[..64 * n] == m[..64 * n];
    FoldPrefix(f, iv, m, m + [b], n);
  }

  lemma {:induction false} BlockDone(f: Compression, iv: Chain, m: seq<Byte>, n: nat)
    requires |m| == 64 * (n + 1)
    ensures Fold(f, iv, m, n + 1) == f(Fold(f, iv, m, n), m[64 * n..]) && m[64 * (n + 1)..] == []
  {
    assert m[64 * n..64 * (n + 1)] == m[64 * n..];
  }

  /** data[from..to] becomes zero. */
  method Fill(data: array<Byte>, from: nat, to: nat)
    requires data.Length == 64 && from <= to <= 64
    modifies data
    ensures data[..from] == old(data[..from]) && data[from..to] == Zeros(to - from) && data[to..] == old(data[to..])
  {
    var i := from;
    while i < to
      invariant from <= i <= to
      invariant forall k :: 0 <= k < from ==> data[k] == old(data[k])
      invariant forall k :: from <= k < i ==> data[k] == 0
      invariant forall k :: to <= k < 64 ==> data[k] == old(data[k])
    {
      data[i] := 0;
      i := i + 1;
    }
  }

  /** The eight length bytes, written from the last one down. */
  method WriteLength(data: array<Byte>, n: nat)
    requires data.Length == 64
    modifies data
    ensures data[..56] == old(data[..56]) && data[56..] == BigEndian(n, 8)
  {
    hide BigEndian, ShiftBytes;
    var k := 0;
    while k < 8
      invariant 0 <= k <= 8
      invariant forall i :: 0 <= i < 56 ==> data[i] == old(data[i])
      invariant forall i: nat :: i < k ==> data[63 - i] == ShiftBytes(n, i) % 256
    {
      data[63 - k] := ShiftBytes(n, k) % 256;
      k := k + 1;
    }
    forall i | 0 <= i < 8
      ensures data[56 + i] == BigEndian(n, 8)[i]
    {
      ByteAt(n, 8, 7 - i);
      assert data[63 - (7 - i)] == ShiftBytes(n, 7 - i) % 256;
    }
  }

  /** The words of the chaining value, byte by byte. */
  method Output(h: Chain) returns (hash: seq<Byte>)
    ensures hash == Digest(h)
  {
    hide BigEndian, ShiftBytes;
    var out := new Byte[32](i => 0);
    var i := 0;
    while i < 4
      invariant 0 <= i <= 4
      invariant forall x: nat :: x < 32 && x % 4 < i ==> out[x] == WordByte(h, x)
    {
      WriteColumn(out, h, i);
      i := i + 1;
    }
    hash := out[..];
    DigestIs(h, hash);
  }

  /** Byte x of the digest. */
  function WordByte(h: Chain, x: nat): Byte
    requires x < 32
  {
    ShiftBytes(h[x / 4], 3 - x % 4) % 256
  }

  /** Byte i of each of the eight words. */
  method WriteColumn(out: array<Byte>, h: Chain, i: nat)
    requires out.Length == 32 && i < 4
    modifies out
    ensures forall x: nat :: x < 32 ==> out[x] == if x % 4 == i then WordByte(h, x) else old(out[x])
  {
    hide WordByte;
    ByteOfWord(h, i);
    out[i] := ShiftBytes(h[0], 3 - i) % 256;
    out[i + 4] := ShiftBytes(h[1], 3 - i) % 256;
    out[i + 8] := ShiftBytes(h[2], 3 - i) % 256;
    out[i + 12] := ShiftBytes(h[3], 3 - i) % 256;
    out[i + 16] := ShiftBytes(h[4], 3 - i) % 256;
    out[i + 20] := ShiftBytes(h[5], 3 - i) % 256;
    out[i + 24] := ShiftBytes(h[6], 3 - i) % 256;
    out[i + 28] := ShiftBytes(h[7], 3 - i) % 256;
    forall x: nat | x < 32
      ensures out[x] == if x % 4 == i then WordByte(h, x) else old(out[x])
    {
      ColumnIndex(x, i);
    }
  }

  lemma {:induction false} ColumnIndex(x: nat, i: nat)
    requires x < 32 && i < 4
    ensures x % 4 == i <==>
      x == i || x == i + 4 || x == i + 8 || x == i + 12 || x == i + 16 || x == i + 20 || x == i + 24 || x == i + 28
  {
  }

  lemma {:induction false} ByteOfWord(h: Chain, i: nat)
    requires i < 4
    ensures WordByte(h, i) == ShiftBytes(h[0], 3 - i) % 256 && WordByte(h, i + 4) == ShiftBytes(h[1], 3 - i) % 256
    ensures WordByte(h, i + 8) == ShiftBytes(h[2], 3 - i) % 256 && WordByte(h, i + 12) == ShiftBytes(h[3], 3 - i) % 256
    ensures WordByte(h, i + 16) == ShiftBytes(h[4], 3 - i) % 256 && WordByte(h, i + 20) == ShiftBytes(h[5], 3 - i) % 256
    ensures WordByte(h, i + 24) == ShiftBytes(h[6], 3 - i) % 256 && WordByte(h, i + 28) == ShiftBytes(h[7], 3 - i) % 256
  {
    hide ShiftBytes;
  }

  lemma {:induction false} DigestIs(h: Chain, hash: seq<Byte>)
    requires |hash| == 32 && forall x: nat :: x < 32 ==> hash[x] == WordByte(h, x)
    ensures hash == Digest(h)
  {
    hide BigEndian, WordByte;
    WordIs(h, hash, 0);
    WordIs(h, hash, 1);
    WordIs(h, hash, 2);
    WordIs(h, hash, 3);
    WordIs(h, hash, 4);
    WordIs(h, hash, 5);
    WordIs(h, hash, 6);
    WordIs(h, hash, 7);
    assert hash == hash[0..4] + hash[4..8] + hash[8..12] + hash[12..16] + hash[16..20] + hash[20..24] +
      hash[24..28] + hash[28..32];
  }

  lemma {:induction false} WordIs(h: Chain, hash: seq<Byte>, w: nat)
    requires |hash| == 32 && w < 8 && forall x: nat :: x < 32 ==> hash[x] == WordByte(h, x)
    ensures hash[4 * w..4 * w + 4] == BigEndian(h[w], 4)
  {
    hide BigEndian, ShiftBytes;
    var word := hash[4 * w..4 * w + 4];
    forall k: nat | k < 4
      ensures word[k] == BigEndian(h[w], 4)[k]
    {
      ByteAt(h[w], 4, 3 - k);
      assert word[k] == hash[4 * w + k] && (4 * w + k) / 4 == w && (4 * w + k) % 4 == k;
    }
  }

  // ----- the padded blocks -----

  /** A tail of less than 56 bytes is padded within its block. */
  lemma {:induction false} ShortPad(f: Compression, iv: Chain, m: seq<Byte>, n: nat, tail: seq<Byte>, block: seq<Byte>)
    requires |m| == 64 * n + |tail| && tail == m[64 * n..] && |tail| < 56
    requires block == tail + [0x80] + Zeros(55 - |tail|) + BigEndian(8 * |m|, 8)
    ensures Hash(f, iv, m) == Digest(f(Fold(f, iv, m, n), block))
  {
    hide Digest, Zeros, BigEndian;
    assert |m| % 64 == |tail|;
    var p := Padded(m);
    assert p == m[..64 * n] + block && |p| == 64 * (n + 1);
    assert p[64 * n..64 * (n + 1)] == block && p[..64 * n] == m[..64 * n];
    FoldPrefix(f, iv, m, p, n);
    assert |p| / 64 == n + 1;
  }

  /** A longer tail takes a second block. */
  lemma {:induction false} LongPad(f: Compression, iv: Chain, m: seq<Byte>, n: nat, tail: seq<Byte>, block: seq<Byte>)
    requires |m| == 64 * n + |tail| && tail == m[64 * n..] && 56 <= |tail| < 64
    requires block == Zeros(56) + BigEndian(8 * |m|, 8)
    ensures Hash(f, iv, m) == Digest(f(f(Fold(f, iv, m, n), tail + [0x80] + Zeros(63 - |tail|)), block))
  {
    hide Digest, Zeros, BigEndian;
    assert |m| % 64 == |tail|;
    var p, first := Padded(m), tail + [0x80] + Zeros(63 - |tail|);
    assert Zeros(119 - |tail|) == Zeros(63 - |tail|) + Zeros(56);
    assert p == m[..64 * n] + first + block && |p| == 64 * (n + 2);
    assert p[64 * n..64 * (n + 1)] == first && p[64 * (n + 1)..64 * (n + 2)] == block && p[..64 * n] == m[..64 * n];
    FoldPrefix(f, iv, m, p, n);
    assert Fold(f, iv, p, n + 1) == f(Fold(f, iv, p, n), first);
    assert |p| / 64 == n + 2;
  }

  lemma {:induction false} CountBytes(bits: nat, blocks: nat, len: nat)
    requires bits == (512 * blocks) % TWO64
    ensures (bits + len * 8) % TWO64 == (8 * (64 * blocks + len)) % TWO64
  {
  }

  lemma {:induction false} CountBlock(bits: nat, blocks: nat)
    requires bits == (512 * blocks) % TWO64
    ensures (bits + 512) % TWO64 == (512 * (blocks + 1)) % TWO64
  {
  }

  // ----- the keyed hash -----

  /** Bitwise exclusive or of the k low bits. */
  function XorBits(a: nat, b: nat, k: nat): nat {
    if k == 0 then 0 else 2 * XorBits(a / 2, b / 2, k - 1) + (a + b) % 2
  }

  lemma {:induction false} XorBound(a: nat, b: nat, k: nat)
    ensures XorBits(a, b, k) < Pow2(k)
  {
    if k > 0 {
      XorBound(a / 2, b / 2, k - 1);
    }
  }

  lemma {:induction false} XorBitsHalves(a: nat, b: nat, k: nat)
    requires k > 0
    ensures XorBits(a, b, k) / 2 == XorBits(a / 2, b / 2, k - 1) && XorBits(a, b, k) % 2 == (a + b) % 2
  {
  }

  lemma {:induction false} XorBitsBit(a: nat, b: nat, k: nat, j: nat)
    requires j < k
    ensures NatBit(XorBits(a, b, k), j) <==> NatBit(a, j) != NatBit(b, j)
    decreases k
  {
    hide XorBits;
    XorBitsHalves(a, b, k);
    if j > 0 {
      XorBitsBit(a / 2, b / 2, k - 1, j - 1);
    }
  }

  /** Exclusive or, bit by bit. */
  lemma {:induction false} XorBit(a: Byte, b: Byte, j: nat)
    requires j < 8
    ensures NatBit(Xor(a, b), j) <==> NatBit(a, j) != NatBit(b, j)
  {
    XorBitsBit(a, b, 8, j);
  }

  function Xor(a: Byte, b: Byte): Byte {
    XorBound(a, b, 8);
    assert Pow2(4) == 16 && Pow2(8) == 256;
    XorBits(a, b, 8)
  }

  function XorAll(s: seq<Byte>, b: Byte): (r: seq<Byte>)
    ensures |r| == |s| && forall i :: 0 <= i < |s| ==> r[i] == Xor(s[i], b)
  {
    if s == [] then [] else XorAll(s[..|s| - 1], b) + [Xor(s[|s| - 1], b)]
  }

  /** Section 2 of RFC 2104: long keys are hashed first, then zeros fill a block. */
  function BlockKey(f: Compression, iv: Chain, key: seq<Byte>): (k: seq<Byte>)
    ensures |k| == 64
  {
    var k := if |key| > 64 then Hash(f, iv, key) else key;
    k + Zeros(64 - |k|)
  }

  function Hmac(f: Compression, iv: Chain, key: seq<Byte>, text: seq<Byte>): seq<Byte> {
    var k := BlockKey(f, iv, key);
    Hash(f, iv, XorAll(k, 0x5c) + Hash(f, iv, XorAll(k, 0x36) + text))
  }

  /** The key, or its hash when it is longer than a block, filled up with zeros. */
  lemma {:induction false} BlockKeyBytes(f: Compression, iv: Chain, key: seq<Byte>, i: nat)
    requires i < 64
    ensures BlockKey(f, iv, key)[i] ==
      if |key| <= 64 then (if i < |key| then key[i] else 0) else (if i < 32 then Hash(f, iv, key)[i] else 0)
  {
    hide Hash, Zeros;
  }

  /**
   The keyed hash in terms of its two pad blocks: key bytes against 0x36 in front of the text inside, against
   0x5c in front of the inner hash outside.
   */
  lemma {:induction false} HmacPads(f: Compression, iv: Chain, key: seq<Byte>, text: seq<Byte>)
    returns (block: seq<Byte>, inner: seq<Byte>, outer: seq<Byte>)
    ensures |block| == |inner| == |outer| == 64
    ensures |key| <= 64 ==> forall i :: 0 <= i < 64 ==> block[i] == if i < |key| then key[i] else 0
    ensures |key| > 64 ==> forall i :: 0 <= i < 64 ==> block[i] == if i < 32 then Hash(f, iv, key)[i] else 0
    ensures forall i, j: nat :: 0 <= i < 64 && j < 8 ==>
      (NatBit(inner[i], j) <==> NatBit(block[i], j) != NatBit(0x36, j))
    ensures forall i, j: nat :: 0 <= i < 64 && j < 8 ==>
      (NatBit(outer[i], j) <==> NatBit(block[i], j) != NatBit(0x5c, j))
    ensures Hmac(f, iv, key, text) == Hash(f, iv, outer + Hash(f, iv, inner + text))
  {
    hide Hash, Xor, NatBit;
    block := BlockKey(f, iv, key);
    inner, outer := XorAll(block, 0x36), XorAll(block, 0x5c);
    forall i | 0 <= i < 64
      ensures block[i] ==
        if |key| <= 64 then (if i < |key| then key[i] else 0) else (if i < 32 then Hash(f, iv, key)[i] else 0)
    {
      BlockKeyBytes(f, iv, key, i);
    }
    forall i, j: nat | 0 <= i < 64 && j < 8
      ensures NatBit(inner[i], j) <==> NatBit(block[i], j) != NatBit(0x36, j)
      ensures NatBit(outer[i], j) <==> NatBit(block[i], j) != NatBit(0x5c, j)
    {
      XorBit(block[i], 0x36, j);
      XorBit(block[i], 0x5c, j);
    }
  }

  /** The bits of pad are those of block, inverted where c has ones. */
  ghost predicate PadOf(block: seq<Byte>, pad: seq<Byte>, c: Byte) {
    && |block| == |pad| == 64
    && forall i, j: nat :: 0 <= i < 64 && j < 8 ==> (NatBit(pad[i], j) <==> NatBit(block[i], j) != NatBit(c, j))
  }

  /** The bytes of start, then zeros up to 64. */
  ghost predicate BlockOf(start: seq<Byte>, block: seq<Byte>) {
    |block| == 64 && forall i :: 0 <= i < 64 ==> block[i] == if i < |start| then start[i] else 0
  }

  /** hmac_sha256 for every key length and every text: the outer pad and the hash of the inner pad and the text. */
  method HmacSha256(f: Compression, iv: Chain, key: seq<Byte>, text: seq<Byte>) returns (mac: seq<Byte>)
    ensures mac == Hmac(f, iv, key, text)
    ensures exists block, inner, outer ::
      && BlockOf(if |key| > 64 then Hash(f, iv, key) else key, block)
      && PadOf(block, inner, 0x36) && PadOf(block, outer, 0x5c)
      && mac == Hash(f, iv, outer + Hash(f, iv, inner + text))
  {
    hide Hash, Xor, XorAll, Zeros, NatBit;
    ghost var block, inner, outer := HmacPads(f, iv, key, text);
    assert BlockOf(if |key| > 64 then Hash(f, iv, key) else key, block);
    assert PadOf(block, inner, 0x36) && PadOf(block, outer, 0x5c);
    var ipad := new Byte[64](i => 0);
    var opad := new Byte[64](i => 0);
    var start := key;
    if |key| > 64 {
      start := HashOnce(f, iv, key);
    }
    CopyKey(start, ipad);
    CopyKey(start, opad);
    XorPad(ipad, 0x36);
    XorPad(opad, 0x5c);
    var innerHash := HashInTwo(f, iv, ipad[..], text);
    mac := HashInTwo(f, iv, opad[..], innerHash);
  }

  method HashOnce(f: Compression, iv: Chain, m: seq<Byte>) returns (hash: seq<Byte>)
    ensures hash == Hash(f, iv, m)
  {
    hide Hash, Fold, Hasher.Valid;
    var hasher := new Hasher(f, iv);
    hasher.Update(m);
    hash := hasher.Final();
    assert [] + m == m;
  }

  /** A pad block and then the rest, into one hash. */
  method HashInTwo(f: Compression, iv: Chain, pad: seq<Byte>, rest: seq<Byte>) returns (hash: seq<Byte>)
    ensures hash == Hash(f, iv, pad + rest)
  {
    hide Hash, Fold, Hasher.Valid;
    var hasher := new Hasher(f, iv);
    hasher.Update(pad);
    hasher.Update(rest);
    hash := hasher.Final();
    assert [] + pad + rest == pad + rest;
  }

  method CopyKey(key: seq<Byte>, pad: array<Byte>)
    requires |key| <= 64 && pad.Length == 64 && forall i :: 0 <= i < 64 ==> pad[i] == 0
    modifies pad
    ensures pad[..] == key + Zeros(64 - |key|)
  {
    var i := 0;
    while i < |key|
      invariant 0 <= i <= |key|
      invariant forall k :: 0 <= k < i ==> pad[k] == key[k]
      invariant forall k :: i <= k < 64 ==> pad[k] == 0
    {
      pad[i] := key[i];
      i := i + 1;
    }
  }

  method XorPad(pad: array<Byte>, b: Byte)
    requires pad.Length == 64
    modifies pad
    ensures pad[..] == XorAll(old(pad[..]), b)
  {
    hide Xor;
    var i := 0;
    while i < 64
      invariant 0 <= i <= 64
      invariant forall k :: 0 <= k < i ==> pad[k] == Xor(old(pad[k]), b)
      invariant forall k :: i <= k < 64 ==> pad[k] == old(pad[k])
    {
      pad[i] := Xor(pad[i], b);
      i := i + 1;
    }
  }
}
