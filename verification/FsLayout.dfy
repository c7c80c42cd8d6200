/**
 Bytes, words and bits of the on-disk format: little-endian 32-bit block
 numbers inside a 512-byte indirect block, and the free bitmap.
 */
module FsLayout {
  import opened Types

  const BSIZE := 512
  const NDIRECT := 12
  const NINDIRECT := 128
  const MAXFILE := NDIRECT + NINDIRECT
  const BPB := BSIZE * 8

  type Block = b: seq<byte> | |b| == 512 witness seq(512, _ => 0)

  /** A block after `bzero`. */
  function Zeros(): (b: Block)
    ensures forall i :: 0 <= i < BSIZE ==> b[i] == 0
  {
    seq(512, _ => 0)
  }

  /** `((uint*)bp->data)[j]` */
  function Word(b: Block, j: nat): (w: nat)
    requires j < NINDIRECT
    ensures w < UINT
  {
    var x0: int, x1: int, x2: int, x3: int := b[4 * j], b[4 * j + 1], b[4 * j + 2], b[4 * j + 3];
    x0 + 256 * x1 + 65536 * x2 + 16777216 * x3
  }

  function SetWord(b: Block, j: nat, w: nat): (b': Block)
    requires j < NINDIRECT && w < UINT
  {
    b[4 * j := w % 256][4 * j + 1 := w / 256 % 256][4 * j + 2 := w / 65536 % 256][4 * j + 3 := w / 16777216]
  }

  /** The four bytes of a word. */
  lemma WordBytes(w: nat)
    ensures w == w % 256 + 256 * (w / 256 % 256) + 65536 * (w / 65536 % 256) + 16777216 * (w / 16777216)
  {
    var q1 := w / 256;
    var q2 := q1 / 256;
    assert w / 65536 == q2 && w / 16777216 == q2 / 256;
    assert w == 256 * q1 + w % 256 && q1 == 256 * q2 + q1 % 256 && q2 == 256 * (q2 / 256) + q2 % 256;
  }

  /** Words are little-endian. */
  lemma WordBits(b: Block, j: nat, k: nat)
    requires j < NINDIRECT && k < 32
    ensures Test(Word(b, j), k) <==> Test(b[4 * j + k / 8], k % 8)
  {
    TestWord(b[4 * j], b[4 * j + 1], b[4 * j + 2], b[4 * j + 3], k);
  }

  lemma SetWordBytes(b: Block, j: nat, w: nat, k: nat)
    requires j < NINDIRECT && w < UINT && k < NINDIRECT && k != j
    ensures forall o :: 4 * k <= o < 4 * k + 4 ==> SetWord(b, j, w)[o] == b[o]
  {
  }

  /** Writing one word changes that word and no other. */
  lemma SetWordOnly(b: Block, j: nat, w: nat)
    requires j < NINDIRECT && w < UINT
    ensures Word(SetWord(b, j, w), j) == w
    ensures forall k :: 0 <= k < NINDIRECT && k != j ==> Word(SetWord(b, j, w), k) == Word(b, k)
  {
    WordBytes(w);
    forall k | 0 <= k < NINDIRECT && k != j ensures Word(SetWord(b, j, w), k) == Word(b, k) {
      SetWordBytes(b, j, w, k);
    }
  }

  /** Bit k of x: `x & (1 << k)` is not zero. */
  predicate Test(x: nat, k: nat) {
    if k == 0 then x % 2 == 1 else Test(x / 2, k - 1)
  }

  function Pow2(n: nat): (p: nat)
    ensures p >= 1
  {
    if n == 0 then 1 else 2 * Pow2(n - 1)
  }

  /** The low n bits of a number, and the ones above them. */
  lemma {:induction false} TestJoined(x: nat, y: nat, n: nat, k: nat)
    requires x < Pow2(n)
    ensures Test(x + Pow2(n) * y, k) <==> if k < n then Test(x, k) else Test(y, k - n)
  {
    if n > 0 {
      var all, half := x + Pow2(n) * y, Pow2(n - 1) * y;
      assert Pow2(n) * y == 2 * half;
      assert all == 2 * (x / 2 + half) + x % 2;
      if k > 0 {
        TestJoined(x / 2, y, n - 1, k - 1);
      }
    }
  }

  lemma TestByte(x: byte, y: nat, k: nat)
    ensures Test(x + 256 * y, k) <==> if k < 8 then Test(x, k) else Test(y, k - 8)
  {
    assert Pow2(8) == 256;
    TestJoined(x, y, 8, k);
  }

  /** Bit k of four bytes read as a word, the first one lowest. */
  lemma TestWord(x0: byte, x1: byte, x2: byte, x3: byte, k: nat)
    requires k < 32
    ensures Test(x0 + 256 * x1 + 65536 * x2 + 16777216 * x3, k)
            <==> Test(if k < 8 then x0 else if k < 16 then x1 else if k < 24 then x2 else x3, k % 8)
  {
    var y2 := x2 + 256 * x3;
    var y1 := x1 + 256 * y2;
    assert x0 + 256 * x1 + 65536 * x2 + 16777216 * x3 == x0 + 256 * y1;
    TestByte(x0, y1, k);
    if k >= 8 {
      TestByte(x1, y2, k - 8);
    }
    if k >= 16 {
      TestByte(x2, x3, k - 16);
    }
  }

  /** `x | (1 << k)` */
  function Or(x: nat, k: nat): (y: nat) {
    if k == 0 then 2 * (x / 2) + 1 else 2 * Or(x / 2, k - 1) + x % 2
  }

  lemma {:induction false} OrBelow(x: nat, k: nat, n: nat)
    requires k < n && x < Pow2(n)
    ensures Or(x, k) < Pow2(n)
  {
    var half, p := x / 2, Pow2(n - 1);
    assert Pow2(n) == 2 * p && half < p;
    if k > 0 {
      OrBelow(half, k - 1, n - 1);
    }
  }

  /** Setting a bit of a byte leaves a byte. */
  lemma OrByte(x: byte, k: nat)
    requires k < 8
    ensures Or(x, k) < 256
  {
    assert Pow2(8) == 256;
    OrBelow(x, k, 8);
  }

  /** `x & ~(1 << k)` */
  function AndNot(x: nat, k: nat): (y: nat)
    ensures y <= x
  {
    if k == 0 then 2 * (x / 2) else 2 * AndNot(x / 2, k - 1) + x % 2
  }

  lemma {:induction false} OrAndNot(x: nat, j: nat, k: nat)
    ensures Test(Or(x, j), k) <==> j == k || Test(x, k)
    ensures Test(AndNot(x, j), k) <==> j != k && Test(x, k)
  {
    if j > 0 {
      assert Or(x, j) / 2 == Or(x / 2, j - 1) && AndNot(x, j) / 2 == AndNot(x / 2, j - 1);
      if k > 0 {
        OrAndNot(x / 2, j - 1, k - 1);
      }
    }
  }

  /** Is the bit for block b set? */
  function Bit(bm: seq<byte>, b: nat): (used: bool)
    requires b / 8 < |bm|
  {
    Test(bm[b / 8], b % 8)
  }

  function SetBit(bm: seq<byte>, b: nat): (bm': seq<byte>)
    requires b / 8 < |bm|
  {
    OrByte(bm[b / 8], b % 8);
    bm[b / 8 := Or(bm[b / 8], b % 8)]
  }

  function ClearBit(bm: seq<byte>, b: nat): (bm': seq<byte>)
    requires b / 8 < |bm|
  {
    bm[b / 8 := AndNot(bm[b / 8], b % 8)]
  }

  /** Marking a block changes its own bit only, within a byte and across bytes. */
  lemma BitsIndependent(bm: seq<byte>, b: nat, c: nat)
    requires b / 8 < |bm| && c / 8 < |bm|
    ensures Bit(SetBit(bm, b), c) <==> b == c || Bit(bm, c)
    ensures Bit(ClearBit(bm, b), c) <==> b != c && Bit(bm, c)
  {
    if b / 8 == c / 8 {
      OrAndNot(bm[b / 8], b % 8, c % 8);
      assert b % 8 == c % 8 ==> b == c;
    }
  }
}
