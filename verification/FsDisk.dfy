/**
 The home blocks of the disk: where fs.h puts inodes, bitmap and data, what each
 block holds for a given file system, and the `log_write`s that carry one state
 of the file system to the next.
 */
module FsDisk {
  import opened Types
  import opened FsLayout
  import opened FsOwnership
  import LogDisk

  const IPB := 8

  /** base: the blocks as mkfs leaves them, up to the log; it keeps the words that are not modelled. */
  datatype Layout = Layout(ninodes: nat, dataStart: nat, base: LogDisk.Disk)

  /** IBLOCK */
  function InodeBlock(i: nat): (b: nat) {
    i / IPB + 2
  }

  /** BBLOCK */
  function BitmapBlock(l: Layout, b: nat): (r: nat) {
    b / BPB + l.ninodes / IPB + 3
  }

  ghost predicate Fits(l: Layout, fs: Fs) {
    && Shape(fs) && |fs.inodes| <= l.ninodes
    && l.ninodes / IPB + 3 <= l.dataStart <= |l.base| <= |fs.blocks| <= BPB * (l.dataStart - l.ninodes / IPB - 3)
  }

  function Words(b: Block): (r: LogDisk.Block) {
    seq(128, j requires 0 <= j < 128 => Word(b, j))
  }

  function At(bm: seq<byte>, k: nat): (x: byte) {
    if k < |bm| then bm[k] else 0
  }

  /** Four bytes of the bitmap as a word. */
  function BitWord(bm: seq<byte>, w: nat): (x: nat) {
    At(bm, 4 * w) + 256 * At(bm, 4 * w + 1) + 65536 * At(bm, 4 * w + 2) + 16777216 * At(bm, 4 * w + 3)
  }

  function BitWords(bm: seq<byte>, k: nat): (r: LogDisk.Block) {
    seq(128, j requires 0 <= j < 128 => BitWord(bm, 128 * k + j))
  }

  /** Word f of a dinode: its type and links are not modelled, word 2 is the size, the addresses follow. */
  function InodeWord(o: Inode, f: nat): (x: int)
    requires 2 <= f < 16 && |o.addrs| == NDIRECT + 1
  {
    if f == 2 then o.size else o.addrs[f - 3]
  }

  function InodeWords(was: LogDisk.Block, inodes: seq<Inode>, k: nat): (r: LogDisk.Block)
    requires forall i :: 0 <= i < |inodes| ==> |inodes[i].addrs| == NDIRECT + 1
  {
    seq(128, j requires 0 <= j < 128 =>
      if IPB * k + j / 16 < |inodes| && j % 16 >= 2 then InodeWord(inodes[IPB * k + j / 16], j % 16) else was[j])
  }

  /** What block b holds. */
  function Contents(l: Layout, fs: Fs, b: nat): (r: LogDisk.Block)
    requires Fits(l, fs) && b < |fs.blocks|
  {
    if b >= l.dataStart then Words(fs.blocks[b])
    else if b >= BitmapBlock(l, 0) then BitWords(fs.bitmap, b - BitmapBlock(l, 0))
    else if b >= 2 then InodeWords(l.base[b], fs.inodes, b - 2)
    else l.base[b]
  }

  ghost function DiskOf(l: Layout, fs: Fs): (d: LogDisk.Disk)
    requires Fits(l, fs)
    ensures |d| == |l.base|
  {
    seq(|l.base|, b requires 0 <= b < |l.base| => Contents(l, fs, b))
  }

  // ----- log_write -----

  datatype Write = Write(b: nat, v: LogDisk.Block)

  function Put(d: LogDisk.Disk, w: Write): (r: LogDisk.Disk)
    ensures |r| == |d|
  {
    if w.b < |d| then d[w.b := w.v] else d
  }

  /** The home blocks after a list of writes. */
  function Applied(d: LogDisk.Disk, ws: seq<Write>): (r: LogDisk.Disk)
    ensures |r| == |d|
  {
    if ws == [] then d else Put(Applied(d, ws[..|ws| - 1]), ws[|ws| - 1])
  }

  /** The blocks a list of writes goes to. */
  function Blocks(ws: seq<Write>): (s: set<nat>) {
    if ws == [] then {} else Blocks(ws[..|ws| - 1]) + {ws[|ws| - 1].b}
  }

  /** One more block is logged, as it is now. */
  function Logged(l: Layout, fs: Fs, ws: seq<Write>, x: nat): (r: seq<Write>)
    requires Fits(l, fs) && x < |fs.blocks|
    ensures Blocks(r) == Blocks(ws) + {x}
  {
    ws + [Write(x, Contents(l, fs, x))]
  }

  /** The writes ws turn the disk d into that of fs. */
  ghost predicate Accounts(l: Layout, fs: Fs, d: LogDisk.Disk, ws: seq<Write>) {
    Fits(l, fs) && |d| == |l.base| && forall b :: 0 <= b < |l.base| ==> Contents(l, fs, b) == Applied(d, ws)[b]
  }

  lemma AccountsDisk(l: Layout, fs: Fs, d: LogDisk.Disk, ws: seq<Write>)
    requires Accounts(l, fs, d, ws)
    ensures DiskOf(l, fs) == Applied(d, ws)
  {
  }

  /** Only block x differs. */
  ghost predicate OnlyBlock(l: Layout, fs: Fs, fs': Fs, x: nat) {
    && Fits(l, fs) && Fits(l, fs')
    && forall b :: 0 <= b < |l.base| && b != x ==> Contents(l, fs', b) == Contents(l, fs, b)
  }

  /** If only the logged block changed, the log accounts for all that changed. */
  lemma LogStep(l: Layout, fs: Fs, fs': Fs, d: LogDisk.Disk, ws: seq<Write>, x: nat)
    requires OnlyBlock(l, fs, fs', x) && x < |fs'.blocks| && Accounts(l, fs, d, ws)
    ensures Accounts(l, fs', d, Logged(l, fs', ws, x))
  {
    var ws' := Logged(l, fs', ws, x);
    assert ws'[..|ws'| - 1] == ws;
  }

  /** A bitmap that differs in the byte of block b differs in one block of the disk. */
  lemma BitmapOnly(l: Layout, fs: Fs, fs': Fs, b: nat)
    requires Fits(l, fs) && Fits(l, fs') && fs' == fs.(bitmap := fs'.bitmap) && |fs'.bitmap| == |fs.bitmap|
    requires forall k :: 0 <= k < |fs.bitmap| && k != b / 8 ==> fs'.bitmap[k] == fs.bitmap[k]
    ensures OnlyBlock(l, fs, fs', BitmapBlock(l, b))
  {
    forall c | 0 <= c < |l.base| && c != BitmapBlock(l, b) ensures Contents(l, fs', c) == Contents(l, fs, c) {
      if BitmapBlock(l, 0) <= c < l.dataStart {
        BitmapElsewhere(fs.bitmap, fs'.bitmap, b, c - BitmapBlock(l, 0));
      }
    }
  }

  lemma BitmapElsewhere(bm: seq<byte>, bm': seq<byte>, b: nat, k: nat)
    requires |bm'| == |bm| && k != b / BPB
    requires forall y :: 0 <= y < |bm| && y != b / 8 ==> bm'[y] == bm[y]
    ensures BitWords(bm', k) == BitWords(bm, k)
  {
    forall j | 0 <= j < 128 ensures BitWords(bm', k)[j] == BitWords(bm, k)[j] {
      BitWordElsewhere(bm, bm', b, 128 * k + j);
    }
  }

  lemma BitWordElsewhere(bm: seq<byte>, bm': seq<byte>, b: nat, w: nat)
    requires |bm'| == |bm| && w / 128 != b / BPB
    requires forall y :: 0 <= y < |bm| && y != b / 8 ==> bm'[y] == bm[y]
    ensures BitWord(bm', w) == BitWord(bm, w)
  {
  }

  lemma DataOnly(l: Layout, fs: Fs, fs': Fs, b: nat, v: Block)
    requires Fits(l, fs) && Fits(l, fs') && l.dataStart <= b < |fs.blocks| && fs' == fs.(blocks := fs.blocks[b := v])
    ensures OnlyBlock(l, fs, fs', b)
  {
  }

  lemma InodeOnly(l: Layout, fs: Fs, fs': Fs, i: nat, o: Inode)
    requires Fits(l, fs) && Fits(l, fs') && i < |fs.inodes| && fs' == fs.(inodes := fs.inodes[i := o])
    ensures OnlyBlock(l, fs, fs', InodeBlock(i)) && InodeBlock(i) < BitmapBlock(l, 0)
  {
    forall c | 0 <= c < |l.base| && c != InodeBlock(i) ensures Contents(l, fs', c) == Contents(l, fs, c) {
      if 2 <= c < BitmapBlock(l, 0) && c < l.dataStart {
        assert forall j :: 0 <= j < 128 ==> IPB * (c - 2) + j / 16 != i;
      }
    }
  }

  // ----- The format of the disk -----

  lemma BitWordBit(bm: seq<byte>, w: nat, k: nat)
    requires k < 32
    ensures Test(BitWord(bm, w), k) <==> Test(At(bm, 4 * w + k / 8), k % 8)
  {
    TestWord(At(bm, 4 * w), At(bm, 4 * w + 1), At(bm, 4 * w + 2), At(bm, 4 * w + 3), k);
  }

  /** Bit k of word w of the bitmap on the disk is that of block 32 * w + k. */
  lemma BitmapOnDisk(l: Layout, fs: Fs, w: nat, k: nat)
    requires Fits(l, fs) && k < 32 && 32 * w + k < |fs.blocks|
    ensures l.ninodes / 8 + 3 + w / 128 < l.dataStart
    ensures var word := DiskOf(l, fs)[l.ninodes / 8 + 3 + w / 128][w % 128];
            word >= 0 && (Test(word, k) <==> Bit(fs.bitmap, 32 * w + k))
  {
    BitmapRoom(l, fs, w, k);
    BitmapWord(l, fs, w);
    BitWordBit(fs.bitmap, w, k);
    assert (32 * w + k) / 8 == 4 * w + k / 8 && (32 * w + k) % 8 == k % 8;
  }

  lemma BitmapWord(l: Layout, fs: Fs, w: nat)
    requires Fits(l, fs) && l.ninodes / 8 + 3 + w / 128 < l.dataStart
    ensures DiskOf(l, fs)[l.ninodes / 8 + 3 + w / 128][w % 128] == BitWord(fs.bitmap, w)
  {
    var c := w / 128;
    assert DiskOf(l, fs)[l.ninodes / 8 + 3 + c] == BitWords(fs.bitmap, c);
    assert 128 * c + w % 128 == w;
  }

  lemma BitmapRoom(l: Layout, fs: Fs, w: nat, k: nat)
    requires Fits(l, fs) && k < 32 && 32 * w + k < |fs.blocks|
    ensures l.ninodes / 8 + 3 + w / 128 < l.dataStart
  {
    var c, m := w / 128, l.dataStart - l.ninodes / 8 - 3;
    assert 4096 * c <= 32 * w < 4096 * m;
  }

  /** A dinode is sixteen words: the third is the size, and the addresses follow. */
  lemma InodeOnDisk(l: Layout, fs: Fs, i: nat)
    requires Fits(l, fs) && i < |fs.inodes|
    ensures i / 8 + 2 < l.dataStart
    ensures var words := DiskOf(l, fs)[i / 8 + 2];
            && words[16 * (i % 8) + 2] == fs.inodes[i].size
            && forall a :: 0 <= a < NDIRECT + 1 ==> words[16 * (i % 8) + (3 + a)] == fs.inodes[i].addrs[a]
  {
    var c := i / 8 + 2;
    var words := InodeWords(l.base[c], fs.inodes, c - 2);
    assert DiskOf(l, fs)[c] == words;
    forall f | 2 <= f < 16 ensures words[16 * (i % 8) + f] == InodeWord(fs.inodes[i], f) {
      assert (16 * (i % 8) + f) / 16 == i % 8 && (16 * (i % 8) + f) % 16 == f && IPB * (c - 2) + i % 8 == i;
    }
    assert words[16 * (i % 8) + 2] == InodeWord(fs.inodes[i], 2);
    forall a | 0 <= a < NDIRECT + 1 ensures words[16 * (i % 8) + (3 + a)] == fs.inodes[i].addrs[a] {
      assert words[16 * (i % 8) + (3 + a)] == InodeWord(fs.inodes[i], 3 + a);
    }
  }

  /** A data block is on the disk bit by bit. */
  lemma DataOnDisk(l: Layout, fs: Fs, b: nat, j: nat, k: nat)
    requires Fits(l, fs) && l.dataStart <= b < |l.base| && j < 128 && k < 32
    ensures var word := DiskOf(l, fs)[b][j];
            word >= 0 && (Test(word, k) <==> Test(fs.blocks[b][4 * j + k / 8], k % 8))
  {
    assert DiskOf(l, fs)[b] == Words(fs.blocks[b]);
    WordBits(fs.blocks[b], j, k);
  }

  /** fs and fs' agree on which blocks are in use. */
  ghost predicate SameBits(fs: Fs, fs': Fs)
    requires Shape(fs) && Shape(fs')
  {
    forall b :: 0 <= b < |fs.blocks| && b < |fs'.blocks| ==> (Bit(fs.bitmap, b) <==> Bit(fs'.bitmap, b))
  }

  /** The home blocks determine the whole bitmap, wherever the log is. */
  lemma DiskBits(l: Layout, fs: Fs, fs': Fs)
    requires Fits(l, fs) && Fits(l, fs') && DiskOf(l, fs) == DiskOf(l, fs')
    ensures SameBits(fs, fs')
  {
    forall b | 0 <= b < |fs.blocks| && b < |fs'.blocks| ensures Bit(fs.bitmap, b) <==> Bit(fs'.bitmap, b) {
      var w, k := b / 32, b % 32;
      assert b == 32 * w + k;
      BitmapOnDisk(l, fs, w, k);
      BitmapOnDisk(l, fs', w, k);
    }
  }

  // ----- What the disk says about the files -----

  /** A word determines its four bytes. */
  lemma SameWord(b: Block, b': Block, j: nat)
    requires j < NINDIRECT && Word(b, j) == Word(b', j)
    ensures forall o :: 4 * j <= o < 4 * j + 4 ==> b[o] == b'[o]
  {
    var x0: int, x1: int, x2: int, x3: int := b[4 * j], b[4 * j + 1], b[4 * j + 2], b[4 * j + 3];
    var y0: int, y1: int, y2: int, y3: int := b'[4 * j], b'[4 * j + 1], b'[4 * j + 2], b'[4 * j + 3];
    assert x0 == y0 && x1 == y1 && x2 == y2 && x3 == y3;
    forall o | 4 * j <= o < 4 * j + 4 ensures b[o] == b'[o] {
      assert o == 4 * j || o == 4 * j + 1 || o == 4 * j + 2 || o == 4 * j + 3;
    }
  }

  lemma SameWords(b: Block, b': Block)
    requires Words(b) == Words(b')
    ensures b == b'
  {
    forall o | 0 <= o < 512 ensures b[o] == b'[o] {
      var j := o / 4;
      assert Words(b)[j] == Words(b')[j];
      SameWord(b, b', j);
    }
  }

  lemma SameInode(l: Layout, fs: Fs, fs': Fs, i: nat)
    requires Fits(l, fs) && Fits(l, fs') && DiskOf(l, fs) == DiskOf(l, fs') && i < |fs.inodes| && i < |fs'.inodes|
    ensures fs.inodes[i] == fs'.inodes[i]
  {
    InodeOnDisk(l, fs, i);
    InodeOnDisk(l, fs', i);
    var words := DiskOf(l, fs)[i / 8 + 2];
    forall a | 0 <= a < NDIRECT + 1 ensures fs.inodes[i].addrs[a] == fs'.inodes[i].addrs[a] {
      assert words[16 * (i % 8) + (3 + a)] == fs.inodes[i].addrs[a];
    }
  }

  lemma SameBlock(l: Layout, fs: Fs, fs': Fs, b: nat)
    requires Fits(l, fs) && Fits(l, fs') && DiskOf(l, fs) == DiskOf(l, fs') && l.dataStart <= b < |l.base|
    ensures fs.blocks[b] == fs'.blocks[b]
  {
    assert Contents(l, fs, b) == DiskOf(l, fs)[b] && Contents(l, fs', b) == DiskOf(l, fs')[b];
    SameWords(fs.blocks[b], fs'.blocks[b]);
  }

  /** No file has a block in the log. */
  ghost predicate BelowLog(l: Layout, fs: Fs)
    requires Shape(fs)
  {
    forall p :: IsPlace(fs, p) ==> Ref(fs, p) < |l.base|
  }

  /** That is so exactly as long as no block from the log on is marked in the bitmap. */
  lemma BelowLogIff(l: Layout, fs: Fs)
    requires Owned(fs, l.dataStart) && NoLeak(fs, l.dataStart) && Fits(l, fs)
    ensures BelowLog(l, fs) <==> forall b :: |l.base| <= b < |fs.blocks| ==> !Bit(fs.bitmap, b)
  {
    if BelowLog(l, fs) {
      forall b | |l.base| <= b < |fs.blocks| ensures !Bit(fs.bitmap, b) {
        assert !Referenced(fs, b);
      }
    }
  }

  /** If no file has a block in the log, the home blocks determine every reference and every byte of every file. */
  lemma DiskDetermines(l: Layout, fs: Fs, fs': Fs)
    requires Owned(fs, l.dataStart) && Owned(fs', l.dataStart) && Fits(l, fs) && Fits(l, fs')
    requires |fs.inodes| == |fs'.inodes|
    requires BelowLog(l, fs) && DiskOf(l, fs) == DiskOf(l, fs')
    ensures fs.inodes == fs'.inodes && SameRefs(fs, fs') && SameBytes(fs, fs') && SameBits(fs, fs')
  {
    DiskBits(l, fs, fs');
    forall i | 0 <= i < |fs.inodes| ensures fs.inodes[i] == fs'.inodes[i] {
      SameInode(l, fs, fs', i);
    }
    forall p | IsPlace(fs, p) ensures Ref(fs', p) == Ref(fs, p) {
      var q := Indirect(p.i);
      assert IsPlace(fs, q) && IsPlace(fs', q);
      if p.Entry? && Ref(fs, q) != 0 {
        SameBlock(l, fs, fs', Ref(fs, q));
      }
    }
    forall i, o | 0 <= i < |fs.inodes| && 0 <= o < MAXFILE * BSIZE ensures Byte(fs', i, o) == Byte(fs, i, o) {
      var p := DataPlace(i, o / BSIZE);
      assert IsPlace(fs, p);
      if Ref(fs, p) != 0 {
        SameBlock(l, fs, fs', Ref(fs, p));
      }
    }
  }

  // ----- Reading files off the raw disk -----

  /** Byte o of a block of words, which are little-endian. */
  function RawByte(words: LogDisk.Block, o: nat): (x: int)
    requires o < 512
  {
    var w, k := words[o / 4], o % 4;
    if k == 0 then w % 256 else if k == 1 then w / 256 % 256 else if k == 2 then w / 65536 % 256 else w / 16777216
  }

  lemma RawByteOf(b: Block, o: nat)
    requires o < 512
    ensures RawByte(Words(b), o) == b[o]
  {
    var j := o / 4;
    var x0: int, x1: int, x2: int, x3: int := b[4 * j], b[4 * j + 1], b[4 * j + 2], b[4 * j + 3];
    var w := Word(b, j);
    assert Words(b)[j] == w;
    assert w % 256 == x0 && w / 256 == x1 + 256 * x2 + 65536 * x3;
    assert w / 65536 == x2 + 256 * x3 && w / 16777216 == x3;
    assert o == 4 * j + o % 4;
  }

  /** The number of block bn of file i, as the words of the dinode and of the block it names in its last one say. */
  ghost function RawAddr(d: LogDisk.Disk, i: nat, bn: nat): (a: int)
    requires i / 8 + 2 < |d| && bn < 140
  {
    var dinode, at := d[i / 8 + 2], 16 * (i % 8) + 3;
    if bn < 12 then dinode[at + bn]
    else if 0 < dinode[at + 12] < |d| then d[dinode[at + 12]][bn - 12]
    else 0
  }

  ghost function RawFileByte(d: LogDisk.Disk, i: nat, o: nat): (x: int)
    requires i / 8 + 2 < |d| && o < 140 * 512
  {
    var a := RawAddr(d, i, o / 512);
    if 0 < a < |d| then RawByte(d[a], o % 512) else 0
  }

  lemma RawRef(l: Layout, fs: Fs, i: nat, bn: nat)
    requires Owned(fs, l.dataStart) && Fits(l, fs) && BelowLog(l, fs) && i < |fs.inodes| && bn < 140
    ensures i / 8 + 2 < l.dataStart && IsPlace(fs, DataPlace(i, bn))
    ensures RawAddr(DiskOf(l, fs), i, bn) == Ref(fs, DataPlace(i, bn))
  {
    InodeOnDisk(l, fs, i);
    var d, q := DiskOf(l, fs), Indirect(i);
    assert d[i / 8 + 2][16 * (i % 8) + (3 + 12)] == fs.inodes[i].addrs[12];
    if bn < 12 {
      assert d[i / 8 + 2][16 * (i % 8) + (3 + bn)] == fs.inodes[i].addrs[bn];
    } else if Ref(fs, q) != 0 {
      assert IsPlace(fs, q);
      assert d[Ref(fs, q)] == Words(fs.blocks[Ref(fs, q)]);
    }
  }

  /** Whoever reads the home blocks by the format finds every byte of every file, unless one has a block in the log. */
  lemma FileOnDisk(l: Layout, fs: Fs, i: nat, o: nat)
    requires Owned(fs, l.dataStart) && Fits(l, fs) && BelowLog(l, fs) && i < |fs.inodes| && o < 140 * 512
    ensures i / 8 + 2 < l.dataStart && RawFileByte(DiskOf(l, fs), i, o) == Byte(fs, i, o)
  {
    RawRef(l, fs, i, o / 512);
    var a := Ref(fs, DataPlace(i, o / 512));
    if a != 0 {
      assert DiskOf(l, fs)[a] == Words(fs.blocks[a]);
      RawByteOf(fs.blocks[a], o % 512);
    }
  }
}
