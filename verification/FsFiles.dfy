/**
 Files as flat byte sequences, and what mapping a block, storing into it,
 setting a size and truncating do to all of them.
 */
module FsFiles {
  import opened Types
  import opened FsLayout
  import opened FsOwnership

  function Min(a: nat, b: nat): nat {
    if a < b then a else b
  }

  /** Block bn is allocated exactly if it holds some of the first `size` bytes. */
  ghost predicate DenseAt(fs: Fs, i: nat, size: nat, bn: nat)
    requires Shape(fs) && i < |fs.inodes| && bn < MAXFILE
  {
    Ref(fs, DataPlace(i, bn)) != 0 <==> bn * BSIZE < size
  }

  /** Exactly the blocks below the first `size` bytes are allocated, and the indirect block if it is needed. */
  ghost predicate DenseTo(fs: Fs, i: nat, size: nat)
    requires Shape(fs) && i < |fs.inodes|
  {
    && (forall bn {:trigger DenseAt(fs, i, size, bn)} :: 0 <= bn < MAXFILE ==> DenseAt(fs, i, size, bn))
    && (Ref(fs, Indirect(i)) != 0 <==> NDIRECT * BSIZE < size)
  }

  ghost predicate Dense(fs: Fs) {
    && Shape(fs)
    && (forall i :: 0 <= i < |fs.inodes| ==> fs.inodes[i].size <= MAXFILE * BSIZE)
    && forall i {:trigger DenseTo(fs, i, fs.inodes[i].size)} ::
         0 <= i < |fs.inodes| ==> DenseTo(fs, i, fs.inodes[i].size)
  }

  /** A file as the flat byte sequence its users see. */
  ghost function Content(fs: Fs, i: nat): (s: seq<byte>)
    requires Shape(fs) && i < |fs.inodes| && fs.inodes[i].size <= MAXFILE * BSIZE
    ensures |s| == fs.inodes[i].size
  {
    seq(fs.inodes[i].size, o requires 0 <= o < fs.inodes[i].size => Byte(fs, i, o))
  }

  /** All files. */
  ghost function Files(fs: Fs): (files: seq<seq<byte>>)
    requires Dense(fs)
    ensures |files| == |fs.inodes|
  {
    seq(|fs.inodes|, j requires 0 <= j < |fs.inodes| => Content(fs, j))
  }

  ghost predicate Full(fs: Fs) {
    Shape(fs) && forall b :: 0 <= b < |fs.blocks| ==> Bit(fs.bitmap, b)
  }

  ghost predicate LowestFree(fs: Fs, r: nat) {
    && Shape(fs) && r < |fs.blocks| && !Bit(fs.bitmap, r)
    && forall b :: 0 <= b < r ==> Bit(fs.bitmap, b)
  }

  function AddrPlace(i: nat, k: nat): (p: Place) {
    if k < NDIRECT then Direct(i, k) else Indirect(i)
  }

  /** Only inode i changed, and not its size. */
  ghost predicate SameSizes(was: Fs, now: Fs, i: nat) {
    && |now.inodes| == |was.inodes|
    && forall j :: 0 <= j < |was.inodes| ==>
         now.inodes[j].size == was.inodes[j].size && (j != i ==> now.inodes[j] == was.inodes[j])
  }

  /** Place p has a block, new only if it was empty; nothing else is referred to differently and no file changed. */
  ghost predicate Grown(was: Fs, now: Fs, dataStart: nat, p: Place) {
    && Owned(was, dataStart) && Owned(now, dataStart) && NoLeak(now, dataStart)
    && IsPlace(was, p) && SameSizes(was, now, p.i) && SameBytes(was, now)
    && Ref(now, p) != 0
    && (forall q :: IsPlace(was, q) && q != p ==> Ref(now, q) == Ref(was, q))
    && (Ref(was, p) != 0 ==> now == was)
  }

  /** The same for block bn of file i, where the indirect block may be new as well. */
  ghost predicate Mapped(was: Fs, now: Fs, dataStart: nat, i: nat, bn: nat) {
    && Owned(was, dataStart) && Owned(now, dataStart) && NoLeak(now, dataStart)
    && i < |was.inodes| && bn < MAXFILE && SameSizes(was, now, i) && SameBytes(was, now)
    && Ref(now, DataPlace(i, bn)) != 0
    && (forall q :: IsPlace(was, q) && q != DataPlace(i, bn) && q != Indirect(i) ==> Ref(now, q) == Ref(was, q))
    && (bn < NDIRECT || Ref(was, Indirect(i)) != 0 ==> Ref(now, Indirect(i)) == Ref(was, Indirect(i)))
    && (bn >= NDIRECT ==> Ref(now, Indirect(i)) != 0)
    && (Ref(was, DataPlace(i, bn)) != 0 ==> now == was)
  }

  lemma GrownOnce(was: Fs, now: Fs, dataStart: nat, i: nat, bn: nat)
    requires bn < NDIRECT && Grown(was, now, dataStart, Direct(i, bn))
    ensures Mapped(was, now, dataStart, i, bn)
  {
    assert IsPlace(was, Indirect(i));
  }

  lemma GrownTwice(was: Fs, mid: Fs, now: Fs, dataStart: nat, i: nat, bn: nat)
    requires NDIRECT <= bn < MAXFILE
    requires Grown(was, mid, dataStart, Indirect(i))
    requires Grown(mid, now, dataStart, Entry(i, bn - NDIRECT))
    ensures Mapped(was, now, dataStart, i, bn)
  {
    assert forall q :: IsPlace(was, q) <==> IsPlace(mid, q);
    assert IsPlace(was, Indirect(i)) && IsPlace(was, Entry(i, bn - NDIRECT));
    forall j, o | 0 <= j < |was.inodes| && 0 <= o < MAXFILE * BSIZE ensures Byte(now, j, o) == Byte(was, j, o) {
      assert Byte(mid, j, o) == Byte(was, j, o);
    }
  }

  // ----- writei -----

  /** The sum of two uints, and the test for its overflow. */
  lemma WrappedSum(a: nat, b: nat)
    requires a < UINT && b < UINT
    ensures (a + b) % UINT < a <==> a + b >= UINT
    ensures a + b < UINT ==> (a + b) % UINT == a + b
  {
  }

  /** How much of n bytes at off the block of off takes. */
  function PieceSize(off: nat, n: nat): (m: nat)
    requires n > 0
    ensures 0 < m <= n && m <= BSIZE - off % BSIZE
    ensures (off + m - 1) / BSIZE == off / BSIZE && (m < n ==> (off + m) / BSIZE == off / BSIZE + 1)
  {
    Min(n, BSIZE - off % BSIZE)
  }

  function Max(a: nat, b: nat): nat {
    if a < b then b else a
  }

  /** s with src over it from off on, extended if src reaches past its end. */
  function Spliced(s: seq<byte>, off: nat, src: seq<byte>): (r: seq<byte>)
    requires off <= |s|
    ensures |r| == Max(|s|, off + |src|)
  {
    s[..off] + src + (if off + |src| < |s| then s[off + |src|..] else [])
  }

  /** The first tot bytes of src are in place at off, and every other byte of every file is as it was. */
  ghost predicate Wrote(was: Fs, now: Fs, i: nat, off: nat, src: seq<byte>, tot: nat)
    requires Shape(was) && Shape(now) && |now.inodes| == |was.inodes| && tot <= |src|
  {
    forall j, o :: 0 <= j < |was.inodes| && 0 <= o < MAXFILE * BSIZE ==>
      Byte(now, j, o) == if j == i && off <= o < off + tot then src[o - off] else Byte(was, j, o)
  }

  ghost predicate OthersKept(was: Fs, now: Fs, i: nat)
    requires Shape(was) && Shape(now) && |now.inodes| == |was.inodes|
  {
    forall q :: IsPlace(was, q) && q.i != i ==> Ref(now, q) == Ref(was, q)
  }

  /** `writei` after tot bytes, with blocks allocated up to offset top. */
  ghost predicate Progress(was: Fs, now: Fs, dataStart: nat, i: nat, off: nat, src: seq<byte>, tot: nat, top: nat) {
    && Owned(was, dataStart) && Owned(now, dataStart) && NoLeak(now, dataStart)
    && i < |was.inodes| && SameSizes(was, now, i) && tot <= |src|
    && OthersKept(was, now, i)
    && Wrote(was, now, i, off, src, tot)
    && DenseTo(now, i, Max(was.inodes[i].size, top))
    && (top <= was.inodes[i].size ==> now.inodes == was.inodes)
  }

  lemma ProgressStart(fs: Fs, dataStart: nat, i: nat, off: nat, src: seq<byte>)
    requires Owned(fs, dataStart) && NoLeak(fs, dataStart) && Dense(fs) && i < |fs.inodes| && off <= fs.inodes[i].size
    ensures Progress(fs, fs, dataStart, i, off, src, 0, off)
  {
    assert DenseTo(fs, i, fs.inodes[i].size);
  }

  lemma DenseStep(fs: Fs, fs': Fs, dataStart: nat, i: nat, size: nat, cur: nat, m: nat)
    requires cur < MAXFILE * BSIZE && 1 <= m <= BSIZE - cur % BSIZE
    requires Mapped(fs, fs', dataStart, i, cur / BSIZE)
    requires DenseTo(fs, i, Max(size, cur)) && cur <= Max(size, cur)
    ensures DenseTo(fs', i, Max(size, cur + m))
  {
    var bn, size' := cur / BSIZE, Max(size, cur + m);
    assert cur == bn * BSIZE + cur % BSIZE;
    forall k | 0 <= k < MAXFILE ensures DenseAt(fs', i, size', k) {
      assert DenseAt(fs, i, Max(size, cur), k);
      assert IsPlace(fs, DataPlace(i, k)) && (k != bn ==> DataPlace(i, k) != DataPlace(i, bn));
    }
    assert IsPlace(fs, Indirect(i));
  }

  /** The buffer `writei` logs: m bytes of src copied into it at the offset. */
  function Patched(data: Block, at: nat, src: seq<byte>): (r: Block)
    requires at + |src| <= BSIZE
  {
    data[..at] + src + data[at + |src|..]
  }

  lemma MapBytes(was: Fs, now: Fs, mid: Fs, i: nat, off: nat, src: seq<byte>, tot: nat)
    requires Shape(was) && Shape(now) && Shape(mid) && |was.inodes| == |now.inodes| && tot <= |src|
    requires Wrote(was, now, i, off, src, tot) && SameBytes(now, mid)
    ensures Wrote(was, mid, i, off, src, tot)
  {
    forall j, o | 0 <= j < |was.inodes| && 0 <= o < MAXFILE * BSIZE
      ensures Byte(mid, j, o) == if j == i && off <= o < off + tot then src[o - off] else Byte(was, j, o)
    {
      assert Byte(mid, j, o) == Byte(now, j, o);
    }
  }

  lemma MapStep(was: Fs, now: Fs, mid: Fs, dataStart: nat, i: nat, off: nat, src: seq<byte>, tot: nat, tot': nat,
                cur: nat, bn: nat)
    requires Progress(was, now, dataStart, i, off, src, tot, cur) && cur == off + tot && bn == cur / BSIZE
    requires cur < MAXFILE * BSIZE && tot < tot' && tot' - tot <= BSIZE - cur % BSIZE
    requires Mapped(now, mid, dataStart, i, bn)
    ensures Progress(was, mid, dataStart, i, off, src, tot, off + tot')
  {
    DenseStep(now, mid, dataStart, i, was.inodes[i].size, cur, tot' - tot);
    MapBytes(was, now, mid, i, off, src, tot);
    assert OthersKept(was, mid, i) by {
      assert forall q :: IsPlace(was, q) ==> IsPlace(now, q);
    }
    if off + tot' <= was.inodes[i].size {
      assert bn * BSIZE < Max(was.inodes[i].size, cur);
      assert DenseAt(now, i, Max(was.inodes[i].size, cur), bn);
    }
  }

  lemma StoreBytes(was: Fs, mid: Fs, dataStart: nat, i: nat, off: nat, src: seq<byte>, tot: nat, tot': nat, cur: nat,
                   bn: nat, a: nat)
    requires Shape(was) && Owned(mid, dataStart) && |was.inodes| == |mid.inodes| && i < |was.inodes|
    requires cur == off + tot && bn == cur / BSIZE && cur < MAXFILE * BSIZE
    requires tot < tot' <= |src| && tot' - tot <= BSIZE - cur % BSIZE
    requires Wrote(was, mid, i, off, src, tot)
    requires a == Ref(mid, DataPlace(i, bn)) && 0 < a < |mid.blocks|
    ensures var fs' := FsOwnership.Fs(mid.bitmap,
                                      mid.blocks[a := Patched(mid.blocks[a], cur % BSIZE, src[tot..tot'])],
                                      mid.inodes);
            Owned(fs', dataStart) && SameRefs(mid, fs') && Wrote(was, fs', i, off, src, tot')
  {
    var data := Patched(mid.blocks[a], cur % BSIZE, src[tot..tot']);
    var fs' := FsOwnership.Fs(mid.bitmap, mid.blocks[a := data], mid.inodes);
    StoreBlock(mid, dataStart, i, bn, data);
    forall j, o | 0 <= j < |was.inodes| && 0 <= o < MAXFILE * BSIZE
      ensures Byte(fs', j, o) == if j == i && off <= o < off + tot' then src[o - off] else Byte(was, j, o)
    {
      if j == i && o / BSIZE == bn {
        assert Byte(mid, j, o) == mid.blocks[a][o % BSIZE];
        PatchedAt(mid.blocks[a], cur % BSIZE, src[tot..tot'], o % BSIZE);
      }
    }
  }

  lemma StoreStep(was: Fs, mid: Fs, dataStart: nat, i: nat, off: nat, src: seq<byte>, tot: nat, tot': nat, cur: nat,
                  bn: nat, a: nat)
    requires Progress(was, mid, dataStart, i, off, src, tot, off + tot')
    requires cur == off + tot && bn == cur / BSIZE && cur < MAXFILE * BSIZE
    requires tot < tot' <= |src| && tot' - tot <= BSIZE - cur % BSIZE
    requires a == Ref(mid, DataPlace(i, bn)) && 0 < a < |mid.blocks|
    ensures Progress(was, FsOwnership.Fs(mid.bitmap,
                                         mid.blocks[a := Patched(mid.blocks[a], cur % BSIZE, src[tot..tot'])],
                                         mid.inodes),
                     dataStart, i, off, src, tot', off + tot')
  {
    var data := Patched(mid.blocks[a], cur % BSIZE, src[tot..tot']);
    var fs' := FsOwnership.Fs(mid.bitmap, mid.blocks[a := data], mid.inodes);
    StoreBytes(was, mid, dataStart, i, off, src, tot, tot', cur, bn, a);
    StoredRefs(mid, fs', dataStart, i, Max(was.inodes[i].size, off + tot'));
    assert OthersKept(was, fs', i) by {
      assert forall q :: IsPlace(was, q) ==> IsPlace(mid, q);
    }
  }

  /** One pass of the loop in `writei`, at offset cur in block bn: map the block, copy into it. */
  lemma BlockStep(was: Fs, now: Fs, mid: Fs, dataStart: nat, i: nat, off: nat, src: seq<byte>, tot: nat, tot': nat,
                  cur: nat, bn: nat, a: nat)
    requires Progress(was, now, dataStart, i, off, src, tot, cur) && cur == off + tot && bn == cur / BSIZE
    requires cur < MAXFILE * BSIZE && tot < tot' <= |src| && tot' - tot <= BSIZE - cur % BSIZE
    requires Mapped(now, mid, dataStart, i, bn) && a == Ref(mid, DataPlace(i, bn))
    ensures 0 < a < |mid.blocks|
    ensures Progress(was, FsOwnership.Fs(mid.bitmap,
                                         mid.blocks[a := Patched(mid.blocks[a], cur % BSIZE, src[tot..tot'])],
                                         mid.inodes),
                     dataStart, i, off, src, tot', off + tot')
  {
    MapStep(was, now, mid, dataStart, i, off, src, tot, tot', cur, bn);
    assert IsPlace(mid, DataPlace(i, bn));
    StoreStep(was, mid, dataStart, i, off, src, tot, tot', cur, bn, a);
  }

  lemma PatchedAt(data: Block, at: nat, src: seq<byte>, k: nat)
    requires at + |src| <= BSIZE && k < BSIZE
    ensures Patched(data, at, src)[k] == if at <= k < at + |src| then src[k - at] else data[k]
  {
  }

  lemma StoredRefs(fs: Fs, fs': Fs, dataStart: nat, i: nat, size: nat)
    requires Owned(fs, dataStart) && Owned(fs', dataStart) && SameRefs(fs, fs') && NoLeak(fs, dataStart)
    requires i < |fs.inodes| && DenseTo(fs, i, size) && fs'.bitmap == fs.bitmap && |fs'.blocks| == |fs.blocks|
    ensures NoLeak(fs', dataStart) && DenseTo(fs', i, size)
  {
    forall b | dataStart <= b < |fs'.blocks| && Bit(fs'.bitmap, b) ensures Referenced(fs', b) {
      assert Referenced(fs, b);
      var p :| IsPlace(fs, p) && Ref(fs, p) == b;
      assert IsPlace(fs', p) && Ref(fs', p) == b;
    }
    forall k | 0 <= k < MAXFILE ensures DenseAt(fs', i, size, k) {
      assert IsPlace(fs, DataPlace(i, k)) && DenseAt(fs, i, size, k);
    }
    assert IsPlace(fs, Indirect(i));
  }

  /** Storing into a data block leaves every block with its one owner. */
  lemma StoreSound(mid: Fs, dataStart: nat, i: nat, bn: nat, data: Block)
    requires Owned(mid, dataStart) && NoLeak(mid, dataStart) && i < |mid.inodes| && bn < MAXFILE
    requires 0 < Ref(mid, DataPlace(i, bn)) < |mid.blocks|
    ensures var fs' := FsOwnership.Fs(mid.bitmap, mid.blocks[Ref(mid, DataPlace(i, bn)) := data], mid.inodes);
            Owned(fs', dataStart) && NoLeak(fs', dataStart)
  {
    var fs' := FsOwnership.Fs(mid.bitmap, mid.blocks[Ref(mid, DataPlace(i, bn)) := data], mid.inodes);
    StoreBlock(mid, dataStart, i, bn, data);
    forall b | dataStart <= b < |fs'.blocks| && Bit(fs'.bitmap, b) ensures Referenced(fs', b) {
      assert Referenced(mid, b);
      var p :| IsPlace(mid, p) && Ref(mid, p) == b;
      assert IsPlace(fs', p) && Ref(fs', p) == b;
    }
  }

  lemma SliceJoin(s: seq<byte>, a: nat, b: nat, c: nat)
    requires a <= b <= c <= |s|
    ensures s[a..b] + s[b..c] == s[a..c]
  {
  }

  /** One buffer's worth of a file. */
  lemma ReadPiece(fs: Fs, i: nat, off: nat, m: nat)
    requires Dense(fs) && i < |fs.inodes| && off + m <= fs.inodes[i].size && m <= BSIZE - off % BSIZE && m > 0
    requires 0 < Ref(fs, DataPlace(i, off / BSIZE)) < |fs.blocks|
    ensures fs.blocks[Ref(fs, DataPlace(i, off / BSIZE))][off % BSIZE..off % BSIZE + m] == Content(fs, i)[off..off + m]
  {
    var a := Ref(fs, DataPlace(i, off / BSIZE));
    var piece := Content(fs, i)[off..off + m];
    forall k | 0 <= k < m ensures piece[k] == fs.blocks[a][off % BSIZE + k] {
      assert (off + k) / BSIZE == off / BSIZE && (off + k) % BSIZE == off % BSIZE + k;
    }
  }

  ghost function Resized(fs: Fs, i: nat, size: nat): (fs': Fs)
    requires Shape(fs) && i < |fs.inodes|
    ensures Shape(fs')
  {
    FsOwnership.Fs(fs.bitmap, fs.blocks, fs.inodes[i := Inode(fs.inodes[i].addrs, size)])
  }

  lemma ResizeKeeps(fs: Fs, dataStart: nat, i: nat, size: nat)
    requires Owned(fs, dataStart) && NoLeak(fs, dataStart) && i < |fs.inodes|
    ensures Owned(Resized(fs, i, size), dataStart) && NoLeak(Resized(fs, i, size), dataStart)
    ensures SameRefs(fs, Resized(fs, i, size)) && SameBytes(fs, Resized(fs, i, size))
  {
    var fs' := Resized(fs, i, size);
    assert forall p :: IsPlace(fs, p) ==> IsPlace(fs', p) && Ref(fs', p) == Ref(fs, p);
    ApartKept(fs, fs', dataStart);
    forall b | dataStart <= b < |fs'.blocks| && Bit(fs'.bitmap, b) ensures Referenced(fs', b) {
      assert Referenced(fs, b);
      var p :| IsPlace(fs, p) && Ref(fs, p) == b;
      assert IsPlace(fs', p) && Ref(fs', p) == b;
    }
    forall j, o | 0 <= j < |fs.inodes| && 0 <= o < MAXFILE * BSIZE ensures Byte(fs', j, o) == Byte(fs, j, o) {
      assert IsPlace(fs, DataPlace(j, o / BSIZE));
    }
  }

  /** Once the size is brought up to date, the write is a splice of the flat file and nothing else. */
  ghost predicate Finished(was: Fs, now: Fs, dataStart: nat, i: nat, off: nat, src: seq<byte>)
    requires Dense(was) && Shape(now) && i < |was.inodes| && off <= was.inodes[i].size && off + |src| <= MAXFILE * BSIZE
  {
    && SameSizes(was, now, i) && (off + |src| <= was.inodes[i].size ==> now.inodes == was.inodes)
    && var fs' := Resized(now, i, Max(was.inodes[i].size, off + |src|));
       && Owned(fs', dataStart) && NoLeak(fs', dataStart) && Dense(fs')
       && Files(fs') == Files(was)[i := Spliced(Files(was)[i], off, src)]
  }

  lemma WriteDone(was: Fs, now: Fs, dataStart: nat, i: nat, off: nat, src: seq<byte>)
    requires Dense(was) && Progress(was, now, dataStart, i, off, src, |src|, off + |src|)
    requires off <= was.inodes[i].size && off + |src| <= MAXFILE * BSIZE
    ensures Finished(was, now, dataStart, i, off, src)
  {
    var size := Max(was.inodes[i].size, off + |src|);
    var fs' := Resized(now, i, size);
    ResizeKeeps(now, dataStart, i, size);
    forall j | 0 <= j < |fs'.inodes| ensures DenseTo(fs', j, fs'.inodes[j].size) {
      DenseKept(was, now, fs', i, j, fs'.inodes[j].size);
    }
    WriteContents(was, now, fs', i, off, src);
    assert Files(fs') == Files(was)[i := Spliced(Files(was)[i], off, src)];
  }

  lemma DenseKept(was: Fs, now: Fs, fs': Fs, i: nat, j: nat, size: nat)
    requires Shape(was) && Shape(now) && Shape(fs') && |was.inodes| == |now.inodes| == |fs'.inodes|
    requires j < |was.inodes| && i < |was.inodes|
    requires SameRefs(now, fs') && OthersKept(was, now, i)
    requires if j == i then DenseTo(now, i, size) else DenseTo(was, j, size)
    ensures DenseTo(fs', j, size)
  {
    forall k | 0 <= k < MAXFILE ensures DenseAt(fs', j, size, k) {
      assert IsPlace(was, DataPlace(j, k)) && IsPlace(now, DataPlace(j, k));
      assert if j == i then DenseAt(now, i, size, k) else DenseAt(was, j, size, k);
    }
    assert IsPlace(was, Indirect(j)) && IsPlace(now, Indirect(j));
  }

  lemma SplicedAt(s: seq<byte>, off: nat, src: seq<byte>, o: nat)
    requires off <= |s| && o < Max(|s|, off + |src|)
    ensures Spliced(s, off, src)[o] == if off <= o < off + |src| then src[o - off] else s[o]
  {
  }

  lemma WriteContents(was: Fs, now: Fs, fs': Fs, i: nat, off: nat, src: seq<byte>)
    requires Dense(was) && Shape(now) && Shape(fs') && |was.inodes| == |now.inodes| == |fs'.inodes|
    requires i < |was.inodes| && off <= was.inodes[i].size && off + |src| <= MAXFILE * BSIZE
    requires fs'.inodes[i].size == Max(was.inodes[i].size, off + |src|)
    requires forall j :: 0 <= j < |was.inodes| && j != i ==> fs'.inodes[j].size == was.inodes[j].size
    requires Wrote(was, now, i, off, src, |src|) && SameBytes(now, fs')
    ensures Content(fs', i) == Spliced(Content(was, i), off, src)
    ensures forall j :: 0 <= j < |was.inodes| && j != i ==>
              fs'.inodes[j].size <= MAXFILE * BSIZE && Content(fs', j) == Content(was, j)
  {
    MapBytes(was, now, fs', i, off, src, |src|);
    var want := Spliced(Content(was, i), off, src);
    forall o | 0 <= o < fs'.inodes[i].size ensures Content(fs', i)[o] == want[o] {
      assert Content(fs', i)[o] == Byte(fs', i, o);
      SplicedAt(Content(was, i), off, src, o);
    }
    forall j | 0 <= j < |was.inodes| && j != i ensures Content(fs', j) == Content(was, j) {
      assert forall o :: 0 <= o < was.inodes[j].size ==> Content(fs', j)[o] == Content(was, j)[o];
    }
  }

  lemma TruncatedContents(was: Fs, now: Fs, i: nat)
    requires Dense(was) && Shape(now) && i < |was.inodes| == |now.inodes| && now.inodes[i].size == 0
    requires forall j :: 0 <= j < |was.inodes| && j != i ==> now.inodes[j] == was.inodes[j]
    requires forall p :: IsPlace(was, p) ==> Ref(now, p) == if p.i == i then 0 else Ref(was, p)
    requires forall j, o :: 0 <= j < |was.inodes| && j != i && 0 <= o < MAXFILE * BSIZE ==>
               Byte(now, j, o) == Byte(was, j, o)
    ensures Dense(now)
    ensures forall j :: 0 <= j < |was.inodes| && j != i ==> Content(now, j) == Content(was, j)
  {
    forall j | 0 <= j < |now.inodes| ensures DenseTo(now, j, now.inodes[j].size) {
      assert IsPlace(was, Indirect(j)) && (j != i ==> DenseTo(was, j, was.inodes[j].size));
      forall bn | 0 <= bn < MAXFILE ensures DenseAt(now, j, now.inodes[j].size, bn) {
        assert IsPlace(was, DataPlace(j, bn)) && (j != i ==> DenseAt(was, j, was.inodes[j].size, bn));
      }
    }
    forall j | 0 <= j < |was.inodes| && j != i ensures Content(now, j) == Content(was, j) {
      assert forall o :: 0 <= o < was.inodes[j].size ==> Content(now, j)[o] == Content(was, j)[o];
    }
  }

  lemma TruncateDone(was: Fs, dataStart: nat, i: nat, bitmap: seq<byte>)
    requires Owned(was, dataStart) && NoLeak(was, dataStart) && Dense(was) && i < |was.inodes|
    requires FreedTo(was, i, MAXFILE + 1, bitmap)
    ensures var fs' := Emptied(was, i, bitmap);
            && Owned(fs', dataStart) && NoLeak(fs', dataStart) && Dense(fs')
            && Files(fs') == Files(was)[i := []]
            && (forall b :: 0 <= b < |was.blocks| ==> (Bit(bitmap, b) <==> Bit(was.bitmap, b) && !OwnedBy(was, i, b)))
  {
    FreedAll(was, i, bitmap);
    Truncate(was, dataStart, i, bitmap);
    TruncatedContents(was, Emptied(was, i, bitmap), i);
    assert Files(Emptied(was, i, bitmap)) == Files(was)[i := []];
  }

  // ----- filewrite -----

  lemma SpliceTwice(s: seq<byte>, off: nat, a: seq<byte>, b: seq<byte>)
    requires off <= |s|
    ensures Spliced(Spliced(s, off, a), off + |a|, b) == Spliced(s, off, a + b)
  {
  }

  lemma SpliceChunk(s: seq<byte>, off: nat, addr: seq<byte>, k: nat, n: nat)
    requires off <= |s| && k + n <= |addr|
    ensures Spliced(Spliced(s, off, addr[..k]), off + k, addr[k..k + n]) == Spliced(s, off, addr[..k + n])
  {
    SpliceTwice(s, off, addr[..k], addr[k..k + n]);
    assert addr[..k] + addr[k..k + n] == addr[..k + n];
  }

  lemma SameBit(b: nat, bi: nat)
    requires b % 8 == 0
    ensures (b + bi) % 8 == bi % 8
  {
    assert b + bi == 8 * (b / 8 + bi / 8) + bi % 8;
  }

  /** The files once the first k bytes of addr have been written at off. */
  ghost predicate WrittenTo(was: seq<seq<byte>>, now: seq<seq<byte>>, i: nat, off: nat, addr: seq<byte>, k: nat)
    requires i < |was| && k <= |addr|
  {
    if off <= |was[i]| then now == was[i := Spliced(was[i], off, addr[..k])] else k == 0 && now == was
  }

  /** A file that can be written at off can be written behind what was put there. */
  lemma WrittenSize(was: seq<seq<byte>>, now: seq<seq<byte>>, i: nat, off: nat, addr: seq<byte>, k: nat)
    requires i < |was| && k <= |addr| && WrittenTo(was, now, i, off, addr, k)
    ensures |now| == |was| && (off + k <= |now[i]| <==> off <= |was[i]|)
  {
  }

  lemma WrittenNext(was: seq<seq<byte>>, now: seq<seq<byte>>, i: nat, off: nat, addr: seq<byte>, k: nat, n: nat)
    requires i < |was| && k + n <= |addr| && off <= |was[i]| && WrittenTo(was, now, i, off, addr, k)
    requires off + k <= |now[i]|
    ensures WrittenTo(was, now[i := Spliced(now[i], off + k, addr[k..k + n])], i, off, addr, k + n)
  {
    SpliceChunk(was[i], off, addr, k, n);
  }
}
