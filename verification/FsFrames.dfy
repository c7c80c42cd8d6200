/**
 What one change of one block, one inode or one bitmap bit does to every file and
 to the ownership of blocks, while some blocks are in the hands of operations:
 marked in the bitmap, but not yet, or no longer, part of a file.
 */
module FsFrames {
  import opened Types
  import opened FsLayout
  import opened FsOwnership
  import opened FsFiles

  /** File j has the same inode, the same references and the same bytes. */
  ghost predicate SameFile(fs: Fs, fs': Fs, j: nat)
    requires Shape(fs) && Shape(fs')
  {
    && j < |fs.inodes| && j < |fs'.inodes| && fs'.inodes[j] == fs.inodes[j]
    && (forall p :: IsPlace(fs, p) && p.i == j ==> Ref(fs', p) == Ref(fs, p))
    && (forall o :: 0 <= o < MAXFILE * BSIZE ==> Byte(fs', j, o) == Byte(fs, j, o))
  }

  /** All files but i are the same. */
  ghost predicate OnlyFile(fs: Fs, fs': Fs, i: nat)
    requires Shape(fs) && Shape(fs')
  {
    |fs'.inodes| == |fs.inodes| && forall j :: 0 <= j < |fs.inodes| && j != i ==> SameFile(fs, fs', j)
  }

  ghost predicate SameFiles(fs: Fs, fs': Fs)
    requires Shape(fs) && Shape(fs')
  {
    |fs'.inodes| == |fs.inodes| && forall j :: 0 <= j < |fs.inodes| ==> SameFile(fs, fs', j)
  }

  lemma SameFilesFrom(fs: Fs, fs': Fs)
    requires Shape(fs) && Shape(fs') && fs'.inodes == fs.inodes && SameRefs(fs, fs') && SameBytes(fs, fs')
    ensures SameFiles(fs, fs')
  {
    forall j | 0 <= j < |fs.inodes| ensures SameFile(fs, fs', j) {
    }
  }

  lemma SameDense(fs: Fs, fs': Fs, j: nat, size: nat)
    requires Shape(fs) && Shape(fs') && SameFile(fs, fs', j) && DenseTo(fs, j, size)
    ensures DenseTo(fs', j, size)
  {
    forall bn | 0 <= bn < MAXFILE ensures DenseAt(fs', j, size, bn) {
      assert IsPlace(fs, DataPlace(j, bn)) && DenseAt(fs, j, size, bn);
    }
    assert IsPlace(fs, Indirect(j));
  }

  lemma SameContent(fs: Fs, fs': Fs, j: nat)
    requires Shape(fs) && Shape(fs') && SameFile(fs, fs', j) && fs.inodes[j].size <= MAXFILE * BSIZE
    ensures Content(fs', j) == Content(fs, j)
  {
    assert forall o :: 0 <= o < fs.inodes[j].size ==> Content(fs', j)[o] == Content(fs, j)[o];
  }

  // ----- Ownership with blocks in hand -----

  /** Blocks in hand are marked data blocks of no file. */
  ghost predicate HandsOk(fs: Fs, dataStart: nat, hands: set<nat>)
    requires Shape(fs)
  {
    forall b :: b in hands ==> dataStart <= b < |fs.blocks| && Bit(fs.bitmap, b) && !Referenced(fs, b)
  }

  /** Every marked data block belongs to a file or is in hand. */
  ghost predicate Tracked(fs: Fs, dataStart: nat, hands: set<nat>)
    requires Shape(fs)
  {
    forall b {:trigger Referenced(fs, b)} ::
      dataStart <= b < |fs.blocks| && Bit(fs.bitmap, b) ==> Referenced(fs, b) || b in hands
  }

  ghost predicate Kept(fs: Fs, dataStart: nat, hands: set<nat>) {
    Owned(fs, dataStart) && HandsOk(fs, dataStart, hands) && Tracked(fs, dataStart, hands)
  }

  /** With nothing in hand nothing is lost. */
  lemma KeptNoLeak(fs: Fs, dataStart: nat)
    requires Owned(fs, dataStart)
    ensures Kept(fs, dataStart, {}) <==> NoLeak(fs, dataStart)
  {
  }

  lemma SameReferenced(fs: Fs, fs': Fs, b: nat)
    requires Shape(fs) && Shape(fs') && SameRefs(fs, fs')
    ensures Referenced(fs', b) <==> Referenced(fs, b)
  {
    if Referenced(fs, b) {
      var p :| IsPlace(fs, p) && Ref(fs, p) == b;
      assert IsPlace(fs', p) && Ref(fs', p) == b;
    }
    if Referenced(fs', b) {
      var p :| IsPlace(fs', p) && Ref(fs', p) == b;
      assert IsPlace(fs, p) && Ref(fs, p) == b;
    }
  }

  /** References and bitmap being the same, so is ownership. */
  lemma KeptSame(fs: Fs, fs': Fs, dataStart: nat, hands: set<nat>)
    requires Kept(fs, dataStart, hands) && Shape(fs') && SameRefs(fs, fs')
    requires fs'.bitmap == fs.bitmap && |fs'.blocks| == |fs.blocks|
    ensures Kept(fs', dataStart, hands)
  {
    forall b ensures Referenced(fs', b) <==> Referenced(fs, b) {
      SameReferenced(fs, fs', b);
    }
    forall p | IsPlace(fs', p) && Ref(fs', p) != 0
      ensures dataStart <= Ref(fs', p) < |fs'.blocks| && Bit(fs'.bitmap, Ref(fs', p))
    {
      assert IsPlace(fs, p);
    }
    ApartKept(fs, fs', dataStart);
  }

  /** The first half of `balloc`: a free block is marked, and is in hand. */
  lemma MarkStep(fs: Fs, dataStart: nat, hands: set<nat>, r: nat)
    requires Kept(fs, dataStart, hands) && r < |fs.blocks| && !Bit(fs.bitmap, r)
    ensures var fs' := fs.(bitmap := SetBit(fs.bitmap, r));
      Shape(fs') && Kept(fs', dataStart, hands + {r}) && SameFiles(fs, fs') && r !in hands && dataStart <= r
  {
    var fs' := fs.(bitmap := SetBit(fs.bitmap, r));
    assert SameRefs(fs, fs') && SameBytes(fs, fs');
    SameFilesFrom(fs, fs');
    forall b | 0 <= b < |fs.blocks| ensures Bit(fs'.bitmap, b) <==> b == r || Bit(fs.bitmap, b) {
      BitsIndependent(fs.bitmap, r, b);
    }
    forall b ensures Referenced(fs', b) <==> Referenced(fs, b) {
      SameReferenced(fs, fs', b);
    }
    ApartKept(fs, fs', dataStart);
  }

  /** `bfree` of a block in hand. */
  lemma UnmarkStep(fs: Fs, dataStart: nat, hands: set<nat>, b: nat)
    requires Kept(fs, dataStart, hands) && b in hands
    ensures var fs' := fs.(bitmap := ClearBit(fs.bitmap, b));
      Shape(fs') && Kept(fs', dataStart, hands - {b}) && SameFiles(fs, fs')
  {
    var fs' := fs.(bitmap := ClearBit(fs.bitmap, b));
    assert SameRefs(fs, fs') && SameBytes(fs, fs');
    SameFilesFrom(fs, fs');
    forall c | 0 <= c < |fs.blocks| ensures Bit(fs'.bitmap, c) <==> c != b && Bit(fs.bitmap, c) {
      BitsIndependent(fs.bitmap, b, c);
    }
    forall c ensures Referenced(fs', c) <==> Referenced(fs, c) {
      SameReferenced(fs, fs', c);
    }
    ApartKept(fs, fs', dataStart);
    forall p | IsPlace(fs', p) && Ref(fs', p) != 0 ensures Ref(fs', p) != b {
      assert IsPlace(fs, p);
    }
  }

  /** The second half of `balloc`: what a block in hand holds is nobody's business. */
  lemma HandStore(fs: Fs, dataStart: nat, hands: set<nat>, r: nat, data: Block)
    requires Kept(fs, dataStart, hands) && r in hands
    ensures var fs' := fs.(blocks := fs.blocks[r := data]);
      Shape(fs') && Kept(fs', dataStart, hands) && SameFiles(fs, fs')
  {
    var fs' := fs.(blocks := fs.blocks[r := data]);
    forall p | IsPlace(fs, p) ensures Ref(fs', p) == Ref(fs, p) && Ref(fs, p) != r {
      assert IsPlace(fs, Indirect(p.i)) && Ref(fs, Indirect(p.i)) != r;
    }
    forall i, o | 0 <= i < |fs.inodes| && 0 <= o < MAXFILE * BSIZE ensures Byte(fs', i, o) == Byte(fs, i, o) {
      assert IsPlace(fs, DataPlace(i, o / BSIZE));
    }
    SameFilesFrom(fs, fs');
    KeptSame(fs, fs', dataStart, hands);
  }

  /** Linking a zeroed block in hand into a file. */
  lemma LinkStep(fs: Fs, dataStart: nat, hands: set<nat>, p: Place, r: nat)
    requires Kept(fs, dataStart, hands) && r in hands && fs.blocks[r] == Zeros()
    requires IsPlace(fs, p) && Ref(fs, p) == 0 && (p.Entry? ==> Ref(fs, Indirect(p.i)) != 0)
    ensures CanLink(fs, dataStart, p, r) && (p.Entry? ==> 0 < fs.inodes[p.i].addrs[NDIRECT] < |fs.blocks|)
    ensures var fs' := Linked(fs, p, r);
      && Kept(fs', dataStart, hands - {r}) && OnlyFile(fs, fs', p.i) && SameBytes(fs, fs')
      && forall q :: IsPlace(fs, q) ==> Ref(fs', q) == if q == p then r else Ref(fs, q)
  {
    LinkFresh(fs, dataStart, p, r);
    var fs' := Linked(fs, p, r);
    assert |fs'.inodes| == |fs.inodes| && forall q :: IsPlace(fs', q) <==> IsPlace(fs, q);
    forall b | b != r && b != 0 ensures Referenced(fs', b) <==> Referenced(fs, b) {
      LinkReferenced(fs, fs', p, r, b);
    }
    assert Referenced(fs', r) by {
      assert IsPlace(fs', p) && Ref(fs', p) == r;
    }
    forall j | 0 <= j < |fs.inodes| && j != p.i ensures SameFile(fs, fs', j) {
    }
  }

  lemma LinkReferenced(fs: Fs, fs': Fs, p: Place, r: nat, b: nat)
    requires Shape(fs) && Shape(fs') && |fs'.inodes| == |fs.inodes| && b != r && b != 0
    requires IsPlace(fs, p) && Ref(fs, p) == 0
    requires forall q :: IsPlace(fs, q) ==> Ref(fs', q) == if q == p then r else Ref(fs, q)
    ensures Referenced(fs', b) <==> Referenced(fs, b)
  {
    if Referenced(fs, b) {
      var q :| IsPlace(fs, q) && Ref(fs, q) == b;
      assert IsPlace(fs', q) && Ref(fs', q) == b;
    }
    if Referenced(fs', b) {
      var q :| IsPlace(fs', q) && Ref(fs', q) == b;
      assert IsPlace(fs, q) && Ref(fs, q) == b;
    }
  }

  /** Storing into a block of file i. */
  lemma FileStore(fs: Fs, dataStart: nat, hands: set<nat>, i: nat, bn: nat, data: Block)
    requires Kept(fs, dataStart, hands) && i < |fs.inodes| && bn < MAXFILE && Ref(fs, DataPlace(i, bn)) != 0
    ensures dataStart <= Ref(fs, DataPlace(i, bn)) < |fs.blocks| && Ref(fs, DataPlace(i, bn)) !in hands
    ensures var fs' := fs.(blocks := fs.blocks[Ref(fs, DataPlace(i, bn)) := data]);
      && Shape(fs') && Kept(fs', dataStart, hands) && OnlyFile(fs, fs', i) && SameRefs(fs, fs')
      && forall o :: 0 <= o < MAXFILE * BSIZE ==>
           Byte(fs', i, o) == if o / BSIZE == bn then data[o % BSIZE] else Byte(fs, i, o)
  {
    assert IsPlace(fs, DataPlace(i, bn)) && Referenced(fs, Ref(fs, DataPlace(i, bn)));
    StoreBlock(fs, dataStart, i, bn, data);
    var fs' := fs.(blocks := fs.blocks[Ref(fs, DataPlace(i, bn)) := data]);
    KeptSame(fs, fs', dataStart, hands);
    forall j | 0 <= j < |fs.inodes| && j != i ensures SameFile(fs, fs', j) {
    }
  }

  /** Setting a size. */
  lemma SizeStep(fs: Fs, dataStart: nat, hands: set<nat>, i: nat, size: nat)
    requires Kept(fs, dataStart, hands) && i < |fs.inodes|
    ensures var fs' := Resized(fs, i, size);
      Kept(fs', dataStart, hands) && OnlyFile(fs, fs', i) && SameRefs(fs, fs') && SameBytes(fs, fs')
  {
    var fs' := Resized(fs, i, size);
    assert forall p :: IsPlace(fs, p) ==> IsPlace(fs', p) && Ref(fs', p) == Ref(fs, p);
    forall j, o | 0 <= j < |fs.inodes| && 0 <= o < MAXFILE * BSIZE ensures Byte(fs', j, o) == Byte(fs, j, o) {
      assert IsPlace(fs, DataPlace(j, o / BSIZE));
    }
    KeptSame(fs, fs', dataStart, hands);
    forall j | 0 <= j < |fs.inodes| && j != i ensures SameFile(fs, fs', j) {
    }
  }

  /** The blocks of file i. */
  ghost function BlocksOf(fs: Fs, i: nat): (s: set<nat>)
    requires Shape(fs)
  {
    set b: nat | b < |fs.blocks| && OwnedBy(fs, i, b)
  }

  /** An operation that truncates file i takes all its blocks in hand. */
  lemma SeizeStep(fs: Fs, dataStart: nat, hands: set<nat>, i: nat)
    requires Kept(fs, dataStart, hands) && i < |fs.inodes|
    ensures var fs' := Emptied(fs, i, fs.bitmap);
      && Kept(fs', dataStart, hands + BlocksOf(fs, i)) && OnlyFile(fs, fs', i) && hands !! BlocksOf(fs, i)
      && forall p :: IsPlace(fs, p) && p.i == i ==> Ref(fs', p) == 0
  {
    var fs', mine := Emptied(fs, i, fs.bitmap), BlocksOf(fs, i);
    assert forall p :: IsPlace(fs, p) ==> IsPlace(fs', p) && Ref(fs', p) == if p.i == i then 0 else Ref(fs, p);
    forall p, q | IsPlace(fs', p) && IsPlace(fs', q) ensures Apart(fs', p, q) {
      assert IsPlace(fs, p) && IsPlace(fs, q) && Apart(fs, p, q);
    }
    forall b | 0 < b < |fs.blocks| ensures Referenced(fs', b) <==> Referenced(fs, b) && b !in mine {
      SeizedReferenced(fs, fs', dataStart, i, b);
    }
    forall j | 0 <= j < |fs.inodes| && j != i ensures SameFile(fs, fs', j) {
      forall o | 0 <= o < MAXFILE * BSIZE ensures Byte(fs', j, o) == Byte(fs, j, o) {
        assert IsPlace(fs, DataPlace(j, o / BSIZE));
      }
    }
  }

  lemma SeizedReferenced(fs: Fs, fs': Fs, dataStart: nat, i: nat, b: nat)
    requires Owned(fs, dataStart) && Shape(fs') && |fs'.inodes| == |fs.inodes| && i < |fs.inodes| && 0 < b < |fs.blocks|
    requires forall p :: IsPlace(fs, p) ==> Ref(fs', p) == if p.i == i then 0 else Ref(fs, p)
    ensures Referenced(fs', b) <==> Referenced(fs, b) && !OwnedBy(fs, i, b)
    ensures OwnedBy(fs, i, b) ==> Referenced(fs, b) && dataStart <= b && Bit(fs.bitmap, b)
  {
    if OwnedBy(fs, i, b) {
      var p :| IsPlace(fs, p) && p.i == i && Ref(fs, p) == b;
      forall q | IsPlace(fs', q) ensures Ref(fs', q) != b {
        assert IsPlace(fs, q) && Apart(fs, p, q);
      }
    } else if Referenced(fs, b) {
      var p :| IsPlace(fs, p) && Ref(fs, p) == b;
      assert IsPlace(fs', p) && Ref(fs', p) == b;
    }
    if Referenced(fs', b) {
      var p :| IsPlace(fs', p) && Ref(fs', p) == b;
      assert IsPlace(fs, p) && Ref(fs, p) == b;
    }
  }

  // ----- One file while it is being written -----

  /** Blocks are allocated as for the first size bytes, but for block bn, which may be new, and the indirect block that
      it may need. */
  ghost predicate Partly(fs: Fs, i: nat, size: nat, bn: nat)
    requires Shape(fs) && i < |fs.inodes| && bn < MAXFILE
  {
    && (forall k {:trigger DenseAt(fs, i, size, k)} :: 0 <= k < MAXFILE && k != bn ==> DenseAt(fs, i, size, k))
    && (bn * BSIZE < size ==> Ref(fs, DataPlace(i, bn)) != 0)
    && (NDIRECT * BSIZE < size ==> Ref(fs, Indirect(i)) != 0)
    && (Ref(fs, Indirect(i)) != 0 ==> NDIRECT * BSIZE < size || bn >= NDIRECT)
  }

  lemma DensePartly(fs: Fs, i: nat, size: nat, bn: nat)
    requires Shape(fs) && i < |fs.inodes| && bn < MAXFILE && DenseTo(fs, i, size)
    ensures Partly(fs, i, size, bn)
  {
    assert DenseAt(fs, i, size, bn);
  }

  lemma SamePartly(fs: Fs, fs': Fs, i: nat, size: nat, bn: nat)
    requires Shape(fs) && Shape(fs') && i < |fs.inodes| && |fs'.inodes| == |fs.inodes| && bn < MAXFILE
    requires forall p :: IsPlace(fs, p) && p.i == i ==> Ref(fs', p) == Ref(fs, p)
    requires Partly(fs, i, size, bn)
    ensures Partly(fs', i, size, bn)
  {
    forall k | 0 <= k < MAXFILE && k != bn ensures DenseAt(fs', i, size, k) {
      assert IsPlace(fs, DataPlace(i, k)) && DenseAt(fs, i, size, k);
    }
    assert IsPlace(fs, Indirect(i)) && IsPlace(fs, DataPlace(i, bn));
  }

  /** Linking the indirect block or block bn itself. */
  lemma LinkPartly(fs: Fs, fs': Fs, i: nat, size: nat, bn: nat, p: Place, r: nat)
    requires Shape(fs) && Shape(fs') && i < |fs.inodes| && |fs'.inodes| == |fs.inodes| && bn < MAXFILE && r != 0
    requires forall q :: IsPlace(fs, q) ==> Ref(fs', q) == if q == p then r else Ref(fs, q)
    requires p == DataPlace(i, bn) || (p == Indirect(i) && bn >= NDIRECT)
    requires Partly(fs, i, size, bn)
    ensures Partly(fs', i, size, bn)
  {
    forall k | 0 <= k < MAXFILE && k != bn ensures DenseAt(fs', i, size, k) {
      assert IsPlace(fs, DataPlace(i, k)) && DenseAt(fs, i, size, k) && DataPlace(i, k) != p;
    }
    assert IsPlace(fs, Indirect(i)) && IsPlace(fs, DataPlace(i, bn));
  }

  /** With block bn there, and m bytes written into it at cur, the file is dense up to them. */
  lemma PartlyDense(fs: Fs, i: nat, size: nat, cur: nat, bn: nat, m: nat)
    requires Shape(fs) && i < |fs.inodes| && bn < MAXFILE && bn == cur / BSIZE && 1 <= m <= BSIZE - cur % BSIZE
    requires Partly(fs, i, Max(size, cur), bn) && Ref(fs, DataPlace(i, bn)) != 0
    ensures DenseTo(fs, i, Max(size, cur + m))
  {
    var top := Max(size, cur + m);
    assert cur == bn * BSIZE + cur % BSIZE;
    forall k | 0 <= k < MAXFILE ensures DenseAt(fs, i, top, k) {
      assert k != bn ==> DenseAt(fs, i, Max(size, cur), k);
    }
    assert bn >= NDIRECT ==> Ref(fs, Indirect(i)) != 0;
  }

  /** The first tot bytes of src are in place at off, and every other byte of the file is as in was. */
  ghost predicate Written(fs: Fs, i: nat, off: nat, src: seq<byte>, tot: nat, was: seq<byte>)
    requires Shape(fs) && i < |fs.inodes| && tot <= |src| && |was| == MAXFILE * BSIZE
  {
    forall o :: 0 <= o < MAXFILE * BSIZE ==> Byte(fs, i, o) == if off <= o < off + tot then src[o - off] else was[o]
  }

  lemma WrittenSame(fs: Fs, fs': Fs, i: nat, off: nat, src: seq<byte>, tot: nat, was: seq<byte>)
    requires Shape(fs) && Shape(fs') && i < |fs.inodes| && i < |fs'.inodes| && tot <= |src| && |was| == MAXFILE * BSIZE
    requires forall o :: 0 <= o < MAXFILE * BSIZE ==> Byte(fs', i, o) == Byte(fs, i, o)
    requires Written(fs, i, off, src, tot, was)
    ensures Written(fs', i, off, src, tot, was)
  {
  }

  /** One pass: the next piece of src is copied into its block, whose number is a. */
  lemma PieceWritten(fs: Fs, fs': Fs, i: nat, off: nat, src: seq<byte>, tot: nat, tot': nat, was: seq<byte>,
                     bn: nat, a: nat)
    requires Shape(fs) && Shape(fs') && i < |fs.inodes| && i < |fs'.inodes| && |was| == MAXFILE * BSIZE
    requires tot < tot' <= |src| && bn == (off + tot) / BSIZE && bn < MAXFILE
    requires tot' - tot <= BSIZE - (off + tot) % BSIZE
    requires a == Ref(fs, DataPlace(i, bn)) && 0 < a < |fs.blocks|
    requires var data := Patched(fs.blocks[a], (off + tot) % BSIZE, src[tot..tot']);
             forall o :: 0 <= o < MAXFILE * BSIZE ==>
               Byte(fs', i, o) == if o / BSIZE == bn then data[o % BSIZE] else Byte(fs, i, o)
    requires Written(fs, i, off, src, tot, was)
    ensures Written(fs', i, off, src, tot', was)
  {
    forall o | 0 <= o < MAXFILE * BSIZE
      ensures Byte(fs', i, o) == if off <= o < off + tot' then src[o - off] else was[o]
    {
      if o / BSIZE == bn {
        PatchedAt(fs.blocks[a], (off + tot) % BSIZE, src[tot..tot'], o % BSIZE);
        assert Byte(fs, i, o) == fs.blocks[a][o % BSIZE];
      }
    }
  }

  /** All written and the size brought up to date, the file is a splice. */
  lemma WrittenAll(fs: Fs, i: nat, off: nat, src: seq<byte>, was: seq<byte>, size0: nat)
    requires Shape(fs) && i < |fs.inodes| && |was| == MAXFILE * BSIZE && off <= size0 <= MAXFILE * BSIZE
    requires off + |src| <= MAXFILE * BSIZE && fs.inodes[i].size == Max(size0, off + |src|)
    requires Written(fs, i, off, src, |src|, was)
    ensures Content(fs, i) == Spliced(was[..size0], off, src)
  {
    var want := Spliced(was[..size0], off, src);
    forall o | 0 <= o < fs.inodes[i].size ensures Content(fs, i)[o] == want[o] {
      SplicedAt(was[..size0], off, src, o);
    }
  }
}
