/**
 Who owns which disk block.  The state of fs.c as a value, the places an inode
 refers to blocks from, and what allocating, linking, storing and freeing one
 block does to every reference and every byte of every file.
 */
module FsOwnership {
  import opened Types
  import opened FsLayout

  /** addrs[..NDIRECT] are direct blocks, addrs[NDIRECT] the indirect block; 0 is "no block". */
  datatype Inode = Inode(addrs: seq<nat>, size: nat)

  datatype Fs = Fs(bitmap: seq<byte>, blocks: seq<Block>, inodes: seq<Inode>)

  /** Where a block number may be stored. */
  datatype Place =
    | Direct(i: nat, k: nat)     // inode i, addrs[k]
    | Indirect(i: nat)           // inode i, addrs[NDIRECT]
    | Entry(i: nat, j: nat)      // word j of the indirect block of inode i

  ghost predicate Shape(fs: Fs) {
    && |fs.blocks| < UINT
    && |fs.blocks| <= 8 * |fs.bitmap|
    && forall i :: 0 <= i < |fs.inodes| ==> |fs.inodes[i].addrs| == NDIRECT + 1
  }

  predicate IsPlace(fs: Fs, p: Place) {
    && p.i < |fs.inodes|
    && (p.Direct? ==> p.k < NDIRECT)
    && (p.Entry? ==> p.j < NINDIRECT)
  }

  /** The block number stored at a place, 0 if none. */
  ghost function Ref(fs: Fs, p: Place): (a: nat)
    requires Shape(fs) && IsPlace(fs, p)
  {
    if p.Direct? then fs.inodes[p.i].addrs[p.k]
    else if p.Indirect? then fs.inodes[p.i].addrs[NDIRECT]
    else if 0 < fs.inodes[p.i].addrs[NDIRECT] < |fs.blocks| then Word(fs.blocks[fs.inodes[p.i].addrs[NDIRECT]], p.j)
    else 0
  }

  /** p and q do not refer to the same block, unless they are the same place. */
  ghost predicate Apart(fs: Fs, p: Place, q: Place)
    requires Shape(fs) && IsPlace(fs, p) && IsPlace(fs, q)
  {
    Ref(fs, p) == Ref(fs, q) != 0 ==> p == q
  }

  /** Every block an inode refers to is a data block marked in the bitmap, and is referred to once. */
  ghost predicate Owned(fs: Fs, dataStart: nat) {
    && Shape(fs) && 0 < dataStart <= |fs.blocks|
    && (forall b :: 0 <= b < dataStart ==> Bit(fs.bitmap, b))
    && (forall p :: IsPlace(fs, p) && Ref(fs, p) != 0 ==>
          dataStart <= Ref(fs, p) < |fs.blocks| && Bit(fs.bitmap, Ref(fs, p)))
    && (forall p, q {:trigger Apart(fs, p, q)} :: IsPlace(fs, p) && IsPlace(fs, q) ==> Apart(fs, p, q))
  }

  /** Conversely every marked data block is referred to: no block is lost. */
  ghost predicate NoLeak(fs: Fs, dataStart: nat)
    requires Shape(fs)
  {
    forall b {:trigger Referenced(fs, b)} :: dataStart <= b < |fs.blocks| && Bit(fs.bitmap, b) ==> Referenced(fs, b)
  }

  ghost predicate Referenced(fs: Fs, b: nat)
    requires Shape(fs)
  {
    exists p :: IsPlace(fs, p) && Ref(fs, p) == b
  }

  function DataPlace(i: nat, bn: nat): (p: Place) {
    if bn < NDIRECT then Direct(i, bn) else Entry(i, bn - NDIRECT)
  }

  /** The byte at offset o of file i; a block not yet allocated reads as zeros. */
  ghost function Byte(fs: Fs, i: nat, o: nat): (x: byte)
    requires Shape(fs) && i < |fs.inodes| && o < MAXFILE * BSIZE
  {
    var a := Ref(fs, DataPlace(i, o / BSIZE));
    if 0 < a < |fs.blocks| then fs.blocks[a][o % BSIZE] else 0
  }

  ghost predicate SameRefs(fs: Fs, fs': Fs)
    requires Shape(fs) && Shape(fs')
  {
    && |fs'.inodes| == |fs.inodes|
    && forall p :: IsPlace(fs, p) ==> Ref(fs', p) == Ref(fs, p)
  }

  lemma ApartKept(fs: Fs, fs': Fs, dataStart: nat)
    requires Owned(fs, dataStart) && Shape(fs') && SameRefs(fs, fs')
    ensures forall p, q {:trigger Apart(fs', p, q)} :: IsPlace(fs', p) && IsPlace(fs', q) ==> Apart(fs', p, q)
  {
    forall p, q | IsPlace(fs', p) && IsPlace(fs', q) ensures Apart(fs', p, q) {
      assert IsPlace(fs, p) && IsPlace(fs, q) && Apart(fs, p, q);
    }
  }

  ghost predicate SameBytes(fs: Fs, fs': Fs)
    requires Shape(fs) && Shape(fs')
  {
    && |fs'.inodes| == |fs.inodes|
    && forall i, o :: 0 <= i < |fs.inodes| && 0 <= o < MAXFILE * BSIZE ==> Byte(fs', i, o) == Byte(fs, i, o)
  }

  lemma ZeroWords(j: nat)
    requires j < NINDIRECT
    ensures Word(Zeros(), j) == 0
  {
  }

  // ----- balloc -----

  ghost function Marked(fs: Fs, b: nat): (fs': Fs)
    requires Shape(fs) && b < |fs.blocks|
    ensures Shape(fs')
  {
    Fs(SetBit(fs.bitmap, b), fs.blocks[b := Zeros()], fs.inodes)
  }

  /** Marking and zeroing a free block disturbs no reference and no byte of any file. */
  lemma MarkFresh(fs: Fs, dataStart: nat, b: nat)
    requires Owned(fs, dataStart) && b < |fs.blocks| && !Bit(fs.bitmap, b)
    ensures Owned(Marked(fs, b), dataStart) && b >= dataStart && Bit(Marked(fs, b).bitmap, b)
    ensures SameRefs(fs, Marked(fs, b)) && SameBytes(fs, Marked(fs, b))
    ensures !Referenced(Marked(fs, b), b)
  {
    var fs' := Marked(fs, b);
    assert forall c :: 0 <= c < |fs.blocks| ==> (Bit(fs'.bitmap, c) <==> b == c || Bit(fs.bitmap, c)) by {
      forall c | 0 <= c < |fs.blocks| ensures Bit(fs'.bitmap, c) <==> b == c || Bit(fs.bitmap, c) {
        BitsIndependent(fs.bitmap, b, c);
      }
    }
    forall p | IsPlace(fs, p) ensures Ref(fs', p) == Ref(fs, p) && Ref(fs, p) != b {
      assert IsPlace(fs, Indirect(p.i)) && Ref(fs, Indirect(p.i)) != b;
    }
    ApartKept(fs, fs', dataStart);
    forall i, o | 0 <= i < |fs.inodes| && 0 <= o < MAXFILE * BSIZE ensures Byte(fs', i, o) == Byte(fs, i, o) {
      assert IsPlace(fs, DataPlace(i, o / BSIZE));
    }
  }

  // ----- Linking an allocated block into an inode -----

  ghost function Linked(fs: Fs, p: Place, b: nat): (fs': Fs)
    requires Shape(fs) && IsPlace(fs, p) && b < UINT
    requires p.Entry? ==> 0 < fs.inodes[p.i].addrs[NDIRECT] < |fs.blocks|
    ensures Shape(fs')
  {
    if p.Entry? then
      Fs(fs.bitmap,
         fs.blocks[fs.inodes[p.i].addrs[NDIRECT] := SetWord(fs.blocks[fs.inodes[p.i].addrs[NDIRECT]], p.j, b)],
         fs.inodes)
    else
      Fs(fs.bitmap, fs.blocks,
         fs.inodes[p.i := Inode(fs.inodes[p.i].addrs[(if p.Direct? then p.k else NDIRECT) := b], fs.inodes[p.i].size)])
  }

  /** p can take block b: p is empty, b is marked, zeroed and referred to by nobody. */
  ghost predicate CanLink(fs: Fs, dataStart: nat, p: Place, b: nat) {
    && Owned(fs, dataStart)
    && IsPlace(fs, p) && Ref(fs, p) == 0
    && (p.Entry? ==> Ref(fs, Indirect(p.i)) != 0)
    && dataStart <= b < |fs.blocks| && Bit(fs.bitmap, b) && fs.blocks[b] == Zeros()
    && !Referenced(fs, b)
  }

  lemma LinkRefs(fs: Fs, dataStart: nat, p: Place, b: nat, q: Place)
    requires CanLink(fs, dataStart, p, b) && IsPlace(fs, q)
    requires p.Entry? ==> 0 < fs.inodes[p.i].addrs[NDIRECT] < |fs.blocks|
    ensures Ref(Linked(fs, p, b), q) == if q == p then b else Ref(fs, q)
  {
    if q.Entry? {
      if p.Entry? {
        SetWordOnly(fs.blocks[fs.inodes[p.i].addrs[NDIRECT]], p.j, b);
        assert IsPlace(fs, Indirect(p.i)) && IsPlace(fs, Indirect(q.i));
        assert Apart(fs, Indirect(p.i), Indirect(q.i));
      } else if p.Indirect? && p.i == q.i {
        ZeroWords(q.j);
      }
    }
  }

  /** Linking adds one reference and changes no byte of any file. */
  lemma LinkFresh(fs: Fs, dataStart: nat, p: Place, b: nat)
    requires CanLink(fs, dataStart, p, b)
    ensures p.Entry? ==> 0 < fs.inodes[p.i].addrs[NDIRECT] < |fs.blocks|
    ensures Owned(Linked(fs, p, b), dataStart) && SameBytes(fs, Linked(fs, p, b))
    ensures forall q :: IsPlace(fs, q) ==> Ref(Linked(fs, p, b), q) == if q == p then b else Ref(fs, q)
  {
    assert IsPlace(fs, Indirect(p.i));
    var fs' := Linked(fs, p, b);
    forall q | IsPlace(fs, q) ensures Ref(fs', q) == if q == p then b else Ref(fs, q) {
      LinkRefs(fs, dataStart, p, b, q);
    }
    forall q, r | IsPlace(fs', q) && IsPlace(fs', r) ensures Apart(fs', q, r) {
      assert IsPlace(fs, q) && IsPlace(fs, r) && Apart(fs, q, r);
    }
    forall i, o | 0 <= i < |fs.inodes| && 0 <= o < MAXFILE * BSIZE ensures Byte(fs', i, o) == Byte(fs, i, o) {
      var q := DataPlace(i, o / BSIZE);
      assert IsPlace(fs, q);
      assert Apart(fs, q, Indirect(p.i));
    }
  }

  /** Allocating a free block for an empty place, as `bmap` does: the invariants
      hold, one reference appears, and every file reads as before. */
  lemma AllocateFor(fs: Fs, dataStart: nat, p: Place, b: nat)
    requires Owned(fs, dataStart) && NoLeak(fs, dataStart)
    requires b < |fs.blocks| && !Bit(fs.bitmap, b)
    requires IsPlace(fs, p) && Ref(fs, p) == 0 && (p.Entry? ==> Ref(fs, Indirect(p.i)) != 0)
    ensures p.Entry? ==> 0 < fs.inodes[p.i].addrs[NDIRECT] < |fs.blocks|
    ensures var fs' := Linked(Marked(fs, b), p, b);
            && Owned(fs', dataStart) && NoLeak(fs', dataStart) && SameBytes(fs, fs') && b != 0
            && forall q :: IsPlace(fs, q) ==> Ref(fs', q) == if q == p then b else Ref(fs, q)
  {
    var mid := Marked(fs, b);
    MarkFresh(fs, dataStart, b);
    assert IsPlace(fs, Indirect(p.i));
    LinkFresh(mid, dataStart, p, b);
    var fs' := Linked(mid, p, b);
    forall c | dataStart <= c < |fs'.blocks| && Bit(fs'.bitmap, c) ensures Referenced(fs', c) {
      BitsIndependent(fs.bitmap, b, c);
      if c == b {
        assert IsPlace(fs', p) && Ref(fs', p) == c;
      } else {
        assert Referenced(fs, c);
        var q :| IsPlace(fs, q) && Ref(fs, q) == c;
        assert IsPlace(fs', q) && Ref(fs', q) == c;
      }
    }
    forall i, o | 0 <= i < |fs.inodes| && 0 <= o < MAXFILE * BSIZE ensures Byte(fs', i, o) == Byte(fs, i, o) {
      assert Byte(mid, i, o) == Byte(fs, i, o);
    }
  }

  // ----- Storing into a data block -----

  /** Overwriting the block behind (i, bn) changes exactly the bytes of that block of that file. */
  lemma StoreBlock(fs: Fs, dataStart: nat, i: nat, bn: nat, data: Block)
    requires Owned(fs, dataStart) && i < |fs.inodes| && bn < MAXFILE && Ref(fs, DataPlace(i, bn)) != 0
    ensures Ref(fs, DataPlace(i, bn)) < |fs.blocks|
    ensures var fs' := Fs(fs.bitmap, fs.blocks[Ref(fs, DataPlace(i, bn)) := data], fs.inodes);
            && Owned(fs', dataStart) && SameRefs(fs, fs')
            && forall j, o :: 0 <= j < |fs.inodes| && 0 <= o < MAXFILE * BSIZE ==>
                 Byte(fs', j, o) == if j == i && o / BSIZE == bn then data[o % BSIZE] else Byte(fs, j, o)
  {
    var p := DataPlace(i, bn);
    assert IsPlace(fs, p);
    var a := Ref(fs, p);
    var fs' := Fs(fs.bitmap, fs.blocks[a := data], fs.inodes);
    forall q | IsPlace(fs, q) ensures Ref(fs', q) == Ref(fs, q) {
      assert IsPlace(fs, Indirect(q.i)) && Apart(fs, Indirect(q.i), p);
    }
    ApartKept(fs, fs', dataStart);
    forall j, o | 0 <= j < |fs.inodes| && 0 <= o < MAXFILE * BSIZE
      ensures Byte(fs', j, o) == if j == i && o / BSIZE == bn then data[o % BSIZE] else Byte(fs, j, o)
    {
      var q := DataPlace(j, o / BSIZE);
      assert IsPlace(fs, q) && Apart(fs, q, p) && (q == p <==> j == i && o / BSIZE == bn);
    }
  }

  // ----- Truncation -----

  ghost predicate OwnedBy(fs: Fs, i: nat, b: nat)
    requires Shape(fs)
  {
    b != 0 && exists p :: IsPlace(fs, p) && p.i == i && Ref(fs, p) == b
  }

  function NoAddrs(n: nat): (s: seq<nat>)
    ensures |s| == n && forall k :: 0 <= k < n ==> s[k] == 0
  {
    seq(n, _ => 0)
  }

  ghost function Emptied(fs: Fs, i: nat, bitmap: seq<byte>): (fs': Fs)
    requires Shape(fs) && i < |fs.inodes| && |bitmap| == |fs.bitmap|
    ensures Shape(fs')
  {
    Fs(bitmap, fs.blocks, fs.inodes[i := Inode(NoAddrs(NDIRECT + 1), 0)])
  }

  /** Clearing exactly the bits of the blocks inode i owns, and its references, is a correct truncation. */
  lemma Truncate(fs: Fs, dataStart: nat, i: nat, bitmap: seq<byte>)
    requires Owned(fs, dataStart) && NoLeak(fs, dataStart) && i < |fs.inodes| && |bitmap| == |fs.bitmap|
    requires forall b :: 0 <= b < |fs.blocks| ==> (Bit(bitmap, b) <==> Bit(fs.bitmap, b) && !OwnedBy(fs, i, b))
    ensures Owned(Emptied(fs, i, bitmap), dataStart) && NoLeak(Emptied(fs, i, bitmap), dataStart)
    ensures forall p :: IsPlace(fs, p) ==> Ref(Emptied(fs, i, bitmap), p) == if p.i == i then 0 else Ref(fs, p)
    ensures forall j, o :: 0 <= j < |fs.inodes| && j != i && 0 <= o < MAXFILE * BSIZE ==>
              Byte(Emptied(fs, i, bitmap), j, o) == Byte(fs, j, o)
  {
    var fs' := Emptied(fs, i, bitmap);
    assert forall p :: IsPlace(fs, p) ==> Ref(fs', p) == if p.i == i then 0 else Ref(fs, p);
    forall b | dataStart <= b < |fs'.blocks| && Bit(fs'.bitmap, b) ensures Referenced(fs', b) {
      assert Referenced(fs, b);
      var p :| IsPlace(fs, p) && Ref(fs, p) == b;
      assert IsPlace(fs', p) && Ref(fs', p) == b;
    }
    forall p | IsPlace(fs', p) && Ref(fs', p) != 0
      ensures dataStart <= Ref(fs', p) < |fs'.blocks| && Bit(fs'.bitmap, Ref(fs', p))
    {
      forall q | IsPlace(fs, q) && q.i == i ensures Ref(fs, q) != Ref(fs, p) {
        assert Apart(fs, p, q);
      }
      assert !OwnedBy(fs, i, Ref(fs, p));
    }
    forall p, q | IsPlace(fs', p) && IsPlace(fs', q) ensures Apart(fs', p, q) {
      assert Apart(fs, p, q);
    }
    forall b | 0 <= b < dataStart ensures Bit(fs'.bitmap, b) {
      assert !OwnedBy(fs, i, b);
    }
    forall j, o | 0 <= j < |fs.inodes| && j != i && 0 <= o < MAXFILE * BSIZE
      ensures Byte(fs', j, o) == Byte(fs, j, o)
    {
      assert IsPlace(fs, DataPlace(j, o / BSIZE));
    }
  }

  /** The order in which `itrunc` visits the places of an inode. */
  function Rank(p: Place): (n: nat) {
    match p
    case Direct(_, k) => k
    case Entry(_, j) => NDIRECT + j
    case Indirect(_) => MAXFILE
  }

  ghost predicate OwnedBelow(fs: Fs, i: nat, step: nat, b: nat)
    requires Shape(fs)
  {
    b != 0 && exists p :: IsPlace(fs, p) && p.i == i && Rank(p) < step && Ref(fs, p) == b
  }

  /** The bitmap after the first `step` places of inode i have been freed. */
  ghost predicate FreedTo(fs: Fs, i: nat, step: nat, bitmap: seq<byte>)
    requires Shape(fs)
  {
    && |bitmap| == |fs.bitmap|
    && forall b :: 0 <= b < |fs.blocks| ==> (Bit(bitmap, b) <==> Bit(fs.bitmap, b) && !OwnedBelow(fs, i, step, b))
  }

  /** The next block to free is still marked, because nothing else refers to it;
      so `bfree` never finds it free already. */
  lemma FreeStep(fs: Fs, dataStart: nat, i: nat, p: Place, bitmap: seq<byte>)
    requires Owned(fs, dataStart) && IsPlace(fs, p) && p.i == i && FreedTo(fs, i, Rank(p), bitmap)
    ensures Ref(fs, p) == 0 ==> FreedTo(fs, i, Rank(p) + 1, bitmap)
    ensures Ref(fs, p) != 0 ==> Ref(fs, p) < |fs.blocks| && Bit(bitmap, Ref(fs, p))
    ensures Ref(fs, p) != 0 ==> FreedTo(fs, i, Rank(p) + 1, ClearBit(bitmap, Ref(fs, p)))
  {
    var a := Ref(fs, p);
    forall b | 0 <= b < |fs.blocks|
      ensures OwnedBelow(fs, i, Rank(p) + 1, b) <==> OwnedBelow(fs, i, Rank(p), b) || (b == a != 0)
    {
      if OwnedBelow(fs, i, Rank(p) + 1, b) && b != a {
        var q :| IsPlace(fs, q) && q.i == i && Rank(q) < Rank(p) + 1 && Ref(fs, q) == b;
        assert q != p && Rank(q) != Rank(p);
      }
    }
    if a != 0 {
      forall q | IsPlace(fs, q) && q.i == i && Rank(q) < Rank(p) ensures Ref(fs, q) != a {
        assert Apart(fs, p, q);
      }
      assert !OwnedBelow(fs, i, Rank(p), a);
      forall b | 0 <= b < |fs.blocks| ensures Bit(ClearBit(bitmap, a), b) <==> b != a && Bit(bitmap, b) {
        BitsIndependent(bitmap, a, b);
      }
    }
  }

  lemma FreedAll(fs: Fs, i: nat, bitmap: seq<byte>)
    requires Shape(fs) && FreedTo(fs, i, MAXFILE + 1, bitmap)
    ensures forall b :: 0 <= b < |fs.blocks| ==> (Bit(bitmap, b) <==> Bit(fs.bitmap, b) && !OwnedBy(fs, i, b))
  {
    forall b | 0 <= b < |fs.blocks| ensures OwnedBy(fs, i, b) <==> OwnedBelow(fs, i, MAXFILE + 1, b) {
      if OwnedBy(fs, i, b) {
        var p :| IsPlace(fs, p) && p.i == i && Ref(fs, p) == b;
        assert Rank(p) < MAXFILE + 1;
      }
    }
  }

  /** Without an indirect block there is nothing after the direct blocks. */
  lemma NothingIndirect(fs: Fs, i: nat, bitmap: seq<byte>)
    requires Shape(fs) && i < |fs.inodes| && Ref(fs, Indirect(i)) == 0 && FreedTo(fs, i, NDIRECT, bitmap)
    ensures FreedTo(fs, i, MAXFILE + 1, bitmap)
  {
    forall b | 0 <= b < |fs.blocks| ensures OwnedBelow(fs, i, MAXFILE + 1, b) ==> OwnedBelow(fs, i, NDIRECT, b) {
      if OwnedBelow(fs, i, MAXFILE + 1, b) {
        var p :| IsPlace(fs, p) && p.i == i && Ref(fs, p) == b;
        assert Rank(p) < NDIRECT;
      }
    }
    forall b | 0 <= b < |fs.blocks| && OwnedBelow(fs, i, NDIRECT, b) ensures OwnedBelow(fs, i, MAXFILE + 1, b) {
      var p :| IsPlace(fs, p) && p.i == i && Rank(p) < NDIRECT && Ref(fs, p) == b;
      assert Rank(p) < MAXFILE + 1;
    }
  }
}
