/**
 fs.c and filewrite: block allocation, block maps, and reading and writing file
 contents, as methods on the blocks that the log and the buffer cache present.
 Every `log_write` is noted, with the contents it publishes.
 */
module FileSystem {
  import opened Types
  import opened FsLayout
  import opened FsOwnership
  import opened FsFiles
  import opened FsDisk
  import opened FsLogging
  import LogDisk

  ghost predicate GoodFs(l: Layout, dataStart: nat, fs: Fs) {
    Owned(fs, dataStart) && NoLeak(fs, dataStart) && Dense(fs) && Fits(l, fs)
  }

  /** A transaction: what it logged, and the file system it left. */
  datatype Txn = Txn(fs: Fs, writes: seq<Write>)

  /** The file system after the first k transactions. */
  function StateAt(was: Fs, txns: seq<Txn>, k: nat): (fs: Fs)
    requires k <= |txns|
  {
    if k == 0 then was else txns[k - 1].fs
  }

  /** Transaction k leads from a sound file system to a sound one, and its log says how the disk changes. */
  ghost predicate TxnAt(l: Layout, dataStart: nat, was: Fs, txns: seq<Txn>, k: nat)
    requires k < |txns|
  {
    && GoodFs(l, dataStart, StateAt(was, txns, k)) && GoodFs(l, dataStart, txns[k].fs)
    && DiskOf(l, txns[k].fs) == Applied(DiskOf(l, StateAt(was, txns, k)), txns[k].writes)
  }

  ghost predicate IsHistory(l: Layout, dataStart: nat, was: Fs, txns: seq<Txn>) {
    GoodFs(l, dataStart, was) && forall k :: 0 <= k < |txns| ==> TxnAt(l, dataStart, was, txns, k)
  }

  /** After k transactions of `filewrite`, k chunks of addr are in the file. */
  ghost predicate ChunkAt(was: Fs, txns: seq<Txn>, i: nat, off: nat, addr: seq<byte>, k: nat)
    requires k <= |txns| && Dense(was) && i < |was.inodes|
  {
    && Dense(StateAt(was, txns, k))
    && WrittenTo(Files(was), Files(StateAt(was, txns, k)), i, off, addr, Min(k * CHUNK, |addr|))
  }

  ghost predicate InChunks(was: Fs, txns: seq<Txn>, i: nat, off: nat, addr: seq<byte>)
    requires Dense(was) && i < |was.inodes|
  {
    forall k :: 0 <= k <= |txns| ==> ChunkAt(was, txns, i, off, addr, k)
  }

  lemma NothingWritten(was: Fs, i: nat, off: nat, addr: seq<byte>)
    requires Dense(was) && i < |was.inodes|
    ensures WrittenTo(Files(was), Files(was), i, off, addr, 0) && InChunks(was, [], i, off, addr)
  {
    var file := Files(was)[i];
    assert off <= |file| ==> Spliced(file, off, addr[..0]) == file;
    assert WrittenTo(Files(was), Files(was), i, off, addr, 0);
  }

  lemma HistoryNext(l: Layout, dataStart: nat, was: Fs, txns: seq<Txn>, t: Txn, i: nat, off: nat, addr: seq<byte>)
    requires IsHistory(l, dataStart, was, txns) && GoodFs(l, dataStart, t.fs) && i < |was.inodes|
    requires InChunks(was, txns, i, off, addr)
    requires GoodFs(l, dataStart, StateAt(was, txns, |txns|))
    requires DiskOf(l, t.fs) == Applied(DiskOf(l, StateAt(was, txns, |txns|)), t.writes)
    requires WrittenTo(Files(was), Files(t.fs), i, off, addr, Min((|txns| + 1) * CHUNK, |addr|))
    ensures IsHistory(l, dataStart, was, txns + [t]) && InChunks(was, txns + [t], i, off, addr)
  {
    var txns' := txns + [t];
    forall k | 0 <= k < |txns'| ensures TxnAt(l, dataStart, was, txns', k) {
      assert StateAt(was, txns', k) == StateAt(was, txns, k);
      if k < |txns| {
        assert TxnAt(l, dataStart, was, txns, k);
      }
    }
    forall k | 0 <= k <= |txns'| ensures ChunkAt(was, txns', i, off, addr, k) {
      if k <= |txns| {
        assert StateAt(was, txns', k) == StateAt(was, txns, k) && ChunkAt(was, txns, i, off, addr, k);
      }
    }
  }

  class FileSystem {
    const dataStart: nat
    ghost const layout: Layout
    var bitmap: seq<byte>
    var blocks: seq<Block>
    var inodes: seq<Inode>
    var dinodes: seq<Inode>         // the inodes on disk, as iupdate leaves them
    ghost var before: LogDisk.Disk  // the home blocks when the operation began
    ghost var log: seq<Write>       // what it has logged since

    ghost function Fs(): (fs: Fs)
      reads this
    {
      FsOwnership.Fs(bitmap, blocks, inodes)
    }

    ghost predicate Sound()
      reads this
    {
      Owned(Fs(), dataStart) && NoLeak(Fs(), dataStart)
    }

    ghost predicate Valid()
      reads this
    {
      Sound() && Dense(Fs()) && dinodes == inodes && layout.dataStart == dataStart && Fits(layout, Fs())
    }

    /** What the buffers of the disk hold: the inodes in memory may be ahead of it. */
    ghost function OnDisk(): (fs: Fs)
      reads this
    {
      FsOwnership.Fs(bitmap, blocks, dinodes)
    }

    /** The operation's log accounts for every difference between the disk it began with and the disk now. */
    ghost predicate Journaled()
      reads this
    {
      layout.dataStart == dataStart && Accounts(layout, OnDisk(), before, log)
    }

    /** mkfs output, read in. */
    constructor (ghost layout: Layout, dataStart: nat, bitmap: seq<byte>, blocks: seq<Block>, inodes: seq<Inode>)
      requires layout.dataStart == dataStart && Fits(layout, FsOwnership.Fs(bitmap, blocks, inodes))
      requires Owned(FsOwnership.Fs(bitmap, blocks, inodes), dataStart)
      requires NoLeak(FsOwnership.Fs(bitmap, blocks, inodes), dataStart)
      requires Dense(FsOwnership.Fs(bitmap, blocks, inodes))
      ensures Valid() && Fs() == FsOwnership.Fs(bitmap, blocks, inodes)
    {
      this.layout, this.dataStart, this.bitmap, this.blocks := layout, dataStart, bitmap, blocks;
      this.inodes, dinodes, log := inodes, inodes, [];
    }

    /** `begin_op`, as far as the file system sees it. */
    ghost method Begin()
      requires Valid()
      modifies this`before, this`log
      ensures Valid() && Journaled() && before == DiskOf(layout, Fs()) && log == []
    {
      before, log := DiskOf(layout, Fs()), [];
    }

    /** Mark block b in the bitmap buffer and log it. */
    method MarkUsed(b: nat)
      requires Shape(Fs()) && Journaled() && b < |blocks|
      modifies this`bitmap, this`log
      ensures bitmap == SetBit(old(bitmap), b) && Journaled()
      ensures Blocks(log) == Blocks(old(log)) + {BitmapBlock(layout, b)}
    {
      ghost var was := OnDisk();
      OrByte(bitmap[b / 8], b % 8);
      bitmap := bitmap[b / 8 := Or(bitmap[b / 8], b % 8)];
      BitmapOnly(layout, was, OnDisk(), b);
      LogStep(layout, was, OnDisk(), before, log, BitmapBlock(layout, b));
      log := Logged(layout, OnDisk(), log, BitmapBlock(layout, b));
    }

    /** Change data block b and log it; `bzero` is the case of zeros. */
    method Store(b: nat, data: Block)
      requires Journaled() && dataStart <= b < |blocks|
      modifies this`blocks, this`log
      ensures blocks == old(blocks)[b := data] && Journaled() && Blocks(log) == Blocks(old(log)) + {b}
    {
      ghost var was := OnDisk();
      blocks := blocks[b := data];
      DataOnly(layout, was, OnDisk(), b, data);
      LogStep(layout, was, OnDisk(), before, log, b);
      log := Logged(layout, OnDisk(), log, b);
    }

    /** `iupdate` */
    method IUpdate(i: nat)
      requires Journaled() && i < |inodes| == |dinodes| && |inodes[i].addrs| == NDIRECT + 1
      modifies this`dinodes, this`log
      ensures dinodes == old(dinodes)[i := inodes[i]] && Journaled()
      ensures Blocks(log) == Blocks(old(log)) + {InodeBlock(i)}
    {
      ghost var was := OnDisk();
      dinodes := dinodes[i := inodes[i]];
      InodeOnly(layout, was, OnDisk(), i, inodes[i]);
      LogStep(layout, was, OnDisk(), before, log, InodeBlock(i));
      log := Logged(layout, OnDisk(), log, InodeBlock(i));
    }

    /** The scan of `balloc`. */
    method FindFree() returns (ok: bool, r: nat)
      requires Shape(Fs())
      ensures if ok then LowestFree(Fs(), r) else Full(Fs())
    {
      var b := 0;
      while b < |blocks|
        invariant b % 8 == 0
        invariant forall c :: 0 <= c < b && c < |blocks| ==> Bit(bitmap, c)
      {
        var bi := 0;
        while bi < BPB && b + bi < |blocks|
          invariant 0 <= bi <= BPB
          invariant forall c :: 0 <= c < b + bi && c < |blocks| ==> Bit(bitmap, c)
        {
          SameBit(b, bi);
          if !Test(bitmap[(b + bi) / 8], bi % 8) {
            return true, b + bi;
          }
          bi := bi + 1;
        }
        b := b + BPB;
      }
      return false, 0;
    }

    /** `balloc`: the lowest free block, marked and zeroed; ok is false when it panics for lack of one. */
    method Balloc() returns (ok: bool, r: nat)
      requires Shape(Fs()) && Journaled() && forall b :: 0 <= b < dataStart ==> Bit(bitmap, b)
      modifies this`bitmap, this`blocks, this`log
      ensures Journaled()
      ensures !ok ==> Fs() == old(Fs()) && Full(Fs()) && log == old(log)
      ensures ok ==> LowestFree(old(Fs()), r) && Fs() == Marked(old(Fs()), r)
      ensures ok ==> Blocks(log) == Blocks(old(log)) + AllocSet(layout, r)
    {
      ok, r := FindFree();
      if ok {
        MarkUsed(r);
        Store(r, Zeros());
      }
    }

    /** `bfree`; ok is false when it panics with "freeing free block". */
    method Bfree(b: nat) returns (ok: bool)
      requires b < |blocks| && Journaled()
      modifies this`bitmap, this`log
      ensures ok <==> Bit(old(bitmap), b)
      ensures bitmap == if ok then ClearBit(old(bitmap), b) else old(bitmap)
      ensures Journaled() && Blocks(log) == Blocks(old(log)) + if ok then {BitmapBlock(layout, b)} else {}
    {
      if !Test(bitmap[b / 8], b % 8) {
        return false;
      }
      ghost var was := OnDisk();
      bitmap := bitmap[b / 8 := AndNot(bitmap[b / 8], b % 8)];
      BitmapOnly(layout, was, OnDisk(), b);
      LogStep(layout, was, OnDisk(), before, log, BitmapBlock(layout, b));
      log := Logged(layout, OnDisk(), log, BitmapBlock(layout, b));
      return true;
    }

    /** Load the block number stored in ip->addrs[k], allocating if necessary. */
    method LoadAddr(i: nat, k: nat) returns (ok: bool, addr: nat)
      requires Sound() && Journaled() && i < |inodes| && k <= NDIRECT
      modifies this`bitmap, this`blocks, this`inodes, this`log
      ensures Journaled()
      ensures ok ==> Grown(old(Fs()), Fs(), dataStart, AddrPlace(i, k)) && addr == Ref(Fs(), AddrPlace(i, k))
      ensures ok ==>
                Blocks(log) == Blocks(old(log)) + if old(inodes[i].addrs[k]) == 0 then AllocSet(layout, addr) else {}
      ensures !ok ==> Fs() == old(Fs()) && Full(Fs()) && Ref(Fs(), AddrPlace(i, k)) == 0
      ensures old(inodes[i].addrs[k]) != 0 ==> ok && log == old(log)
    {
      ghost var was, p := Fs(), AddrPlace(i, k);
      ok, addr := true, inodes[i].addrs[k];
      if addr == 0 {
        ok, addr := Balloc();
        if ok {
          AllocateFor(was, dataStart, p, addr);
          inodes := inodes[i := Inode(inodes[i].addrs[k := addr], inodes[i].size)];
          assert Fs() == Linked(Marked(was, addr), p, addr);
        }
      }
    }

    /** Load entry j of the indirect block, allocating if necessary. */
    method LoadEntry(i: nat, ind: nat, j: nat) returns (ok: bool, addr: nat)
      requires Sound() && Journaled() && i < |inodes| && j < NINDIRECT && ind == Ref(Fs(), Indirect(i)) != 0
      modifies this`bitmap, this`blocks, this`log
      ensures Journaled()
      ensures ok ==> Grown(old(Fs()), Fs(), dataStart, Entry(i, j)) && addr == Ref(Fs(), Entry(i, j))
      ensures ok ==> Blocks(log) == Blocks(old(log)) +
                       if old(Ref(Fs(), Entry(i, j))) == 0 then AllocSet(layout, addr) + {ind} else {}
      ensures !ok ==> Fs() == old(Fs()) && Full(Fs()) && Ref(Fs(), Entry(i, j)) == 0
      ensures old(Ref(Fs(), Entry(i, j))) != 0 ==> ok && log == old(log)
    {
      ghost var was, p := Fs(), Entry(i, j);
      assert IsPlace(was, p) && IsPlace(was, Indirect(i));
      ok, addr := true, Word(blocks[ind], j);
      if addr == 0 {
        ok, addr := Balloc();
        if ok {
          AllocateFor(was, dataStart, p, addr);
          Store(ind, SetWord(blocks[ind], j, addr));
          assert Fs() == Linked(Marked(was, addr), p, addr);
        }
      }
    }

    /** `bmap`; ok is false when it panics, out of blocks or out of range. */
    method Bmap(i: nat, bn: nat) returns (ok: bool, addr: nat)
      requires Sound() && Journaled() && i < |inodes|
      modifies this`bitmap, this`blocks, this`inodes, this`log
      ensures Journaled()
      ensures ok ==> bn < MAXFILE && Mapped(old(Fs()), Fs(), dataStart, i, bn) && addr == Ref(Fs(), DataPlace(i, bn))
      ensures ok ==> Blocks(log) == Blocks(old(log)) + MapSet(layout, old(Fs()), Fs(), i, bn)
      ensures ok ==> dataStart <= addr < |blocks|
      ensures !ok ==> bn >= MAXFILE || (Full(Fs()) && Ref(old(Fs()), DataPlace(i, bn)) == 0)
      ensures bn < MAXFILE && old(Ref(Fs(), DataPlace(i, bn))) != 0 ==> log == old(log)
    {
      if bn < NDIRECT {
        ok, addr := LoadAddr(i, bn);
        if ok {
          GrownOnce(old(Fs()), Fs(), dataStart, i, bn);
          assert IsPlace(Fs(), DataPlace(i, bn));
        }
        return;
      }
      if bn >= MAXFILE {
        return false, 0;
      }
      ok, addr := BmapIndirect(i, bn);
      assert ok ==> IsPlace(Fs(), DataPlace(i, bn));
    }

    /** `bmap` past the direct blocks. */
    method BmapIndirect(i: nat, bn: nat) returns (ok: bool, addr: nat)
      requires Sound() && Journaled() && i < |inodes| && NDIRECT <= bn < MAXFILE
      modifies this`bitmap, this`blocks, this`inodes, this`log
      ensures Journaled()
      ensures ok ==> Mapped(old(Fs()), Fs(), dataStart, i, bn) && addr == Ref(Fs(), DataPlace(i, bn))
      ensures ok ==> Blocks(log) == Blocks(old(log)) + MapSet(layout, old(Fs()), Fs(), i, bn)
      ensures !ok ==> Full(Fs()) && Ref(old(Fs()), DataPlace(i, bn)) == 0
      ensures old(Ref(Fs(), DataPlace(i, bn))) != 0 ==> log == old(log)
    {
      ghost var was := Fs();
      assert IsPlace(was, DataPlace(i, bn)) && IsPlace(was, Indirect(i));
      var ind;
      addr := 0;
      ok, ind := LoadAddr(i, NDIRECT);
      if ok {
        ghost var mid := Fs();
        ok, addr := LoadEntry(i, ind, bn - NDIRECT);
        if ok {
          GrownTwice(was, mid, Fs(), dataStart, i, bn);
          assert IsPlace(mid, Indirect(i)) && Ref(Fs(), Indirect(i)) == ind;
        }
      }
    }

    /** One pass of the loop in `readi`. */
    method ReadBlock(i: nat, off: nat, m: nat) returns (piece: seq<byte>)
      requires Valid() && Journaled() && i < |inodes| && off + m <= inodes[i].size && 0 < m <= BSIZE - off % BSIZE
      modifies this`bitmap, this`blocks, this`inodes, this`log
      ensures Valid() && Journaled() && Fs() == old(Fs()) && log == old(log)
      ensures piece == Content(Fs(), i)[off..off + m]
    {
      ghost var was := Fs();
      assert off / BSIZE * BSIZE < inodes[i].size && DenseTo(was, i, inodes[i].size);
      assert IsPlace(was, DataPlace(i, off / BSIZE)) && DenseAt(was, i, inodes[i].size, off / BSIZE);
      var ok, addr := Bmap(i, off / BSIZE);
      ReadPiece(was, i, off, m);
      piece := blocks[addr][off % BSIZE..off % BSIZE + m];
    }

    /** The loop of `readi`. */
    method ReadLoop(i: nat, off0: nat, n: nat) returns (dst: seq<byte>)
      requires Valid() && Journaled() && i < |inodes| && off0 + n <= inodes[i].size
      modifies this`bitmap, this`blocks, this`inodes, this`log
      ensures Valid() && Journaled() && Fs() == old(Fs()) && log == old(log)
      ensures dst == Content(Fs(), i)[off0..off0 + n]
    {
      ghost var was := Fs();
      ghost var content := Content(was, i);
      dst := [];
      var tot, off := 0, off0;
      while tot < n
        invariant Valid() && Journaled() && Fs() == was && log == old(log)
        invariant 0 <= tot <= n && off == off0 + tot && off0 + n <= |content|
        invariant dst == content[off0..off]
      {
        var m := Min(n - tot, BSIZE - off % BSIZE);
        var piece := ReadBlock(i, off, m);
        assert piece == content[off..off + m];
        SliceJoin(content, off0, off, off + m);
        dst := dst + piece;
        tot, off := tot + m, off + m;
      }
    }

    /** `readi` of a file: the bytes of the flat sequence, up to its end; no block is allocated and none logged. */
    method ReadI(i: nat, off0: nat, n0: nat) returns (r: int, dst: seq<byte>)
      requires Valid() && Journaled() && i < |inodes| && off0 < UINT && n0 < UINT
      modifies this`bitmap, this`blocks, this`inodes, this`log
      ensures Valid() && Journaled() && Fs() == old(Fs()) && log == old(log)
      ensures r == -1 <==> off0 > inodes[i].size || off0 + n0 >= UINT
      ensures r != -1 ==> r == |dst| && dst == Files(Fs())[i][off0..Min(off0 + n0, inodes[i].size)]
    {
      WrappedSum(off0, n0);
      if off0 > inodes[i].size || (off0 + n0) % UINT < off0 {
        return -1, [];
      }
      var n := n0;
      if off0 + n > inodes[i].size {
        n := inodes[i].size - off0;
      }
      dst := ReadLoop(i, off0, n);
      r := n;
    }

    /** One pass of the loop in `writei`, tot bytes into src. */
    method WriteBlock(i: nat, off0: nat, src: seq<byte>, tot: nat) returns (ok: bool, m: nat, ghost p: Step)
      requires Sound() && Journaled() && i < |inodes| && tot < |src| && off0 + tot < MAXFILE * BSIZE
      modifies this`bitmap, this`blocks, this`inodes, this`log
      ensures Journaled() && 0 < m <= |src| - tot
      ensures p.now == old(Fs()) && p.fs == Fs() && p.s == Blocks(old(log)) && p.s' == Blocks(log) && p.tot == tot
      ensures p.tot' == tot + m
      ensures ok ==> Sound() && |inodes| == |old(inodes)| && Pass(layout, dataStart, p, i, off0, src)
      ensures !ok ==> Full(Fs())
    {
      var addr;
      var off := off0 + tot;
      m := PieceSize(off, |src| - tot);
      ok, addr := Bmap(i, off / BSIZE);
      ghost var mid := Fs();
      if ok {
        Store(addr, Patched(blocks[addr], off % BSIZE, src[tot..tot + m]));
        StoreSound(mid, dataStart, i, off / BSIZE, blocks[addr]);
      }
      p := Step(old(Fs()), mid, Fs(), Blocks(old(log)), Blocks(log), tot, tot + m, off, off / BSIZE);
    }

    /** The loop of `writei`; t lists its passes. */
    method WriteLoop(i: nat, src: seq<byte>, off0: nat) returns (ok: bool, ghost t: seq<Step>)
      requires Sound() && Journaled() && log == [] && i < |inodes| && off0 + |src| <= MAXFILE * BSIZE
      modifies this`bitmap, this`blocks, this`inodes, this`log
      ensures Journaled()
      ensures ok ==> IsTrail(layout, dataStart, old(Fs()), t, i, off0, src) && EndTot(t) == |src|
      ensures ok ==> EndState(old(Fs()), t) == Fs() && EndSet(t) == Blocks(log)
      ensures !ok ==> Full(Fs())
    {
      t := [];
      var tot := 0;
      while tot < |src|
        invariant 0 <= tot <= |src| && i < |inodes| && Sound() && Journaled()
        invariant IsTrail(layout, dataStart, old(Fs()), t, i, off0, src) && EndTot(t) == tot
        invariant EndState(old(Fs()), t) == Fs() && EndSet(t) == Blocks(log)
      {
        var m;
        ghost var p;
        ok, m, p := WriteBlock(i, off0, src, tot);
        if !ok {
          return;
        }
        TrailNext(layout, dataStart, old(Fs()), t, p, i, off0, src);
        t := t + [p];
        tot := tot + m;
      }
      ok := true;
    }

    /** The end of `writei`: the size, and with it the inode on disk, follows a write past the end. */
    method UpdateSize(i: nat, n: nat, off: nat, ghost off0: nat)
      requires Shape(Fs()) && Journaled() && i < |inodes| && |dinodes| == |inodes|
      requires off == off0 + n && off0 <= inodes[i].size
      requires forall j :: 0 <= j < |inodes| && j != i ==> dinodes[j] == inodes[j]
      requires off <= inodes[i].size ==> dinodes[i] == inodes[i]
      modifies this`inodes, this`dinodes, this`log
      ensures Fs() == Resized(old(Fs()), i, Max(old(inodes[i].size), off)) && dinodes == inodes && Journaled()
      ensures Blocks(log) == Blocks(old(log)) + SizeSet(old(inodes[i].size), off, i)
    {
      if n > 0 && off > inodes[i].size {
        inodes := inodes[i := Inode(inodes[i].addrs, off)];
        IUpdate(i);
      } else {
        assert inodes[i := Inode(inodes[i].addrs, inodes[i].size)] == inodes;
      }
    }

    /** `writei` past its checks; t lists the passes of its loop. */
    method WriteChecked(i: nat, src: seq<byte>, off0: nat) returns (ok: bool, ghost t: seq<Step>)
      requires Valid() && Journaled() && log == []
      requires i < |inodes| && off0 <= inodes[i].size && off0 + |src| <= MAXFILE * BSIZE
      modifies this`bitmap, this`blocks, this`inodes, this`dinodes, this`log
      ensures !ok ==> Full(Fs())
      ensures ok ==> Valid() && |inodes| == |old(inodes)| && Journaled()
      ensures ok ==> Files(Fs()) == old(Files(Fs()))[i := Spliced(old(Files(Fs()))[i], off0, src)]
      ensures ok ==> IsTrail(layout, dataStart, old(Fs()), t, i, off0, src) && EndTot(t) == |src|
      ensures ok ==> Shape(EndState(old(Fs()), t)) && |EndState(old(Fs()), t).inodes| == |inodes|
      ensures ok ==> Fs() == Resized(EndState(old(Fs()), t), i, Max(old(inodes[i].size), off0 + |src|))
      ensures ok ==> Blocks(log) == EndSet(t) + SizeSet(old(inodes[i].size), off0 + |src|, i)
    {
      ghost var was := Fs();
      ok, t := WriteLoop(i, src, off0);
      if ok {
        LoopDone(layout, dataStart, was, t, i, off0, src);
        UpdateSize(i, |src|, off0 + |src|, off0);
      }
    }

    /** And what it has logged. */
    method WriteLogged(i: nat, src: seq<byte>, off0: nat) returns (ok: bool)
      requires Valid() && Journaled() && log == []
      requires i < |inodes| && off0 <= inodes[i].size && off0 + |src| <= MAXFILE * BSIZE
      modifies this`bitmap, this`blocks, this`inodes, this`dinodes, this`log
      ensures !ok ==> Full(Fs())
      ensures ok ==> Valid() && |inodes| == |old(inodes)| && Journaled()
      ensures ok ==> Files(Fs()) == old(Files(Fs()))[i := Spliced(old(Files(Fs()))[i], off0, src)]
      ensures ok ==> Blocks(log) == WriteSet(layout, old(Fs()), Fs(), i, off0, |src|)
      ensures ok && |blocks| <= BPB ==> |Blocks(log)| == LogCost(old(inodes[i].size), off0, |src|)
    {
      ghost var was := Fs();
      ghost var t;
      ok, t := WriteChecked(i, src, off0);
      if ok {
        LoopSet(layout, dataStart, was, t, i, off0, src, EndState(was, t), Fs(), Blocks(log));
        if |blocks| <= BPB {
          assert DenseTo(Fs(), i, inodes[i].size);
          WriteCost(layout, dataStart, was, Fs(), i, off0, |src|);
        }
      }
    }

    /** `writei` of a file: the flat sequence is spliced, all other files keep
        their contents, and the inode on disk agrees with the one in memory.
        The log accounts for the whole change of the disk, and lists exactly the blocks it must. */
    method WriteI(i: nat, src: seq<byte>, off0: nat) returns (ok: bool, r: int)
      requires Valid() && Journaled() && log == [] && i < |inodes| && off0 < UINT && |src| < UINT
      modifies this`bitmap, this`blocks, this`inodes, this`dinodes, this`log
      ensures !ok ==> Full(Fs())
      ensures ok ==> Valid() && |inodes| == |old(inodes)| && Journaled()
      ensures ok ==> (r == -1 <==> off0 > old(inodes[i].size) || off0 + |src| > MAXFILE * BSIZE)
      ensures ok && r == -1 ==> Fs() == old(Fs()) && log == []
      ensures ok && r != -1 ==>
                r == |src| && Files(Fs()) == old(Files(Fs()))[i := Spliced(old(Files(Fs()))[i], off0, src)]
      ensures ok && r != -1 ==> Blocks(log) == WriteSet(layout, old(Fs()), Fs(), i, off0, |src|)
      ensures ok && r != -1 && |blocks| <= BPB ==> |Blocks(log)| == LogCost(old(inodes[i].size), off0, |src|)
    {
      WrappedSum(off0, |src|);
      if off0 > inodes[i].size || (off0 + |src|) % UINT < off0 {
        return true, -1;
      }
      if (off0 + |src|) % UINT > MAXFILE * BSIZE {
        return true, -1;
      }
      ok := WriteLogged(i, src, off0);
      r := |src|;
    }

    /** What was written is what a later read of the same range returns. */
    method ReadBack(i: nat, src: seq<byte>, off0: nat) returns (ok: bool, w: int, r: int, dst: seq<byte>)
      requires Valid() && Journaled() && log == [] && i < |inodes| && off0 < UINT && |src| < UINT
      modifies this`bitmap, this`blocks, this`inodes, this`dinodes, this`log
      ensures ok ==> Valid() && (w == -1 <==> off0 > old(inodes[i].size) || off0 + |src| > MAXFILE * BSIZE)
      ensures ok && w != -1 ==> r == w == |src| && dst == src
      ensures !ok ==> Full(Fs())
    {
      r, dst := 0, [];
      ok, w := WriteI(i, src, off0);
      if ok && w != -1 {
        ghost var was := old(Files(Fs()))[i];
        r, dst := ReadI(i, off0, |src|);
        assert Files(Fs())[i] == Spliced(was, off0, src) && Spliced(was, off0, src)[off0..off0 + |src|] == src;
      }
    }

    /** `begin_op` and `writei`: the log since is that of one transaction. */
    method WriteTxn(i: nat, src: seq<byte>, off0: nat) returns (ok: bool, r: int)
      requires Valid() && i < |inodes| && off0 < UINT && |src| < UINT
      modifies this`bitmap, this`blocks, this`inodes, this`dinodes, this`before, this`log
      ensures !ok ==> Full(Fs())
      ensures ok ==> Valid() && |inodes| == |old(inodes)| && Journaled() && before == DiskOf(layout, old(Fs()))
      ensures ok ==> (r == -1 <==> off0 > old(inodes[i].size) || off0 + |src| > MAXFILE * BSIZE)
      ensures ok && r == -1 ==> Fs() == old(Fs())
      ensures ok && r != -1 ==>
                r == |src| && Files(Fs()) == old(Files(Fs()))[i := Spliced(old(Files(Fs()))[i], off0, src)]
    {
      Begin();
      ok, r := WriteI(i, src, off0);
    }

    /** One transaction of `filewrite`, from byte k on. */
    method FileChunk(i: nat, addr: seq<byte>, off0: nat, k: nat, ghost was: seq<seq<byte>>) returns (ok: bool, r: int)
      requires Valid() && i < |inodes| == |was| && k < |addr| < 0x8000_0000 && off0 + k < UINT
      requires WrittenTo(was, Files(Fs()), i, off0, addr, k)
      modifies this`bitmap, this`blocks, this`inodes, this`dinodes, this`before, this`log
      ensures !ok ==> Full(Fs())
      ensures ok ==> Valid() && |inodes| == |was| && (r == -1 || r == Min(|addr| - k, CHUNK))
      ensures ok && r != -1 ==> off0 <= |was[i]| && off0 + k + r <= MAXFILE * BSIZE
      ensures ok && r != -1 ==> WrittenTo(was, Files(Fs()), i, off0, addr, k + r)
      ensures ok && r != -1 ==> DiskOf(layout, Fs()) == Applied(DiskOf(layout, old(Fs())), log)
      ensures ok && r == -1 ==> Fs() == old(Fs())
      ensures ok && r == -1 ==> off0 > |was[i]| || off0 + k + Min(|addr| - k, CHUNK) > MAXFILE * BSIZE
    {
      var n1 := Min(|addr| - k, CHUNK);
      ghost var now := Files(Fs());
      assert |now[i]| == inodes[i].size;
      WrittenSize(was, now, i, off0, addr, k);
      ok, r := WriteTxn(i, addr[k..k + n1], off0 + k);
      if ok && r != -1 {
        WrittenNext(was, now, i, off0, addr, k, n1);
        AccountsDisk(layout, Fs(), before, log);
      }
    }

    /** One turn of the loop in `filewrite`: txns lists the transactions before and after it. */
    method FileTurn(i: nat, addr: seq<byte>, off0: nat, k: nat, ghost fs0: Fs, ghost txns: seq<Txn>)
      returns (ok: bool, r: int, ghost txns': seq<Txn>)
      requires Valid() && i < |inodes| && k < |addr| < 0x8000_0000 && off0 + k < UINT
      requires k == Min(|txns| * CHUNK, |addr|)
      requires IsHistory(layout, dataStart, fs0, txns) && StateAt(fs0, txns, |txns|) == Fs()
      requires |fs0.inodes| == |inodes| && InChunks(fs0, txns, i, off0, addr)
      modifies this`bitmap, this`blocks, this`inodes, this`dinodes, this`before, this`log
      ensures IsHistory(layout, dataStart, fs0, txns') && InChunks(fs0, txns', i, off0, addr)
      ensures !ok ==> Full(Fs())
      ensures ok ==> Valid() && |inodes| == |fs0.inodes| && StateAt(fs0, txns', |txns'|) == Fs()
      ensures ok && r != -1 ==> r > 0 && k + r == Min(|txns'| * CHUNK, |addr|)
      ensures ok && r != -1 ==> off0 <= fs0.inodes[i].size && off0 + k + r <= MAXFILE * BSIZE
      ensures ok && r == -1 ==> txns' == txns
      ensures ok && r == -1 ==> off0 > fs0.inodes[i].size || off0 + k + Min(|addr| - k, CHUNK) > MAXFILE * BSIZE
    {
      assert ChunkAt(fs0, txns, i, off0, addr, |txns|);
      txns' := txns;
      ok, r := FileChunk(i, addr, off0, k, Files(fs0));
      if ok && r != -1 {
        HistoryNext(layout, dataStart, fs0, txns, Txn(Fs(), log), i, off0, addr);
        txns' := txns + [Txn(Fs(), log)];
      }
    }

    /** `filewrite` to a file: however it is cut into transactions, what is written is one splice at the file offset,
        of all of addr or of the chunks that fit.  Each transaction leads from one sound file system to the next. */
    method FileWrite(i: nat, addr: seq<byte>, off0: nat) returns (ok: bool, r: int, off: nat, ghost txns: seq<Txn>)
      requires Valid() && i < |inodes| && off0 < UINT && |addr| < 0x8000_0000
      modifies this`bitmap, this`blocks, this`inodes, this`dinodes, this`before, this`log
      ensures !ok ==> Full(Fs())
      ensures ok ==> Valid() && |inodes| == |old(inodes)| && (r == |addr| || r == -1)
      ensures ok ==> off0 <= off <= off0 + |addr| && WrittenTo(old(Files(Fs())), Files(Fs()), i, off0, addr, off - off0)
      ensures ok && r == |addr| ==> off == off0 + |addr|
      ensures ok && r == |addr| && addr != [] ==> off0 <= old(inodes[i].size) && off <= MAXFILE * BSIZE
      ensures ok && r == -1 ==> off - off0 < |addr|
      ensures ok && r == -1 ==> off0 > old(inodes[i].size) || off + Min(off0 + |addr| - off, CHUNK) > MAXFILE * BSIZE
      ensures IsHistory(layout, dataStart, old(Fs()), txns) && InChunks(old(Fs()), txns, i, off0, addr)
      ensures ok ==> StateAt(old(Fs()), txns, |txns|) == Fs() && off - off0 == Min(|txns| * CHUNK, |addr|)
    {
      ghost var fs0 := Fs();
      var k := 0;
      off, txns := off0, [];
      NothingWritten(fs0, i, off0, addr);
      while k < |addr|
        invariant 0 <= k <= |addr| && off == off0 + k && off < UINT && k == Min(|txns| * CHUNK, |addr|)
        invariant Valid() && |inodes| == |fs0.inodes|
        invariant k > 0 ==> off0 <= fs0.inodes[i].size && off <= MAXFILE * BSIZE
        invariant IsHistory(layout, dataStart, fs0, txns) && StateAt(fs0, txns, |txns|) == Fs()
        invariant InChunks(fs0, txns, i, off0, addr)
      {
        ok, r, txns := FileTurn(i, addr, off0, k, fs0, txns);
        if !ok {
          return;
        }
        if r < 0 {
          break;
        }
        off, k := off + r, k + r;
      }
      assert ChunkAt(fs0, txns, i, off0, addr, |txns|);
      ok := true;
      r := if k == |addr| then k else -1;
    }

    /** Frees direct block k, as the bitmap was when the first k had been freed. */
    method FreeAddr(i: nat, k: nat, ghost was: Fs) returns (ok: bool)
      requires Owned(was, dataStart) && Journaled() && i < |inodes| == |was.inodes| && k < NDIRECT
      requires blocks == was.blocks
      requires |inodes[i].addrs| == NDIRECT + 1 && inodes[i].addrs[k] == was.inodes[i].addrs[k]
      requires FreedTo(was, i, k, bitmap)
      modifies this`bitmap, this`inodes, this`log
      ensures Journaled() && ok && FreedTo(was, i, k + 1, bitmap)
      ensures inodes == old(inodes)[i := Inode(old(inodes)[i].addrs[k := 0], old(inodes)[i].size)]
    {
      ok := true;
      FreeStep(was, dataStart, i, Direct(i, k), bitmap);
      if inodes[i].addrs[k] != 0 {
        ok := Bfree(inodes[i].addrs[k]);
        inodes := inodes[i := Inode(inodes[i].addrs[k := 0], inodes[i].size)];
      } else {
        assert inodes[i].addrs[k := 0] == inodes[i].addrs;
      }
    }

    /** Frees the direct blocks. */
    method FreeDirect(i: nat) returns (ok: bool)
      requires Sound() && Journaled() && i < |inodes|
      modifies this`bitmap, this`inodes, this`log
      ensures Journaled()
      ensures ok && FreedTo(old(Fs()), i, NDIRECT, bitmap)
      ensures inodes == old(inodes)[i := Inode(NoAddrs(NDIRECT) + [old(inodes)[i].addrs[NDIRECT]], old(inodes)[i].size)]
    {
      ghost var was := Fs();
      ok := true;
      for k := 0 to NDIRECT
        invariant ok && Journaled() && FreedTo(was, i, k, bitmap)
        invariant |inodes| == |was.inodes|
        invariant inodes == was.inodes[i := Inode(inodes[i].addrs, was.inodes[i].size)]
        invariant inodes[i].addrs == NoAddrs(k) + was.inodes[i].addrs[k..]
      {
        ok := FreeAddr(i, k, was);
        assert inodes[i].addrs == NoAddrs(k + 1) + was.inodes[i].addrs[k + 1..];
      }
      assert inodes[i].addrs == NoAddrs(NDIRECT) + [was.inodes[i].addrs[NDIRECT]];
    }

    /** Frees the blocks listed in the indirect block, then the indirect block. */
    method FreeIndirect(i: nat, ghost was: Fs) returns (ok: bool)
      requires Owned(was, dataStart) && i < |inodes| == |was.inodes| && blocks == was.blocks
      requires |inodes[i].addrs| == NDIRECT + 1 && inodes[i].addrs[NDIRECT] == Ref(was, Indirect(i)) != 0
      requires FreedTo(was, i, NDIRECT, bitmap)
      requires Journaled()
      modifies this`bitmap, this`log
      ensures Journaled()
      ensures ok && FreedTo(was, i, MAXFILE + 1, bitmap)
    {
      assert IsPlace(was, Indirect(i));
      var ind := inodes[i].addrs[NDIRECT];
      ok := true;
      for j := 0 to NINDIRECT
        invariant ok && Journaled() && FreedTo(was, i, NDIRECT + j, bitmap)
      {
        FreeStep(was, dataStart, i, Entry(i, j), bitmap);
        if Word(blocks[ind], j) != 0 {
          ok := Bfree(Word(blocks[ind], j));
        }
      }
      FreeStep(was, dataStart, i, Indirect(i), bitmap);
      ok := Bfree(ind);
    }

    /** `itrunc`: never panics, frees exactly the blocks the inode owned, each
        once, and leaves every other file alone. */
    method Itrunc(i: nat) returns (ok: bool)
      requires Valid() && Journaled() && i < |inodes|
      modifies this`bitmap, this`inodes, this`dinodes, this`log
      ensures ok && Valid() && Journaled() && |bitmap| == |old(bitmap)|
      ensures Fs() == Emptied(old(Fs()), i, bitmap)
      ensures forall b :: 0 <= b < |blocks| ==> (Bit(bitmap, b) <==> Bit(old(bitmap), b) && !OwnedBy(old(Fs()), i, b))
      ensures Files(Fs()) == old(Files(Fs()))[i := []]
    {
      ghost var was := Fs();
      ok := FreeDirect(i);
      if inodes[i].addrs[NDIRECT] != 0 {
        ok := FreeIndirect(i, was);
        inodes := inodes[i := Inode(inodes[i].addrs[NDIRECT := 0], inodes[i].size)];
      } else {
        NothingIndirect(was, i, bitmap);
      }
      TruncateDone(was, dataStart, i, bitmap);
      inodes := inodes[i := Inode(inodes[i].addrs, 0)];
      IUpdate(i);
      assert inodes[i].addrs == NoAddrs(NDIRECT + 1);
      assert inodes == was.inodes[i := Inode(NoAddrs(NDIRECT + 1), 0)];
    }
  }
}
