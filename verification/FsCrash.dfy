/**
 The file system on top of the log: what a reboot finds after the machine lost
 power at any block write of any operation, and what writes that log more than
 begin_op reserves do to the log.
 */
module FsCrash {
  import opened Types
  import opened FsLayout
  import opened FsOwnership
  import opened FsFiles
  import opened FsDisk
  import opened FsLogging
  import opened FileSystem
  import LD = LogDisk
  import LO = LogOverlap
  import LP = LogProtocol

  // ----- One operation after another, as the log sees them -----

  function Stores(id: nat, ws: seq<Write>): (h: seq<LP.Event>) {
    seq(|ws|, k requires 0 <= k < |ws| => LP.Store(id, ws[k].b, ws[k].v))
  }

  /** begin_op, the log_writes, end_op. */
  function Events(id: nat, ws: seq<Write>): (h: seq<LP.Event>) {
    [LP.Begin(id)] + Stores(id, ws) + [LP.End(id)]
  }

  /** The first n transactions, one after another; transaction k is operation ids[k]. */
  function History(ids: seq<nat>, txns: seq<Txn>, n: nat): (h: seq<LP.Event>)
    requires n <= |txns| == |ids|
  {
    if n == 0 then [] else History(ids, txns, n - 1) + Events(ids[n - 1], txns[n - 1].writes)
  }

  lemma {:induction false} EffectConcat(d: LD.Disk, h: seq<LP.Event>, h2: seq<LP.Event>)
    ensures LP.Effect(d, h + h2) == LP.Effect(LP.Effect(d, h), h2)
    decreases |h2|
  {
    if h2 == [] {
      assert h + h2 == h;
    } else {
      var r, e := h2[..|h2| - 1], h2[|h2| - 1];
      assert h + h2 == (h + r) + [e] && h2 == r + [e];
      EffectConcat(d, h, r);
      LP.Snoc(d, h + r, e);
      LP.Snoc(LP.Effect(d, h), r, e);
    }
  }

  /** The stores of an operation are its writes. */
  lemma {:induction false} EffectStores(d: LD.Disk, id: nat, ws: seq<Write>)
    ensures LP.Effect(d, Stores(id, ws)) == Applied(d, ws)
    decreases |ws|
  {
    if ws != [] {
      var r, w := ws[..|ws| - 1], ws[|ws| - 1];
      assert Stores(id, ws) == Stores(id, r) + [LP.Store(id, w.b, w.v)];
      EffectStores(d, id, r);
      LP.Snoc(d, Stores(id, r), LP.Store(id, w.b, w.v));
    }
  }

  lemma EffectEvents(d: LD.Disk, id: nat, ws: seq<Write>)
    ensures LP.Effect(d, Events(id, ws)) == Applied(d, ws)
  {
    EffectConcat(d, [LP.Begin(id)], Stores(id, ws));
    LP.Snoc(d, [], LP.Begin(id));
    assert [LP.Begin(id)] == [] + [LP.Begin(id)];
    EffectStores(d, id, ws);
    LP.Snoc(d, [LP.Begin(id)] + Stores(id, ws), LP.End(id));
  }

  /** After n whole transactions the home blocks are those of the n-th file system. */
  lemma {:induction false} HistoryDisk(l: Layout, was: Fs, ids: seq<nat>, txns: seq<Txn>, n: nat)
    requires IsHistory(l, l.dataStart, was, txns) && n <= |txns| == |ids|
    ensures GoodFs(l, l.dataStart, StateAt(was, txns, n))
    ensures LP.Effect(DiskOf(l, was), History(ids, txns, n)) == DiskOf(l, StateAt(was, txns, n))
  {
    if n > 0 {
      HistoryDisk(l, was, ids, txns, n - 1);
      assert TxnAt(l, l.dataStart, was, txns, n - 1);
      EffectConcat(DiskOf(l, was), History(ids, txns, n - 1), Events(ids[n - 1], txns[n - 1].writes));
      EffectEvents(DiskOf(l, StateAt(was, txns, n - 1)), ids[n - 1], txns[n - 1].writes);
    }
  }

  /** Inside a transaction its operation is open. */
  lemma {:induction false} OpenInside(h: seq<LP.Event>, id: nat, ws: seq<Write>, m: nat)
    requires LP.Open(h) == {} && m <= |Events(id, ws)|
    ensures LP.Open(h + Events(id, ws)[..m]) == if 0 < m < |Events(id, ws)| then {id} else {}
  {
    var es := Events(id, ws);
    if m == 0 {
      assert h + es[..0] == h;
    } else {
      OpenInside(h, id, ws, m - 1);
      assert h + es[..m] == (h + es[..m - 1]) + [es[m - 1]];
      LP.Snoc([], h + es[..m - 1], es[m - 1]);
    }
  }

  lemma {:induction false} HistoryClosed(ids: seq<nat>, txns: seq<Txn>, n: nat)
    requires n <= |txns| == |ids|
    ensures LP.Open(History(ids, txns, n)) == {}
  {
    if n > 0 {
      HistoryClosed(ids, txns, n - 1);
      var es := Events(ids[n - 1], txns[n - 1].writes);
      assert es[..|es|] == es;
      OpenInside(History(ids, txns, n - 1), ids[n - 1], txns[n - 1].writes, |es|);
    }
  }

  /** A beginning of the history in which no operation is open is made of whole transactions. */
  lemma {:induction false} WholeTransactions(ids: seq<nat>, txns: seq<Txn>, n: nat, h: seq<LP.Event>) returns (k: nat)
    requires n <= |txns| == |ids| && h <= History(ids, txns, n) && LP.Open(h) == {}
    ensures k <= n && h == History(ids, txns, k)
  {
    if n == 0 {
      k := 0;
    } else {
      var h0, es := History(ids, txns, n - 1), Events(ids[n - 1], txns[n - 1].writes);
      if |h| <= |h0| {
        assert h <= h0;
        k := WholeTransactions(ids, txns, n - 1, h);
      } else {
        var m := |h| - |h0|;
        assert h == h0 + es[..m];
        HistoryClosed(ids, txns, n - 1);
        OpenInside(h0, ids[n - 1], txns[n - 1].writes, m);
        assert m == |es| && es[..m] == es;
        k := n;
      }
    }
  }

  // ----- Crashes -----

  /** The machine runs these transactions one after another on a disk formatted with the file system was. */
  ghost predicate RunsOn(c: LP.Config, l: Layout, was: Fs, ids: seq<nat>, txns: seq<Txn>, s: LP.State) {
    && IsHistory(l, l.dataStart, was, txns) && |ids| == |txns|
    && c.start == |l.base| && c.format == DiskOf(l, was) && s.hist <= History(ids, txns, |txns|)
  }

  /** found is a sound file system that can be read from the home blocks d. */
  ghost predicate ReadFrom(l: Layout, d: LD.Disk, ninodes: nat, found: Fs) {
    GoodFs(l, l.dataStart, found) && |found.inodes| == ninodes && DiskOf(l, found) == d
  }

  /** Home blocks that hold fs leave no doubt about its files, unless one has a block in the log. */
  lemma RecoveredFiles(l: Layout, fs: Fs, found: Fs)
    requires GoodFs(l, l.dataStart, fs) && ReadFrom(l, DiskOf(l, fs), |fs.inodes|, found) && BelowLog(l, fs)
    ensures Files(found) == Files(fs) && BelowLog(l, found)
  {
    DiskDetermines(l, fs, found);
    forall i | 0 <= i < |fs.inodes| ensures Content(fs, i) == Content(found, i) {
      assert forall o :: 0 <= o < fs.inodes[i].size ==> Content(fs, i)[o] == Content(found, i)[o];
    }
    assert forall p :: IsPlace(found, p) ==> IsPlace(fs, p);
  }

  /** The home blocks after a reboot are those of a sound file system fs, and whatever sound file system is read from
      them has the blocks of fs in use, and has the files of fs unless one of these has a block in the log. */
  ghost predicate Recovers(c: LP.Config, l: Layout, s: LP.State, fs: Fs) {
    && GoodFs(l, l.dataStart, fs) && LD.GoodDisk(s.disk, c.start, c.size)
    && LD.Logical(s.disk, c.start, c.size) == DiskOf(l, fs)
    && (forall found :: ReadFrom(l, LD.Logical(s.disk, c.start, c.size), |fs.inodes|, found) ==> SameBits(fs, found))
    && (BelowLog(l, fs) ==>
          forall found :: ReadFrom(l, LD.Logical(s.disk, c.start, c.size), |fs.inodes|, found) ==>
            Files(found) == Files(fs))
  }

  lemma RecoversFiles(c: LP.Config, l: Layout, s: LP.State, fs: Fs)
    requires GoodFs(l, l.dataStart, fs) && LD.GoodDisk(s.disk, c.start, c.size)
    requires LD.Logical(s.disk, c.start, c.size) == DiskOf(l, fs)
    ensures Recovers(c, l, s, fs)
  {
    forall found | ReadFrom(l, LD.Logical(s.disk, c.start, c.size), |fs.inodes|, found) ensures SameBits(fs, found) {
      DiskBits(l, fs, found);
    }
    if BelowLog(l, fs) {
      forall found | ReadFrom(l, LD.Logical(s.disk, c.start, c.size), |fs.inodes|, found)
        ensures Files(found) == Files(fs)
      {
        RecoveredFiles(l, fs, found);
      }
    }
  }

  /** Whenever the machine loses power, at any block write of any transaction, of commit or of recovery itself, a
      reboot finds the file system after some number of whole transactions: bitmap, inodes and files. */
  lemma CrashSafe(c: LP.Config, l: Layout, was: Fs, ids: seq<nat>, txns: seq<Txn>, run: seq<LP.State>, i: nat)
    returns (k: nat)
    requires LP.IsRun(c, run) && i < |run| && RunsOn(c, l, was, ids, txns, run[i])
    ensures k <= |txns| && Recovers(c, l, run[i], StateAt(was, txns, k))
    ensures run[i].durable <= |run[i].hist| && run[i].hist[..run[i].durable] == History(ids, txns, k)
  {
    LP.GroupCommit(c, run, i);
    var h := run[i].hist[..run[i].durable];
    k := WholeTransactions(ids, txns, |txns|, h);
    HistoryDisk(l, was, ids, txns, k);
    RecoversFiles(c, l, run[i], StateAt(was, txns, k));
  }

  /** So after a crash in the middle of `filewrite` the file read back holds some number of whole chunks, and every
      other file is as it was, unless a file has a block in the log. */
  lemma FileWriteCrash(c: LP.Config, l: Layout, was: Fs, ids: seq<nat>, txns: seq<Txn>, run: seq<LP.State>, i: nat,
                       inum: nat, off: nat, addr: seq<byte>)
    returns (k: nat)
    requires LP.IsRun(c, run) && i < |run| && RunsOn(c, l, was, ids, txns, run[i])
    requires inum < |was.inodes| && InChunks(was, txns, inum, off, addr)
    ensures k <= |txns| && Recovers(c, l, run[i], StateAt(was, txns, k))
    ensures BelowLog(l, StateAt(was, txns, k)) ==>
              forall found :: ReadFrom(l, LD.Logical(run[i].disk, c.start, c.size), |was.inodes|, found) ==>
                WrittenTo(Files(was), Files(found), inum, off, addr, Min(k * CHUNK, |addr|))
  {
    k := CrashSafe(c, l, was, ids, txns, run, i);
    assert ChunkAt(was, txns, inum, off, addr, k);
    assert |Files(StateAt(was, txns, k))| == |was.inodes|;
  }

  // ----- Three chunks at once -----

  /** The first ten blocks of each of three files. */
  ghost function ChunkBlocks(fs: Fs, i0: nat, i1: nat, i2: nat): (bs: seq<int>)
    requires Shape(fs) && i0 < |fs.inodes| && i1 < |fs.inodes| && i2 < |fs.inodes|
  {
    seq(LD.LOGSIZE, x requires 0 <= x < LD.LOGSIZE => Ref(fs, TenthOf(i0, i1, i2, x)))
  }

  function TenthOf(i0: nat, i1: nat, i2: nat, x: nat): (p: Place) {
    DataPlace(if x < 10 then i0 else if x < 20 then i1 else i2, x % 10)
  }

  lemma ChunkThere(fs: Fs, i: nat, k: nat)
    requires Dense(fs) && i < |fs.inodes| && fs.inodes[i].size >= CHUNK && k < 13
    ensures Ref(fs, DataPlace(i, k)) != 0
  {
    assert DenseTo(fs, i, fs.inodes[i].size) && DenseAt(fs, i, fs.inodes[i].size, k);
  }

  lemma RewriteBlock(l: Layout, fs: Fs, now: Fs, i: nat, bn: nat)
    requires Shape(fs) && Shape(now) && SameRefs(fs, now) && i < |fs.inodes| && bn < MAXFILE
    requires Ref(fs, DataPlace(i, bn)) != 0
    ensures MapSet(l, fs, now, i, bn) == {} && Ref(now, DataPlace(i, bn)) == Ref(fs, DataPlace(i, bn))
  {
    assert IsPlace(fs, DataPlace(i, bn));
  }

  lemma {:induction false} RewriteBlocks(l: Layout, fs: Fs, now: Fs, i: nat, last: nat)
    requires Shape(fs) && Shape(now) && SameRefs(fs, now) && i < |fs.inodes| && last <= MAXFILE
    requires Without(fs, i, 0, last, 0)
    ensures DataSet(l, fs, now, i, 0, last) == RefSet(fs, i, 0, last)
    decreases last
  {
    if last > 0 {
      RewriteBlocks(l, fs, now, i, last - 1);
      RewriteBlock(l, fs, now, i, last - 1);
    }
  }

  lemma {:induction false} InRefSet(fs: Fs, i: nat, last: nat, k: nat)
    requires Shape(fs) && i < |fs.inodes| && k < last <= MAXFILE
    ensures Ref(fs, DataPlace(i, k)) in RefSet(fs, i, 0, last)
    decreases last
  {
    if k < last - 1 {
      InRefSet(fs, i, last - 1, k);
    }
  }

  lemma RewriteSet(l: Layout, fs: Fs, now: Fs, i: nat, blocks: nat)
    requires Shape(fs) && Shape(now) && i < |fs.inodes| && i < |now.inodes| && fs.inodes[i].size >= CHUNK
    requires blocks == 13
    ensures WriteSet(l, fs, now, i, 0, CHUNK) == DataSet(l, fs, now, i, 0, blocks)
    ensures LogCost(fs.inodes[i].size, 0, CHUNK) == blocks
  {
    assert Touched(0, CHUNK) == blocks;
  }

  /** Rewriting the first chunk of a file logs its thirteen blocks and nothing else. */
  lemma RewriteLogs(l: Layout, fs: Fs, now: Fs, i: nat, blocks: nat)
    requires Dense(fs) && Shape(now) && SameRefs(fs, now) && i < |fs.inodes| && fs.inodes[i].size >= CHUNK
    requires blocks == 13
    ensures WriteSet(l, fs, now, i, 0, CHUNK) == RefSet(fs, i, 0, blocks)
    ensures LogCost(fs.inodes[i].size, 0, CHUNK) == blocks
    ensures forall k :: 0 <= k < blocks ==> Ref(fs, DataPlace(i, k)) in RefSet(fs, i, 0, blocks)
  {
    forall k: nat | k < blocks
      ensures Ref(fs, DataPlace(i, k)) != 0 && Ref(fs, DataPlace(i, k)) in RefSet(fs, i, 0, blocks)
    {
      ChunkThere(fs, i, k);
      InRefSet(fs, i, blocks, k);
    }
    RewriteBlocks(l, fs, now, i, blocks);
    RewriteSet(l, fs, now, i, blocks);
  }

  lemma ChunkBlocksFull(c: LP.Config, fs: Fs, dataStart: nat, i0: nat, i1: nat, i2: nat)
    requires Owned(fs, dataStart) && Dense(fs) && i0 < |fs.inodes| && i1 < |fs.inodes| && i2 < |fs.inodes|
    requires i0 != i1 && i1 != i2 && i0 != i2
    requires fs.inodes[i0].size >= CHUNK && fs.inodes[i1].size >= CHUNK && fs.inodes[i2].size >= CHUNK
    requires forall p :: IsPlace(fs, p) ==> Ref(fs, p) < c.start
    ensures LP.FullList(c, ChunkBlocks(fs, i0, i1, i2))
    ensures Ref(fs, DataPlace(i2, 10)) < c.start && Ref(fs, DataPlace(i2, 10)) !in ChunkBlocks(fs, i0, i1, i2)
  {
    var bs, more := ChunkBlocks(fs, i0, i1, i2), DataPlace(i2, 10);
    assert IsPlace(fs, more);
    forall x | 0 <= x < LD.LOGSIZE ensures bs[x] != 0 && 0 <= bs[x] < c.start && bs[x] != Ref(fs, more) {
      var p := TenthOf(i0, i1, i2, x);
      ChunkThere(fs, p.i, x % 10);
      assert IsPlace(fs, p) && Apart(fs, p, more);
    }
    forall x, y | 0 <= x < y < LD.LOGSIZE ensures bs[x] != bs[y] {
      assert IsPlace(fs, TenthOf(i0, i1, i2, x)) && IsPlace(fs, TenthOf(i0, i1, i2, y));
      assert Apart(fs, TenthOf(i0, i1, i2, x), TenthOf(i0, i1, i2, y));
    }
  }

  /** Three processes rewrite a chunk of a file each.  begin_op admits them all, and each logs ten of its thirteen
      blocks.  The next block takes the list past its end if the cache has a buffer for it; with the LOGSIZE buffers of
      param.h it has none, and `bget` panics with all three operations open. */
  lemma ThreeChunksFail(c: LP.Config, v: LD.Block, fs: Fs, dataStart: nat, i0: nat, i1: nat, i2: nat)
    returns (run: seq<LP.State>)
    requires LP.Sized(c) && c.budget > LD.MAXOPBLOCKS
    requires Owned(fs, dataStart) && Dense(fs) && i0 < |fs.inodes| && i1 < |fs.inodes| && i2 < |fs.inodes|
    requires i0 != i1 && i1 != i2 && i0 != i2
    requires fs.inodes[i0].size >= CHUNK && fs.inodes[i1].size >= CHUNK && fs.inodes[i2].size >= CHUNK
    requires forall p :: IsPlace(fs, p) ==> Ref(fs, p) < c.start
    ensures LP.IsRun(c, run) && |run| > 1
    ensures run[|run| - 1].phase == LP.Panicked(if LD.LOGSIZE < c.nbuf then LP.Overrun else LP.NoBuffer)
    ensures var s := run[|run| - 2]; s.phase.Running? && s.outstanding == 3
    ensures LP.StoresIn(run[|run| - 2].hist, ChunkBlocks(fs, i0, i1, i2))
    ensures LD.LOGSIZE <= c.nbuf ==> run[|run| - 2].lh == ChunkBlocks(fs, i0, i1, i2)
    ensures LD.LOGSIZE < c.nbuf ==>
              LP.NextStep(c, run[|run| - 2], run[|run| - 1], LP.ListOverrun(2, Ref(fs, DataPlace(i2, 10))))
  {
    ChunkBlocksFull(c, fs, dataStart, i0, i1, i2);
    var bs := ChunkBlocks(fs, i0, i1, i2);
    run := LP.ListsFail(c, v, bs, Ref(fs, DataPlace(i2, 10)));
    assert bs[..LD.LOGSIZE] == bs;
  }

  // ----- Log blocks handed out as data blocks -----

  /** Once every block before the log is in use, and only then, `balloc` hands out a block of the log.  A transaction
      that lists it, and needs it as the log block of another of its blocks, does not commit what it logged. */
  lemma LogBlockHandedOut(l: Layout, fs: Fs, r: nat, m: LO.Medium, blocks: seq<int>)
    requires GoodFs(l, l.dataStart, fs) && LowestFree(fs, r)
    ensures r >= |l.base| <==> forall b :: 0 <= b < |l.base| ==> Bit(fs.bitmap, b)
    ensures LO.Listed(m, |l.base|, blocks) && LO.AllDiffer(m, blocks)
            && |l.base| < r <= |l.base| + |blocks| && r in blocks && blocks[r - |l.base| - 1] != r ==>
              !LO.CommitsAll(m, |l.base|, blocks)
  {
    if LO.Listed(m, |l.base|, blocks) && |l.base| < r <= |l.base| + |blocks| && r in blocks {
      LO.CommitsIff(m, |l.base|, blocks);
      var x := LD.IndexOf(blocks, r);
      assert blocks[x] == r;
    }
  }
}
