/**
 Which blocks a write logs, how many they are, and when they fit the budget
 that begin_op reserves for one operation.
 */
module FsLogging {
  import opened Types
  import opened FsLayout
  import opened FsOwnership
  import opened FsFiles
  import opened FsDisk
  import LogDisk

  /** What `balloc` logs: the block, zeroed, and its bitmap block. */
  function AllocSet(l: Layout, b: nat): (s: set<nat>) {
    {b, BitmapBlock(l, b)}
  }

  /** What `bmap` logs for block bn of file i: nothing if it is there; else what its allocation logs, the indirect block
      if it is listed there, and what allocating that one logs. */
  ghost function MapSet(l: Layout, was: Fs, now: Fs, i: nat, bn: nat): (s: set<nat>)
    requires Shape(was) && Shape(now) && i < |was.inodes| && i < |now.inodes| && bn < MAXFILE
  {
    if Ref(was, DataPlace(i, bn)) != 0 then {}
    else
      AllocSet(l, Ref(now, DataPlace(i, bn)))
      + (if bn < NDIRECT then {} else {Ref(now, Indirect(i))})
      + (if bn < NDIRECT || Ref(was, Indirect(i)) != 0 then {} else AllocSet(l, Ref(now, Indirect(i))))
  }

  /** What writing the blocks [bn, last) of file i logs between was and now: the blocks themselves and their mapping. */
  ghost function DataSet(l: Layout, was: Fs, now: Fs, i: nat, bn: nat, last: nat): (s: set<nat>)
    requires Shape(was) && Shape(now) && i < |was.inodes| && i < |now.inodes|
    decreases last
  {
    if last <= bn || last > MAXFILE then {}
    else DataSet(l, was, now, i, bn, last - 1) + MapSet(l, was, now, i, last - 1) + {Ref(now, DataPlace(i, last - 1))}
  }

  /** Of file i, only block bn and the indirect block may be new. */
  ghost predicate OnlyAt(now: Fs, fs': Fs, i: nat, bn: nat)
    requires Shape(now) && Shape(fs') && i < |now.inodes| && i < |fs'.inodes|
  {
    && (forall k :: 0 <= k < MAXFILE && k != bn ==> Ref(fs', DataPlace(i, k)) == Ref(now, DataPlace(i, k)))
    && (bn < NDIRECT || Ref(now, Indirect(i)) != 0 ==> Ref(fs', Indirect(i)) == Ref(now, Indirect(i)))
  }

  lemma {:induction false} DataSetSame(l: Layout, was: Fs, now: Fs, fs': Fs, i: nat, bn: nat, last: nat)
    requires Shape(was) && Shape(now) && Shape(fs') && i < |was.inodes| && i < |now.inodes| && i < |fs'.inodes|
    requires forall k :: bn <= k < last && k < MAXFILE ==> Ref(fs', DataPlace(i, k)) == Ref(now, DataPlace(i, k))
    requires last <= NDIRECT || Ref(was, Indirect(i)) != 0 || Ref(fs', Indirect(i)) == Ref(now, Indirect(i))
    requires Ref(was, Indirect(i)) != 0 ==> Ref(fs', Indirect(i)) == Ref(now, Indirect(i))
    ensures DataSet(l, was, fs', i, bn, last) == DataSet(l, was, now, i, bn, last)
  {
    if bn < last <= MAXFILE {
      DataSetSame(l, was, now, fs', i, bn, last - 1);
    }
  }

  /** The loop of `writei` stands at cur, in block bn, of a file that had the given size. */
  ghost predicate AtBlock(was: Fs, now: Fs, i: nat, size: nat, first: nat, bn: nat, cur: nat)
    requires Shape(was) && Shape(now) && i < |was.inodes| && i < |now.inodes|
  {
    && DenseTo(was, i, size) && DenseTo(now, i, Max(size, cur)) && first <= bn < MAXFILE && first * BSIZE <= size
    && bn * BSIZE <= cur && (cur <= size || cur == bn * BSIZE)
  }

  /** Whether block bn, and the indirect block, is new to this pass. */
  lemma NewAt(was: Fs, now: Fs, i: nat, size: nat, first: nat, bn: nat, cur: nat)
    requires Shape(was) && Shape(now) && i < |was.inodes| && i < |now.inodes|
    requires AtBlock(was, now, i, size, first, bn, cur)
    ensures Ref(now, DataPlace(i, bn)) == 0 <==> Ref(was, DataPlace(i, bn)) == 0
    ensures Ref(now, Indirect(i)) == 0 ==> Ref(was, Indirect(i)) == 0
    ensures bn <= NDIRECT ==> (Ref(now, Indirect(i)) == 0 <==> Ref(was, Indirect(i)) == 0)
    ensures NDIRECT < bn && Ref(was, Indirect(i)) == 0 ==> first <= bn - 1 && Ref(was, DataPlace(i, bn - 1)) == 0
  {
    assert DenseAt(was, i, size, bn) && DenseAt(now, i, Max(size, cur), bn);
    assert bn > 0 ==> DenseAt(was, i, size, bn - 1);
  }

  /** One pass of the loop logs the next block of the list. */
  lemma NextBlock(l: Layout, was: Fs, now: Fs, fs': Fs, i: nat, size: nat, first: nat, bn: nat, cur: nat)
    requires Shape(was) && Shape(now) && Shape(fs') && i < |was.inodes| && i < |now.inodes| && i < |fs'.inodes|
    requires AtBlock(was, now, i, size, first, bn, cur) && OnlyAt(now, fs', i, bn)
    ensures DataSet(l, was, fs', i, first, bn + 1)
         == DataSet(l, was, now, i, first, bn) + MapSet(l, now, fs', i, bn) + {Ref(fs', DataPlace(i, bn))}
  {
    NewAt(was, now, i, size, first, bn, cur);
    DataSetSame(l, was, now, fs', i, first, bn);
    if bn > NDIRECT && Ref(was, Indirect(i)) == 0 {
      assert AllocSet(l, Ref(fs', Indirect(i))) <= MapSet(l, was, fs', i, bn - 1);
      assert MapSet(l, was, fs', i, bn - 1) <= DataSet(l, was, fs', i, first, bn);
    }
  }

  // ----- The passes of writei -----

  /** How many blocks of a file n bytes at off lie in. */
  function Touched(off: nat, n: nat): (k: nat) {
    if n == 0 then 0 else (off + n - 1) / BSIZE - off / BSIZE + 1
  }

  /** Where the loop of `writei` stands after n passes, at offset off. */
  predicate AtPass(off0: nat, off: nat, end: nat, n: nat) {
    && off0 <= off <= end && (off < end ==> off / BSIZE == off0 / BSIZE + n)
    && if off == off0 then n == 0 else (off - 1) / BSIZE == off0 / BSIZE + n - 1
  }

  lemma NextPass(off0: nat, off: nat, end: nat, n: nat)
    requires AtPass(off0, off, end, n) && off < end
    ensures AtPass(off0, off + PieceSize(off, end - off), end, n + 1)
  {
  }

  lemma LastPass(off0: nat, end: nat, n: nat)
    requires off0 <= end && AtPass(off0, end, end, n)
    ensures n == Touched(off0, end - off0)
  {
  }

  lemma PassBlock(was: Fs, now: Fs, i: nat, off0: nat, off: nat, end: nat, n: nat)
    requires Shape(was) && Shape(now) && i < |was.inodes| && i < |now.inodes| && off0 <= was.inodes[i].size
    requires AtPass(off0, off, end, n) && off < end <= MAXFILE * BSIZE
    requires DenseTo(was, i, was.inodes[i].size) && DenseTo(now, i, Max(was.inodes[i].size, off))
    ensures AtBlock(was, now, i, was.inodes[i].size, off0 / BSIZE, off0 / BSIZE + n, off)
  {
  }

  /** One pass of the loop in `writei`: the file system before it, once the block is mapped and once the bytes are
      copied into it; the blocks logged and the bytes written before and after; the file offset and its block. */
  datatype Step = Step(now: Fs, mid: Fs, fs: Fs, s: set<nat>, s': set<nat>, tot: nat, tot': nat, at: nat, bn: nat)

  /** The pass of a write of src at off does what `writei` does. */
  ghost predicate Pass(l: Layout, dataStart: nat, p: Step, i: nat, off: nat, src: seq<byte>) {
    && p.at == off + p.tot && p.bn == p.at / BSIZE
    && p.tot < |src| && p.at < MAXFILE * BSIZE && p.tot' == p.tot + PieceSize(p.at, |src| - p.tot)
    && Mapped(p.now, p.mid, dataStart, i, p.bn)
    && var a := Ref(p.mid, DataPlace(i, p.bn));
       && a < |p.mid.blocks|
       && p.fs == FsOwnership.Fs(p.mid.bitmap,
                                 p.mid.blocks[a := Patched(p.mid.blocks[a], p.at % BSIZE, src[p.tot..p.tot'])],
                                 p.mid.inodes)
       && p.s' == p.s + MapSet(l, p.now, p.mid, i, p.bn) + {a}
  }

  /** Each pass begins where the one before it ended. */
  ghost predicate Joined(was: Fs, t: seq<Step>, k: nat)
    requires k < |t|
  {
    if k == 0 then t[k].now == was && t[k].s == {} && t[k].tot == 0
    else t[k].now == t[k - 1].fs && t[k].s == t[k - 1].s' && t[k].tot == t[k - 1].tot'
  }

  ghost predicate PassAt(l: Layout, dataStart: nat, was: Fs, t: seq<Step>, i: nat, off: nat, src: seq<byte>, k: nat)
    requires k < |t|
  {
    Joined(was, t, k) && Pass(l, dataStart, t[k], i, off, src)
  }

  ghost predicate IsTrail(l: Layout, dataStart: nat, was: Fs, t: seq<Step>, i: nat, off: nat, src: seq<byte>) {
    forall k :: 0 <= k < |t| ==> PassAt(l, dataStart, was, t, i, off, src, k)
  }

  function EndState(was: Fs, t: seq<Step>): (fs: Fs) {
    if t == [] then was else t[|t| - 1].fs
  }

  function EndSet(t: seq<Step>): (s: set<nat>) {
    if t == [] then {} else t[|t| - 1].s'
  }

  function EndTot(t: seq<Step>): (n: nat) {
    if t == [] then 0 else t[|t| - 1].tot'
  }

  lemma TrailNext(l: Layout, dataStart: nat, was: Fs, t: seq<Step>, p: Step, i: nat, off: nat, src: seq<byte>)
    requires IsTrail(l, dataStart, was, t, i, off, src) && Pass(l, dataStart, p, i, off, src)
    requires p.now == EndState(was, t) && p.s == EndSet(t) && p.tot == EndTot(t)
    ensures IsTrail(l, dataStart, was, t + [p], i, off, src)
    ensures EndState(was, t + [p]) == p.fs && EndSet(t + [p]) == p.s' && EndTot(t + [p]) == p.tot'
  {
    var t' := t + [p];
    forall k | 0 <= k < |t'| ensures PassAt(l, dataStart, was, t', i, off, src, k) {
      if k < |t| {
        assert PassAt(l, dataStart, was, t, i, off, src, k) && t'[k] == t[k];
      }
    }
  }

  lemma TrailLast(l: Layout, dataStart: nat, was: Fs, t: seq<Step>, i: nat, off: nat, src: seq<byte>)
    requires IsTrail(l, dataStart, was, t, i, off, src) && t != []
    ensures var r, p := t[..|t| - 1], t[|t| - 1];
            && IsTrail(l, dataStart, was, r, i, off, src) && Pass(l, dataStart, p, i, off, src)
            && p.now == EndState(was, r) && p.s == EndSet(r) && p.tot == EndTot(r)
  {
    var r := t[..|t| - 1];
    forall k | 0 <= k < |r| ensures PassAt(l, dataStart, was, r, i, off, src, k) {
      assert PassAt(l, dataStart, was, t, i, off, src, k) && r[k] == t[k];
    }
    assert PassAt(l, dataStart, was, t, i, off, src, |t| - 1);
  }

  /** What the passes have done to the files. */
  lemma PassProgress(l: Layout, dataStart: nat, was: Fs, p: Step, now: Fs, tot: nat, cur: nat, i: nat, off: nat,
                     src: seq<byte>)
    requires Pass(l, dataStart, p, i, off, src) && now == p.now && tot == p.tot && cur == off + tot
    requires Progress(was, now, dataStart, i, off, src, tot, cur)
    ensures Progress(was, p.fs, dataStart, i, off, src, p.tot', off + p.tot')
  {
    BlockStep(was, now, p.mid, dataStart, i, off, src, tot, p.tot', cur, p.bn, Ref(p.mid, DataPlace(i, p.bn)));
  }

  lemma {:induction false} TrailProgress(l: Layout, dataStart: nat, was: Fs, t: seq<Step>, i: nat, off: nat,
                                         src: seq<byte>)
    requires IsTrail(l, dataStart, was, t, i, off, src) && Progress(was, was, dataStart, i, off, src, 0, off)
    ensures Progress(was, EndState(was, t), dataStart, i, off, src, EndTot(t), off + EndTot(t))
  {
    if t != [] {
      var r, p := t[..|t| - 1], t[|t| - 1];
      TrailLast(l, dataStart, was, t, i, off, src);
      TrailProgress(l, dataStart, was, r, i, off, src);
      PassProgress(l, dataStart, was, p, EndState(was, r), EndTot(r), off + EndTot(r), i, off, src);
    }
  }

  /** Where they have come to. */
  lemma {:induction false} TrailPasses(l: Layout, dataStart: nat, was: Fs, t: seq<Step>, i: nat, off: nat,
                                       src: seq<byte>)
    requires IsTrail(l, dataStart, was, t, i, off, src)
    ensures AtPass(off, off + EndTot(t), off + |src|, |t|)
  {
    if t != [] {
      TrailLast(l, dataStart, was, t, i, off, src);
      TrailPasses(l, dataStart, was, t[..|t| - 1], i, off, src);
      NextPass(off, t[|t| - 1].at, off + |src|, |t| - 1);
    }
  }

  lemma TrailDense(l: Layout, dataStart: nat, was: Fs, t: seq<Step>, i: nat, off: nat, src: seq<byte>)
    requires IsTrail(l, dataStart, was, t, i, off, src) && Progress(was, was, dataStart, i, off, src, 0, off)
    ensures Shape(was) && i < |was.inodes| && Shape(EndState(was, t)) && i < |EndState(was, t).inodes|
    ensures DenseTo(EndState(was, t), i, Max(was.inodes[i].size, off + EndTot(t)))
  {
    TrailProgress(l, dataStart, was, t, i, off, src);
  }

  /** The blocks logged by the passes over [first, bn). */
  ghost predicate Noted(l: Layout, was: Fs, now: Fs, i: nat, first: nat, bn: nat, s: set<nat>) {
    && Shape(was) && Shape(now) && i < |was.inodes| && i < |now.inodes|
    && s == DataSet(l, was, now, i, first, bn)
  }

  lemma MappedOnlyAt(now: Fs, mid: Fs, fs': Fs, dataStart: nat, i: nat, bn: nat)
    requires Mapped(now, mid, dataStart, i, bn) && Shape(fs') && SameRefs(mid, fs')
    ensures OnlyAt(now, fs', i, bn)
    ensures Ref(fs', DataPlace(i, bn)) == Ref(mid, DataPlace(i, bn)) && Ref(fs', Indirect(i)) == Ref(mid, Indirect(i))
  {
    assert forall k :: 0 <= k < MAXFILE ==> IsPlace(now, DataPlace(i, k)) && IsPlace(mid, DataPlace(i, k));
    assert IsPlace(now, Indirect(i)) && IsPlace(mid, Indirect(i));
    assert forall k :: 0 <= k < MAXFILE && k != bn ==> DataPlace(i, k) != DataPlace(i, bn);
  }

  lemma PassNoted(l: Layout, dataStart: nat, was: Fs, p: Step, i: nat, off: nat, src: seq<byte>, size: nat, first: nat)
    requires Pass(l, dataStart, p, i, off, src) && Noted(l, was, p.now, i, first, p.bn, p.s)
    requires AtBlock(was, p.now, i, size, first, p.bn, p.at)
    ensures Noted(l, was, p.fs, i, first, p.bn + 1, p.s')
  {
    StoreBlock(p.mid, dataStart, i, p.bn, p.fs.blocks[Ref(p.mid, DataPlace(i, p.bn))]);
    MappedOnlyAt(p.now, p.mid, p.fs, dataStart, i, p.bn);
    NextBlock(l, was, p.now, p.fs, i, size, first, p.bn, p.at);
  }

  /** A file system that `writei` may find, and a write of src at off that passes its checks. */
  ghost predicate Ready(was: Fs, dataStart: nat, i: nat, off: nat, src: seq<byte>) {
    && Owned(was, dataStart) && NoLeak(was, dataStart) && Dense(was)
    && i < |was.inodes| && off <= was.inodes[i].size && off + |src| <= MAXFILE * BSIZE
  }

  /** What is known when a pass begins. */
  lemma BeforePass(l: Layout, dataStart: nat, was: Fs, r: seq<Step>, p: Step, i: nat, off: nat, src: seq<byte>,
                   first: nat)
    requires IsTrail(l, dataStart, was, r, i, off, src) && Ready(was, dataStart, i, off, src) && first == off / BSIZE
    requires p.now == EndState(was, r) && p.tot == EndTot(r) < |src| && p.at == off + p.tot && p.bn == p.at / BSIZE
    ensures p.bn == first + |r| && Shape(p.now) && i < |p.now.inodes|
    ensures AtBlock(was, p.now, i, was.inodes[i].size, first, p.bn, p.at)
  {
    ProgressStart(was, dataStart, i, off, src);
    TrailPasses(l, dataStart, was, r, i, off, src);
    TrailDense(l, dataStart, was, r, i, off, src);
    assert DenseTo(was, i, was.inodes[i].size);
    PassBlock(was, p.now, i, off, p.at, off + |src|, |r|);
  }

  lemma NotedStep(l: Layout, dataStart: nat, was: Fs, p: Step, now: Fs, s: set<nat>, i: nat, off: nat, src: seq<byte>,
                  first: nat, bn: nat)
    requires Shape(was) && i < |was.inodes| && Shape(p.now) && i < |p.now.inodes|
    requires Pass(l, dataStart, p, i, off, src) && AtBlock(was, p.now, i, was.inodes[i].size, first, p.bn, p.at)
    requires Noted(l, was, now, i, first, bn, s) && now == p.now && bn == p.bn && s == p.s
    ensures Noted(l, was, p.fs, i, first, bn + 1, p.s')
  {
    PassNoted(l, dataStart, was, p, i, off, src, was.inodes[i].size, first);
  }

  /** What they have logged. */
  lemma {:induction false} TrailNoted(l: Layout, dataStart: nat, was: Fs, t: seq<Step>, i: nat, off: nat,
                                      src: seq<byte>, first: nat)
    requires IsTrail(l, dataStart, was, t, i, off, src) && Ready(was, dataStart, i, off, src) && first == off / BSIZE
    ensures Noted(l, was, EndState(was, t), i, first, first + |t|, EndSet(t))
  {
    if t != [] {
      var r, p := t[..|t| - 1], t[|t| - 1];
      TrailLast(l, dataStart, was, t, i, off, src);
      TrailNoted(l, dataStart, was, r, i, off, src, first);
      BeforePass(l, dataStart, was, r, p, i, off, src, first);
      NotedStep(l, dataStart, was, p, EndState(was, r), EndSet(r), i, off, src, first, first + |r|);
    }
  }

  // ----- All of writei -----

  /** What a whole `writei` of n bytes at off logs: the blocks it writes to, what mapping them logs, and the inode if
      the file grows. */
  ghost function WriteSet(l: Layout, was: Fs, now: Fs, i: nat, off: nat, n: nat): (s: set<nat>)
    requires Shape(was) && Shape(now) && i < |was.inodes| && i < |now.inodes|
  {
    DataSet(l, was, now, i, off / BSIZE, off / BSIZE + Touched(off, n)) + SizeSet(was.inodes[i].size, off + n, i)
  }

  function SizeSet(size: nat, end: nat, i: nat): (s: set<nat>) {
    if end > size then {InodeBlock(i)} else {}
  }

  lemma ResizeNoted(l: Layout, was: Fs, now: Fs, i: nat, size: nat, bn: nat, last: nat)
    requires Shape(was) && Shape(now) && i < |was.inodes| && i < |now.inodes|
    ensures DataSet(l, was, Resized(now, i, size), i, bn, last) == DataSet(l, was, now, i, bn, last)
  {
    DataSetSame(l, was, now, Resized(now, i, size), i, bn, last);
  }

  /** The whole loop, as the end of `writei` finds it. */
  lemma LoopDone(l: Layout, dataStart: nat, was: Fs, t: seq<Step>, i: nat, off: nat, src: seq<byte>)
    requires IsTrail(l, dataStart, was, t, i, off, src) && EndTot(t) == |src| && Ready(was, dataStart, i, off, src)
    ensures Shape(EndState(was, t)) && Finished(was, EndState(was, t), dataStart, i, off, src)
  {
    ProgressStart(was, dataStart, i, off, src);
    TrailProgress(l, dataStart, was, t, i, off, src);
    WriteDone(was, EndState(was, t), dataStart, i, off, src);
  }

  lemma LoopNoted(l: Layout, dataStart: nat, was: Fs, t: seq<Step>, i: nat, off: nat, src: seq<byte>)
    requires IsTrail(l, dataStart, was, t, i, off, src) && EndTot(t) == |src| && Ready(was, dataStart, i, off, src)
    ensures Noted(l, was, EndState(was, t), i, off / BSIZE, off / BSIZE + Touched(off, |src|), EndSet(t))
  {
    TrailNoted(l, dataStart, was, t, i, off, src, off / BSIZE);
    TrailPasses(l, dataStart, was, t, i, off, src);
    LastPass(off, off + |src|, |t|);
  }

  /** And what all of it has logged in the end. */
  lemma LoopLogged(l: Layout, was: Fs, now: Fs, i: nat, off: nat, n: nat, s: set<nat>)
    requires Noted(l, was, now, i, off / BSIZE, off / BSIZE + Touched(off, n), s)
    ensures var size := was.inodes[i].size;
            WriteSet(l, was, Resized(now, i, Max(size, off + n)), i, off, n) == s + SizeSet(size, off + n, i)
  {
    ResizeNoted(l, was, now, i, Max(was.inodes[i].size, off + n), off / BSIZE, off / BSIZE + Touched(off, n));
  }

  lemma LoopSet(l: Layout, dataStart: nat, was: Fs, t: seq<Step>, i: nat, off: nat, src: seq<byte>, now: Fs, fs': Fs,
                s: set<nat>)
    requires IsTrail(l, dataStart, was, t, i, off, src) && EndTot(t) == |src| && Ready(was, dataStart, i, off, src)
    requires now == EndState(was, t) && Shape(now) && i < |now.inodes|
    requires fs' == Resized(now, i, Max(was.inodes[i].size, off + |src|))
    requires s == EndSet(t) + SizeSet(was.inodes[i].size, off + |src|, i)
    ensures s == WriteSet(l, was, fs', i, off, |src|)
  {
    LoopNoted(l, dataStart, was, t, i, off, src);
    LoopLogged(l, was, EndState(was, t), i, off, |src|, EndSet(t));
  }

  // ----- How many blocks that is -----

  /** The last block of the write was not there. */
  predicate Allocates(size: nat, off: nat, n: nat) {
    n > 0 && (off + n - 1) / BSIZE * BSIZE >= size
  }

  /** How many blocks `writei` of n bytes at off logs, on a disk with one bitmap block: the blocks it writes to, the
      bitmap block and the indirect block if it allocates, the inode block if the file grows. */
  function LogCost(size: nat, off: nat, n: nat): (k: nat) {
    Touched(off, n)
    + (if Allocates(size, off, n) then 1 else 0)
    + (if Allocates(size, off, n) && (off + n - 1) / BSIZE >= NDIRECT then 1 else 0)
    + (if off + n > size then 1 else 0)
  }

  /** The blocks [bn, last) of file i. */
  ghost function RefSet(fs: Fs, i: nat, bn: nat, last: nat): (s: set<nat>)
    requires Shape(fs) && i < |fs.inodes| && last <= MAXFILE
    decreases last
  {
    if last <= bn then {} else RefSet(fs, i, bn, last - 1) + {Ref(fs, DataPlace(i, last - 1))}
  }

  /** They are in place, and none of them is block b. */
  ghost predicate Without(fs: Fs, i: nat, bn: nat, last: nat, b: nat)
    requires Shape(fs) && i < |fs.inodes| && last <= MAXFILE
  {
    forall k: nat :: bn <= k < last ==> Ref(fs, DataPlace(i, k)) != b
  }

  lemma {:induction false} NotInRefSet(fs: Fs, i: nat, bn: nat, last: nat, b: nat)
    requires Shape(fs) && i < |fs.inodes| && last <= MAXFILE && Without(fs, i, bn, last, b)
    ensures b !in RefSet(fs, i, bn, last)
    decreases last
  {
    if bn < last {
      NotInRefSet(fs, i, bn, last - 1, b);
    }
  }

  /** Each of them differs from all before it. */
  ghost predicate AllApart(fs: Fs, i: nat, bn: nat, last: nat)
    requires Shape(fs) && i < |fs.inodes| && last <= MAXFILE
  {
    forall k: nat :: bn <= k < last ==> Without(fs, i, bn, k, Ref(fs, DataPlace(i, k)))
  }

  lemma FileApart(fs: Fs, dataStart: nat, i: nat, bn: nat, last: nat)
    requires Owned(fs, dataStart) && i < |fs.inodes| && last <= MAXFILE && Without(fs, i, bn, last, 0)
    ensures AllApart(fs, i, bn, last)
  {
    forall k: nat | bn <= k < last ensures Without(fs, i, bn, k, Ref(fs, DataPlace(i, k))) {
      forall j: nat | bn <= j < k ensures Ref(fs, DataPlace(i, j)) != Ref(fs, DataPlace(i, k)) {
        assert IsPlace(fs, DataPlace(i, j)) && IsPlace(fs, DataPlace(i, k));
        assert Apart(fs, DataPlace(i, j), DataPlace(i, k));
      }
    }
  }

  lemma {:induction false} RefSetSize(fs: Fs, i: nat, bn: nat, last: nat, k: nat)
    requires Shape(fs) && i < |fs.inodes| && bn <= k <= last <= MAXFILE && AllApart(fs, i, bn, last)
    ensures |RefSet(fs, i, bn, k)| == k - bn
    decreases k
  {
    if bn < k {
      RefSetSize(fs, i, bn, last, k - 1);
      assert Without(fs, i, bn, k - 1, Ref(fs, DataPlace(i, k - 1)));
      NotInRefSet(fs, i, bn, k - 1, Ref(fs, DataPlace(i, k - 1)));
    }
  }

  /** What allocating for the blocks up to last adds: the bitmap block bb, and the indirect block ind. */
  function Extra(size: nat, bn: nat, last: nat, bb: nat, ind: nat): (s: set<nat>) {
    if bn < last && (last - 1) * BSIZE >= size then {bb} + (if last - 1 >= NDIRECT then {ind} else {}) else {}
  }

  /** The bitmap fits one block. */
  ghost predicate OneBitmap(l: Layout, fs: Fs) {
    Fits(l, fs) && |fs.blocks| <= BPB
  }

  lemma OnlyBitmapBlock(l: Layout, b: nat)
    requires b < BPB
    ensures BitmapBlock(l, b) == BitmapBlock(l, 0)
  {
  }

  /** What mapping block bn logs, in terms of the old size. */
  function NewSet(size: nat, bn: nat, r: nat, bb: nat, ind: nat): (s: set<nat>) {
    if bn * BSIZE < size then {} else {r, bb} + (if bn >= NDIRECT then {ind} else {})
  }

  lemma MapSetIs(l: Layout, dataStart: nat, was: Fs, now: Fs, i: nat, bn: nat, size: nat)
    requires Shape(was) && Owned(now, dataStart) && OneBitmap(l, now) && i < |was.inodes| && i < |now.inodes|
    requires bn < MAXFILE
    requires DenseTo(was, i, size)
    ensures MapSet(l, was, now, i, bn)
         == NewSet(size, bn, Ref(now, DataPlace(i, bn)), BitmapBlock(l, 0), Ref(now, Indirect(i)))
  {
    assert DenseAt(was, i, size, bn);
    assert IsPlace(now, DataPlace(i, bn)) && IsPlace(now, Indirect(i));
    OnlyBitmapBlock(l, Ref(now, DataPlace(i, bn)));
    OnlyBitmapBlock(l, Ref(now, Indirect(i)));
  }

  lemma PartsStep(refs: set<nat>, r: nat, size: nat, bn: nat, last: nat, bb: nat, ind: nat)
    requires bn < last
    ensures refs + Extra(size, bn, last - 1, bb, ind) + NewSet(size, last - 1, r, bb, ind) + {r}
         == refs + {r} + Extra(size, bn, last, bb, ind)
  {
  }

  /** The blocks written to, and what allocating them adds. */
  ghost predicate InParts(l: Layout, was: Fs, now: Fs, i: nat, bn: nat, last: nat, size: nat)
    requires Shape(was) && Shape(now) && i < |was.inodes| && i < |now.inodes| && last <= MAXFILE
  {
    DataSet(l, was, now, i, bn, last)
    == RefSet(now, i, bn, last) + Extra(size, bn, last, BitmapBlock(l, 0), Ref(now, Indirect(i)))
  }

  lemma PartsNext(l: Layout, was: Fs, now: Fs, i: nat, bn: nat, last: nat, size: nat)
    requires Shape(was) && Shape(now) && i < |was.inodes| && i < |now.inodes| && bn < last <= MAXFILE
    requires InParts(l, was, now, i, bn, last - 1, size)
    requires MapSet(l, was, now, i, last - 1)
          == NewSet(size, last - 1, Ref(now, DataPlace(i, last - 1)), BitmapBlock(l, 0), Ref(now, Indirect(i)))
    ensures InParts(l, was, now, i, bn, last, size)
  {
    PartsStep(RefSet(now, i, bn, last - 1), Ref(now, DataPlace(i, last - 1)), size, bn, last, BitmapBlock(l, 0),
              Ref(now, Indirect(i)));
  }

  lemma {:induction false} DataSetParts(l: Layout, dataStart: nat, was: Fs, now: Fs, i: nat, bn: nat, last: nat,
                                        size: nat)
    requires Shape(was) && Owned(now, dataStart) && OneBitmap(l, now) && i < |was.inodes| && i < |now.inodes|
    requires bn <= last <= MAXFILE
    requires DenseTo(was, i, size)
    ensures InParts(l, was, now, i, bn, last, size)
    decreases last
  {
    if bn < last {
      DataSetParts(l, dataStart, was, now, i, bn, last - 1, size);
      MapSetIs(l, dataStart, was, now, i, last - 1, size);
      PartsNext(l, was, now, i, bn, last, size);
    }
  }

  lemma ExtraSize(size: nat, bn: nat, last: nat, bb: nat, ind: nat, refs: set<nat>, inode: nat, grows: bool)
    requires bb !in refs && ind !in refs && bb != ind && inode !in refs && inode != bb && inode != ind
    ensures |refs + Extra(size, bn, last, bb, ind) + (if grows then {inode} else {})|
         == |refs| + (if bn < last && (last - 1) * BSIZE >= size then if last - 1 >= NDIRECT then 2 else 1 else 0)
                   + (if grows then 1 else 0)
  {
    var s := refs + Extra(size, bn, last, bb, ind);
    assert |s| == |refs| + |Extra(size, bn, last, bb, ind)| by {
      assert refs !! Extra(size, bn, last, bb, ind);
    }
    assert inode !in s;
  }

  lemma TouchedRange(off: nat, n: nat, first: nat, last: nat)
    requires first == off / BSIZE && last == first + Touched(off, n) && off + n <= MAXFILE * BSIZE
    ensures first <= last && (n > 0 ==> first < last <= MAXFILE)
    ensures n > 0 ==> last - 1 == (off + n - 1) / BSIZE && (last - 1) * BSIZE < off + n
  {
  }

  lemma RangeCost(l: Layout, dataStart: nat, was: Fs, now: Fs, i: nat, first: nat, last: nat, size: nat, end: nat)
    requires Shape(was) && Owned(now, dataStart) && l.dataStart == dataStart && OneBitmap(l, now)
    requires i < |was.inodes| && i < |now.inodes| && first < last <= MAXFILE && (last - 1) * BSIZE < end
    requires DenseTo(was, i, size) && DenseTo(now, i, Max(size, end))
    ensures |DataSet(l, was, now, i, first, last) + SizeSet(size, end, i)|
         == CostOf(size, end, first, last)
  {
    DataSetParts(l, dataStart, was, now, i, first, last, size);
    WriteRefs(l, dataStart, now, i, first, last, Max(size, end));
    ExtraSize(size, first, last, BitmapBlock(l, 0), Ref(now, Indirect(i)), RefSet(now, i, first, last), InodeBlock(i),
              end > size);
  }

  lemma CostOfRange(size: nat, off: nat, n: nat, first: nat, last: nat)
    requires n > 0 && first == off / BSIZE && last == first + Touched(off, n) && off + n <= MAXFILE * BSIZE
    ensures first < last <= MAXFILE && (last - 1) * BSIZE < off + n
    ensures LogCost(size, off, n) == CostOf(size, off + n, first, last)
  {
    TouchedRange(off, n, first, last);
  }

  /** What a write to the blocks [first, last), up to offset end, costs. */
  function CostOf(size: nat, end: nat, first: nat, last: nat): (k: int)
    requires last > 0
  {
    last - first
    + (if (last - 1) * BSIZE >= size then if last - 1 >= NDIRECT then 2 else 1 else 0)
    + (if end > size then 1 else 0)
  }

  ghost predicate RangesCost(l: Layout, was: Fs, now: Fs, i: nat, size: nat, end: nat)
    requires Shape(was) && Shape(now) && i < |was.inodes| && i < |now.inodes|
  {
    forall first: nat, last: nat {:trigger DataSet(l, was, now, i, first, last)} ::
      first < last <= MAXFILE && (last - 1) * BSIZE < end ==>
        |DataSet(l, was, now, i, first, last) + SizeSet(size, end, i)| == CostOf(size, end, first, last)
  }

  lemma AllRanges(l: Layout, dataStart: nat, was: Fs, now: Fs, i: nat, size: nat, end: nat)
    requires Shape(was) && Owned(now, dataStart) && l.dataStart == dataStart && OneBitmap(l, now)
    requires i < |was.inodes| && i < |now.inodes| && DenseTo(was, i, size) && DenseTo(now, i, Max(size, end))
    ensures RangesCost(l, was, now, i, size, end)
  {
    forall first: nat, last: nat | first < last <= MAXFILE && (last - 1) * BSIZE < end
      ensures |DataSet(l, was, now, i, first, last) + SizeSet(size, end, i)| == CostOf(size, end, first, last)
    {
      RangeCost(l, dataStart, was, now, i, first, last, size, end);
    }
  }

  lemma SomeCost(l: Layout, was: Fs, now: Fs, i: nat, off: nat, n: nat)
    requires Shape(was) && Shape(now) && i < |was.inodes| && i < |now.inodes| && 0 < n && off + n <= MAXFILE * BSIZE
    requires RangesCost(l, was, now, i, was.inodes[i].size, off + n)
    ensures |WriteSet(l, was, now, i, off, n)| == LogCost(was.inodes[i].size, off, n)
  {
    var first, last := off / BSIZE, off / BSIZE + Touched(off, n);
    CostOfRange(was.inodes[i].size, off, n, first, last);
  }

  lemma NoCost(l: Layout, was: Fs, now: Fs, i: nat, off: nat)
    requires Shape(was) && Shape(now) && i < |was.inodes| && i < |now.inodes| && off <= was.inodes[i].size
    ensures |WriteSet(l, was, now, i, off, 0)| == 0 == LogCost(was.inodes[i].size, off, 0)
  {
  }

  /** The number of blocks a write logs follows from the file's size, the offset and the length. */
  lemma WriteCost(l: Layout, dataStart: nat, was: Fs, now: Fs, i: nat, off: nat, n: nat)
    requires Dense(was) && Owned(now, dataStart) && l.dataStart == dataStart && OneBitmap(l, now)
    requires i < |was.inodes| && i < |now.inodes| && off <= was.inodes[i].size && off + n <= MAXFILE * BSIZE
    requires DenseTo(now, i, Max(was.inodes[i].size, off + n))
    ensures |WriteSet(l, was, now, i, off, n)| == LogCost(was.inodes[i].size, off, n)
  {
    if n == 0 {
      NoCost(l, was, now, i, off);
    } else {
      assert DenseTo(was, i, was.inodes[i].size);
      AllRanges(l, dataStart, was, now, i, was.inodes[i].size, off + n);
      SomeCost(l, was, now, i, off, n);
    }
  }

  lemma FileRefs(now: Fs, dataStart: nat, i: nat, first: nat, last: nat, size: nat)
    requires Owned(now, dataStart) && i < |now.inodes| && first < last <= MAXFILE && (last - 1) * BSIZE < size
    requires DenseTo(now, i, size)
    ensures Without(now, i, first, last, Ref(now, Indirect(i)))
    ensures forall k: nat :: first <= k < last ==> dataStart <= Ref(now, DataPlace(i, k))
  {
    assert IsPlace(now, Indirect(i));
    forall k: nat | first <= k < last
      ensures dataStart <= Ref(now, DataPlace(i, k)) && Ref(now, DataPlace(i, k)) != Ref(now, Indirect(i))
    {
      assert DenseAt(now, i, size, k);
      assert IsPlace(now, DataPlace(i, k)) && Apart(now, DataPlace(i, k), Indirect(i));
    }
  }

  /** Inode blocks, then bitmap blocks, then data blocks. */
  lemma Areas(l: Layout, fs: Fs, i: nat)
    requires Fits(l, fs) && i < |fs.inodes|
    ensures 0 < InodeBlock(i) < BitmapBlock(l, 0) < l.dataStart
  {
  }

  lemma WriteRefs(l: Layout, dataStart: nat, now: Fs, i: nat, first: nat, last: nat, size: nat)
    requires Owned(now, dataStart) && l.dataStart == dataStart && Fits(l, now) && i < |now.inodes|
    requires first < last <= MAXFILE && (last - 1) * BSIZE < size && DenseTo(now, i, size)
    ensures var refs, bb, ind := RefSet(now, i, first, last), BitmapBlock(l, 0), Ref(now, Indirect(i));
            && |refs| == last - first && bb !in refs && InodeBlock(i) !in refs && InodeBlock(i) < bb
            && ind !in refs && ind != bb && ind != InodeBlock(i)
  {
    FileRefs(now, dataStart, i, first, last, size);
    Areas(l, now, i);
    FileApart(now, dataStart, i, first, last);
    RefSetSize(now, i, first, last, last);
    NotInRefSet(now, i, first, last, Ref(now, Indirect(i)));
    NotInRefSet(now, i, first, last, BitmapBlock(l, 0));
    NotInRefSet(now, i, first, last, InodeBlock(i));
    assert IsPlace(now, Indirect(i));
  }

  // ----- The budget of one operation -----

  /** max of `filewrite`. */
  const CHUNK := (LogDisk.LOGSIZE - 1 - 1 - 2) / 2 * 512

  /** The longest write that fits the budget wherever it goes. */
  const SAFE := 3073

  /** No write of a full chunk keeps to the MAXOPBLOCKS blocks that begin_op reserves. */
  lemma ChunkBudget(size: nat, off: nat)
    requires off <= size
    ensures LogCost(size, off, CHUNK) > LogDisk.MAXOPBLOCKS
  {
    assert Touched(off, CHUNK) >= 13;
  }

  /** Nor does one of ten blocks to an empty file, although it writes to no more blocks than are reserved. */
  lemma TenBlocks()
    ensures Touched(0, 5120) == LogDisk.MAXOPBLOCKS && LogCost(0, 0, 5120) == LogDisk.MAXOPBLOCKS + 2
  {
  }

  /** What a write of n bytes may cost at most. */
  lemma CostBound(size: nat, off: nat, n: nat)
    ensures n <= SAFE ==> LogCost(size, off, n) <= LogDisk.MAXOPBLOCKS
  {
    if 0 < n <= SAFE {
      assert Touched(off, n) <= 7;
    }
  }

  /** Writes of n bytes keep to the budget at every offset of every file if and only if n is at most SAFE. */
  lemma SafeChunk(n: nat)
    requires n <= MAXFILE * BSIZE
    ensures (forall size: nat, off: nat :: off <= size <= MAXFILE * BSIZE && off + n <= MAXFILE * BSIZE ==>
               LogCost(size, off, n) <= LogDisk.MAXOPBLOCKS) <==> n <= SAFE
  {
    if n <= SAFE {
      forall size: nat, off: nat ensures LogCost(size, off, n) <= LogDisk.MAXOPBLOCKS {
        CostBound(size, off, n);
      }
    } else if n <= 5120 {
      // From the last byte of block NDIRECT on: as many blocks as possible, the last one new and listed indirectly.
      var off := NDIRECT * BSIZE + BSIZE - 1;
      assert LogCost(off, off, n) > LogDisk.MAXOPBLOCKS;
    } else {
      assert LogCost(0, 0, n) > LogDisk.MAXOPBLOCKS;
    }
  }
}
