/**
 Any number of file system operations at once.  Each begins and ends as the log
 sees it, and in between writes and truncates files, one inode lock at a time;
 one step is what an operation does to one block, under the lock of that block's
 buffer.  Operations mark, link and free blocks of the same bitmap, and share
 inode blocks and the transaction that commits them.
 */
module FsInterleave {
  import opened Types
  import opened FsLayout
  import opened FsOwnership
  import opened FsFiles
  import opened FsDisk
  import opened FsFrames
  import opened FileSystem
  import opened FsCrash
  import LD = LogDisk
  import LP = LogProtocol

  const MAXSIZE := MAXFILE * BSIZE

  /** Where `writei` or `itrunc` stands.  Zero, Link: block r is marked, and then zeroed, for a place that lacks one. */
  datatype Pc = Map | Zero(r: nat) | Link(r: nat) | Update | Unlock

  /**
   WriteAt: tot bytes of src are written at off; size0 and bytes0 are history, the file as it was locked.
   Empty: the blocks left to free.
   */
  datatype Task = WriteAt(off: nat, src: seq<byte>, tot: nat, size0: nat, bytes0: seq<byte>) | Empty(left: set<nat>)

  /** What an operation does with the inode it has locked. */
  datatype Job = Job(inum: nat, task: Task, pc: Pc)

  /** An operation between two inode locks, or inside one. */
  datatype Work = Outside | Busy(job: Job)

  /**
   fs: bitmap, blocks and the inodes in memory.  dinodes: the inodes as `iupdate` left them in the buffers.
   hands: blocks that are in nobody's file while an operation works on them.  hist: what the log has seen.
   files is the specification: what users should find, each write and truncation happening as its lock is released.
   */
  datatype State = State(fs: Fs, dinodes: seq<Inode>, ops: map<nat, Work>, hands: set<nat>, hist: seq<LP.Event>,
                         files: seq<seq<byte>>)

  datatype Step =
    | Begin(id: nat)
    | End(id: nat)
    | LockWrite(id: nat, inum: nat, off: nat, src: seq<byte>)
    | LockTrunc(id: nat, inum: nat)
    | Mark(id: nat, r: nat)
    | ZeroBlock(id: nat)
    | LinkBlock(id: nat)
    | Copy(id: nat)
    | Finish(id: nat)
    | FreeBlock(id: nat, b: nat)
    | FreeDone(id: nat)
    | UpdateInode(id: nat)
    | Release(id: nat)

  function HandOf(w: Work): (s: set<nat>) {
    if w.Outside? then {}
    else if w.job.task.Empty? then w.job.task.left
    else if w.job.pc.Zero? || w.job.pc.Link? then {w.job.pc.r}
    else {}
  }

  predicate HasJob(s: State, id: nat) {
    id in s.ops && s.ops[id].Busy?
  }

  predicate IsLocked(s: State, i: nat) {
    exists id :: id in s.ops && s.ops[id].Busy? && s.ops[id].job.inum == i
  }

  /** The disk as the buffers have it. */
  function OnDisk(s: State): (fs: Fs) {
    Fs(s.fs.bitmap, s.fs.blocks, s.dinodes)
  }

  /** All bytes the blocks of a file can hold. */
  ghost function AllBytes(fs: Fs, i: nat): (bytes: seq<byte>)
    requires Shape(fs) && i < |fs.inodes|
    ensures |bytes| == MAXSIZE
  {
    seq(MAXSIZE, o requires 0 <= o < MAXSIZE => Byte(fs, i, o))
  }

  /** The place that is to get a block before block bn of the file can be written: the indirect block, or its own. */
  ghost function NextPlace(fs: Fs, i: nat, bn: nat): (p: Place)
    requires Shape(fs) && i < |fs.inodes| && bn < MAXFILE
    ensures p.i == i && IsPlace(fs, p)
  {
    if bn >= NDIRECT && Ref(fs, Indirect(i)) == 0 then Indirect(i) else DataPlace(i, bn)
  }

  /** The offset a write has come to. */
  function Cur(t: Task): (o: nat)
    requires t.WriteAt?
  {
    t.off + t.tot
  }

  /** Operation id is inside a write with bytes left. */
  predicate Writing(s: State, id: nat) {
    && HasJob(s, id) && s.ops[id].job.inum < |s.fs.inodes| && s.ops[id].job.task.WriteAt?
    && var t := s.ops[id].job.task; t.tot < |t.src| && Cur(t) < MAXSIZE
  }

  function SetJob(s: State, id: nat, j: Job): (s': State) {
    s.(ops := s.ops[id := Busy(j)])
  }

  /** Block x is logged as it is now. */
  function LogBlock(l: Layout, s: State, id: nat, x: nat): (s': State)
    requires Fits(l, OnDisk(s)) && x < |s.fs.blocks|
  {
    s.(hist := s.hist + [LP.Store(id, x, Contents(l, OnDisk(s), x))])
  }

  // ----- Steps -----

  ghost predicate Begins(s: State, s': State, id: nat) {
    id !in s.ops && s' == s.(ops := s.ops[id := Outside], hist := s.hist + [LP.Begin(id)])
  }

  ghost predicate Ends(s: State, s': State, id: nat) {
    id in s.ops && s.ops[id].Outside? && s' == s.(ops := s.ops - {id}, hist := s.hist + [LP.End(id)])
  }

  /** `ilock` and the tests of `writei`; a write that it refuses writes nothing. */
  ghost predicate LocksWrite(s: State, s': State, id: nat, i: nat, off: nat, src: seq<byte>) {
    && id in s.ops && s.ops[id].Outside? && i < |s.fs.inodes| && !IsLocked(s, i) && Shape(s.fs)
    && var size, fine := s.fs.inodes[i].size, off <= s.fs.inodes[i].size && off + |src| <= MAXSIZE;
       var task := WriteAt(if fine then off else 0, if fine then src else [], 0, size, AllBytes(s.fs, i));
       s' == SetJob(s, id, Job(i, task, Map))
  }

  /** `ilock` and the beginning of `itrunc`: from here on the file has no blocks, and the operation has them. */
  ghost predicate LocksTrunc(s: State, s': State, id: nat, i: nat) {
    && id in s.ops && s.ops[id].Outside? && i < |s.fs.inodes| && !IsLocked(s, i) && Shape(s.fs)
    && var mine := BlocksOf(s.fs, i);
       s' == SetJob(s, id, Job(i, Empty(mine), Map)).(fs := Emptied(s.fs, i, s.fs.bitmap), hands := s.hands + mine)
  }

  /** The bitmap half of `balloc`, on some free block r. */
  ghost predicate Marks(l: Layout, s: State, s': State, id: nat, r: nat) {
    && Writing(s, id) && s.ops[id].job.pc.Map? && Fits(l, s.fs) && Fits(l, OnDisk(s))
    && r < |s.fs.blocks| && !Bit(s.fs.bitmap, r)
    && var j := s.ops[id].job;
       && Ref(s.fs, DataPlace(j.inum, Cur(j.task) / BSIZE)) == 0
       && var t := SetJob(s, id, j.(pc := Zero(r)))
                   .(fs := s.fs.(bitmap := SetBit(s.fs.bitmap, r)), hands := s.hands + {r});
          Fits(l, OnDisk(t)) && BitmapBlock(l, r) < |t.fs.blocks| && s' == LogBlock(l, t, id, BitmapBlock(l, r))
  }

  /** `bzero` */
  ghost predicate Zeroes(l: Layout, s: State, s': State, id: nat) {
    && Writing(s, id) && s.ops[id].job.pc.Zero?
    && var j := s.ops[id].job;
       && j.pc.r < |s.fs.blocks|
       && var t := SetJob(s, id, j.(pc := Link(j.pc.r))).(fs := s.fs.(blocks := s.fs.blocks[j.pc.r := Zeros()]));
          Fits(l, OnDisk(t)) && s' == LogBlock(l, t, id, j.pc.r)
  }

  /** `bmap` stores the block number, in memory or in the indirect block. */
  ghost predicate Links(l: Layout, s: State, s': State, id: nat) {
    && Writing(s, id) && s.ops[id].job.pc.Link? && Shape(s.fs)
    && var j := s.ops[id].job;
       var p, ind := NextPlace(s.fs, j.inum, Cur(j.task) / BSIZE), s.fs.inodes[j.inum].addrs[NDIRECT];
       && j.pc.r < UINT && (p.Entry? ==> 0 < ind < |s.fs.blocks|)
       && var t := SetJob(s, id, j.(pc := Map)).(fs := Linked(s.fs, p, j.pc.r), hands := s.hands - {j.pc.r});
          if p.Entry? then Fits(l, OnDisk(t)) && ind < |t.fs.blocks| && s' == LogBlock(l, t, id, ind) else s' == t
  }

  /** One pass of `writei`, its block there. */
  ghost predicate Copies(l: Layout, s: State, s': State, id: nat) {
    && Writing(s, id) && s.ops[id].job.pc.Map? && Shape(s.fs)
    && var j := s.ops[id].job;
       var cur, a := Cur(j.task), Ref(s.fs, DataPlace(j.inum, Cur(j.task) / BSIZE));
       && 0 < a < |s.fs.blocks|
       && var m := PieceSize(cur, |j.task.src| - j.task.tot);
          var data := Patched(s.fs.blocks[a], cur % BSIZE, j.task.src[j.task.tot..j.task.tot + m]);
          var t := SetJob(s, id, j.(task := j.task.(tot := j.task.tot + m)))
                   .(fs := s.fs.(blocks := s.fs.blocks[a := data]));
          Fits(l, OnDisk(t)) && s' == LogBlock(l, t, id, a)
  }

  /** The end of `writei`: the size follows a write past the end. */
  ghost predicate Finishes(s: State, s': State, id: nat) {
    && HasJob(s, id) && s.ops[id].job.task.WriteAt? && s.ops[id].job.pc.Map? && Shape(s.fs)
    && var j := s.ops[id].job;
       && j.task.tot == |j.task.src| && j.inum < |s.fs.inodes|
       && s' == if |j.task.src| > 0 && Cur(j.task) > s.fs.inodes[j.inum].size
                then SetJob(s, id, j.(pc := Update)).(fs := Resized(s.fs, j.inum, Cur(j.task)))
                else SetJob(s, id, j.(pc := Unlock))
  }

  /** `bfree` in `itrunc`. */
  ghost predicate Frees(l: Layout, s: State, s': State, id: nat, b: nat) {
    && HasJob(s, id) && s.ops[id].job.task.Empty? && s.ops[id].job.pc.Map? && b in s.ops[id].job.task.left
    && Fits(l, s.fs) && Fits(l, OnDisk(s)) && b < |s.fs.blocks|
    && var j := s.ops[id].job;
       var t := SetJob(s, id, j.(task := Empty(j.task.left - {b}))).(fs := s.fs.(bitmap := ClearBit(s.fs.bitmap, b)),
                                                         hands := s.hands - {b});
       Fits(l, OnDisk(t)) && BitmapBlock(l, b) < |t.fs.blocks| && s' == LogBlock(l, t, id, BitmapBlock(l, b))
  }

  ghost predicate FreesAll(s: State, s': State, id: nat) {
    && HasJob(s, id) && s.ops[id].job.task.Empty? && s.ops[id].job.pc.Map? && s.ops[id].job.task.left == {}
    && s' == SetJob(s, id, s.ops[id].job.(pc := Update))
  }

  /** `iupdate` */
  ghost predicate Updates(l: Layout, s: State, s': State, id: nat) {
    && HasJob(s, id) && s.ops[id].job.pc.Update?
    && var j := s.ops[id].job;
       && j.inum < |s.dinodes| && j.inum < |s.fs.inodes|
       && var t := SetJob(s, id, j.(pc := Unlock)).(dinodes := s.dinodes[j.inum := s.fs.inodes[j.inum]]);
          Fits(l, OnDisk(t)) && InodeBlock(j.inum) < |t.fs.blocks| && s' == LogBlock(l, t, id, InodeBlock(j.inum))
  }

  /** What the file is to be once the job is done. */
  function Outcome(j: Job, was: seq<byte>): (r: seq<byte>) {
    if j.task.Empty? then [] else if j.task.off <= |was| then Spliced(was, j.task.off, j.task.src) else was
  }

  /** `iunlock` */
  ghost predicate Releases(s: State, s': State, id: nat) {
    && HasJob(s, id) && s.ops[id].job.pc.Unlock?
    && var j := s.ops[id].job;
       && j.inum < |s.files|
       && s' == s.(ops := s.ops[id := Outside], files := s.files[j.inum := Outcome(j, s.files[j.inum])])
  }

  ghost predicate NextStep(l: Layout, s: State, s': State, step: Step) {
    match step
    case Begin(id) => Begins(s, s', id)
    case End(id) => Ends(s, s', id)
    case LockWrite(id, i, off, src) => LocksWrite(s, s', id, i, off, src)
    case LockTrunc(id, i) => LocksTrunc(s, s', id, i)
    case Mark(id, r) => Marks(l, s, s', id, r)
    case ZeroBlock(id) => Zeroes(l, s, s', id)
    case LinkBlock(id) => Links(l, s, s', id)
    case Copy(id) => Copies(l, s, s', id)
    case Finish(id) => Finishes(s, s', id)
    case FreeBlock(id, b) => Frees(l, s, s', id, b)
    case FreeDone(id) => FreesAll(s, s', id)
    case UpdateInode(id) => Updates(l, s, s', id)
    case Release(id) => Releases(s, s', id)
  }

  ghost predicate Next(l: Layout, s: State, s': State) {
    exists step :: NextStep(l, s, s', step)
  }

  ghost predicate Init(l: Layout, was: Fs, s: State) {
    GoodFs(l, l.dataStart, was) && s == State(was, was.inodes, map[], {}, [], Files(was))
  }

  ghost predicate IsRun(l: Layout, was: Fs, run: seq<State>) {
    run != [] && Init(l, was, run[0]) && forall k :: 0 < k < |run| ==> StepTo(l, run, k)
  }

  ghost predicate StepTo(l: Layout, run: seq<State>, k: nat)
    requires 0 < k < |run|
  {
    Next(l, run[k - 1], run[k])
  }

  // ----- The invariant -----

  /** A truncation: the file has no blocks any more. */
  ghost predicate EmptyOk(fs: Fs, dinodes: seq<Inode>, j: Job)
    requires j.inum < |fs.inodes| == |dinodes| && j.task.Empty?
  {
    && fs.inodes[j.inum] == Inode(NoAddrs(NDIRECT + 1), 0) && !j.pc.Zero? && !j.pc.Link?
    && (j.pc.Map? || j.task.left == {}) && (j.pc.Unlock? ==> dinodes[j.inum] == fs.inodes[j.inum])
  }

  /** A write with bytes left: the blocks are those up to the bytes written, but for the one it is mapping. */
  ghost predicate PartOk(fs: Fs, dinodes: seq<Inode>, j: Job)
    requires Shape(fs) && j.inum < |fs.inodes| == |dinodes| && j.task.WriteAt? && Cur(j.task) < MAXSIZE
  {
    var t, bn := j.task, Cur(j.task) / BSIZE;
    && !j.pc.Update? && !j.pc.Unlock? && fs.inodes[j.inum].size == t.size0
    && Partly(fs, j.inum, Max(t.size0, Cur(t)), bn)
    && (!j.pc.Map? ==> Ref(fs, DataPlace(j.inum, bn)) == 0)
    && (j.pc.Link? ==> j.pc.r < |fs.blocks| && fs.blocks[j.pc.r] == Zeros())
    && (t.off + |t.src| <= t.size0 ==> dinodes[j.inum] == fs.inodes[j.inum])
  }

  /** A write with all bytes in place. */
  ghost predicate DoneOk(fs: Fs, dinodes: seq<Inode>, j: Job)
    requires Shape(fs) && j.inum < |fs.inodes| == |dinodes| && j.task.WriteAt?
  {
    var t := j.task;
    && !j.pc.Zero? && !j.pc.Link? && DenseTo(fs, j.inum, Max(t.size0, t.off + |t.src|))
    && fs.inodes[j.inum].size == (if j.pc.Map? then t.size0 else Max(t.size0, t.off + |t.src|))
    && (j.pc.Unlock? || (j.pc.Map? && t.off + |t.src| <= t.size0) ==> dinodes[j.inum] == fs.inodes[j.inum])
  }

  ghost predicate WriteOk(fs: Fs, dinodes: seq<Inode>, files: seq<seq<byte>>, j: Job)
    requires Shape(fs) && j.inum < |fs.inodes| == |dinodes| == |files| && j.task.WriteAt?
  {
    var t := j.task;
    && t.off <= t.size0 <= MAXSIZE && t.off + |t.src| <= MAXSIZE && t.tot <= |t.src|
    && |t.bytes0| == MAXSIZE && files[j.inum] == t.bytes0[..t.size0]
    && Written(fs, j.inum, t.off, t.src, t.tot, t.bytes0)
    && if t.tot < |t.src| then PartOk(fs, dinodes, j) else DoneOk(fs, dinodes, j)
  }

  ghost predicate JobOk(fs: Fs, dinodes: seq<Inode>, files: seq<seq<byte>>, j: Job)
    requires Shape(fs)
  {
    && j.inum < |fs.inodes| == |dinodes| == |files|
    && if j.task.Empty? then EmptyOk(fs, dinodes, j) else WriteOk(fs, dinodes, files, j)
  }

  /** A file nobody has locked is on disk as it is in memory, and is what users should find. */
  ghost predicate Rest(fs: Fs, dinodes: seq<Inode>, files: seq<seq<byte>>, j: nat)
    requires Shape(fs)
  {
    && j < |fs.inodes| == |dinodes| == |files| && dinodes[j] == fs.inodes[j] && fs.inodes[j].size <= MAXSIZE
    && DenseTo(fs, j, fs.inodes[j].size) && Content(fs, j) == files[j]
  }

  ghost predicate JobsOk(s: State)
    requires Shape(s.fs)
  {
    forall id :: HasJob(s, id) ==> JobOk(s.fs, s.dinodes, s.files, s.ops[id].job)
  }

  /** No two operations have the same inode or the same block. */
  ghost predicate Alone(s: State) {
    forall a, b :: HasJob(s, a) && HasJob(s, b) && a != b ==>
      s.ops[a].job.inum != s.ops[b].job.inum && HandOf(s.ops[a]) !! HandOf(s.ops[b])
  }

  ghost predicate InHand(s: State, b: nat) {
    exists id :: HasJob(s, id) && b in HandOf(s.ops[id])
  }

  ghost predicate HandsMatch(s: State) {
    forall b :: b in s.hands <==> InHand(s, b)
  }

  ghost predicate RestOk(s: State)
    requires Shape(s.fs)
  {
    forall j :: 0 <= j < |s.fs.inodes| && !IsLocked(s, j) ==> Rest(s.fs, s.dinodes, s.files, j)
  }

  /** The log accounts for the disk, and knows who is at work. */
  ghost predicate LogOk(l: Layout, was: Fs, s: State) {
    && Fits(l, was) && Fits(l, OnDisk(s)) && LP.Effect(DiskOf(l, was), s.hist) == DiskOf(l, OnDisk(s))
    && LP.Open(s.hist) == s.ops.Keys
  }

  ghost predicate Sizes(l: Layout, s: State) {
    Fits(l, s.fs) && |s.dinodes| == |s.fs.inodes| == |s.files|
  }

  ghost predicate Inv(l: Layout, was: Fs, s: State) {
    && Sizes(l, s) && Kept(s.fs, l.dataStart, s.hands) && LogOk(l, was, s)
    && JobsOk(s) && Alone(s) && HandsMatch(s) && RestOk(s)
  }

  lemma InitInv(l: Layout, was: Fs, s: State)
    requires Init(l, was, s)
    ensures Inv(l, was, s)
  {
    KeptNoLeak(was, l.dataStart);
    forall j | 0 <= j < |was.inodes| ensures Rest(s.fs, s.dinodes, s.files, j) {
      assert DenseTo(was, j, was.inodes[j].size);
    }
  }

  // ----- What a step leaves alone -----

  /** A job whose file, whose inode on disk and whose blocks in hand are the same. */
  lemma JobFrame(fs: Fs, fs': Fs, dinodes: seq<Inode>, dinodes': seq<Inode>,
                 files: seq<seq<byte>>, files': seq<seq<byte>>, j: Job)
    requires Shape(fs) && Shape(fs') && JobOk(fs, dinodes, files, j) && SameFile(fs, fs', j.inum)
    requires |fs'.inodes| == |fs.inodes| == |dinodes'| == |files'| && |fs'.blocks| == |fs.blocks|
    requires dinodes'[j.inum] == dinodes[j.inum] && files'[j.inum] == files[j.inum]
    requires forall b :: b in HandOf(Busy(j)) && b < |fs.blocks| ==> fs'.blocks[b] == fs.blocks[b]
    ensures JobOk(fs', dinodes', files', j)
  {
    if j.task.WriteAt? {
      var t := j.task;
      WrittenSame(fs, fs', j.inum, t.off, t.src, t.tot, t.bytes0);
      if t.tot < |t.src| {
        SamePartly(fs, fs', j.inum, Max(t.size0, Cur(t)), Cur(t) / BSIZE);
        assert IsPlace(fs, DataPlace(j.inum, Cur(t) / BSIZE));
      } else {
        SameDense(fs, fs', j.inum, Max(t.size0, t.off + |t.src|));
      }
    }
  }

  lemma RestFrame(fs: Fs, fs': Fs, dinodes: seq<Inode>, dinodes': seq<Inode>,
                  files: seq<seq<byte>>, files': seq<seq<byte>>, j: nat)
    requires Shape(fs) && Shape(fs') && Rest(fs, dinodes, files, j) && SameFile(fs, fs', j)
    requires |fs'.inodes| == |fs.inodes| == |dinodes'| == |files'|
    requires dinodes'[j] == dinodes[j] && files'[j] == files[j]
    ensures Rest(fs', dinodes', files', j)
  {
    SameDense(fs, fs', j, fs.inodes[j].size);
    SameContent(fs, fs', j);
  }

  /** Operation id works on inode i: what it may change, and what it must leave. */
  ghost predicate WorksOn(l: Layout, s: State, s': State, id: nat, i: nat)
    requires Sizes(l, s)
  {
    && id in s.ops && id in s'.ops && s'.ops == s.ops[id := s'.ops[id]] && i < |s.fs.inodes|
    && (if s.ops[id].Busy? then s.ops[id].job.inum == i else !IsLocked(s, i))
    && Sizes(l, s') && |s'.fs.inodes| == |s.fs.inodes| && |s'.fs.blocks| == |s.fs.blocks|
    && OnlyFile(s.fs, s'.fs, i)
    && (forall j :: 0 <= j < |s.dinodes| && j != i ==> s'.dinodes[j] == s.dinodes[j] && s'.files[j] == s.files[j])
    && s'.hands == s.hands - HandOf(s.ops[id]) + HandOf(s'.ops[id])
    && HandOf(s'.ops[id]) !! s.hands - HandOf(s.ops[id])
    && (forall b :: b in s.hands - HandOf(s.ops[id]) && b < |s.fs.blocks| ==> s'.fs.blocks[b] == s.fs.blocks[b])
  }

  /** And how it must leave its own inode. */
  ghost predicate LeavesOk(s: State, id: nat, i: nat)
    requires Shape(s.fs) && id in s.ops
  {
    if s.ops[id].Busy? then s.ops[id].job.inum == i && JobOk(s.fs, s.dinodes, s.files, s.ops[id].job)
    else Rest(s.fs, s.dinodes, s.files, i)
  }

  lemma OthersJob(l: Layout, was: Fs, s: State, s': State, id: nat, i: nat, x: nat)
    requires Inv(l, was, s) && WorksOn(l, s, s', id, i) && x != id && HasJob(s', x)
    ensures HasJob(s, x) && s.ops[x] == s'.ops[x] && s.ops[x].job.inum != i
    ensures HandOf(s.ops[x]) <= s.hands - HandOf(s.ops[id])
    ensures JobOk(s'.fs, s'.dinodes, s'.files, s'.ops[x].job)
  {
    var j := s.ops[x].job;
    assert JobOk(s.fs, s.dinodes, s.files, j);
    assert j.inum != i;
    forall b | b in HandOf(s.ops[x]) ensures b in s.hands - HandOf(s.ops[id]) {
      assert InHand(s, b);
    }
    JobFrame(s.fs, s'.fs, s.dinodes, s'.dinodes, s.files, s'.files, j);
  }

  lemma WorkHands(l: Layout, was: Fs, s: State, s': State, id: nat, i: nat, b: nat)
    requires Inv(l, was, s) && WorksOn(l, s, s', id, i)
    ensures b in s'.hands <==> InHand(s', b)
  {
    if b in s'.hands && b !in HandOf(s'.ops[id]) {
      assert InHand(s, b);
      var x :| HasJob(s, x) && b in HandOf(s.ops[x]);
      assert HasJob(s', x) && b in HandOf(s'.ops[x]);
    } else if b in HandOf(s'.ops[id]) {
      assert HasJob(s', id);
    }
    if InHand(s', b) {
      var x :| HasJob(s', x) && b in HandOf(s'.ops[x]);
      if x != id {
        OthersJob(l, was, s, s', id, i, x);
      }
    }
  }

  lemma WorkAlone(l: Layout, was: Fs, s: State, s': State, id: nat, i: nat)
    requires Inv(l, was, s) && WorksOn(l, s, s', id, i) && LeavesOk(s', id, i)
    ensures Alone(s')
  {
    forall a, b | HasJob(s', a) && HasJob(s', b) && a != b
      ensures s'.ops[a].job.inum != s'.ops[b].job.inum && HandOf(s'.ops[a]) !! HandOf(s'.ops[b])
    {
      if a != id {
        OthersJob(l, was, s, s', id, i, a);
      }
      if b != id {
        OthersJob(l, was, s, s', id, i, b);
      }
    }
  }

  lemma WorkRest(l: Layout, was: Fs, s: State, s': State, id: nat, i: nat, j: nat)
    requires Inv(l, was, s) && WorksOn(l, s, s', id, i) && LeavesOk(s', id, i) && j < |s'.fs.inodes| && !IsLocked(s', j)
    ensures Rest(s'.fs, s'.dinodes, s'.files, j)
  {
    if j == i {
      assert s'.ops[id].Busy? ==> HasJob(s', id);
    } else {
      assert forall x :: x in s.ops && x != id ==> s'.ops[x] == s.ops[x];
      RestFrame(s.fs, s'.fs, s.dinodes, s'.dinodes, s.files, s'.files, j);
    }
  }

  /** A step that keeps to its own inode and leaves it in order keeps the invariant. */
  lemma WorkKeeps(l: Layout, was: Fs, s: State, s': State, id: nat, i: nat)
    requires Inv(l, was, s) && WorksOn(l, s, s', id, i) && LeavesOk(s', id, i)
    requires Kept(s'.fs, l.dataStart, s'.hands) && LogOk(l, was, s')
    ensures Inv(l, was, s')
  {
    forall x | HasJob(s', x) ensures JobOk(s'.fs, s'.dinodes, s'.files, s'.ops[x].job) {
      if x != id {
        OthersJob(l, was, s, s', id, i, x);
      }
    }
    WorkAlone(l, was, s, s', id, i);
    forall b ensures b in s'.hands <==> InHand(s', b) {
      WorkHands(l, was, s, s', id, i, b);
    }
    forall j | 0 <= j < |s'.fs.inodes| && !IsLocked(s', j) ensures Rest(s'.fs, s'.dinodes, s'.files, j) {
      WorkRest(l, was, s, s', id, i, j);
    }
  }

  // ----- The log -----

  /** A step that changes no block of the disk, and no event. */
  lemma LogSame(l: Layout, was: Fs, s: State, s': State, id: nat)
    requires LogOk(l, was, s) && id in s.ops && id in s'.ops && s'.ops == s.ops[id := s'.ops[id]]
    requires OnDisk(s') == OnDisk(s) && s'.hist == s.hist
    ensures LogOk(l, was, s')
  {
    assert s'.ops.Keys == s.ops.Keys;
  }

  /** A step that changes block x of the disk and logs it. */
  lemma LogStored(l: Layout, was: Fs, s: State, t: State, id: nat, x: nat)
    requires LogOk(l, was, s) && id in s.ops && id in t.ops && t.ops == s.ops[id := t.ops[id]] && t.hist == s.hist
    requires OnlyBlock(l, OnDisk(s), OnDisk(t), x) && x < |t.fs.blocks|
    ensures LogOk(l, was, LogBlock(l, t, id, x))
  {
    var e := LP.Store(id, x, Contents(l, OnDisk(t), x));
    var s' := LogBlock(l, t, id, x);
    LP.Snoc(DiskOf(l, was), s.hist, e);
    assert s'.ops.Keys == s.ops.Keys;
    var d, d' := DiskOf(l, OnDisk(s)), DiskOf(l, OnDisk(t));
    assert LP.Stored(d, e) == d' by {
      forall b | 0 <= b < |l.base| ensures LP.Stored(d, e)[b] == d'[b] {
        assert d[b] == Contents(l, OnDisk(s), b) && d'[b] == Contents(l, OnDisk(t), b);
      }
    }
  }

  // ----- Every step keeps the invariant -----

  lemma EdgeKeeps(l: Layout, was: Fs, s: State, s': State)
    requires Inv(l, was, s) && s' == s.(ops := s'.ops, hist := s'.hist) && LogOk(l, was, s')
    requires forall id :: HasJob(s', id) <==> HasJob(s, id)
    requires forall id :: HasJob(s, id) ==> id in s'.ops && s'.ops[id] == s.ops[id]
    ensures Inv(l, was, s')
  {
    forall b ensures InHand(s', b) <==> InHand(s, b) {
      if InHand(s, b) {
        var id :| HasJob(s, id) && b in HandOf(s.ops[id]);
        assert HasJob(s', id) && b in HandOf(s'.ops[id]);
      }
    }
    forall j | 0 <= j < |s'.fs.inodes| && !IsLocked(s', j) ensures Rest(s'.fs, s'.dinodes, s'.files, j) {
      assert forall id :: HasJob(s, id) ==> HasJob(s', id);
      assert !IsLocked(s, j);
    }
  }

  lemma BeginKeeps(l: Layout, was: Fs, s: State, s': State, id: nat)
    requires Inv(l, was, s) && Begins(s, s', id)
    ensures Inv(l, was, s')
  {
    LP.Snoc(DiskOf(l, was), s.hist, LP.Begin(id));
    assert s'.ops.Keys == s.ops.Keys + {id};
    EdgeKeeps(l, was, s, s');
  }

  lemma EndKeeps(l: Layout, was: Fs, s: State, s': State, id: nat)
    requires Inv(l, was, s) && Ends(s, s', id)
    ensures Inv(l, was, s')
  {
    LP.Snoc(DiskOf(l, was), s.hist, LP.End(id));
    assert s'.ops.Keys == s.ops.Keys - {id};
    EdgeKeeps(l, was, s, s');
  }

  /** A file at rest, just locked for a write. */
  lemma LockedOk(fs: Fs, dinodes: seq<Inode>, files: seq<seq<byte>>, i: nat, off: nat, src: seq<byte>)
    requires Shape(fs) && Rest(fs, dinodes, files, i) && off <= fs.inodes[i].size && off + |src| <= MAXSIZE
    ensures JobOk(fs, dinodes, files, Job(i, WriteAt(off, src, 0, fs.inodes[i].size, AllBytes(fs, i)), Map))
  {
    var size, bytes := fs.inodes[i].size, AllBytes(fs, i);
    assert files[i] == bytes[..size];
    if |src| > 0 {
      assert Max(size, off) == size;
      DensePartly(fs, i, size, off / BSIZE);
    } else {
      assert Max(size, off + |src|) == size;
    }
  }

  lemma LockWriteKeeps(l: Layout, was: Fs, s: State, s': State, id: nat, i: nat, off: nat, src: seq<byte>)
    requires Inv(l, was, s) && LocksWrite(s, s', id, i, off, src)
    ensures Inv(l, was, s')
  {
    assert Rest(s.fs, s.dinodes, s.files, i);
    var t := s'.ops[id].job.task;
    LockedOk(s.fs, s.dinodes, s.files, i, t.off, t.src);
    LogSame(l, was, s, s', id);
    WorkKeeps(l, was, s, s', id, i);
  }

  lemma LockTruncKeeps(l: Layout, was: Fs, s: State, s': State, id: nat, i: nat)
    requires Inv(l, was, s) && LocksTrunc(s, s', id, i)
    ensures Inv(l, was, s')
  {
    SeizeStep(s.fs, l.dataStart, s.hands, i);
    LogSame(l, was, s, s', id);
    WorkKeeps(l, was, s, s', id, i);
  }

  lemma MarkKeeps(l: Layout, was: Fs, s: State, s': State, id: nat, r: nat)
    requires Inv(l, was, s) && Marks(l, s, s', id, r)
    ensures Inv(l, was, s')
  {
    var j := s.ops[id].job;
    var t := SetJob(s, id, j.(pc := Zero(r))).(fs := s.fs.(bitmap := SetBit(s.fs.bitmap, r)), hands := s.hands + {r});
    assert JobOk(s.fs, s.dinodes, s.files, j);
    MarkStep(s.fs, l.dataStart, s.hands, r);
    BitmapOnly(l, OnDisk(s), OnDisk(t), r);
    LogStored(l, was, s, t, id, BitmapBlock(l, r));
    JobFrame(s.fs, t.fs, s.dinodes, t.dinodes, s.files, t.files, j);
    assert IsPlace(s.fs, DataPlace(j.inum, Cur(j.task) / BSIZE));
    WorkKeeps(l, was, s, s', id, j.inum);
  }

  lemma ZeroKeeps(l: Layout, was: Fs, s: State, s': State, id: nat)
    requires Inv(l, was, s) && Zeroes(l, s, s', id)
    ensures Inv(l, was, s')
  {
    var j := s.ops[id].job;
    var r := j.pc.r;
    var t := SetJob(s, id, j.(pc := Link(r))).(fs := s.fs.(blocks := s.fs.blocks[r := Zeros()]));
    assert JobOk(s.fs, s.dinodes, s.files, j);
    assert InHand(s, r) by {
      assert r in HandOf(s.ops[id]);
    }
    HandStore(s.fs, l.dataStart, s.hands, r, Zeros());
    DataOnly(l, OnDisk(s), OnDisk(t), r, Zeros());
    LogStored(l, was, s, t, id, r);
    ZeroedJob(s.fs, t.fs, s.dinodes, s.files, j);
    WorkKeeps(l, was, s, s', id, j.inum);
  }

  lemma ZeroedJob(fs: Fs, fs': Fs, dinodes: seq<Inode>, files: seq<seq<byte>>, j: Job)
    requires Shape(fs) && Shape(fs') && JobOk(fs, dinodes, files, j) && j.task.WriteAt? && j.pc.Zero?
    requires |fs'.inodes| == |fs.inodes| && |fs'.blocks| == |fs.blocks| && SameFile(fs, fs', j.inum)
    requires j.pc.r < |fs.blocks| && fs'.blocks[j.pc.r] == Zeros()
    ensures JobOk(fs', dinodes, files, j.(pc := Link(j.pc.r)))
  {
    var t := j.task;
    WrittenSame(fs, fs', j.inum, t.off, t.src, t.tot, t.bytes0);
    SamePartly(fs, fs', j.inum, Max(t.size0, Cur(t)), Cur(t) / BSIZE);
    assert IsPlace(fs, DataPlace(j.inum, Cur(t) / BSIZE));
  }

  /** Linking keeps the job in order: the place it fills was missing, so the write goes past the end of the file. */
  lemma LinkedJob(fs: Fs, fs': Fs, dinodes: seq<Inode>, files: seq<seq<byte>>, j: Job, p: Place)
    requires Shape(fs) && Shape(fs') && JobOk(fs, dinodes, files, j) && j.task.WriteAt? && j.pc.Link? && j.pc.r != 0
    requires Cur(j.task) < MAXSIZE && p == NextPlace(fs, j.inum, Cur(j.task) / BSIZE)
    requires |fs'.inodes| == |fs.inodes| && fs'.inodes[j.inum].size == fs.inodes[j.inum].size && SameBytes(fs, fs')
    requires forall q :: IsPlace(fs, q) ==> Ref(fs', q) == if q == p then j.pc.r else Ref(fs, q)
    ensures JobOk(fs', dinodes, files, j.(pc := Map))
  {
    var t := j.task;
    WrittenSame(fs, fs', j.inum, t.off, t.src, t.tot, t.bytes0);
    LinkPartly(fs, fs', j.inum, Max(t.size0, Cur(t)), Cur(t) / BSIZE, p, j.pc.r);
  }

  lemma NextEmpty(fs: Fs, dinodes: seq<Inode>, files: seq<seq<byte>>, j: Job, p: Place)
    requires Shape(fs) && JobOk(fs, dinodes, files, j) && j.task.WriteAt? && (j.pc.Zero? || j.pc.Link?)
    requires Cur(j.task) < MAXSIZE && p == NextPlace(fs, j.inum, Cur(j.task) / BSIZE)
    ensures Ref(fs, p) == 0 && (p.Entry? ==> Ref(fs, Indirect(j.inum)) != 0)
  {
  }

  lemma LinkLogged(l: Layout, was: Fs, s: State, s': State, id: nat)
    requires Inv(l, was, s) && Links(l, s, s', id)
    ensures LogOk(l, was, s')
  {
    var j := s.ops[id].job;
    var p, ind := NextPlace(s.fs, j.inum, Cur(j.task) / BSIZE), s.fs.inodes[j.inum].addrs[NDIRECT];
    var t := s'.(hist := s.hist);
    if p.Entry? {
      assert IsPlace(s.fs, Indirect(j.inum));
      DataOnly(l, OnDisk(s), OnDisk(t), ind, t.fs.blocks[ind]);
      LogStored(l, was, s, t, id, ind);
    } else {
      LogSame(l, was, s, t, id);
    }
  }

  lemma LinkDone(l: Layout, was: Fs, s: State, s': State, id: nat, p: Place, r: nat)
    requires Inv(l, was, s) && LogOk(l, was, s') && Writing(s, id) && s.ops[id].job.pc == Link(r)
    requires var j := s.ops[id].job;
      p == NextPlace(s.fs, j.inum, Cur(j.task) / BSIZE) && s'.ops == s.ops[id := Busy(j.(pc := Map))]
    requires r < UINT && (p.Entry? ==> 0 < s.fs.inodes[p.i].addrs[NDIRECT] < |s.fs.blocks|)
    requires s'.fs == Linked(s.fs, p, r)
    requires s'.dinodes == s.dinodes && s'.files == s.files && s'.hands == s.hands - {r}
    ensures Inv(l, was, s')
  {
    var j := s.ops[id].job;
    assert JobOk(s.fs, s.dinodes, s.files, j);
    assert InHand(s, r) by {
      assert r in HandOf(s.ops[id]);
    }
    NextEmpty(s.fs, s.dinodes, s.files, j, p);
    LinkStep(s.fs, l.dataStart, s.hands, p, r);
    LinkedJob(s.fs, s'.fs, s.dinodes, s.files, j, p);
    WorkKeeps(l, was, s, s', id, j.inum);
  }

  lemma LinkKeeps(l: Layout, was: Fs, s: State, s': State, id: nat)
    requires Inv(l, was, s) && Links(l, s, s', id)
    ensures Inv(l, was, s')
  {
    var j := s.ops[id].job;
    LinkLogged(l, was, s, s', id);
    LinkDone(l, was, s, s', id, NextPlace(s.fs, j.inum, Cur(j.task) / BSIZE), j.pc.r);
  }

  /** Bytes up to tot' are in place, and the blocks below them are there. */
  lemma PassDone(fs: Fs, dinodes: seq<Inode>, files: seq<seq<byte>>, j: Job)
    requires Shape(fs) && j.inum < |fs.inodes| == |dinodes| == |files| && j.task.WriteAt? && j.pc.Map?
    requires var t := j.task;
      && t.off <= t.size0 <= MAXSIZE && t.off + |t.src| <= MAXSIZE && t.tot <= |t.src|
      && |t.bytes0| == MAXSIZE && files[j.inum] == t.bytes0[..t.size0] && fs.inodes[j.inum].size == t.size0
      && (t.off + |t.src| <= t.size0 ==> dinodes[j.inum] == fs.inodes[j.inum])
      && Written(fs, j.inum, t.off, t.src, t.tot, t.bytes0) && DenseTo(fs, j.inum, Max(t.size0, t.off + t.tot))
    ensures JobOk(fs, dinodes, files, j)
  {
    var t := j.task;
    if t.tot < |t.src| {
      DensePartly(fs, j.inum, Max(t.size0, Cur(t)), Cur(t) / BSIZE);
    }
  }

  lemma CopiedJob(fs: Fs, fs': Fs, dinodes: seq<Inode>, files: seq<seq<byte>>, j: Job, bn: nat, a: nat, m: nat)
    requires Shape(fs) && Shape(fs') && JobOk(fs, dinodes, files, j) && j.task.WriteAt? && j.pc.Map?
    requires var t := j.task; t.tot < |t.src| && Cur(t) < MAXSIZE && m == PieceSize(Cur(t), |t.src| - t.tot)
    requires |fs'.inodes| == |fs.inodes| && fs'.inodes == fs.inodes && SameRefs(fs, fs') && |fs'.blocks| == |fs.blocks|
    requires bn == Cur(j.task) / BSIZE && a == Ref(fs, DataPlace(j.inum, bn)) && 0 < a < |fs.blocks|
    requires var t := j.task;
             var data := Patched(fs.blocks[a], Cur(t) % BSIZE, t.src[t.tot..t.tot + m]);
             forall o :: 0 <= o < MAXSIZE ==>
               Byte(fs', j.inum, o) == if o / BSIZE == bn then data[o % BSIZE] else Byte(fs, j.inum, o)
    ensures JobOk(fs', dinodes, files, j.(task := j.task.(tot := j.task.tot + m)))
  {
    var t := j.task;
    PieceWritten(fs, fs', j.inum, t.off, t.src, t.tot, t.tot + m, t.bytes0, bn, a);
    assert DenseTo(fs', j.inum, Max(t.size0, Cur(t) + m)) by {
      SamePartly(fs, fs', j.inum, Max(t.size0, Cur(t)), bn);
      assert IsPlace(fs, DataPlace(j.inum, bn));
      PartlyDense(fs', j.inum, t.size0, Cur(t), bn, m);
    }
    PassDone(fs', dinodes, files, j.(task := t.(tot := t.tot + m)));
  }

  lemma CopyLogged(l: Layout, was: Fs, s: State, s': State, id: nat)
    requires Inv(l, was, s) && Copies(l, s, s', id)
    ensures LogOk(l, was, s')
  {
    var j := s.ops[id].job;
    var a := Ref(s.fs, DataPlace(j.inum, Cur(j.task) / BSIZE));
    var t := s'.(hist := s.hist);
    assert IsPlace(s.fs, DataPlace(j.inum, Cur(j.task) / BSIZE));
    DataOnly(l, OnDisk(s), OnDisk(t), a, t.fs.blocks[a]);
    LogStored(l, was, s, t, id, a);
  }

  /** Storing into block bn of its own file is all within an operation's rights. */
  lemma CopyWorks(l: Layout, was: Fs, s: State, s': State, id: nat, bn: nat, a: nat, data: Block)
    requires Inv(l, was, s) && HasJob(s, id) && HasJob(s', id) && s'.ops == s.ops[id := s'.ops[id]] && bn < MAXFILE
    requires s.ops[id].job.inum < |s.fs.inodes|
    requires a == Ref(s.fs, DataPlace(s.ops[id].job.inum, bn)) && 0 < a < |s.fs.blocks|
    requires s'.fs == s.fs.(blocks := s.fs.blocks[a := data]) && s'.dinodes == s.dinodes && s'.files == s.files
    requires s'.hands == s.hands && HandOf(s.ops[id]) == HandOf(s'.ops[id]) == {}
    ensures WorksOn(l, s, s', id, s.ops[id].job.inum) && Kept(s'.fs, l.dataStart, s'.hands) && SameRefs(s.fs, s'.fs)
    ensures var i := s.ops[id].job.inum;
            forall o :: 0 <= o < MAXSIZE ==>
              Byte(s'.fs, i, o) == if o / BSIZE == bn then data[o % BSIZE] else Byte(s.fs, i, o)
  {
    FileStore(s.fs, l.dataStart, s.hands, s.ops[id].job.inum, bn, data);
  }

  lemma CopyDone(l: Layout, was: Fs, s: State, s': State, id: nat, a: nat, m: nat)
    requires Inv(l, was, s) && LogOk(l, was, s') && Writing(s, id) && s.ops[id].job.pc.Map?
    requires var j := s.ops[id].job;
      && m == PieceSize(Cur(j.task), |j.task.src| - j.task.tot)
      && a == Ref(s.fs, DataPlace(j.inum, Cur(j.task) / BSIZE)) && 0 < a < |s.fs.blocks|
      && s'.fs == s.fs.(blocks := s.fs.blocks[a := Patched(s.fs.blocks[a], Cur(j.task) % BSIZE,
                                                           j.task.src[j.task.tot..j.task.tot + m])])
      && s'.ops == s.ops[id := Busy(j.(task := j.task.(tot := j.task.tot + m)))]
    requires s'.dinodes == s.dinodes && s'.files == s.files && s'.hands == s.hands
    ensures Inv(l, was, s')
  {
    var j := s.ops[id].job;
    CopyWorks(l, was, s, s', id, Cur(j.task) / BSIZE, a, s'.fs.blocks[a]);
    assert LeavesOk(s', id, j.inum) by {
      assert JobOk(s.fs, s.dinodes, s.files, j);
      CopiedJob(s.fs, s'.fs, s.dinodes, s.files, j, Cur(j.task) / BSIZE, a, m);
    }
    WorkKeeps(l, was, s, s', id, j.inum);
  }

  lemma CopyKeeps(l: Layout, was: Fs, s: State, s': State, id: nat)
    requires Inv(l, was, s) && Copies(l, s, s', id)
    ensures Inv(l, was, s')
  {
    var j := s.ops[id].job;
    CopyLogged(l, was, s, s', id);
    CopyDone(l, was, s, s', id, Ref(s.fs, DataPlace(j.inum, Cur(j.task) / BSIZE)),
             PieceSize(Cur(j.task), |j.task.src| - j.task.tot));
  }

  lemma FinishedJob(fs: Fs, fs': Fs, dinodes: seq<Inode>, files: seq<seq<byte>>, j: Job)
    requires Shape(fs) && JobOk(fs, dinodes, files, j) && j.task.WriteAt? && j.pc.Map? && j.task.tot == |j.task.src|
    requires fs' == Resized(fs, j.inum, Cur(j.task)) && Cur(j.task) > fs.inodes[j.inum].size
    requires SameRefs(fs, fs') && SameBytes(fs, fs')
    ensures JobOk(fs', dinodes, files, j.(pc := Update))
  {
    var t := j.task;
    WrittenSame(fs, fs', j.inum, t.off, t.src, t.tot, t.bytes0);
    ResizedDense(fs, fs', j.inum, Max(t.size0, t.off + |t.src|));
  }

  lemma FinishKeeps(l: Layout, was: Fs, s: State, s': State, id: nat)
    requires Inv(l, was, s) && Finishes(s, s', id)
    ensures Inv(l, was, s')
  {
    var j := s.ops[id].job;
    assert JobOk(s.fs, s.dinodes, s.files, j);
    if |j.task.src| > 0 && Cur(j.task) > s.fs.inodes[j.inum].size {
      SizeStep(s.fs, l.dataStart, s.hands, j.inum, Cur(j.task));
      FinishedJob(s.fs, s'.fs, s.dinodes, s.files, j);
    }
    LogSame(l, was, s, s', id);
    WorkKeeps(l, was, s, s', id, j.inum);
  }

  lemma ResizedDense(fs: Fs, fs': Fs, i: nat, size: nat)
    requires Shape(fs) && Shape(fs') && i < |fs.inodes| && SameRefs(fs, fs') && DenseTo(fs, i, size)
    ensures DenseTo(fs', i, size)
  {
    forall bn | 0 <= bn < MAXFILE ensures DenseAt(fs', i, size, bn) {
      assert IsPlace(fs, DataPlace(i, bn)) && DenseAt(fs, i, size, bn);
    }
    assert IsPlace(fs, Indirect(i));
  }

  lemma FreeKeeps(l: Layout, was: Fs, s: State, s': State, id: nat, b: nat)
    requires Inv(l, was, s) && Frees(l, s, s', id, b)
    ensures Inv(l, was, s')
  {
    var j := s.ops[id].job;
    var t := SetJob(s, id, j.(task := Empty(j.task.left - {b}))).(fs := s.fs.(bitmap := ClearBit(s.fs.bitmap, b)),
                                                                 hands := s.hands - {b});
    assert JobOk(s.fs, s.dinodes, s.files, j);
    assert InHand(s, b) by {
      assert b in HandOf(s.ops[id]);
    }
    UnmarkStep(s.fs, l.dataStart, s.hands, b);
    BitmapOnly(l, OnDisk(s), OnDisk(t), b);
    LogStored(l, was, s, t, id, BitmapBlock(l, b));
    assert HandOf(s.ops[id]) <= s.hands by {
      assert forall x :: x in HandOf(s.ops[id]) ==> InHand(s, x);
    }
    WorkKeeps(l, was, s, s', id, j.inum);
  }

  lemma FreeDoneKeeps(l: Layout, was: Fs, s: State, s': State, id: nat)
    requires Inv(l, was, s) && FreesAll(s, s', id)
    ensures Inv(l, was, s')
  {
    var j := s.ops[id].job;
    assert JobOk(s.fs, s.dinodes, s.files, j);
    LogSame(l, was, s, s', id);
    WorkKeeps(l, was, s, s', id, j.inum);
  }

  lemma UpdateKeeps(l: Layout, was: Fs, s: State, s': State, id: nat)
    requires Inv(l, was, s) && Updates(l, s, s', id)
    ensures Inv(l, was, s')
  {
    var j := s.ops[id].job;
    var t := SetJob(s, id, j.(pc := Unlock)).(dinodes := s.dinodes[j.inum := s.fs.inodes[j.inum]]);
    assert JobOk(s.fs, s.dinodes, s.files, j);
    InodeOnly(l, OnDisk(s), OnDisk(t), j.inum, s.fs.inodes[j.inum]);
    LogStored(l, was, s, t, id, InodeBlock(j.inum));
    WorkKeeps(l, was, s, s', id, j.inum);
  }

  /** A job that is done leaves the file as users should find it. */
  lemma DoneRest(fs: Fs, dinodes: seq<Inode>, files: seq<seq<byte>>, files': seq<seq<byte>>, j: Job)
    requires Shape(fs) && JobOk(fs, dinodes, files, j) && j.pc.Unlock?
    requires files' == files[j.inum := Outcome(j, files[j.inum])]
    ensures Rest(fs, dinodes, files', j.inum)
  {
    var t := j.task;
    if t.WriteAt? {
      WrittenAll(fs, j.inum, t.off, t.src, t.bytes0, t.size0);
    } else {
      assert forall p :: IsPlace(fs, p) && p.i == j.inum ==> Ref(fs, p) == 0;
      forall bn | 0 <= bn < MAXFILE ensures DenseAt(fs, j.inum, 0, bn) {
        assert IsPlace(fs, DataPlace(j.inum, bn));
      }
      assert IsPlace(fs, Indirect(j.inum));
    }
  }

  lemma ReleaseKeeps(l: Layout, was: Fs, s: State, s': State, id: nat)
    requires Inv(l, was, s) && Releases(s, s', id)
    ensures Inv(l, was, s')
  {
    var j := s.ops[id].job;
    assert JobOk(s.fs, s.dinodes, s.files, j);
    DoneRest(s.fs, s.dinodes, s.files, s'.files, j);
    LogSame(l, was, s, s', id);
    WorkKeeps(l, was, s, s', id, j.inum);
  }

  lemma NextInv(l: Layout, was: Fs, s: State, s': State)
    requires Inv(l, was, s) && Next(l, s, s')
    ensures Inv(l, was, s')
  {
    var step :| NextStep(l, s, s', step);
    match step
    case Begin(id) => BeginKeeps(l, was, s, s', id);
    case End(id) => EndKeeps(l, was, s, s', id);
    case LockWrite(id, i, off, src) => LockWriteKeeps(l, was, s, s', id, i, off, src);
    case LockTrunc(id, i) => LockTruncKeeps(l, was, s, s', id, i);
    case Mark(id, r) => MarkKeeps(l, was, s, s', id, r);
    case ZeroBlock(id) => ZeroKeeps(l, was, s, s', id);
    case LinkBlock(id) => LinkKeeps(l, was, s, s', id);
    case Copy(id) => CopyKeeps(l, was, s, s', id);
    case Finish(id) => FinishKeeps(l, was, s, s', id);
    case FreeBlock(id, b) => FreeKeeps(l, was, s, s', id, b);
    case FreeDone(id) => FreeDoneKeeps(l, was, s, s', id);
    case UpdateInode(id) => UpdateKeeps(l, was, s, s', id);
    case Release(id) => ReleaseKeeps(l, was, s, s', id);
  }

  lemma {:induction false} RunInv(l: Layout, was: Fs, run: seq<State>, k: nat)
    requires IsRun(l, was, run) && k < |run|
    ensures Inv(l, was, run[k])
  {
    if k == 0 {
      InitInv(l, was, run[0]);
    } else {
      RunInv(l, was, run, k - 1);
      assert StepTo(l, run, k);
      NextInv(l, was, run[k - 1], run[k]);
    }
  }

  // ----- Nobody waits for nothing -----

  lemma BlockNumbers(l: Layout, fs: Fs, r: nat)
    requires Fits(l, fs)
    ensures r < |fs.blocks| ==> BitmapBlock(l, r) < |fs.blocks|
    ensures r < |fs.inodes| ==> InodeBlock(r) < |fs.blocks|
  {
    if r < |fs.blocks| {
      assert r / BPB < l.dataStart - l.ninodes / IPB - 3;
    }
  }

  /** A write takes a free block for the block it has come to. */
  lemma MarkNext(l: Layout, was: Fs, s: State, id: nat, r: nat) returns (s': State)
    requires Inv(l, was, s) && Writing(s, id) && s.ops[id].job.pc.Map? && r < |s.fs.blocks| && !Bit(s.fs.bitmap, r)
    requires Ref(s.fs, DataPlace(s.ops[id].job.inum, Cur(s.ops[id].job.task) / BSIZE)) == 0
    ensures Marks(l, s, s', id, r)
  {
    var j := s.ops[id].job;
    BlockNumbers(l, s.fs, r);
    var t := SetJob(s, id, j.(pc := Zero(r))).(fs := s.fs.(bitmap := SetBit(s.fs.bitmap, r)), hands := s.hands + {r});
    s' := LogBlock(l, t, id, BitmapBlock(l, r));
  }

  /** Or it copies into it. */
  lemma CopyNext(l: Layout, was: Fs, s: State, id: nat) returns (s': State)
    requires Inv(l, was, s) && Writing(s, id) && s.ops[id].job.pc.Map?
    requires Ref(s.fs, DataPlace(s.ops[id].job.inum, Cur(s.ops[id].job.task) / BSIZE)) != 0
    ensures Copies(l, s, s', id)
  {
    var j := s.ops[id].job;
    var cur, a := Cur(j.task), Ref(s.fs, DataPlace(j.inum, Cur(j.task) / BSIZE));
    assert IsPlace(s.fs, DataPlace(j.inum, cur / BSIZE));
    var m := PieceSize(cur, |j.task.src| - j.task.tot);
    var data := Patched(s.fs.blocks[a], cur % BSIZE, j.task.src[j.task.tot..j.task.tot + m]);
    var t := SetJob(s, id, j.(task := j.task.(tot := j.task.tot + m))).(fs := s.fs.(blocks := s.fs.blocks[a := data]));
    s' := LogBlock(l, t, id, a);
  }

  lemma WriteStep(l: Layout, was: Fs, s: State, id: nat) returns (s': State, step: Step)
    requires Inv(l, was, s) && Writing(s, id) && s.ops[id].job.pc.Map? && !Full(s.fs)
    ensures step.id == id && NextStep(l, s, s', step)
  {
    var j := s.ops[id].job;
    if Ref(s.fs, DataPlace(j.inum, Cur(j.task) / BSIZE)) == 0 {
      var r :| 0 <= r < |s.fs.blocks| && !Bit(s.fs.bitmap, r);
      step := Mark(id, r);
      s' := MarkNext(l, was, s, id, r);
    } else {
      step := Copy(id);
      s' := CopyNext(l, was, s, id);
    }
  }

  /** What it does with a block in hand. */
  lemma HandStep(l: Layout, was: Fs, s: State, id: nat) returns (s': State, step: Step)
    requires Inv(l, was, s) && HasJob(s, id) && (s.ops[id].job.pc.Zero? || s.ops[id].job.pc.Link?)
    ensures step.id == id && NextStep(l, s, s', step)
  {
    var j := s.ops[id].job;
    var r := j.pc.r;
    assert JobOk(s.fs, s.dinodes, s.files, j);
    assert InHand(s, r) by {
      assert r in HandOf(s.ops[id]);
    }
    if j.pc.Zero? {
      step := ZeroBlock(id);
      s' := LogBlock(l, SetJob(s, id, j.(pc := Link(r))).(fs := s.fs.(blocks := s.fs.blocks[r := Zeros()])), id, r);
    } else {
      var p, ind := NextPlace(s.fs, j.inum, Cur(j.task) / BSIZE), s.fs.inodes[j.inum].addrs[NDIRECT];
      NextEmpty(s.fs, s.dinodes, s.files, j, p);
      assert IsPlace(s.fs, Indirect(j.inum));
      var t := SetJob(s, id, j.(pc := Map)).(fs := Linked(s.fs, p, r), hands := s.hands - {r});
      step := LinkBlock(id);
      s' := if p.Entry? then LogBlock(l, t, id, ind) else t;
    }
  }

  /** An operation inside an inode lock can always go on, unless the disk is full: it waits for no other operation. */
  lemma NeverStuck(l: Layout, was: Fs, s: State, id: nat) returns (s': State, step: Step)
    requires Inv(l, was, s) && HasJob(s, id) && !Full(s.fs)
    ensures step.id == id && NextStep(l, s, s', step)
  {
    var j := s.ops[id].job;
    assert JobOk(s.fs, s.dinodes, s.files, j);
    if j.pc.Zero? || j.pc.Link? {
      s', step := HandStep(l, was, s, id);
    } else if j.pc.Update? {
      BlockNumbers(l, s.fs, j.inum);
      step := UpdateInode(id);
      s' := LogBlock(l, SetJob(s, id, j.(pc := Unlock)).(dinodes := s.dinodes[j.inum := s.fs.inodes[j.inum]]), id,
                     InodeBlock(j.inum));
    } else if j.pc.Unlock? {
      step := Release(id);
      s' := s.(ops := s.ops[id := Outside], files := s.files[j.inum := Outcome(j, s.files[j.inum])]);
    } else if j.task.WriteAt? && j.task.tot < |j.task.src| {
      s', step := WriteStep(l, was, s, id);
    } else if j.task.WriteAt? {
      step := Finish(id);
      s' := if |j.task.src| > 0 && Cur(j.task) > s.fs.inodes[j.inum].size
            then SetJob(s, id, j.(pc := Update)).(fs := Resized(s.fs, j.inum, Cur(j.task)))
            else SetJob(s, id, j.(pc := Unlock));
    } else {
      s', step := TruncStep(l, was, s, id);
    }
  }

  lemma TruncStep(l: Layout, was: Fs, s: State, id: nat) returns (s': State, step: Step)
    requires Inv(l, was, s) && HasJob(s, id) && s.ops[id].job.task.Empty? && s.ops[id].job.pc.Map?
    ensures step.id == id && NextStep(l, s, s', step)
  {
    var j := s.ops[id].job;
    if j.task.left == {} {
      step := FreeDone(id);
      s' := SetJob(s, id, j.(pc := Update));
    } else {
      var b :| b in j.task.left;
      assert InHand(s, b) by {
        assert b in HandOf(s.ops[id]);
      }
      BlockNumbers(l, s.fs, b);
      step := FreeBlock(id, b);
      var t := SetJob(s, id, j.(task := Empty(j.task.left - {b})))
               .(fs := s.fs.(bitmap := ClearBit(s.fs.bitmap, b)), hands := s.hands - {b});
      s' := LogBlock(l, t, id, BitmapBlock(l, b));
    }
  }

  // ----- Main results -----

  /** Whatever is going on, a file that nobody has locked is the file its writes and truncations make, one after another
      as they released it, and is on disk as it is in memory. */
  lemma FilesAsWritten(l: Layout, was: Fs, run: seq<State>, k: nat, j: nat)
    requires IsRun(l, was, run) && k < |run| && j < |run[k].fs.inodes| && !IsLocked(run[k], j)
    ensures Shape(run[k].fs) && Rest(run[k].fs, run[k].dinodes, run[k].files, j)
  {
    RunInv(l, was, run, k);
  }

  /** No block is in two places, freed twice or lost: each marked one has one owner, a file or an operation. */
  lemma BlocksOwned(l: Layout, was: Fs, run: seq<State>, k: nat)
    requires IsRun(l, was, run) && k < |run|
    ensures Kept(run[k].fs, l.dataStart, run[k].hands) && Alone(run[k])
    ensures forall b :: b in run[k].hands <==> InHand(run[k], b)
  {
    RunInv(l, was, run, k);
  }

  /** With no operation under way the file system is sound, and on disk. */
  lemma Settled(l: Layout, was: Fs, s: State)
    requires Inv(l, was, s) && s.ops.Keys == {}
    ensures GoodFs(l, l.dataStart, s.fs) && OnDisk(s) == s.fs && Files(s.fs) == s.files && s.hands == {}
  {
    assert forall id :: !HasJob(s, id);
    assert forall b :: !InHand(s, b);
    assert s.hands == {};
    KeptNoLeak(s.fs, l.dataStart);
    forall j | 0 <= j < |s.fs.inodes|
      ensures s.dinodes[j] == s.fs.inodes[j] && s.fs.inodes[j].size <= MAXSIZE
      ensures DenseTo(s.fs, j, s.fs.inodes[j].size) && Content(s.fs, j) == s.files[j]
    {
      assert !IsLocked(s, j) && Rest(s.fs, s.dinodes, s.files, j);
    }
    assert s.dinodes == s.fs.inodes;
    assert Files(s.fs) == s.files;
  }

  lemma HistStep(l: Layout, s: State, s': State)
    requires Next(l, s, s')
    ensures s'.hist == s.hist || (|s'.hist| == |s.hist| + 1 && s.hist <= s'.hist)
  {
    var step :| NextStep(l, s, s', step);
  }

  /** Every beginning of the history was all of it at some time. */
  lemma {:induction false} HistAt(l: Layout, was: Fs, run: seq<State>, n: nat, h: seq<LP.Event>) returns (k: nat)
    requires IsRun(l, was, run) && n < |run| && h <= run[n].hist
    ensures k <= n && run[k].hist == h
  {
    if n == 0 || h == run[n].hist {
      k := n;
    } else {
      assert StepTo(l, run, n);
      HistStep(l, run[n - 1], run[n]);
      k := HistAt(l, was, run, n - 1, h);
    }
  }

  /** Crash safety with any number of operations at once.  Whenever the machine loses power, a reboot finds the file
      system as it was at some moment when no operation was under way, with the files that the writes and truncations
      up to then make: those of the operations that are committed, whole. */
  lemma CrashSafeInterleaved(c: LP.Config, l: Layout, was: Fs, logRun: seq<LP.State>, i: nat, run: seq<State>)
    returns (k: nat)
    requires LP.IsRun(c, logRun) && i < |logRun| && IsRun(l, was, run)
    requires c.start == |l.base| && c.format == DiskOf(l, was) && logRun[i].hist <= run[|run| - 1].hist
    ensures k < |run| && run[k].ops.Keys == {}
    ensures logRun[i].durable <= |logRun[i].hist| && run[k].hist == logRun[i].hist[..logRun[i].durable]
    ensures Recovers(c, l, logRun[i], run[k].fs) && Files(run[k].fs) == run[k].files
  {
    LP.GroupCommit(c, logRun, i);
    var h := logRun[i].hist[..logRun[i].durable];
    assert h <= run[|run| - 1].hist;
    k := HistAt(l, was, run, |run| - 1, h);
    RunInv(l, was, run, k);
    Settled(l, was, run[k]);
    RecoversFiles(c, l, logRun[i], run[k].fs);
  }
}
