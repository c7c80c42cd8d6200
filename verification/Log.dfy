/**
 log.c as it runs: one object whose fields are the in-memory `struct log`, the
 medium, and the buffers pinned by `log_write`.  Every durable write also
 appends the resulting medium to the ghost `trace`, so a contract can speak of
 every point at which the machine may lose power.
 */
module Log {
  import opened LogDisk
  import LP = LogProtocol

  /** media[0] is the medium before recovery, media[pc] the medium after its pc-th write. */
  ghost predicate RecoverTrace(media: seq<Disk>, start: nat, size: nat, blocks: seq<int>) {
    && 0 < |media| <= |blocks| + 2
    && RecoverPoint(media[0], start, size, blocks, 0)
    && forall pc :: 0 < pc < |media| ==> RecoverAt(media, start, size, blocks, pc)
  }

  /** The pc-th write of recovery. */
  ghost predicate RecoverAt(media: seq<Disk>, start: nat, size: nat, blocks: seq<int>, pc: nat)
    requires 0 < pc < |media|
  {
    RecoverStep(media[pc - 1], media[pc], start, size, blocks, pc - 1)
  }

  ghost predicate RecoverStep(d: Disk, d': Disk, start: nat, size: nat, blocks: seq<int>, pc: nat) {
    && |d| == start + size && pc <= |blocks| && GoodList(blocks, start, size)
    && d' == RecoverWrite(d, start, blocks, pc)
  }

  /** The same for commit: media[pc] is the medium after its pc-th write. */
  ghost predicate CommitTrace(media: seq<Disk>, start: nat, size: nat, home: Disk,
                              cache: map<int, Block>, blocks: seq<int>)
  {
    && 0 < |media| <= 2 * |blocks| + 3
    && CommitPoint(media[0], start, size, home, cache, blocks, 0)
    && CommitSteps(media, start, size, cache, blocks)
  }

  ghost predicate CommitSteps(media: seq<Disk>, start: nat, size: nat, cache: map<int, Block>, blocks: seq<int>) {
    forall pc :: 0 < pc < |media| ==> CommitAt(media, start, size, cache, blocks, pc)
  }

  /** The pc-th write of commit. */
  ghost predicate CommitAt(media: seq<Disk>, start: nat, size: nat,
                           cache: map<int, Block>, blocks: seq<int>, pc: nat)
    requires 0 < pc < |media|
  {
    CommitStep(media[pc - 1], media[pc], start, size, cache, blocks, pc - 1)
  }

  ghost predicate CommitStep(d: Disk, d': Disk, start: nat, size: nat,
                             cache: map<int, Block>, blocks: seq<int>, pc: nat)
  {
    && |d| == start + size && pc <= 2 * |blocks| + 1 && GoodList(blocks, start, size)
    && (forall b :: b in blocks ==> b in cache)
    && d' == CommitWrite(d, start, cache, blocks, pc)
  }

  lemma RecoverExtend(media: seq<Disk>, d: Disk, start: nat, size: nat, blocks: seq<int>)
    requires RecoverTrace(media, start, size, blocks)
    requires RecoverStep(media[|media| - 1], d, start, size, blocks, |media| - 1)
    ensures RecoverTrace(media + [d], start, size, blocks)
  {
    var all := media + [d];
    forall pc | 0 < pc < |all| ensures RecoverAt(all, start, size, blocks, pc) {
      if pc < |media| {
        assert RecoverAt(media, start, size, blocks, pc);
      }
    }
  }

  lemma CommitExtend(media: seq<Disk>, d: Disk, start: nat, size: nat, home: Disk,
                     cache: map<int, Block>, blocks: seq<int>)
    requires CommitTrace(media, start, size, home, cache, blocks)
    requires CommitStep(media[|media| - 1], d, start, size, cache, blocks, |media| - 1)
    ensures CommitTrace(media + [d], start, size, home, cache, blocks)
  {
    var all := media + [d];
    forall pc | 0 < pc < |all| ensures CommitAt(all, start, size, cache, blocks, pc) {
      if pc < |media| {
        assert CommitAt(media, start, size, cache, blocks, pc);
      }
    }
  }

  /** Wherever recovery is cut short, the next recovery sees the same logical disk. */
  lemma {:induction false} RecoverTraceKeepsLogical(media: seq<Disk>, start: nat, size: nat, blocks: seq<int>, pc: nat)
    requires RecoverTrace(media, start, size, blocks) && pc < |media|
    ensures RecoverPoint(media[pc], start, size, blocks, pc)
    ensures Logical(media[pc], start, size) == Logical(media[0], start, size)
  {
    if pc > 0 {
      RecoverTraceKeepsLogical(media, start, size, blocks, pc - 1);
      assert RecoverAt(media, start, size, blocks, pc);
      RecoverWriteKeepsLogical(media[pc - 1], start, size, blocks, pc - 1);
    }
  }

  lemma CommitStepPoint(d: Disk, d': Disk, start: nat, size: nat, home: Disk,
                        cache: map<int, Block>, blocks: seq<int>, pc: nat, pc': nat)
    requires CommitPoint(d, start, size, home, cache, blocks, pc) && pc' == pc + 1
    requires CommitStep(d, d', start, size, cache, blocks, pc)
    ensures CommitPoint(d', start, size, home, cache, blocks, pc')
  {
    CommitWriteAdvances(d, start, size, home, cache, blocks, pc);
  }

  lemma CommitNext(media: seq<Disk>, start: nat, size: nat, home: Disk, cache: map<int, Block>, blocks: seq<int>,
                   pc: nat)
    requires CommitSteps(media, start, size, cache, blocks) && 0 < pc < |media|
    requires CommitPoint(media[pc - 1], start, size, home, cache, blocks, pc - 1)
    ensures CommitPoint(media[pc], start, size, home, cache, blocks, pc)
  {
    assert CommitAt(media, start, size, cache, blocks, pc);
    CommitStepPoint(media[pc - 1], media[pc], start, size, home, cache, blocks, pc - 1, pc);
  }

  lemma {:induction false} CommitTracePoint(media: seq<Disk>, start: nat, size: nat, home: Disk,
                                            cache: map<int, Block>, blocks: seq<int>, pc: nat)
    requires CommitTrace(media, start, size, home, cache, blocks) && pc < |media|
    ensures CommitPoint(media[pc], start, size, home, cache, blocks, pc)
  {
    if pc > 0 {
      CommitTracePoint(media, start, size, home, cache, blocks, pc - 1);
      CommitNext(media, start, size, home, cache, blocks, pc);
    }
  }

  /** A crash after any write of commit leaves the old home blocks, or the old
      ones with the whole transaction over them; which one is decided by whether
      the header write, number |blocks|, has happened. */
  lemma CommitTraceAtomic(media: seq<Disk>, start: nat, size: nat, home: Disk,
                          cache: map<int, Block>, blocks: seq<int>, pc: nat)
    requires CommitTrace(media, start, size, home, cache, blocks) && pc < |media|
    ensures GoodDisk(media[pc], start, size) && forall b :: b in blocks ==> b in cache
    ensures Logical(media[pc], start, size) == if pc <= |blocks| then home else Overlay(home, cache, blocks)
  {
    CommitTracePoint(media, start, size, home, cache, blocks, pc);
    CommitPointLogical(media[pc], start, size, home, cache, blocks, pc);
  }

  /** Nothing committed: a crash here recovers to `home`. */
  ghost predicate SameFiles(d: Disk, start: nat, size: nat, home: Disk) {
    GoodDisk(d, start, size) && DecodeHead(d[start]) == [] && d[..start] == home
  }

  /** What a crash at the j-th write of `end_op` leaves: the operations committed before, or from the header write on
      all of them; n blocks are logged. */
  ghost predicate WholeOps(c: LP.Config, hist: seq<LP.Event>, d: Disk, j: nat, n: nat, durable: nat) {
    && |c.format| == c.start && GoodDisk(d, c.start, c.size) && durable <= |hist|
    && Logical(d, c.start, c.size) == LP.Effect(c.format, hist[..if j <= n then durable else |hist|])
  }

  ghost function Ended(s: LP.State): (hist: seq<LP.Event>)
    requires |s.ops| == 1
  {
    s.hist + [LP.End(s.ops[0].id)]
  }

  /** The last operation has ended: every medium of the commit holds whole operations. */
  lemma EndMedia(c: LP.Config, s: LP.State, media: seq<Disk>, ok: bool)
    requires LP.Inv(c, s) && s.phase.Running? && |s.ops| == 1
    requires ok && |s.lh| > 0 ==> CommitTrace(media, c.start, c.size, s.disk[..c.start], s.cache, s.lh)
    requires ok && |s.lh| == 0 ==> media == [s.disk]
    requires !ok ==> forall k :: 0 <= k < |media| ==> SameFiles(media[k], c.start, c.size, s.disk[..c.start])
    requires !ok ==> |media| <= |s.lh| + 1
    ensures forall j :: 0 <= j < |media| ==> WholeOps(c, Ended(s), media[j], j, |s.lh|, s.durable)
  {
    var home, hist := s.disk[..c.start], Ended(s);
    LP.Snoc(c.format, s.hist, LP.End(s.ops[0].id));
    assert hist[..s.durable] == s.hist[..s.durable] && hist[..|hist|] == hist;
    assert Logical(s.disk, c.start, c.size) == home;
    forall j | 0 <= j < |media| ensures WholeOps(c, hist, media[j], j, |s.lh|, s.durable) {
      if ok && |s.lh| > 0 {
        CommitTraceAtomic(media, c.start, c.size, home, s.cache, s.lh, j);
      } else if !ok {
        assert Logical(media[j], c.start, c.size) == home;
      }
    }
  }

  /** After the commit the protocol's invariant holds again, with everything durable. */
  lemma EndCommitted(c: LP.Config, s: LP.State, s': LP.State)
    requires LP.Inv(c, s) && s.phase.Running? && |s.ops| == 1
    requires s' == LP.State(s'.disk, map[], [], 0, 0, LP.Running, [], Ended(s), |s.hist| + 1)
    requires SameFiles(s'.disk, c.start, c.size, Overlay(s.disk[..c.start], s.cache, s.lh))
    ensures LP.Inv(c, s')
  {
    LP.Snoc(c.format, s.hist, LP.End(s.ops[0].id));
    LP.IdsRemove(s.ops, 0);
    assert LP.Remove(s.ops, 0) == [];
    assert s'.hist[..s'.durable] == s'.hist;
    assert Logical(s'.disk, c.start, c.size) == s'.disk[..c.start];
    assert Overlay(s'.disk[..c.start], s'.cache, []) == s'.disk[..c.start];
  }

  /** There is room for what the operation may still log. */
  lemma LogWriteRoom(c: LP.Config, s: LP.State, k: nat, b: int)
    requires LP.Inv(c, s) && c.budget == MAXOPBLOCKS && k < |s.ops| && s.held == 0 && LOGSIZE <= c.nbuf
    requires b in s.lh || s.ops[k].left > 0
    ensures b in s.lh || (|s.lh| < LOGSIZE && |s.lh| < c.nbuf)
  {
    LP.ReservedUpdate(s.ops, k, s.ops[k]);
  }

  /** The fields after a `log_write` are those of the protocol's step. */
  lemma LogWriteStep(c: LP.Config, s: LP.State, s': LP.State, k: nat, b: int, v: Block)
    requires LP.Inv(c, s) && s.phase.Running? && s.held == 0 && k < |s.ops| && 0 <= b < c.start
    requires b in s.lh || (s.ops[k].left > 0 && |s.lh| < LOGSIZE && |s.lh| < c.nbuf)
    requires s' == s.(cache := s.cache[b := v], lh := if b in s.lh then s.lh else s.lh + [b],
                      ops := if b in s.lh then s.ops else s.ops[k := s.ops[k].(left := s.ops[k].left - 1)],
                      hist := s.hist + [LP.Store(s.ops[k].id, b, v)])
    ensures LP.NextStep(c, s, s', LP.LogWrite(k, b, v)) && LP.Inv(c, s')
  {
    assert LP.NextStep(c, s, s', LP.LogWrite(k, b, v));
    LP.LogWriteKeeps(c, s, s', k, b, v);
  }

  /** Without a buffer, or without room in the list, it is the protocol's failing step. */
  lemma LogWriteFails(c: LP.Config, s: LP.State, k: nat, b: int)
    requires s.phase.Running? && s.held == 0 && k < |s.ops| && s.ops[k].left > 0 && 0 <= b < c.start && b !in s.lh
    requires |s.lh| >= LOGSIZE || |s.lh| >= c.nbuf
    ensures LP.NextStep(c, s, s.(phase := LP.Panicked(if |s.lh| >= c.nbuf then LP.NoBuffer else LP.Overrun)),
                        if |s.lh| >= c.nbuf then LP.NoBuffers else LP.ListOverrun(k, b))
  {
  }

  class Log {
    const disk: array<Block>
    const start: nat
    const size: nat
    const nbuf: nat              // buffers of the cache
    var n: int
    const block: array<int>
    var outstanding: int
    var committing: bool
    var cache: map<int, Block>   // buffers pinned with B_DIRTY
    ghost const budget: nat      // how many new blocks one operation may log
    ghost var trace: seq<Disk>   // the medium after each write so far
    ghost var format: Disk       // what the shared protocol sees beside these fields
    ghost var ops: seq<LP.Op>
    ghost var hist: seq<LP.Event>
    ghost var durable: nat

    ghost predicate Shape()
      reads this, block
    {
      && size >= 1 && nbuf >= 1
      && disk.Length == start + size
      && block.Length == LOGSIZE
      && 0 <= n <= LOGSIZE
    }

    /** The blocks of the open transaction, in the order they were first logged. */
    ghost function List(): (s: seq<int>)
      requires Shape()
      reads this, block
    {
      block[..n]
    }

    /** Between commits: the header on the medium is empty, the listed home
        blocks are distinct, and exactly those are pinned in the cache. */
    ghost predicate Valid()
      reads this, disk, block
    {
      && Shape()
      && GoodDisk(disk[..], start, size)
      && DecodeHead(disk[start]) == []
      && Distinct(List())
      && (forall i :: 0 <= i < n ==> 0 <= block[i] < start)
      && (forall b :: b in cache <==> b in List())
      && n <= nbuf
    }

    ghost function Cfg(): (c: LP.Config)
      reads this`format
    {
      LP.Config(start, size, format, budget, nbuf, 0)
    }

    /** This log as a state of the shared protocol. */
    ghost function St(): (s: LP.State)
      requires Shape()
      reads this, disk, block
    {
      LP.State(disk[..], cache, List(), 0, outstanding, LP.Running, ops, hist, durable)
    }

    /** Between commits, and with all that the protocol keeps. */
    ghost predicate InProtocol()
      reads this, disk, block
    {
      Valid() && !committing && LP.Inv(Cfg(), St())
    }

    /** What `bread` returns: the pinned buffer, or the medium. */
    function View(b: int): (data: Block)
      requires 0 <= b < disk.Length
      reads this, disk
    {
      if b in cache then cache[b] else disk[b]
    }

    /** One atomic block write by the device. */
    method Bwrite(b: int, data: Block)
      requires 0 <= b < disk.Length
      modifies this`trace, disk
      ensures disk[..] == old(disk[..])[b := data]
      ensures trace == old(trace) + [disk[..]]
    {
      disk[b] := data;
      trace := trace + [disk[..]];
    }

    method WriteHead()
      requires Shape()
      modifies this`trace, disk
      ensures disk[..] == old(disk[..])[start := EncodeHead(old(disk[start]), List())]
      ensures trace == old(trace) + [disk[..]]
    {
      var hb: Block := disk[start];
      hb := hb[0 := n];
      for i := 0 to n
        invariant hb[0] == n && hb[1..i + 1] == block[..i]
        invariant hb[i + 1..] == disk[start][i + 1..]
      {
        hb := hb[i + 1 := block[i]];
      }
      assert hb == [hb[0]] + hb[1..n + 1] + hb[n + 1..];
      Bwrite(start, hb);
    }

    method ReadHead()
      requires Shape() && 0 <= disk[start][0] <= LOGSIZE
      modifies this`n, block
      ensures Shape() && List() == DecodeHead(disk[start])
    {
      var lh := disk[start];
      n := lh[0];
      for i := 0 to n
        invariant n == lh[0]
        invariant block[..i] == lh[1..i + 1]
      {
        block[i] := lh[i + 1];
      }
    }

    /** Copies the log blocks home, one write each. */
    method InstallTrans() returns (ghost media: seq<Disk>)
      requires Shape() && RecoverPoint(disk[..], start, size, List(), 0)
      requires forall b :: b in cache ==> b in List()
      modifies this`trace, this`cache, disk
      ensures cache == map[]
      ensures |media| == n + 1 && media[0] == old(disk[..]) && media[n] == disk[..]
      ensures trace == old(trace) + media[1..]
      ensures RecoverTrace(media, start, size, List())
    {
      ghost var list := List();
      media := [disk[..]];
      for tail := 0 to n
        invariant |media| == tail + 1 && media[0] == old(disk[..]) && media[tail] == disk[..]
        invariant trace == old(trace) + media[1..]
        invariant RecoverTrace(media, start, size, list)
        invariant forall b :: b in cache ==> b in list[tail..]
      {
        assert start + tail + 1 !in cache;
        Bwrite(block[tail], View(start + tail + 1));
        RecoverExtend(media, disk[..], start, size, list);
        media := media + [disk[..]];
        cache := cache - {block[tail]};
      }
      NoKeys(cache);
    }

    /** `initlog`/`recover_from_log` on whatever a crash left: the home blocks
        become the logical disk and the log is empty. */
    method RecoverFromLog() returns (ghost media: seq<Disk>)
      requires Shape() && GoodDisk(disk[..], start, size) && cache == map[]
      modifies this`n, this`trace, this`cache, disk, block
      ensures Valid() && n == 0 && cache == map[]
      ensures disk[..start] == Logical(old(disk[..]), start, size)
      ensures |media| == |DecodeHead(old(disk[start]))| + 2
      ensures media[0] == old(disk[..]) && media[|media| - 1] == disk[..]
      ensures trace == old(trace) + media[1..]
      ensures RecoverTrace(media, start, size, DecodeHead(old(disk[start])))
    {
      ReadHead();
      ghost var list := List();
      media := InstallTrans();
      n := 0;
      WriteHead();
      assert List() == [];
      RecoverExtend(media, disk[..], start, size, list);
      media := media + [disk[..]];
      RecoverTraceKeepsLogical(media, start, size, list, |list| + 1);
      RecoveryFinished(disk[..], start, size, list);
    }

    /** Copies the pinned buffers into the log.  When all buffers are pinned there is none to read a log block into, and
        a transaction as large as the log area runs off its end: both panic (ok is false). */
    method WriteLog() returns (ok: bool, ghost media: seq<Disk>)
      requires Valid()
      modifies this`trace, disk
      ensures media != [] && media[0] == old(disk[..]) && media[|media| - 1] == disk[..]
      ensures trace == old(trace) + media[1..]
      ensures ok <==> n < size && n < nbuf
      ensures ok ==> |media| == n + 1 && CommitTrace(media, start, size, old(disk[..start]), cache, List())
      ensures !ok ==> |media| <= old(n) + 1
      ensures !ok ==> forall k :: 0 <= k < |media| ==> SameFiles(media[k], start, size, old(disk[..start]))
    {
      ghost var home, list := disk[..start], List();
      ok := true;
      media := [disk[..]];
      assert home == media[0][..start];
      for tail := 0 to n
        invariant ok && tail < size
        invariant |media| == tail + 1 && media[0] == old(disk[..]) && media[tail] == disk[..]
        invariant trace == old(trace) + media[1..]
        invariant forall k :: 0 <= k < |media| ==> SameFiles(media[k], start, size, home)
        invariant n < size && n < nbuf ==> CommitTrace(media, start, size, home, cache, list)
        invariant tail > 0 ==> n < nbuf
      {
        if n >= nbuf {
          ok := false;   // bget: "no buffers"
          return;
        }
        if start + tail + 1 >= disk.Length {
          ok := false;   // iderw: "incorrect blockno"
          return;
        }
        assert block[tail] == list[tail];
        Bwrite(start + tail + 1, View(block[tail]));
        assert disk[..start] == media[tail][..start];
        assert disk[..][start] == media[tail][start];
        assert SameFiles(disk[..], start, size, home) by {
          assert disk[..][..start] == disk[..start];
        }
        if n < size {
          CommitExtend(media, disk[..], start, size, home, cache, list);
        }
        media := media + [disk[..]];
      }
    }

    /** The first half of commit: the log blocks, then the header. */
    method LogTransaction() returns (ok: bool, ghost media: seq<Disk>)
      requires Valid()
      modifies this`trace, disk
      ensures media != [] && media[0] == old(disk[..]) && media[|media| - 1] == disk[..]
      ensures trace == old(trace) + media[1..]
      ensures ok <==> n < size && n < nbuf
      ensures ok ==> |media| == n + 2 && CommitTrace(media, start, size, old(disk[..start]), cache, List())
      ensures !ok ==> |media| <= old(n) + 1
      ensures !ok ==> forall k :: 0 <= k < |media| ==> SameFiles(media[k], start, size, old(disk[..start]))
    {
      ok, media := WriteLog();
      if ok {
        WriteHead();
        CommitExtend(media, disk[..], start, size, old(disk[..start]), cache, List());
        media := media + [disk[..]];
      }
    }

    /** The second half: the home blocks, then an empty header. */
    method InstallTransaction(ghost logged: seq<Disk>, ghost home: Disk) returns (ghost media: seq<Disk>)
      requires Shape() && |logged| == n + 2 && logged[n + 1] == disk[..]
      requires CommitTrace(logged, start, size, home, cache, List())
      requires forall b :: b in cache ==> b in List()
      modifies this`n, this`trace, this`cache, disk
      ensures Shape() && n == 0 && cache == map[]
      ensures logged <= media && media[|media| - 1] == disk[..] && |media| == 2 * old(n) + 3
      ensures trace == old(trace) + media[|logged|..]
      ensures CommitTrace(media, start, size, home, old(cache), old(List()))
    {
      ghost var list, c := List(), cache;
      CommitTracePoint(logged, start, size, home, c, list, |list| + 1);
      ghost var tail := InstallTrans();
      CommitThenInstall(logged, tail, home, c, list);
      media := logged + tail[1..];
      assert media[2 * |list| + 1] == disk[..];
      n := 0;
      WriteHead();
      assert List() == [];
      CommitExtend(media, disk[..], start, size, home, c, list);
      media := media + [disk[..]];
      assert media[|logged|..] == tail[1..] + [disk[..]];
    }

    /** The whole commit.  If the transaction fits, its writes are exactly the
        2n + 2 steps of a commit trace, so CommitTraceAtomic applies to every
        one of them; at the end the home blocks hold the transaction. */
    method Commit() returns (ok: bool, ghost media: seq<Disk>)
      requires Valid()
      modifies this`n, this`trace, this`cache, disk
      ensures media != [] && media[0] == old(disk[..]) && media[|media| - 1] == disk[..]
      ensures trace == old(trace) + media[1..]
      ensures ok <==> old(n) == 0 || (old(n) < size && old(n) < nbuf)
      ensures ok ==> Valid() && n == 0 && cache == map[]
      ensures ok ==> disk[..start] == Overlay(old(disk[..start]), old(cache), old(List()))
      ensures ok && old(n) > 0 ==> |media| == 2 * old(n) + 3
      ensures ok && old(n) > 0 ==> CommitTrace(media, start, size, old(disk[..start]), old(cache), old(List()))
      ensures ok && old(n) == 0 ==> |media| == 1
      ensures !ok ==> |media| <= old(n) + 1
      ensures !ok ==> forall k :: 0 <= k < |media| ==> SameFiles(media[k], start, size, old(disk[..start]))
    {
      ghost var home, list, c := disk[..start], List(), cache;
      ok, media := true, [disk[..]];
      if n > 0 {
        ok, media := LogTransaction();
        if ok {
          ghost var logged := media;
          media := InstallTransaction(logged, home);
          assert media[1..] == logged[1..] + media[|logged|..];
          CommitTracePoint(media, start, size, home, c, list, 2 * |list| + 2);
          CommitPointLogical(disk[..], start, size, home, c, list, 2 * |list| + 2);
          assert disk[..][start] == disk[start] && disk[..][..start] == disk[..start];
        }
      } else {
        NoKeys(cache);
      }
    }

    /** The installing writes of commit are those of recovery, from the header write on. */
    lemma CommitThenInstall(media: seq<Disk>, tail: seq<Disk>, home: Disk, c: map<int, Block>, blocks: seq<int>)
      requires CommitTrace(media, start, size, home, c, blocks) && |media| == |blocks| + 2
      requires RecoverTrace(tail, start, size, blocks) && |tail| == |blocks| + 1
      requires tail[0] == media[|media| - 1]
      ensures CommitTrace(media + tail[1..], start, size, home, c, blocks)
    {
      var all := media + tail[1..];
      assert CommitAt(media, start, size, c, blocks, |blocks| + 1);
      forall pc | 0 < pc < |all| ensures CommitAt(all, start, size, c, blocks, pc) {
        if pc < |media| {
          assert CommitAt(media, start, size, c, blocks, pc);
        } else {
          var k := pc - |media| + 1;
          assert all[pc] == tail[k] && all[pc - 1] == tail[k - 1];
          assert RecoverAt(tail, start, size, blocks, k);
        }
      }
    }

    /** `initlog`: the machine comes up on a medium some earlier run, cut short anywhere, left behind. */
    constructor (disk: array<Block>, start: nat, size: nat, nbuf: nat, ghost budget: nat)
      requires disk.Length == start + size && GoodDisk(disk[..], start, size) && nbuf >= 1 && budget >= MAXOPBLOCKS
      modifies disk
      ensures this.disk == disk && this.start == start && this.size == size && this.nbuf == nbuf && fresh(block)
      ensures this.budget == budget
      ensures InProtocol() && n == 0 && outstanding == 0
      ensures disk[..start] == Logical(old(disk[..]), start, size) == format && hist == []
    {
      this.disk, this.start, this.size, this.nbuf, this.budget := disk, start, size, nbuf, budget;
      n, outstanding, committing, cache, trace := 0, 0, false, map[], [];
      block := new int[LOGSIZE];
      ops, hist, durable := [], [], 0;
      new;
      ghost var _ := RecoverFromLog();
      format := disk[..start];
      assert disk[..][..start] == disk[..start];
      LP.InitInv(Cfg(), St());
    }

    /** One pass of the loop in `begin_op` under log.lock: the operation is admitted exactly when the shared protocol
        lets it begin; if operations keep to what is reserved, the log then has room for all of it. */
    method TryBeginOp(ghost id: nat) returns (admitted: bool)
      requires InProtocol() && forall i :: 0 <= i < |ops| ==> ops[i].id != id
      modifies this`outstanding, this`ops, this`hist
      ensures InProtocol() && (budget == MAXOPBLOCKS ==> n + LP.Reserved(ops) <= LOGSIZE)
      ensures admitted ==> LP.NextStep(Cfg(), old(St()), St(), LP.BeginOp(id))
      ensures !admitted ==> St() == old(St()) && forall s :: !LP.NextStep(Cfg(), St(), s, LP.BeginOp(id))
    {
      if committing {
        admitted := false;
      } else if n + (outstanding + 1) * MAXOPBLOCKS > LOGSIZE {
        admitted := false;
      } else {
        outstanding := outstanding + 1;
        admitted := true;
        ops, hist := ops + [LP.Op(id, budget)], hist + [LP.Begin(id)];
        LP.BeginOpKeeps(Cfg(), old(St()), St(), id);
      }
    }

    /** The loop of `log_write`: the block is listed once however often it is logged, and pinned with its new contents.
        Without a buffer for a new block `bread` has panicked before; without room the list is written past its end. */
    method LogWrite(b: int, data: Block) returns (ok: bool)
      requires Valid() && 0 <= b < start
      modifies this`n, this`cache, block
      ensures Valid() && (ok <==> b in old(List()) || (old(n) < LOGSIZE && old(n) < nbuf))
      ensures !ok ==> List() == old(List()) && cache == old(cache)
      ensures ok ==> List() == if b in old(List()) then old(List()) else old(List()) + [b]
      ensures ok ==> cache == old(cache)[b := data]
      ensures ok ==> forall c :: 0 <= c < disk.Length ==> View(c) == if c == b then data else old(View(c))
    {
      var i := 0;
      while i < n && block[i] != b
        invariant 0 <= i <= n
        invariant b !in block[..i]
      {
        i := i + 1;
      }
      ghost var list := List();
      assert i < n ==> list[i] == b;
      if i == n && (n >= nbuf || i >= block.Length) {
        return false;
      }
      block[i] := b;
      if i == n {
        n := n + 1;
      }
      assert List() == if b in list then list else list + [b];
      cache := cache[b := data];
      ok := true;
    }

    /** What the protocol sees of a `log_write` by operation k that has been done; s is the state before it. */
    ghost method NoteWrite(k: nat, b: int, data: Block, s: LP.State)
      requires LP.Inv(Cfg(), s) && s.phase.Running? && s.held == 0 && k < |s.ops|
      requires 0 <= b < start && Valid() && !committing
      requires b in s.lh || (s.ops[k].left > 0 && |s.lh| < LOGSIZE && |s.lh| < nbuf)
      requires St() == s.(cache := s.cache[b := data], lh := if b in s.lh then s.lh else s.lh + [b])
      modifies this`ops, this`hist
      ensures InProtocol() && LP.NextStep(Cfg(), s, St(), LP.LogWrite(k, b, data))
    {
      var op := ops[k];
      ops := if b in s.lh then ops else ops[k := op.(left := op.left - 1)];
      hist := hist + [LP.Store(op.id, b, data)];
      LogWriteStep(Cfg(), s, St(), k, b, data);
    }

    /** `log_write` by operation k, which may log the block: a step of the protocol, which fails exactly when there is
        no buffer or no room.  With operations that keep to what is reserved there always is. */
    method LogWriteBy(ghost k: nat, b: int, data: Block) returns (ok: bool)
      requires InProtocol() && 0 <= b < start && k < |ops| && (b in List() || ops[k].left > 0)
      modifies this`n, this`cache, this`ops, this`hist, block
      ensures InProtocol() && (ok <==> b in old(List()) || (old(n) < LOGSIZE && old(n) < nbuf))
      ensures ok ==> LP.NextStep(Cfg(), old(St()), St(), LP.LogWrite(k, b, data))
      ensures !ok ==> St() == old(St())
      ensures !ok ==>
                LP.NextStep(Cfg(), St(), St().(phase := LP.Panicked(if n >= nbuf then LP.NoBuffer else LP.Overrun)),
                            if n >= nbuf then LP.NoBuffers else LP.ListOverrun(k, b))
      ensures budget == MAXOPBLOCKS && LOGSIZE <= nbuf ==> ok
    {
      ghost var s := St();
      if budget == MAXOPBLOCKS && LOGSIZE <= nbuf {
        LogWriteRoom(Cfg(), s, k, b);
      }
      ok := LogWrite(b, data);
      if ok {
        NoteWrite(k, b, data, s);
      } else {
        assert St() == s;
        LogWriteFails(Cfg(), s, k, b);
      }
    }

    /** `end_op` while others are outstanding. */
    method EndEarly(ghost k: nat)
      requires InProtocol() && k < |ops| && outstanding > 1
      modifies this`outstanding, this`ops, this`hist
      ensures InProtocol() && LP.NextStep(Cfg(), old(St()), St(), LP.EndOp(k))
    {
      outstanding := outstanding - 1;
      hist := hist + [LP.End(ops[k].id)];
      ops := LP.Remove(ops, k);
      LP.EndOpKeeps(Cfg(), old(St()), St(), k);
    }

    /** The commit of the last one out; every medium it passes through holds whole operations. */
    method CommitLast() returns (ok: bool, ghost media: seq<Disk>)
      requires InProtocol() && outstanding == 1
      modifies this`n, this`trace, this`cache, this`outstanding, this`committing, disk
      ensures media != [] && media[0] == old(disk[..]) && media[|media| - 1] == disk[..]
      ensures trace == old(trace) + media[1..] && outstanding == 0
      ensures ok <==> old(n) == 0 || (old(n) < size && old(n) < nbuf)
      ensures ok ==> Valid() && n == 0 && cache == map[] && !committing
      ensures ok ==> SameFiles(disk[..], start, size, Overlay(old(disk[..])[..start], old(cache), old(List())))
      ensures forall j :: 0 <= j < |media| ==> WholeOps(Cfg(), Ended(old(St())), media[j], j, old(n), durable)
    {
      ghost var s := St();
      outstanding, committing := outstanding - 1, true;
      ok, media := Commit();
      assert s.disk[..start] == old(disk[..start]);
      EndMedia(Cfg(), s, media, ok);
      if ok {
        committing := false;
        assert disk[..][..start] == disk[..start] && disk[..][start] == disk[start];
      }
    }

    /** `end_op` by the last one out: it commits. */
    method EndLast() returns (ok: bool, ghost media: seq<Disk>)
      requires InProtocol() && outstanding == 1
      modifies this`n, this`trace, this`cache, this`outstanding, this`committing
      modifies this`ops, this`hist, this`durable, disk
      ensures media != [] && media[0] == old(disk[..]) && media[|media| - 1] == disk[..]
      ensures trace == old(trace) + media[1..]
      ensures ok <==> old(n) == 0 || (old(n) < size && old(n) < nbuf)
      ensures hist == old(hist) + [LP.End(old(ops)[0].id)]
      ensures ok ==> InProtocol() && outstanding == 0 && n == 0 && durable == |hist|
      ensures forall j :: 0 <= j < |media| ==> WholeOps(Cfg(), hist, media[j], j, old(n), old(durable))
    {
      ghost var s := St();
      ok, media := CommitLast();
      hist := hist + [LP.End(ops[0].id)];
      if ok {
        ops, durable := [], |hist|;
        EndCommitted(Cfg(), s, St());
      }
    }

    /** `end_op` of operation k: the last one out commits, and a crash after any write recovers whole operations. */
    method EndOp(ghost k: nat) returns (ok: bool, ghost media: seq<Disk>)
      requires InProtocol() && k < |ops|
      modifies this`n, this`trace, this`cache, this`outstanding, this`committing
      modifies this`ops, this`hist, this`durable, disk
      ensures media != [] && media[0] == old(disk[..]) && media[|media| - 1] == disk[..]
      ensures ok <==> old(outstanding) > 1 || old(n) == 0 || (old(n) < size && old(n) < nbuf)
      ensures ok ==> InProtocol() && outstanding == old(outstanding) - 1
      ensures hist == old(hist) + [LP.End(old(ops)[k].id)]
      ensures old(outstanding) > 1 ==> LP.NextStep(Cfg(), old(St()), St(), LP.EndOp(k)) && |media| == 1
      ensures ok && outstanding == 0 ==> n == 0 && durable == |hist|
      ensures old(outstanding) == 1 ==>
                forall j :: 0 <= j < |media| ==> WholeOps(Cfg(), hist, media[j], j, old(n), old(durable))
    {
      if outstanding == 1 {
        ok, media := EndLast();
      } else {
        EndEarly(k);
        ok, media := true, [disk[..]];
      }
    }
  }
}
