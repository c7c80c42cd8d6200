/**
 The durable side of log.c: the block layout of the write-ahead log, the one
 block that each step of `commit` and `recover_from_log` writes, and the
 logical disk that recovery will produce from whatever is on the medium.

 A disk is a sequence of blocks.  Blocks `[0, start)` are home blocks, block
 `start` is the log header, and block `start + 1 + i` is the i-th log block.
 A block is its 128 machine words (BSIZE / sizeof(int)), so that the header is
 stored inside an ordinary block, as in log.c.
 */
module LogDisk {

  const BLOCK_WORDS := 128
  const MAXOPBLOCKS := 10
  const LOGSIZE := MAXOPBLOCKS * 3

  type Block = b: seq<int> | |b| == 128 witness seq(128, _ => 0)
  type Disk = seq<Block>

  /** Header words as `read_head` decodes them: word 0 counts, words 1.. list blocks. */
  function DecodeHead(h: Block): (blocks: seq<int>)
    requires 0 <= h[0] <= LOGSIZE
  {
    h[1..h[0] + 1]
  }

  /** `write_head` overwrites the count and as many entries as it counts; the
      words behind them keep whatever an older transaction left there. */
  function EncodeHead(h: Block, blocks: seq<int>): (h': Block)
    requires |blocks| <= LOGSIZE
    ensures h'[0] == |blocks| && DecodeHead(h') == blocks
    ensures h'[|blocks| + 1..] == h[|blocks| + 1..]
  {
    [|blocks|] + blocks + h[|blocks| + 1..]
  }

  /** The header on the disk: the count in the first word, the block numbers in those after it. */
  lemma HeadFormat(h: Block, blocks: seq<int>, k: nat)
    requires |blocks| <= LOGSIZE && k < |blocks|
    ensures EncodeHead(h, blocks)[0] == |blocks| && EncodeHead(h, blocks)[1 + k] == blocks[k]
    ensures |DecodeHead(EncodeHead(h, blocks))| == |blocks|
  {
    assert DecodeHead(EncodeHead(h, blocks))[k] == blocks[k];
  }

  ghost predicate Distinct(s: seq<int>) {
    forall i, j :: 0 <= i < j < |s| ==> s[i] != s[j]
  }

  /** A list of home blocks that fits a log of `size` blocks, header included. */
  ghost predicate GoodList(blocks: seq<int>, start: nat, size: nat) {
    && |blocks| <= LOGSIZE
    && |blocks| < size
    && Distinct(blocks)
    && forall i :: 0 <= i < |blocks| ==> 0 <= blocks[i] < start
  }

  /** What `initlog` may find on the medium. */
  ghost predicate GoodDisk(d: Disk, start: nat, size: nat) {
    && |d| == start + size
    && size >= 1
    && 0 <= d[start][0] <= LOGSIZE
    && GoodList(DecodeHead(d[start]), start, size)
  }

  function IndexOf(s: seq<int>, x: int): (i: nat)
    requires x in s
    ensures i < |s| && s[i] == x
  {
    if s[0] == x then 0 else 1 + IndexOf(s[1..], x)
  }

  lemma NoKeys(m: map<int, Block>)
    requires forall b :: b !in m
    ensures m == map[]
  {
    var none: map<int, Block> := map[];
    assert forall b :: b in m <==> b in none;
  }

  /** The home blocks once a header listing `blocks` has been replayed. */
  ghost function Replayed(d: Disk, start: nat, blocks: seq<int>): (home: Disk)
    requires |blocks| + start < |d|
    ensures |home| == start
  {
    seq(start, b requires 0 <= b < start =>
      if b in blocks then d[start + 1 + IndexOf(blocks, b)] else d[b])
  }

  /** The file system a reboot will see: home blocks with the committed log, if any, on top. */
  ghost function Logical(d: Disk, start: nat, size: nat): (home: Disk)
    requires GoodDisk(d, start, size)
  {
    Replayed(d, start, DecodeHead(d[start]))
  }

  /** Home blocks with the cached contents of every listed block stored over them. */
  ghost function Overlay(home: Disk, cache: map<int, Block>, blocks: seq<int>): (r: Disk)
    requires forall b :: b in blocks ==> b in cache
    ensures |r| == |home|
  {
    seq(|home|, b requires 0 <= b < |home| => if b in blocks then cache[b] else home[b])
  }

  /** The pc-th single-block write of `install_trans` followed by `write_head` with n = 0. */
  function RecoverWrite(d: Disk, start: nat, blocks: seq<int>, pc: nat): (d': Disk)
    requires start + |blocks| < |d| && pc <= |blocks|
    requires forall i :: 0 <= i < |blocks| ==> 0 <= blocks[i] < start
    ensures |d'| == |d|
  {
    if pc < |blocks| then d[blocks[pc] := d[start + 1 + pc]]
    else d[start := EncodeHead(d[start], [])]
  }

  /** The pc-th single-block write of `commit`: the log blocks, the header, then as recovery. */
  function CommitWrite(d: Disk, start: nat, cache: map<int, Block>, blocks: seq<int>, pc: nat): (d': Disk)
    requires |blocks| <= LOGSIZE && pc <= 2 * |blocks| + 1
    requires start < |d| && if pc < |blocks| then start + 1 + pc < |d| else start + |blocks| < |d|
    requires forall i :: 0 <= i < |blocks| ==> 0 <= blocks[i] < start && blocks[i] in cache
    ensures |d'| == |d|
  {
    if pc < |blocks| then d[start + 1 + pc := cache[blocks[pc]]]
    else if pc == |blocks| then d[start := EncodeHead(d[start], blocks)]
    else RecoverWrite(d, start, blocks, pc - |blocks| - 1)
  }

  lemma {:induction false} IndexOfUnique(s: seq<int>, i: nat)
    requires Distinct(s) && i < |s|
    ensures IndexOf(s, s[i]) == i
  {
    if i > 0 {
      assert s[i] == s[1..][i - 1];
      IndexOfUnique(s[1..], i - 1);
    }
  }

  /** The medium while recovery is at write pc: the header still lists `blocks`
      until the last write, and the first pc home blocks hold their log blocks. */
  ghost predicate RecoverPoint(d: Disk, start: nat, size: nat, blocks: seq<int>, pc: nat) {
    && GoodDisk(d, start, size)
    && GoodList(blocks, start, size)
    && pc <= |blocks| + 1
    && DecodeHead(d[start]) == (if pc <= |blocks| then blocks else [])
    && forall i :: 0 <= i < |blocks| && i < pc ==> d[blocks[i]] == d[start + 1 + i]
  }

  lemma InstallPoint(d: Disk, start: nat, size: nat, blocks: seq<int>, pc: nat)
    requires RecoverPoint(d, start, size, blocks, pc) && pc < |blocks|
    ensures RecoverPoint(d[blocks[pc] := d[start + 1 + pc]], start, size, blocks, pc + 1)
  {
    var d' := d[blocks[pc] := d[start + 1 + pc]];
    assert d'[start] == d[start];
    forall i | 0 <= i < |blocks| && i < pc + 1 ensures d'[blocks[i]] == d'[start + 1 + i] {
      assert i != pc ==> blocks[i] != blocks[pc];
    }
  }

  lemma InstallWrite(d: Disk, start: nat, size: nat, blocks: seq<int>, pc: nat)
    requires RecoverPoint(d, start, size, blocks, pc) && pc < |blocks|
    ensures var d' := d[blocks[pc] := d[start + 1 + pc]];
            RecoverPoint(d', start, size, blocks, pc + 1) && Logical(d', start, size) == Logical(d, start, size)
  {
    InstallPoint(d, start, size, blocks, pc);
    var d' := d[blocks[pc] := d[start + 1 + pc]];
    forall b | 0 <= b < start ensures Replayed(d', start, blocks)[b] == Replayed(d, start, blocks)[b] {
      assert b !in blocks ==> b != blocks[pc];
    }
  }

  lemma ClearWrite(d: Disk, start: nat, size: nat, blocks: seq<int>)
    requires RecoverPoint(d, start, size, blocks, |blocks|)
    ensures var d' := d[start := EncodeHead(d[start], [])];
            RecoverPoint(d', start, size, blocks, |blocks| + 1) && Logical(d', start, size) == Logical(d, start, size)
  {
    var d' := d[start := EncodeHead(d[start], [])];
    assert DecodeHead(d'[start]) == [];
  }

  /** Every write of recovery leaves the logical disk alone, so a crash after
      any of them, and any number of further crashes, loses nothing. */
  lemma RecoverWriteKeepsLogical(d: Disk, start: nat, size: nat, blocks: seq<int>, pc: nat)
    requires RecoverPoint(d, start, size, blocks, pc) && pc <= |blocks|
    ensures RecoverPoint(RecoverWrite(d, start, blocks, pc), start, size, blocks, pc + 1)
    ensures Logical(RecoverWrite(d, start, blocks, pc), start, size) == Logical(d, start, size)
  {
    if pc < |blocks| {
      InstallWrite(d, start, size, blocks, pc);
    } else {
      ClearWrite(d, start, size, blocks);
    }
  }

  /** After the last write of recovery the home blocks are the logical disk and the log is empty. */
  lemma RecoveryFinished(d: Disk, start: nat, size: nat, blocks: seq<int>)
    requires RecoverPoint(d, start, size, blocks, |blocks| + 1)
    ensures Logical(d, start, size) == d[..start]
  {
  }

  /** Before the header write: the header is empty, home blocks are untouched,
      and the first pc log blocks hold the cached contents. */
  ghost predicate LoggedPoint(d: Disk, start: nat, size: nat, home: Disk,
                              cache: map<int, Block>, blocks: seq<int>, pc: nat)
  {
    && GoodDisk(d, start, size)
    && GoodList(blocks, start, size)
    && (forall b :: b in blocks ==> b in cache)
    && pc <= |blocks|
    && DecodeHead(d[start]) == []
    && d[..start] == home
    && forall i :: 0 <= i < pc ==> d[start + 1 + i] == cache[blocks[i]]
  }

  /** The medium while `commit` of (blocks, cache) is at write pc over home blocks `home`. */
  ghost predicate CommitPoint(d: Disk, start: nat, size: nat, home: Disk,
                              cache: map<int, Block>, blocks: seq<int>, pc: nat)
  {
    if pc <= |blocks| then
      LoggedPoint(d, start, size, home, cache, blocks, pc)
    else
      && (forall b :: b in blocks ==> b in cache)
      && RecoverPoint(d, start, size, blocks, pc - |blocks| - 1)
      && Logical(d, start, size) == Overlay(home, cache, blocks)
  }

  lemma LogBlockWrite(d: Disk, start: nat, size: nat, home: Disk,
                      cache: map<int, Block>, blocks: seq<int>, pc: nat)
    requires LoggedPoint(d, start, size, home, cache, blocks, pc) && pc < |blocks|
    ensures LoggedPoint(d[start + 1 + pc := cache[blocks[pc]]], start, size, home, cache, blocks, pc + 1)
  {
    var d' := d[start + 1 + pc := cache[blocks[pc]]];
    assert d'[..start] == d[..start];
    assert d'[start] == d[start];
  }

  /** The header write is the one write that changes the logical disk. */
  lemma HeaderWriteCommits(d: Disk, start: nat, size: nat, home: Disk,
                           cache: map<int, Block>, blocks: seq<int>)
    requires LoggedPoint(d, start, size, home, cache, blocks, |blocks|)
    ensures var d' := d[start := EncodeHead(d[start], blocks)];
            RecoverPoint(d', start, size, blocks, 0) && Logical(d', start, size) == Overlay(home, cache, blocks)
  {
    var d' := d[start := EncodeHead(d[start], blocks)];
    assert DecodeHead(d'[start]) == blocks;
    forall b | 0 <= b < start
      ensures Logical(d', start, size)[b] == Overlay(home, cache, blocks)[b]
    {
      assert d'[b] == d[..start][b];
    }
  }

  /** One write of `commit` moves the commit point by one. */
  lemma CommitWriteAdvances(d: Disk, start: nat, size: nat, home: Disk,
                            cache: map<int, Block>, blocks: seq<int>, pc: nat)
    requires CommitPoint(d, start, size, home, cache, blocks, pc) && pc <= 2 * |blocks| + 1
    ensures CommitPoint(CommitWrite(d, start, cache, blocks, pc), start, size, home, cache, blocks, pc + 1)
  {
    if pc < |blocks| {
      LogBlockWrite(d, start, size, home, cache, blocks, pc);
    } else if pc == |blocks| {
      HeaderWriteCommits(d, start, size, home, cache, blocks);
    } else {
      RecoverWriteKeepsLogical(d, start, size, blocks, pc - |blocks| - 1);
    }
  }

  /** The commit point decides what a crash leaves behind. */
  lemma CommitPointLogical(d: Disk, start: nat, size: nat, home: Disk,
                           cache: map<int, Block>, blocks: seq<int>, pc: nat)
    requires CommitPoint(d, start, size, home, cache, blocks, pc)
    ensures Logical(d, start, size) == if pc <= |blocks| then home else Overlay(home, cache, blocks)
    ensures pc == 2 * |blocks| + 2 ==> d[..start] == Overlay(home, cache, blocks) && DecodeHead(d[start]) == []
  {
  }

  /** Writing over log block j of a committed transaction, as if it were a data block, changes what a reboot sees at the
      block the transaction logged there, and nothing else. */
  lemma StrayWrite(d: Disk, start: nat, size: nat, j: nat, v: Block)
    requires GoodDisk(d, start, size) && j < |DecodeHead(d[start])|
    ensures var blocks, d' := DecodeHead(d[start]), d[start + 1 + j := v];
            GoodDisk(d', start, size) && Logical(d', start, size) == Logical(d, start, size)[blocks[j] := v]
  {
    var blocks, d' := DecodeHead(d[start]), d[start + 1 + j := v];
    assert d'[start] == d[start];
    IndexOfUnique(blocks, j);
    forall b | 0 <= b < start
      ensures Logical(d', start, size)[b] == Logical(d, start, size)[blocks[j] := v][b]
    {
    }
  }
}
