/**
 A transaction that lists blocks of the log itself, as happens once `balloc`
 hands them out as data blocks: `write_log` copies into buffers that are pinned
 for the same transaction, and `install_trans` writes over log blocks that it
 has still to read.  Where each block of the list then gets its contents from.
 */
module LogOverlap {
  import opened LogDisk

  /** The blocks of the disk, and the buffers pinned for the transaction. */
  datatype Medium = Medium(disk: Disk, pinned: map<int, Block>)

  ghost predicate Listed(m: Medium, start: nat, blocks: seq<int>) {
    && start + |blocks| < |m.disk| && Distinct(blocks)
    && forall i :: 0 <= i < |blocks| ==> 0 <= blocks[i] < |m.disk| && blocks[i] in m.pinned
  }

  /** One turn of `write_log`: the buffer of log block k may be a pinned one. */
  function Copy(m: Medium, start: nat, blocks: seq<int>, k: nat): (m': Medium)
    requires k < |blocks| && start + |blocks| < |m.disk| && blocks[k] in m.pinned
  {
    var v := m.pinned[blocks[k]];
    Medium(m.disk[start + 1 + k := v], if start + 1 + k in m.pinned then m.pinned[start + 1 + k := v] else m.pinned)
  }

  /** n turns of it. */
  ghost function Copied(m: Medium, start: nat, blocks: seq<int>, n: nat): (m': Medium)
    requires Listed(m, start, blocks) && n <= |blocks|
    ensures |m'.disk| == |m.disk| && forall b :: b in m'.pinned <==> b in m.pinned
  {
    if n == 0 then m else Copy(Copied(m, start, blocks, n - 1), start, blocks, n - 1)
  }

  ghost predicate InDisk(d: Disk, start: nat, blocks: seq<int>) {
    start + |blocks| < |d| && forall i :: 0 <= i < |blocks| ==> 0 <= blocks[i] < |d|
  }

  /** n turns of `install_trans`. */
  ghost function Installed(d: Disk, start: nat, blocks: seq<int>, n: nat): (d': Disk)
    requires InDisk(d, start, blocks) && n <= |blocks|
    ensures |d'| == |d|
  {
    if n == 0 then d
    else
      var e := Installed(d, start, blocks, n - 1);
      e[blocks[n - 1] := e[start + n]]
  }

  /** All blocks once the transaction is committed and installed. */
  ghost function Committed(m: Medium, start: nat, blocks: seq<int>): (d: Disk)
    requires Listed(m, start, blocks)
  {
    Installed(Copied(m, start, blocks, |blocks|).disk, start, blocks, |blocks|)
  }

  /** Whose contents turn k of `write_log` copies: its own, or those that an earlier turn left in its buffer. */
  function CopySource(start: nat, blocks: seq<int>, k: nat): (j: nat)
    requires k < |blocks|
    ensures j <= k
    ensures j == k <==> !(start < blocks[k] <= start + k)
  {
    if start < blocks[k] <= start + k then CopySource(start, blocks, blocks[k] - start - 1) else k
  }

  /** Where v occurs among the first n of the list; n if it does not. */
  function Find(blocks: seq<int>, n: nat, v: int): (x: nat)
    requires n <= |blocks|
    ensures x <= n && (x < n ==> blocks[x] == v)
    ensures x == n ==> forall i :: 0 <= i < n ==> blocks[i] != v
  {
    if n == 0 then 0
    else if blocks[n - 1] == v then n - 1
    else
      var x := Find(blocks, n - 1, v);
      if x < n - 1 then x else n
  }

  /** From which log block turn k of `install_trans` really copies: its own, or the one that was installed over it. */
  function InstallSource(start: nat, blocks: seq<int>, k: nat): (j: nat)
    requires k < |blocks|
    ensures j <= k
    ensures j == k <==> Find(blocks, k, start + 1 + k) == k
  {
    var x := Find(blocks, k, start + 1 + k);
    if x < k then InstallSource(start, blocks, x) else k
  }

  lemma CopyTurn(m: Medium, start: nat, blocks: seq<int>, n: nat, b: int)
    requires Listed(m, start, blocks) && 0 < n <= |blocks| && b in m.pinned
    ensures Copied(m, start, blocks, n).pinned[b] ==
            Copied(m, start, blocks, n - 1).pinned[if b == start + n then blocks[n - 1] else b]
  {
  }

  lemma {:induction false} CopiedBuffer(m: Medium, start: nat, blocks: seq<int>, n: nat, b: int)
    requires Listed(m, start, blocks) && n <= |blocks| && b in m.pinned
    ensures Copied(m, start, blocks, n).pinned[b] ==
            if start < b <= start + n then m.pinned[blocks[CopySource(start, blocks, b - start - 1)]] else m.pinned[b]
  {
    if n > 0 {
      CopyTurn(m, start, blocks, n, b);
      CopiedBuffer(m, start, blocks, n - 1, if b == start + n then blocks[n - 1] else b);
    }
  }

  lemma {:induction false} CopiedBlock(m: Medium, start: nat, blocks: seq<int>, n: nat, k: nat)
    requires Listed(m, start, blocks) && k < n <= |blocks|
    ensures Copied(m, start, blocks, n).disk[start + 1 + k] == m.pinned[blocks[CopySource(start, blocks, k)]]
  {
    if k == n - 1 {
      CopiedBuffer(m, start, blocks, n - 1, blocks[k]);
    } else {
      CopiedBlock(m, start, blocks, n - 1, k);
    }
  }

  lemma {:induction false} InstalledElse(d: Disk, start: nat, blocks: seq<int>, n: nat, b: nat)
    requires InDisk(d, start, blocks) && n <= |blocks|
    requires b < |d| && forall i :: 0 <= i < n ==> blocks[i] != b
    ensures Installed(d, start, blocks, n)[b] == d[b]
  {
    if n > 0 {
      InstalledElse(d, start, blocks, n - 1, b);
    }
  }

  lemma InstallTurn(d: Disk, start: nat, blocks: seq<int>, n: nat, k: nat)
    requires InDisk(d, start, blocks) && Distinct(blocks) && k < n <= |blocks|
    ensures Installed(d, start, blocks, n)[blocks[k]] ==
            Installed(d, start, blocks, n - 1)[if k < n - 1 then blocks[k] else start + n]
  {
  }

  lemma {:induction false} InstalledBlock(d: Disk, start: nat, blocks: seq<int>, n: nat, k: nat)
    requires InDisk(d, start, blocks) && k < n <= |blocks|
    requires Distinct(blocks)
    ensures Installed(d, start, blocks, n)[blocks[k]] == d[start + 1 + InstallSource(start, blocks, k)]
  {
    InstallTurn(d, start, blocks, n, k);
    if k < n - 1 {
      InstalledBlock(d, start, blocks, n - 1, k);
    } else {
      var x := Find(blocks, k, start + n);
      if x < k {
        InstalledBlock(d, start, blocks, k, x);
      } else {
        InstalledElse(d, start, blocks, k, start + n);
      }
    }
  }

  /** Whose contents block k of the list ends with. */
  function Source(start: nat, blocks: seq<int>, k: nat): (j: nat)
    requires k < |blocks|
    ensures j <= k
  {
    CopySource(start, blocks, InstallSource(start, blocks, k))
  }

  lemma CommittedFrom(m: Medium, start: nat, blocks: seq<int>, k: nat)
    requires Listed(m, start, blocks) && k < |blocks|
    ensures Committed(m, start, blocks)[blocks[k]] == m.pinned[blocks[Source(start, blocks, k)]]
  {
    CopiedBlock(m, start, blocks, |blocks|, InstallSource(start, blocks, k));
    InstalledBlock(Copied(m, start, blocks, |blocks|).disk, start, blocks, |blocks|, k);
  }

  /** No block of the list is the log block of another one. */
  ghost predicate NoOverlap(start: nat, blocks: seq<int>) {
    forall x :: 0 <= x < |blocks| && start < blocks[x] <= start + |blocks| ==> blocks[x] == start + 1 + x
  }

  lemma SourcesOwn(start: nat, blocks: seq<int>)
    ensures (forall k :: 0 <= k < |blocks| ==> Source(start, blocks, k) == k) <==> NoOverlap(start, blocks)
  {
    if NoOverlap(start, blocks) {
      forall k | 0 <= k < |blocks| ensures Source(start, blocks, k) == k {
        assert Find(blocks, k, start + 1 + k) == k;
      }
    } else {
      var x :| 0 <= x < |blocks| && start < blocks[x] <= start + |blocks| && blocks[x] != start + 1 + x;
      var k := blocks[x] - start - 1;
      assert x < k ==> Find(blocks, k, start + 1 + k) < k;
      assert Source(start, blocks, if x < k then k else x) != if x < k then k else x;
    }
  }

  /** The transaction commits: every block it lists ends with the contents logged for it. */
  ghost predicate CommitsAll(m: Medium, start: nat, blocks: seq<int>)
    requires Listed(m, start, blocks)
  {
    forall k :: 0 <= k < |blocks| ==> Committed(m, start, blocks)[blocks[k]] == m.pinned[blocks[k]]
  }

  /** Listed blocks have different contents. */
  ghost predicate AllDiffer(m: Medium, blocks: seq<int>)
    requires forall i :: 0 <= i < |blocks| ==> blocks[i] in m.pinned
  {
    forall i, j :: 0 <= i < j < |blocks| ==> m.pinned[blocks[i]] != m.pinned[blocks[j]]
  }

  /** A commit works whatever the blocks hold exactly if no block of its list is the log block of another one; if one
      is, it goes wrong whenever the blocks of the list differ. */
  lemma CommitsIff(m: Medium, start: nat, blocks: seq<int>)
    requires Listed(m, start, blocks)
    ensures NoOverlap(start, blocks) ==> CommitsAll(m, start, blocks)
    ensures !NoOverlap(start, blocks) && AllDiffer(m, blocks) ==> !CommitsAll(m, start, blocks)
  {
    SourcesOwn(start, blocks);
    if NoOverlap(start, blocks) {
      forall k | 0 <= k < |blocks| ensures Committed(m, start, blocks)[blocks[k]] == m.pinned[blocks[k]] {
        CommittedFrom(m, start, blocks, k);
      }
    } else {
      var k :| 0 <= k < |blocks| && Source(start, blocks, k) != k;
      CommittedFrom(m, start, blocks, k);
    }
  }
}
