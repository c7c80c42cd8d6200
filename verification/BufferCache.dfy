/**
 bio.c: the buffer cache.  Buffer b is `buf[b]`; the circular doubly linked list
 runs through the index arrays `next` and `prev`, with index HEAD for
 `bcache.head`, most recently released buffer first.  The ghost field `order`
 lists the buffers in that order; the ghost field `logical` holds, per block,
 the contents last published by `log_write` or `bwrite`.
 */
module BufferCache {
  import opened LogDisk

  const NBUF := MAXOPBLOCKS * 3
  const HEAD := NBUF
  const NODEV := 0xffff_ffff   // b->dev = -1, an unsigned field

  datatype Key = Key(dev: nat, blockno: nat)

  /** The flags, the block and the contents of one buffer. */
  datatype Slot = Slot(busy: bool, valid: bool, dirty: bool, key: Key, data: Block)

  type Store = map<Key, Block>

  datatype GetResult = Got(b: nat) | Wait(b: nat) | NoBuffers

  // ----- Coherence, as a property of the buffers' values -----

  /** One buffer agrees with the medium and the published contents. */
  ghost predicate Coherent(s: Slot, disk: Store, logical: Store) {
    if s.key.dev == NODEV then !s.busy && !s.valid && !s.dirty
    else
      && s.key in disk && s.key in logical
      && (s.dirty ==> s.valid)
      && (s.valid && !s.busy ==> s.data == logical[s.key])
      && (!s.dirty ==> disk[s.key] == logical[s.key])
  }

  ghost predicate Cached(m: seq<Slot>, k: Key) {
    exists b :: 0 <= b < |m| && m[b].key == k
  }

  ghost predicate Unique(m: seq<Slot>) {
    forall b, c :: 0 <= b < c < |m| && m[b].key.dev != NODEV ==> m[b].key != m[c].key
  }

  /** No block has two buffers, every buffer is coherent, and what no buffer holds is on the medium. */
  ghost predicate Consistent(m: seq<Slot>, disk: Store, logical: Store) {
    && (forall k :: k in logical <==> k in disk)
    && (forall k :: k in disk ==> k.dev != NODEV)
    && Unique(m)
    && (forall b :: 0 <= b < |m| ==> Coherent(m[b], disk, logical))
    && (forall k :: k in disk && !Cached(m, k) ==> disk[k] == logical[k])
  }

  /** Changing one buffer in place, and the medium and published contents of its block only. */
  lemma UpdateConsistent(m: seq<Slot>, disk: Store, logical: Store, b: nat, s: Slot, disk': Store, logical': Store)
    requires Consistent(m, disk, logical) && b < |m| && s.key == m[b].key && s.key.dev != NODEV
    requires forall k :: k in disk' <==> k in disk
    requires forall k :: k in logical' <==> k in logical
    requires forall k :: k in disk && k != s.key ==> disk'[k] == disk[k]
    requires forall k :: k in logical && k != s.key ==> logical'[k] == logical[k]
    requires Coherent(s, disk', logical')
    ensures Consistent(m[b := s], disk', logical')
  {
    var m' := m[b := s];
    forall c | 0 <= c < |m'| ensures m'[c].key == m[c].key && Coherent(m'[c], disk', logical') {
      if c != b {
        assert m'[c] == m[c] && m[c].key != s.key;
        assert Coherent(m[c], disk, logical);
      }
    }
    forall k | Cached(m, k) ensures Cached(m', k) {
      var c :| 0 <= c < |m| && m[c].key == k;
      assert m'[c].key == k;
    }
    assert Cached(m, s.key);
  }

  lemma PublishConsistent(m: seq<Slot>, disk: Store, logical: Store, b: nat)
    requires Consistent(m, disk, logical) && b < |m| && m[b].busy && m[b].valid
    ensures Consistent(m[b := m[b].(dirty := true)], disk, logical[m[b].key := m[b].data])
  {
    assert Coherent(m[b], disk, logical);
    UpdateConsistent(m, disk, logical, b, m[b].(dirty := true), disk, logical[m[b].key := m[b].data]);
  }

  lemma WriteConsistent(m: seq<Slot>, disk: Store, logical: Store, b: nat)
    requires Consistent(m, disk, logical) && b < |m| && m[b].busy
    ensures Consistent(m[b := m[b].(valid := true, dirty := false)],
                       disk[m[b].key := m[b].data], logical[m[b].key := m[b].data])
  {
    assert Coherent(m[b], disk, logical);
    UpdateConsistent(m, disk, logical, b, m[b].(valid := true, dirty := false),
                     disk[m[b].key := m[b].data], logical[m[b].key := m[b].data]);
  }

  /** Reassigning an idle clean buffer loses nothing: what it held is on the medium. */
  lemma RecycleConsistent(m: seq<Slot>, disk: Store, logical: Store, b: nat, s: Slot)
    requires Consistent(m, disk, logical) && b < |m| && !m[b].busy && !m[b].dirty
    requires s.key in disk && !Cached(m, s.key) && s.busy && !s.valid && !s.dirty
    ensures Consistent(m[b := s], disk, logical)
  {
    var m' := m[b := s];
    assert m'[b] == s && Coherent(m[b], disk, logical);
    forall k | Cached(m, k) ensures Cached(m', k) || k == m[b].key {
      var c :| 0 <= c < |m| && m[c].key == k;
      assert c == b || m'[c].key == k;
    }
  }

  /** now is was with b moved to the front. */
  ghost predicate ToFront(was: seq<int>, now: seq<int>, b: int) {
    exists k :: 0 <= k < |was| && was[k] == b && now == [b] + (was[..k] + was[k + 1..])
  }

  lemma ToFrontKeeps(was: seq<int>, now: seq<int>, b: int, x: int)
    requires ToFront(was, now, b) && x in was
    ensures x in now
  {
    var k :| 0 <= k < |was| && was[k] == b && now == [b] + (was[..k] + was[k + 1..]);
    var i :| 0 <= i < |was| && was[i] == x;
    assert now[if i == k then 0 else if i < k then i + 1 else i] == x;
  }

  // ----- The list -----

  /** head, the buffers in order, and head again. */
  ghost function RingOf(order: seq<int>): (r: seq<int>)
    ensures |r| == |order| + 2 && r[0] == HEAD && r[|order| + 1] == HEAD
    ensures forall i :: 0 < i <= |order| ==> r[i] == order[i - 1]
  {
    [HEAD] + order + [HEAD]
  }

  ghost predicate OrderOk(order: seq<int>) {
    && (forall i :: 0 <= i < |order| ==> 0 <= order[i] < NBUF)
    && (forall i, j :: 0 <= i < j < |order| ==> order[i] != order[j])
  }

  /** The i-th and the next member of the ring point at each other. */
  ghost predicate LinkAt(next: seq<int>, prev: seq<int>, order: seq<int>, i: nat)
    requires |next| == |prev| == NBUF + 1 && OrderOk(order) && i <= |order|
  {
    var ring := RingOf(order);
    next[ring[i]] == ring[i + 1] && prev[ring[i + 1]] == ring[i]
  }

  ghost predicate Links(next: seq<int>, prev: seq<int>, order: seq<int>) {
    && |next| == |prev| == NBUF + 1 && OrderOk(order)
    && forall i :: 0 <= i <= |order| ==> LinkAt(next, prev, order, i)
  }

  /** The first |order| + 1 members of the ring are different. */
  lemma RingDistinct(order: seq<int>, i: nat, j: nat)
    requires OrderOk(order) && i < j <= |order|
    ensures RingOf(order)[i] != RingOf(order)[j]
  {
  }

  lemma UnlinkLinks(next: seq<int>, prev: seq<int>, order: seq<int>, k: nat)
    requires Links(next, prev, order) && k < |order|
    ensures var b := order[k];
      && 0 <= next[b] <= NBUF && 0 <= prev[b] <= NBUF
      && Links(next[prev[b] := next[b]], prev[next[b] := prev[b]], order[..k] + order[k + 1..])
  {
    var b, ring, order2 := order[k], RingOf(order), order[..k] + order[k + 1..];
    assert LinkAt(next, prev, order, k) && LinkAt(next, prev, order, k + 1);
    assert prev[b] == ring[k] && next[b] == ring[k + 2];
    var next2, prev2, ring2 := next[prev[b] := next[b]], prev[next[b] := prev[b]], RingOf(order2);
    forall i | 0 <= i <= |order2| ensures LinkAt(next2, prev2, order2, i) {
      UnlinkAt(next, prev, order, k, i);
    }
  }

  lemma UnlinkAt(next: seq<int>, prev: seq<int>, order: seq<int>, k: nat, i: nat)
    requires Links(next, prev, order) && k < |order| && i < |order|
    requires next[order[k]] == RingOf(order)[k + 2] && prev[order[k]] == RingOf(order)[k]
    ensures OrderOk(order[..k] + order[k + 1..])
    ensures var b := order[k];
      LinkAt(next[prev[b] := next[b]], prev[next[b] := prev[b]], order[..k] + order[k + 1..], i)
  {
    var ring, ring2 := RingOf(order), RingOf(order[..k] + order[k + 1..]);
    assert ring2[i] == ring[if i <= k then i else i + 1];
    assert ring2[i + 1] == ring[if i + 1 <= k then i + 1 else i + 2];
    if i < k {
      assert LinkAt(next, prev, order, i);
      RingDistinct(order, i, k);
      RingPrevDistinct(order, i + 1, k + 2);
    } else if i > k {
      assert LinkAt(next, prev, order, i + 1);
      RingDistinct(order, k, i + 1);
      RingPrevDistinct(order, k + 2, i + 2);
    }
  }

  /** So are the last ones. */
  lemma RingPrevDistinct(order: seq<int>, i: nat, j: nat)
    requires OrderOk(order) && 0 < i < j <= |order| + 1
    ensures RingOf(order)[i] != RingOf(order)[j]
  {
  }

  lemma PushLinks(next: seq<int>, prev: seq<int>, order: seq<int>, b: int)
    requires Links(next, prev, order) && b !in order && 0 <= b < NBUF
    ensures 0 <= next[HEAD] <= NBUF
    ensures Links(next[b := next[HEAD]][HEAD := b], prev[b := HEAD][next[HEAD] := b], [b] + order)
  {
    var ring, ring2 := RingOf(order), RingOf([b] + order);
    assert LinkAt(next, prev, order, 0);
    var next2, prev2 := next[b := next[HEAD]][HEAD := b], prev[b := HEAD][next[HEAD] := b];
    forall i | 0 <= i <= |order| + 1 ensures LinkAt(next2, prev2, [b] + order, i) {
      assert forall m :: 2 <= m < |ring2| ==> ring2[m] == ring[m - 1];
      if i >= 2 {
        assert LinkAt(next, prev, order, i - 1);
        RingDistinct(order, 0, i - 1);
        RingPrevDistinct(order, 1, i);
      }
    }
  }

  // ----- The cache -----

  class Bcache {
    const buf: array<Slot>
    const next: array<int>
    const prev: array<int>
    var disk: Store              // the medium behind iderw
    ghost var order: seq<int>
    ghost var logical: Store

    ghost predicate Linked()
      reads this`order, next, prev
    {
      next.Length == prev.Length == NBUF + 1 && next != prev && Links(next[..], prev[..], order)
    }

    ghost predicate Valid()
      reads this, buf, next, prev
    {
      && Linked()
      && buf.Length == NBUF
      && (forall b :: 0 <= b < NBUF ==> b in order)
      && Consistent(buf[..], disk, logical)
    }

    /** Takes b, at position k, off the list. */
    method Unlink(b: nat, ghost k: nat)
      requires Linked() && k < |order| && order[k] == b
      modifies this`order, next, prev
      ensures order == old(order[..k] + order[k + 1..])
      ensures Linked() && b !in order
    {
      UnlinkLinks(next[..], prev[..], order, k);
      prev[next[b]] := prev[b];
      next[prev[b]] := next[b];
      order := order[..k] + order[k + 1..];
    }

    /** Puts b in front. */
    method PushFront(b: nat)
      requires Linked() && b !in order && b < NBUF
      modifies this`order, next, prev
      ensures order == [b] + old(order)
      ensures Linked()
    {
      PushLinks(next[..], prev[..], order, b);
      next[b] := next[HEAD];
      prev[b] := HEAD;
      prev[next[HEAD]] := b;
      next[HEAD] := b;
      order := [b] + order;
    }

    /** `binit`: all buffers idle and unassigned, the medium is the truth. */
    constructor (disk: Store, filler: Block)
      requires forall k :: k in disk ==> k.dev != NODEV
      ensures Valid() && this.disk == disk && logical == disk
      ensures fresh(buf) && fresh(next) && fresh(prev)
      ensures forall b :: 0 <= b < NBUF ==> buf[b].key.dev == NODEV
    {
      buf := new Slot[NBUF](_ => Slot(false, false, false, Key(NODEV, 0), filler));
      next, prev := new int[NBUF + 1], new int[NBUF + 1];
      this.disk, logical, order := disk, disk, [];
      new;
      prev[HEAD], next[HEAD] := HEAD, HEAD;
      for b := 0 to NBUF
        invariant Linked() && |order| == b && this.disk == disk && logical == disk
        invariant forall i :: 0 <= i < b ==> i in order
        invariant forall i :: i in order ==> i < b
        invariant forall i :: 0 <= i < NBUF ==> buf[i] == Slot(false, false, false, Key(NODEV, 0), filler)
      {
        PushFront(b);
      }
    }

    /** First scan of `bget`, from the most recently released buffer. */
    method FindCached(k: Key) returns (b: int)
      requires Linked() && buf.Length == NBUF
      ensures b == HEAD ==> forall i :: 0 <= i < |order| ==> buf[order[i]].key != k
      ensures b != HEAD ==> exists i :: 0 <= i < |order| && order[i] == b && buf[b].key == k
                                        && forall j :: 0 <= j < i ==> buf[order[j]].key != k
    {
      b := next[HEAD];
      ghost var i := 0;
      assert LinkAt(next[..], prev[..], order, 0);
      while b != HEAD
        invariant 0 <= i <= |order| && b == RingOf(order)[i + 1]
        invariant forall j :: 0 <= j < i ==> buf[order[j]].key != k
        decreases |order| - i
      {
        assert order[i] == b;
        if buf[b].key == k {
          return;
        }
        assert LinkAt(next[..], prev[..], order, i + 1);
        b := next[b];
        i := i + 1;
      }
    }

    /** Second scan of `bget`, from the least recently released buffer. */
    method FindVictim() returns (b: int)
      requires Linked() && buf.Length == NBUF
      ensures b == HEAD ==> forall i :: 0 <= i < |order| ==> buf[order[i]].busy || buf[order[i]].dirty
      ensures b != HEAD ==> exists i :: 0 <= i < |order| && order[i] == b && !buf[b].busy && !buf[b].dirty
                                        && forall j :: i < j < |order| ==> buf[order[j]].busy || buf[order[j]].dirty
    {
      b := prev[HEAD];
      ghost var i := |order|;
      assert LinkAt(next[..], prev[..], order, i);
      while b != HEAD
        invariant 0 <= i <= |order| && b == RingOf(order)[i]
        invariant forall j :: i <= j < |order| ==> buf[order[j]].busy || buf[order[j]].dirty
        decreases i
      {
        assert order[i - 1] == b;
        if !buf[b].busy && !buf[b].dirty {
          return;
        }
        assert LinkAt(next[..], prev[..], order, i - 1);
        b := prev[b];
        i := i - 1;
      }
    }

    /** In buffers m, b is idle and clean and every buffer released less recently is in use. */
    ghost predicate IsVictim(b: int, m: seq<Slot>)
      requires |m| == NBUF && Linked()
      reads this`order, next, prev
    {
      exists i :: 0 <= i < |order| && order[i] == b && !m[b].busy && !m[b].dirty
                  && forall j :: i < j < |order| ==> m[order[j]].busy || m[order[j]].dirty
    }

    /** `bget`: the buffer of block k if it is cached and idle, the buffer to
        wait for if it is busy, else the least recently released buffer that is
        neither busy nor dirty, reassigned to k. */
    method BGet(k: Key) returns (r: GetResult)
      requires Valid() && k in disk
      modifies buf
      ensures Valid()
      ensures r.Got? ==> r.b < NBUF && !old(buf[r.b].busy) && buf[..] == old(buf[..])[r.b := buf[r.b]]
      ensures !r.Got? ==> buf[..] == old(buf[..])
      ensures r.Wait? ==> r.b < NBUF && buf[r.b].busy && buf[r.b].key == k
      ensures r.NoBuffers? ==> !Cached(buf[..], k) && forall b :: 0 <= b < NBUF ==> buf[b].busy || buf[b].dirty
      ensures r.Got? && Cached(old(buf[..]), k) ==> old(buf[r.b].key) == k && buf[r.b] == old(buf[r.b]).(busy := true)
      ensures r.Got? && !Cached(old(buf[..]), k) ==>
                IsVictim(r.b, old(buf[..])) && buf[r.b] == Slot(true, false, false, k, old(buf[r.b].data))
    {
      ghost var m := buf[..];
      var b := FindCached(k);
      if b != HEAD {
        assert m[b].key == k;
        if buf[b].busy {
          return Wait(b);
        }
        UpdateConsistent(m, disk, logical, b, m[b].(busy := true), disk, logical);
        buf[b] := buf[b].(busy := true);
        assert buf[..] == m[b := m[b].(busy := true)];
        return Got(b);
      }
      forall c | 0 <= c < NBUF ensures m[c].key != k {
        assert c in order;
      }
      b := FindVictim();
      if b == HEAD {
        forall c | 0 <= c < NBUF ensures buf[c].busy || buf[c].dirty {
          assert c in order;
        }
        return NoBuffers;
      }
      ghost var s := Slot(true, false, false, k, m[b].data);
      RecycleConsistent(m, disk, logical, b, s);
      buf[b] := buf[b].(key := k, busy := true, valid := false, dirty := false);
      assert buf[..] == m[b := s];
      return Got(b);
    }

    /** `bread`: if it returns a buffer, the buffer is held by the caller and
        holds the contents last published for the block. */
    method BRead(k: Key) returns (r: GetResult)
      requires Valid() && k in disk
      modifies buf
      ensures Valid()
      ensures r.Got? ==> r.b < NBUF && !old(buf[r.b].busy) && buf[..] == old(buf[..])[r.b := buf[r.b]]
      ensures r.Got? ==> buf[r.b].busy && buf[r.b].valid && buf[r.b].key == k && buf[r.b].data == logical[k]
      ensures !r.Got? ==> buf[..] == old(buf[..])
    {
      r := BGet(k);
      if r.Got? && !buf[r.b].valid {
        ghost var m, s := buf[..], buf[r.b].(data := disk[k], valid := true);
        assert Coherent(m[r.b], disk, logical);
        UpdateConsistent(m, disk, logical, r.b, s, disk, logical);
        buf[r.b] := buf[r.b].(data := disk[k], valid := true);   // iderw
        assert buf[..] == m[r.b := s];
      }
    }

    /** The holder of a buffer changes its contents; nobody else can see them yet. */
    method Modify(b: nat, data: Block)
      requires Valid() && b < NBUF && buf[b].busy
      modifies buf
      ensures Valid() && buf[..] == old(buf[..])[b := old(buf[b]).(data := data)]
    {
      ghost var m := buf[..];
      assert Coherent(m[b], disk, logical);
      UpdateConsistent(m, disk, logical, b, m[b].(data := data), disk, logical);
      buf[b] := buf[b].(data := data);
      assert buf[..] == m[b := m[b].(data := data)];
    }

    /** `log_write`: publishes the contents and pins the buffer until commit writes it. */
    method LogWrite(b: nat)
      requires Valid() && b < NBUF && buf[b].busy && buf[b].valid
      modifies this`logical, buf
      ensures Valid() && buf[..] == old(buf[..])[b := old(buf[b]).(dirty := true)]
      ensures logical == old(logical)[buf[b].key := buf[b].data]
    {
      ghost var m := buf[..];
      PublishConsistent(m, disk, logical, b);
      buf[b] := buf[b].(dirty := true);
      logical := logical[buf[b].key := buf[b].data];
      assert buf[..] == m[b := m[b].(dirty := true)];
    }

    /** `bwrite`: the medium and the published contents become those of the buffer, which is clean again. */
    method BWrite(b: nat)
      requires Valid() && b < NBUF && buf[b].busy
      modifies this`disk, this`logical, buf
      ensures Valid() && buf[..] == old(buf[..])[b := old(buf[b]).(valid := true, dirty := false)]
      ensures disk == old(disk)[buf[b].key := buf[b].data] && logical == old(logical)[buf[b].key := buf[b].data]
    {
      ghost var m := buf[..];
      WriteConsistent(m, disk, logical, b);
      disk := disk[buf[b].key := buf[b].data];   // iderw
      logical := logical[buf[b].key := buf[b].data];
      buf[b] := buf[b].(valid := true, dirty := false);
      assert buf[..] == m[b := m[b].(valid := true, dirty := false)];
    }

    method MoveToFront(b: nat)
      requires Linked() && b in order
      modifies this`order, next, prev
      ensures Linked() && ToFront(old(order), order, b)
    {
      ghost var k :| 0 <= k < |order| && order[k] == b;
      Unlink(b, k);
      PushFront(b);
    }

    /** `brelse` by a holder that published what it changed: the buffer becomes the most recently used. */
    method BRelse(b: nat)
      requires Valid() && b < NBUF && buf[b].busy
      requires buf[b].valid ==> buf[b].key in logical && buf[b].data == logical[buf[b].key]
      modifies this`order, next, prev, buf
      ensures Valid() && buf[..] == old(buf[..])[b := old(buf[b]).(busy := false)]
      ensures ToFront(old(order), order, b)
    {
      ghost var m, was := buf[..], order;
      assert Coherent(m[b], disk, logical);
      UpdateConsistent(m, disk, logical, b, m[b].(busy := false), disk, logical);
      MoveToFront(b);
      forall c | 0 <= c < NBUF ensures c in order {
        ToFrontKeeps(was, order, b, c);
      }
      buf[b] := buf[b].(busy := false);
      assert buf[..] == m[b := m[b].(busy := false)];
    }
  }
}
