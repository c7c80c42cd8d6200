/** What the operations of kalloc.c and vm.c do to page tables and to page ownership. */
module VmSpaces {
  import opened VmTables

  const NONE := -1
  const USERPAGES := USERDIRS * ENTRIES

  /** The free list holds every free page once. */
  ghost predicate ListOk(free: seq<nat>, owner: seq<Owner>) {
    && (forall k :: 0 <= k < |free| ==> free[k] < |owner| && owner[free[k]].Free?)
    && (forall j, k :: 0 <= j < k < |free| ==> free[j] != free[k])
    && (forall p :: 0 <= p < |owner| && owner[p].Free? ==> p in free)
  }

  /** The walk from any directory gives the same entries, but for w at (d, i) of a. */
  ghost predicate Walks(mem: Mem, mem2: Mem, owner: seq<Owner>, a: nat, d: nat, i: nat, w: int)
    requires Shaped(mem, owner) && |mem2| == |mem| && forall p :: 0 <= p < |mem2| ==> |mem2[p]| == ENTRIES
  {
    forall b, e, j :: 0 <= b < |mem| && owner[b].Dir? && 0 <= e < ENTRIES && 0 <= j < ENTRIES ==>
      Walk(mem2, b, e, j) == if (b, e, j) == (a, d, i) then w else Walk(mem, b, e, j)
  }

  /** Setting one table entry changes one walk. */
  lemma PutWalks(mem: Mem, owner: seq<Owner>, a: nat, d: nat, i: nat, t: nat, w: int)
    requires Inv(mem, owner) && t < |mem| && owner[t] == Table(a, d) && i < ENTRIES
    ensures Walks(mem, Put(mem, t, i, w), owner, a, d, i, w)
  {
    assert PageOk(mem, owner, t);
    forall b, e, j | 0 <= b < |mem| && owner[b].Dir? && 0 <= e < ENTRIES && 0 <= j < ENTRIES
      ensures Walk(Put(mem, t, i, w), b, e, j) == if (b, e, j) == (a, d, i) then w else Walk(mem, b, e, j)
    {
      assert PageOk(mem, owner, b);
    }
  }

  ghost predicate SameWalks(mem: Mem, mem2: Mem, owner: seq<Owner>)
    requires Shaped(mem, owner) && |mem2| == |mem| && forall p :: 0 <= p < |mem2| ==> |mem2[p]| == ENTRIES
  {
    forall b, e, j :: 0 <= b < |mem| && owner[b].Dir? && 0 <= e < ENTRIES && 0 <= j < ENTRIES ==>
      Walk(mem2, b, e, j) == Walk(mem, b, e, j)
  }

  /** A blank new table changes none. */
  lemma TableWalks(mem: Mem, owner: seq<Owner>, a: nat, d: nat, t: nat, w: int)
    requires Inv(mem, owner) && a < |mem| && d < ENTRIES && t < |mem|
    requires owner[a] == Dir && !Present(mem[a][d]) && owner[t] == Held && Blank(mem[t])
    requires Present(w) && Addr(w) == t
    ensures SameWalks(mem, Put(mem, a, d, w), owner)
  {
    forall b, e, j | 0 <= b < |mem| && owner[b].Dir? && 0 <= e < ENTRIES && 0 <= j < ENTRIES
      ensures Walk(Put(mem, a, d, w), b, e, j) == Walk(mem, b, e, j)
    {
      assert PageOk(mem, owner, b);
    }
  }

  /** Rewriting a page that is no table changes none. */
  lemma RewriteWalks(mem: Mem, mem2: Mem, owner: seq<Owner>, p: nat)
    requires Inv(mem, owner) && p < |mem| && !owner[p].Dir? && !owner[p].Table?
    requires |mem2| == |mem| && (forall q :: 0 <= q < |mem| ==> |mem2[q]| == ENTRIES)
    requires forall q :: 0 <= q < |mem| && q != p ==> mem2[q] == mem[q]
    ensures SameWalks(mem, mem2, owner)
  {
    forall b, e, j | 0 <= b < |mem| && owner[b].Dir? && 0 <= e < ENTRIES && 0 <= j < ENTRIES
      ensures Walk(mem2, b, e, j) == Walk(mem, b, e, j)
    {
      assert PageOk(mem, owner, b);
    }
  }

  /** What is mapped or in hand keeps its contents. */
  ghost predicate SameUsers(mem: Mem, mem2: Mem, owner: seq<Owner>)
    requires |mem| == |mem2| == |owner|
  {
    forall p :: 0 <= p < |mem| && (owner[p].User? || owner[p].Held?) ==> mem2[p] == mem[p]
  }

  const PGSIZE := 4096
  const KERNBASE := 0x8000_0000

  /** PGROUNDUP, in pages. */
  function Pages(bytes: nat): (r: nat) {
    (bytes + PGSIZE - 1) / PGSIZE
  }

  lemma PagesOf(bytes: nat, v: nat)
    ensures PGSIZE * v < bytes <==> v < Pages(bytes)
    ensures bytes <= KERNBASE ==> Pages(bytes) <= USERPAGES
  {
  }

  /** (e, j) is passed over: `deallocuvm` jumps 1024 pages, not to the next table, from inside a missing one. */
  ghost predicate Skipped(mem: Mem, a: nat, start: nat, e: nat, j: nat)
    requires a < |mem| && |mem[a]| == ENTRIES && e <= ENTRIES
  {
    start / ENTRIES < e && j < start % ENTRIES && forall x :: start / ENTRIES <= x < e ==> !Present(mem[a][x])
  }

  /** (e, j) is in the range and not passed over. */
  ghost predicate Gone(mem: Mem, a: nat, start: nat, end: nat, e: nat, j: nat)
    requires a < |mem| && |mem[a]| == ENTRIES && e <= ENTRIES
  {
    start <= ENTRIES * e + j < end && !Skipped(mem, a, start, e, j)
  }

  /** All that is mapped in the range and not passed over is unmapped and free again; all else is as it was. */
  ghost predicate Cleared(mem: Mem, mem2: Mem, owner: seq<Owner>, owner2: seq<Owner>, a: nat, start: nat, end: nat)
    requires Inv(mem, owner) && Shaped(mem2, owner2) && |mem2| == |mem| && a < |mem|
  {
    && (forall b, e, j :: 0 <= b < |mem| && owner[b].Dir? && 0 <= e < ENTRIES && 0 <= j < ENTRIES ==>
          Walk(mem2, b, e, j) ==
            if b == a && Gone(mem, a, start, end, e, j) && Present(Walk(mem, b, e, j)) then 0 else Walk(mem, b, e, j))
    && (forall p :: 0 <= p < |mem| ==>
          owner2[p] == if GoneUser(mem, owner, p, a, start, end) then Free else owner[p])
    && (forall p :: 0 <= p < |mem| && (owner2[p].User? || owner2[p].Dir? || owner2[p].Held?) ==> mem2[p] == mem[p])
  }

  ghost predicate GoneUser(mem: Mem, owner: seq<Owner>, p: nat, a: nat, start: nat, end: nat)
    requires Inv(mem, owner) && a < |mem| && p < |mem|
  {
    owner[p].User? && owner[p].dir == a && owner[p].d < ENTRIES && Gone(mem, a, start, end, owner[p].d, owner[p].i)
  }

  lemma ClearedSkip(mem: Mem, mem2: Mem, owner: seq<Owner>, owner2: seq<Owner>, a: nat, start: nat, v: nat, w: nat)
    requires Inv(mem, owner) && Shaped(mem2, owner2) && |mem2| == |mem| && a < |mem| && owner[a] == Dir
    requires Cleared(mem, mem2, owner, owner2, a, start, v)
    requires start <= v <= w <= v + ENTRIES && v < ENTRIES * ENTRIES && !Present(mem[a][v / ENTRIES])
    requires v % ENTRIES == 0 ||
             (v % ENTRIES == start % ENTRIES && forall x :: start / ENTRIES <= x < v / ENTRIES ==> !Present(mem[a][x]))
    ensures Cleared(mem, mem2, owner, owner2, a, start, w)
  {
    forall e: nat, j: nat | e < ENTRIES && j < ENTRIES && v <= ENTRIES * e + j < w
      ensures e == v / ENTRIES || Skipped(mem, a, start, e, j)
    {
    }
    forall p | 0 <= p < |mem| ensures GoneUser(mem, owner, p, a, start, w) == GoneUser(mem, owner, p, a, start, v) {
      assert PageOk(mem, owner, p);
    }
  }

  lemma ClearedStep(mem: Mem, mem1: Mem, mem2: Mem, owner: seq<Owner>, owner1: seq<Owner>, owner2: seq<Owner>,
                    a: nat, start: nat, v: nat)
    requires Inv(mem, owner) && Inv(mem1, owner1) && Inv(mem2, owner2) && |mem2| == |mem1| == |mem|
    requires a < |mem| && owner[a] == Dir && start <= v < ENTRIES * USERDIRS
    requires Cleared(mem, mem1, owner, owner1, a, start, v)
    requires !Skipped(mem, a, start, v / ENTRIES, v % ENTRIES)
    requires var d, i := v / ENTRIES, v % ENTRIES;
      if Present(Walk(mem1, a, d, i)) then
        var u := Addr(Walk(mem1, a, d, i));
        && 0 <= u < |mem| && owner1[u] == User(a, d, i) && owner2 == owner1[u := Free]
        && Walks(mem1, mem2, owner1, a, d, i, 0)
        && forall p :: 0 <= p < |mem| && (owner2[p].User? || owner2[p].Dir? || owner2[p].Held?) ==> mem2[p] == mem1[p]
      else mem2 == mem1 && owner2 == owner1
    ensures Cleared(mem, mem2, owner, owner2, a, start, v + 1)
  {
    var d, i := v / ENTRIES, v % ENTRIES;
    forall e: nat, j: nat | e < ENTRIES && j < ENTRIES
      ensures Gone(mem, a, start, v + 1, e, j) <==> Gone(mem, a, start, v, e, j) || (e == d && j == i)
    {
    }
    forall p | 0 <= p < |mem|
      ensures owner2[p] == if GoneUser(mem, owner, p, a, start, v + 1) then Free else owner[p]
    {
      assert PageOk(mem, owner, p);
    }
  }

  /** Page v is one `deallocuvm` comes to: inside a missing table only as far in as it started. */
  ghost predicate OnTrack(mem: Mem, a: nat, start: nat, v: nat)
    requires a < |mem| && |mem[a]| == ENTRIES
  {
    v < ENTRIES * USERDIRS ==>
      && !Skipped(mem, a, start, v / ENTRIES, v % ENTRIES)
      && (v % ENTRIES != 0 && !Present(mem[a][v / ENTRIES]) ==>
            v % ENTRIES == start % ENTRIES && forall x :: start / ENTRIES <= x < v / ENTRIES ==> !Present(mem[a][x]))
  }

  lemma TrackNext(mem: Mem, a: nat, start: nat, v: nat)
    requires a < |mem| && |mem[a]| == ENTRIES && start <= v < ENTRIES * USERDIRS && OnTrack(mem, a, start, v)
    ensures OnTrack(mem, a, start, if Present(mem[a][v / ENTRIES]) then v + 1 else v + ENTRIES)
  {
  }

  /** `deallocuvm` unmaps its whole range exactly when what it passes over is not mapped. */
  lemma ClearsAllIff(mem: Mem, mem2: Mem, owner: seq<Owner>, owner2: seq<Owner>, a: nat, start: nat, end: nat)
    requires Inv(mem, owner) && Shaped(mem2, owner2) && |mem2| == |mem| && a < |mem| && owner[a] == Dir
    requires Cleared(mem, mem2, owner, owner2, a, start, end)
    ensures (forall e, j :: 0 <= e < ENTRIES && 0 <= j < ENTRIES && Between(start, end, e, j) ==>
               !Present(Walk(mem2, a, e, j)))
       <==> (forall e, j :: 0 <= e < ENTRIES && 0 <= j < ENTRIES && Between(start, end, e, j)
                            && Skipped(mem, a, start, e, j) ==>
               !Present(Walk(mem, a, e, j)))
  {
    forall e: nat, j: nat | e < ENTRIES && j < ENTRIES && Between(start, end, e, j)
      ensures Present(Walk(mem2, a, e, j)) <==> Skipped(mem, a, start, e, j) && Present(Walk(mem, a, e, j))
    {
      assert Gone(mem, a, start, end, e, j) <==> !Skipped(mem, a, start, e, j);
    }
  }

  /** Nothing is passed over from the beginning of a table, or from one that exists. */
  lemma NothingSkipped(mem: Mem, a: nat, start: nat, e: nat, j: nat)
    requires a < |mem| && |mem[a]| == ENTRIES && start < USERPAGES && e < ENTRIES
    requires start % ENTRIES == 0 || Present(mem[a][start / ENTRIES])
    ensures !Skipped(mem, a, start, e, j)
  {
  }

  /** A page can be passed over: the only one mapped is the first of table 1, and freeing begins at page 1. */
  lemma SkippedExample() returns (mem: Mem, owner: seq<Owner>)
    ensures Inv(mem, owner) && |mem| == 3 && owner[0] == Dir
    ensures Between(1, 2048, 1, 0) && Skipped(mem, 0, 1, 1, 0) && Present(Walk(mem, 0, 1, 0))
  {
    var blank := seq(ENTRIES, k => 0);
    mem := [blank[1 := Entry(1, 6)], blank[0 := Entry(2, 6)], blank];
    owner := [Dir, Table(0, 1), User(0, 1, 0)];
    forall p | 0 <= p < 3 ensures PageOk(mem, owner, p) {
    }
  }

  /** Page p is a's directory, one of its tables, or mapped in it. */
  predicate Belongs(o: Owner, p: nat, a: nat) {
    p == a || (o.Table? && o.dir == a) || (o.User? && o.dir == a)
  }

  /** Address spaces other than a are as they were. */
  ghost predicate OthersSame(mem: Mem, mem2: Mem, owner: seq<Owner>, a: nat)
    requires Shaped(mem, owner) && |mem2| == |mem| && forall p :: 0 <= p < |mem2| ==> |mem2[p]| == ENTRIES
  {
    && (forall b, e, j :: 0 <= b < |mem| && owner[b].Dir? && b != a && 0 <= e < ENTRIES && 0 <= j < ENTRIES ==>
          Walk(mem2, b, e, j) == Walk(mem, b, e, j))
    && (forall p :: 0 <= p < |mem| && owner[p].User? && owner[p].dir != a ==> mem2[p] == mem[p])
  }

  /** How far `freevm` has come through the directory's entries. */
  function FreedTables(o: Owner, p: nat, a: nat, n: nat): (r: Owner) {
    if o.Table? && o.dir == a && o.d < n then Free else Retired(o, p, a)
  }

  ghost predicate TablesFreed(mem: Mem, mem2: Mem, owner: seq<Owner>, owner2: seq<Owner>, a: nat, n: nat)
    requires Shaped(mem, owner) && Shaped(mem2, owner2) && |mem2| == |mem|
  {
    && (forall p :: 0 <= p < |mem| ==> owner2[p] == FreedTables(owner[p], p, a, n))
    && OthersSame(mem, mem2, owner, a)
  }

  /** One kernel mapping: n pages at v onto n pages from pa on. */
  datatype Kmap = Kmap(v: nat, n: nat, pa: nat, perm: nat)

  /** (e, j) lies in the first n pages of k. */
  predicate In(k: Kmap, n: nat, e: nat, j: nat) {
    k.v <= ENTRIES * e + j < k.v + n
  }

  /** What the tables are to say at (e, j), by k. */
  function KmapEntry(k: Kmap, e: nat, j: nat): (r: int)
    requires k.perm < PTE && k.v <= ENTRIES * e + j
  {
    Entry(k.pa + (ENTRIES * e + j - k.v), k.perm)
  }

  predicate KmapOk(k: Kmap) {
    USERPAGES <= k.v && 1 <= k.n && k.v + k.n <= ENTRIES * ENTRIES && k.perm < PTE
  }

  predicate KmapsOk(ks: seq<Kmap>) {
    && (forall k :: 0 <= k < |ks| ==> KmapOk(ks[k]))
    && (forall k, l :: 0 <= k < l < |ks| ==> ks[k].v + ks[k].n <= ks[l].v)
  }

  /** The first n pages of k are mapped in a; every other walk is as it was. */
  ghost predicate Ranged(mem: Mem, mem2: Mem, owner: seq<Owner>, a: nat, k: Kmap, n: nat)
    requires Shaped(mem, owner) && |mem2| == |mem| && (forall p :: 0 <= p < |mem2| ==> |mem2[p]| == ENTRIES)
    requires k.perm < PTE
  {
    forall b, e, j :: 0 <= b < |mem| && owner[b].Dir? && 0 <= e < ENTRIES && 0 <= j < ENTRIES ==>
      Walk(mem2, b, e, j) == if b == a && In(k, n, e, j) then KmapEntry(k, e, j) else Walk(mem, b, e, j)
  }

  /** One of the first n pages of k is mapped in a already. */
  ghost predicate MappedWithin(mem: Mem, a: nat, k: Kmap, n: nat)
    requires a < |mem| && |mem[a]| == ENTRIES
  {
    exists e: nat, j: nat :: e < ENTRIES && j < ENTRIES && In(k, n, e, j) && Present(Walk(mem, a, e, j))
  }

  lemma WithinStep(mem: Mem, a: nat, k: Kmap, n: nat)
    requires a < |mem| && |mem[a]| == ENTRIES && KmapOk(k) && n < k.n
    ensures var d, i := (k.v + n) / ENTRIES, (k.v + n) % ENTRIES;
            MappedWithin(mem, a, k, n + 1) <==> MappedWithin(mem, a, k, n) || Present(Walk(mem, a, d, i))
    ensures MappedWithin(mem, a, k, n + 1) ==> MappedWithin(mem, a, k, k.n)
  {
    var d, i := (k.v + n) / ENTRIES, (k.v + n) % ENTRIES;
    assert In(k, n + 1, d, i);
    assert forall e: nat, j: nat :: e < ENTRIES && j < ENTRIES && In(k, n + 1, e, j) ==>
             In(k, n, e, j) || (e == d && j == i);
    assert forall e: nat, j: nat :: e < ENTRIES && j < ENTRIES && In(k, n, e, j) ==> In(k, n + 1, e, j);
    assert forall e: nat, j: nat :: e < ENTRIES && j < ENTRIES && In(k, n + 1, e, j) ==> In(k, k.n, e, j);
  }

  /** The only pages that change hands are free ones, which become tables of a. */
  ghost predicate TablesAdded(mem: Mem, mem2: Mem, owner: seq<Owner>, owner2: seq<Owner>, a: nat)
    requires |mem| == |mem2| == |owner| == |owner2|
  {
    && (forall p :: 0 <= p < |mem| ==>
          || owner2[p] == owner[p]
          || (owner[p].Free? && owner2[p].Table? && owner2[p].dir == a && owner2[p].d >= USERDIRS))
    && SameUsers(mem, mem2, owner)
  }

  /** The rows of vm.c's kmap, in pages; data is where the kernel's writable data begins. */
  function KernelMap(data: nat): (r: seq<Kmap>)
    requires 0x80100 < data < 0x8E000
    ensures KmapsOk(r)
  {
    [Kmap(0x80000, 0x100, 0, 2), Kmap(0x80100, data - 0x80100, 0x100, 0),
     Kmap(data, 0x8E000 - data, data - 0x80000, 2), Kmap(0xFE000, 0x2000, 0xFE000, 2)]
  }

  /** The entries of a directory that have a table. */
  ghost function Dirs(dir: seq<int>): (r: set<int>) {
    set d | 0 <= d < |dir| && Present(dir[d])
  }

  /** One of the first n pages of k is under d. */
  predicate Under(k: Kmap, n: nat, d: int) {
    0 < n && k.v < ENTRIES * (d + 1) && ENTRIES * d < k.v + n
  }

  /** The directory entries that the first n pages of k fall under. */
  ghost function Tables(k: Kmap, n: nat): (r: set<int>) {
    set d | 0 <= d < ENTRIES && Under(k, n, d)
  }

  /** The directory entries that the first m mappings fall under. */
  ghost function RowTables(ks: seq<Kmap>, m: nat): (r: set<int>)
    requires m <= |ks|
  {
    if m == 0 then {} else RowTables(ks, m - 1) + Tables(ks[m - 1], ks[m - 1].n)
  }

  lemma {:induction false} RowTablesGrow(ks: seq<Kmap>, m: nat, n: nat)
    requires m <= n <= |ks|
    ensures RowTables(ks, m) <= RowTables(ks, n)
  {
    if m < n {
      RowTablesGrow(ks, m, n - 1);
    }
  }

  /** Fewer tables than the first m mappings need are fewer than all need. */
  lemma TablesShort(ks: seq<Kmap>, m: nat, s: set<int>)
    requires m <= |ks| && s < RowTables(ks, m)
    ensures |s| < |RowTables(ks, |ks|)|
  {
    RowTablesGrow(ks, m, |ks|);
    var t := RowTables(ks, |ks|);
    assert t == s + (t - s);
  }

  /** A page mapped under d leaves a table there. */
  lemma DirsStep(dir: seq<int>, dir2: seq<int>, d: nat)
    requires |dir| == |dir2| && d < |dir| && Present(dir2[d])
    requires forall e :: 0 <= e < |dir| && e != d ==> dir2[e] == dir[e]
    ensures Dirs(dir2) == Dirs(dir) + {d}
    ensures |Dirs(dir2)| == |Dirs(dir)| + if Present(dir[d]) then 0 else 1
  {
    assert Dirs(dir2) == Dirs(dir) + {d};
    if Present(dir[d]) {
      assert Dirs(dir2) == Dirs(dir);
    } else {
      assert d !in Dirs(dir);
    }
  }

  lemma TablesStep(k: Kmap, n: nat)
    requires KmapOk(k) && n < k.n
    ensures Tables(k, n + 1) == Tables(k, n) + {(k.v + n) / ENTRIES}
    ensures (k.v + n) / ENTRIES in Tables(k, k.n) && Tables(k, n) <= Tables(k, k.n)
  {
    var d := (k.v + n) / ENTRIES;
    assert ENTRIES * d <= k.v + n < ENTRIES * (d + 1);
  }

  /** `setupkvm` fails, and leaves what it took behind: the directory could be had, not all the tables. */
  ghost predicate SetupLeaks(ks: seq<Kmap>, free: nat) {
    1 <= free <= |RowTables(ks, |ks|)|
  }

  lemma {:induction false} IntervalSize(s: set<int>, lo: int, hi: int)
    requires lo <= hi && forall x :: x in s <==> lo <= x < hi
    ensures |s| == hi - lo
    decreases hi - lo
  {
    if lo == hi {
      assert s == {};
    } else {
      IntervalSize(s - {lo}, lo + 1, hi);
    }
  }

  /** The tables of the kernel's own mappings are those of its 224 MB and of the devices. */
  lemma KernelRowTables(data: nat)
    requires 0x80100 < data < 0x8E000
    ensures forall d :: d in RowTables(KernelMap(data), 4) <==> 512 <= d < 568 || 1016 <= d < 1024
  {
    var ks := KernelMap(data);
    assert RowTables(ks, 1) == Tables(ks[0], 0x100);
    assert RowTables(ks, 2) == RowTables(ks, 1) + Tables(ks[1], data - 0x80100);
    assert RowTables(ks, 3) == RowTables(ks, 2) + Tables(ks[2], 0x8E000 - data);
    assert RowTables(ks, 4) == RowTables(ks, 3) + Tables(ks[3], 0x2000);
    forall d ensures d in RowTables(ks, 3) <==> 512 <= d < 568 {
      assert Under(ks[0], 0x100, d) <==> d == 512;
    }
  }

  /** They are 64, so `setupkvm` needs 65 pages, and 64 are all lost. */
  lemma KernelTables(data: nat)
    requires 0x80100 < data < 0x8E000
    ensures |RowTables(KernelMap(data), 4)| == 64
    ensures SetupLeaks(KernelMap(data), 64) && !SetupLeaks(KernelMap(data), 65)
  {
    KernelRowTables(data);
    var all := RowTables(KernelMap(data), 4);
    var low := set d | d in all && d < 568;
    IntervalSize(low, 512, 568);
    IntervalSize(all - low, 1016, 1024);
    assert all == low + (all - low);
  }

  /** (e, j) is in none of the first m mappings. */
  predicate Outside(ks: seq<Kmap>, m: nat, e: nat, j: nat)
    requires m <= |ks|
  {
    forall x :: 0 <= x < m ==> !In(ks[x], ks[x].n, e, j)
  }

  /** The first m kernel mappings are in a. */
  ghost predicate KernelRows(mem: Mem, a: nat, ks: seq<Kmap>, m: nat)
    requires (forall p :: 0 <= p < |mem| ==> |mem[p]| == ENTRIES) && a < |mem| && m <= |ks| && KmapsOk(ks)
  {
    forall x, e, j :: 0 <= x < m && 0 <= e < ENTRIES && 0 <= j < ENTRIES && In(ks[x], ks[x].n, e, j) ==>
      Walk(mem, a, e, j) == KmapEntry(ks[x], e, j)
  }

  /** And nothing else is mapped. */
  ghost predicate KernelMapped(mem: Mem, a: nat, ks: seq<Kmap>, m: nat)
    requires (forall p :: 0 <= p < |mem| ==> |mem[p]| == ENTRIES) && a < |mem| && m <= |ks| && KmapsOk(ks)
  {
    && KernelRows(mem, a, ks, m)
    && (forall e, j :: 0 <= e < ENTRIES && 0 <= j < ENTRIES && Outside(ks, m, e, j) ==> !Present(Walk(mem, a, e, j)))
  }

  lemma KernelMappedNext(mem: Mem, mem2: Mem, owner: seq<Owner>, a: nat, ks: seq<Kmap>, m: nat)
    requires Inv(mem, owner) && |mem2| == |mem| && (forall p :: 0 <= p < |mem2| ==> |mem2[p]| == ENTRIES)
    requires a < |mem| && owner[a] == Dir && m < |ks| && KmapsOk(ks)
    requires KernelMapped(mem, a, ks, m) && Ranged(mem, mem2, owner, a, ks[m], ks[m].n)
    ensures KernelMapped(mem2, a, ks, m + 1)
  {
    forall x, e, j | 0 <= x < m + 1 && 0 <= e < ENTRIES && 0 <= j < ENTRIES && In(ks[x], ks[x].n, e, j)
      ensures Walk(mem2, a, e, j) == KmapEntry(ks[x], e, j)
    {
      if x < m {
        assert !In(ks[m], ks[m].n, e, j);
      }
    }
  }

  /** In a space made by `setupkvm` physical memory below PHYSTOP lies at KERNBASE, the kernel's text read-only, and the
      devices where they are; user code can touch none of it, nor anything else above KERNBASE. */
  lemma KernelHalf(mem: Mem, a: nat, data: nat, v: nat)
    requires (forall p :: 0 <= p < |mem| ==> |mem[p]| == ENTRIES) && a < |mem| && 0x80100 < data < 0x8E000
    requires KernelMapped(mem, a, KernelMap(data), 4) && 0x80000 <= v < 0x100000
    ensures var w := Walk(mem, a, v / ENTRIES, v % ENTRIES);
            && (Present(w) <==> v < 0x8E000 || v >= 0xFE000) && !UserReads(mem, a, v / ENTRIES, v % ENTRIES)
            && (v < 0x8E000 ==> Addr(w) == v - 0x80000 && (Writable(w) <==> !(0x80100 <= v < data)))
            && (v >= 0xFE000 ==> Addr(w) == v && Writable(w))
  {
    var ks, e, j := KernelMap(data), v / ENTRIES, v % ENTRIES;
    var w := Walk(mem, a, e, j);
    assert ENTRIES * e + j == v;
    if v < 0x8E000 || v >= 0xFE000 {
      var x := if v < 0x80100 then 0 else if v < data then 1 else if v < 0x8E000 then 2 else 3;
      assert In(ks[x], ks[x].n, e, j);
      assert w == KmapEntry(ks[x], e, j);
      FlagBits(w);
    } else {
      assert Outside(ks, 4, e, j);
    }
  }

  lemma BlankSpace(mem: Mem, a: nat, ks: seq<Kmap>)
    requires (forall p :: 0 <= p < |mem| ==> |mem[p]| == ENTRIES) && a < |mem| && KmapsOk(ks) && Blank(mem[a])
    ensures KernelMapped(mem, a, ks, 0) && Dirs(mem[a]) == RowTables(ks, 0)
    ensures forall e :: 0 <= e < USERDIRS ==> mem[a][e] == 0
  {
  }

  /** setupkvm's new directory: pages that change hands come off the free list and go to it. */
  ghost predicate SpaceMade(mem: Mem, mem2: Mem, owner: seq<Owner>, owner2: seq<Owner>, a: nat)
    requires |mem| == |mem2| == |owner| == |owner2|
  {
    && a < |mem| && owner[a].Free? && owner2[a] == Dir
    && (forall p :: 0 <= p < |mem| && p != a ==>
          || owner2[p] == owner[p]
          || (owner[p].Free? && owner2[p].Table? && owner2[p].dir == a && owner2[p].d >= USERDIRS))
    && SameUsers(mem, mem2, owner)
  }

  lemma SpaceMadeNext(mem: Mem, mem1: Mem, mem2: Mem, owner: seq<Owner>, owner1: seq<Owner>, owner2: seq<Owner>, a: nat)
    requires |mem| == |mem1| == |mem2| == |owner| == |owner1| == |owner2|
    requires SpaceMade(mem, mem1, owner, owner1, a) && TablesAdded(mem1, mem2, owner1, owner2, a)
    ensures SpaceMade(mem, mem2, owner, owner2, a)
  {
  }

  lemma OthersSameNext(mem: Mem, mem1: Mem, mem2: Mem, owner: seq<Owner>, owner1: seq<Owner>, a: nat, k: Kmap)
    requires Shaped(mem, owner) && Shaped(mem1, owner1) && |mem| == |mem1| == |mem2| && k.perm < PTE
    requires forall p :: 0 <= p < |mem2| ==> |mem2[p]| == ENTRIES
    requires forall p :: 0 <= p < |mem| && !owner[p].Free? ==> owner1[p] == owner[p]
    requires OthersSame(mem, mem1, owner, a) && Ranged(mem1, mem2, owner1, a, k, k.n) && SameUsers(mem1, mem2, owner1)
    ensures OthersSame(mem, mem2, owner, a)
  {
  }

  /** Page (e, j) is one of [v0, v). */
  predicate Between(v0: nat, v: nat, e: nat, j: nat) {
    v0 <= ENTRIES * e + j < v
  }

  /** Page v of a is mapped. */
  predicate HasPage(mem: Mem, a: nat, v: nat)
    requires (forall p :: 0 <= p < |mem| ==> |mem[p]| == ENTRIES) && a < |mem| && v < USERPAGES
  {
    Present(Walk(mem, a, v / ENTRIES, v % ENTRIES))
  }

  /** The first page of [v, v1) that is mapped, or that is not; v1 if there is none. */
  function First(mem: Mem, a: nat, v: nat, v1: nat, mapped: bool): (w: nat)
    requires (forall p :: 0 <= p < |mem| ==> |mem[p]| == ENTRIES) && a < |mem| && v <= v1 <= USERPAGES
    ensures v <= w <= v1 && (w < v1 ==> HasPage(mem, a, w) == mapped)
    ensures forall x :: v <= x < w ==> HasPage(mem, a, x) != mapped
    decreases v1 - v
  {
    if v == v1 || HasPage(mem, a, v) == mapped then v else First(mem, a, v + 1, v1, mapped)
  }

  lemma FirstMapped(mem: Mem, a: nat, v0: nat, v1: nat)
    requires (forall p :: 0 <= p < |mem| ==> |mem[p]| == ENTRIES) && a < |mem| && v0 <= v1 <= USERPAGES
    ensures First(mem, a, v0, v1, true) == v1 <==>
            forall e, j :: 0 <= e < ENTRIES && 0 <= j < ENTRIES && Between(v0, v1, e, j) ==>
              !Present(Walk(mem, a, e, j))
  {
    var w := First(mem, a, v0, v1, true);
    if w == v1 {
      forall e, j | 0 <= e < ENTRIES && 0 <= j < ENTRIES && Between(v0, v1, e, j) ensures !Present(Walk(mem, a, e, j)) {
        var x := ENTRIES * e + j;
        assert x / ENTRIES == e && x % ENTRIES == j && !HasPage(mem, a, x);
      }
    } else {
      assert Between(v0, v1, w / ENTRIES, w % ENTRIES);
    }
  }

  /** w is an entry for a page that was free, is blank now, and is open to the user. */
  ghost predicate FreshEntry(mem2: Mem, owner: seq<Owner>, w: int)
    requires |mem2| == |owner|
  {
    Present(w) && Flags(w) == 7 && 0 <= Addr(w) < |mem2| && owner[Addr(w)].Free? && Blank(mem2[Addr(w)])
  }

  /** a has fresh blank pages at [v0, v) and is otherwise as it was; pages come off the free list, lost among them. */
  ghost predicate Grown(mem: Mem, mem2: Mem, owner: seq<Owner>, owner2: seq<Owner>, a: nat, v0: nat, v: nat, lost: int)
    requires Shaped(mem, owner) && Shaped(mem2, owner2) && |mem| == |mem2|
  {
    && (forall b, e, j :: 0 <= b < |mem| && owner[b].Dir? && 0 <= e < ENTRIES && 0 <= j < ENTRIES ==>
          if b == a && Between(v0, v, e, j) then FreshEntry(mem2, owner, Walk(mem2, b, e, j))
          else Walk(mem2, b, e, j) == Walk(mem, b, e, j))
    && (forall p :: 0 <= p < |mem| ==>
          owner2[p] == owner[p] || (owner[p].Free? && Taken(owner2[p], p, a, v0, v, lost)))
    && SameUsers(mem, mem2, owner)
  }

  predicate Taken(o: Owner, p: nat, a: nat, v0: nat, v: nat, lost: int) {
    || (o.Table? && o.dir == a)
    || (o.User? && o.dir == a && Between(v0, v, o.d, o.i))
    || (o.Held? && p == lost)
  }

  lemma GrownStep(mem: Mem, mem1: Mem, mem2: Mem, mem3: Mem, owner: seq<Owner>, owner1: seq<Owner>, owner3: seq<Owner>,
                  a: nat, v0: nat, v: nat, page: nat, made: int)
    requires Inv(mem, owner) && Inv(mem1, owner1) && Shaped(mem2, owner1) && Inv(mem3, owner3)
    requires |mem| == |mem1| == |mem2| == |mem3| && v0 <= v < USERPAGES
    requires a < |mem| && owner[a] == Dir && page < |mem| && owner1[page].Free? && made != page
    requires Grown(mem, mem1, owner, owner1, a, v0, v, NONE)
    requires Blank(mem2[page]) && forall p :: 0 <= p < |mem| && p != page ==> mem2[p] == mem1[p]
    requires Walks(mem2, mem3, owner1[page := Held], a, v / ENTRIES, v % ENTRIES, Entry(page, 6))
    requires SameUsers(mem2, mem3, owner1[page := Held]) && mem3[page] == mem2[page]
    requires forall p :: 0 <= p < |mem| ==>
               owner3[p] == if p == page then User(a, v / ENTRIES, v % ENTRIES)
                            else if p == made then Table(a, v / ENTRIES) else owner1[p]
    requires 0 <= made < |mem| ==> owner1[made].Free?
    ensures Grown(mem, mem3, owner, owner3, a, v0, v + 1, NONE)
  {
    RewriteWalks(mem1, mem2, owner1, page);
    forall e: nat, j: nat | e < ENTRIES && j < ENTRIES
      ensures Between(v0, v + 1, e, j) <==> Between(v0, v, e, j) || (e == v / ENTRIES && j == v % ENTRIES)
    {
    }
    forall e: nat, j: nat | e < ENTRIES && j < ENTRIES && Between(v0, v, e, j)
      ensures FreshEntry(mem3, owner, Walk(mem3, a, e, j))
    {
      assert FreshEntry(mem1, owner, Walk(mem1, a, e, j));
      VmTables.Mapped(mem1, owner1, a, e, j);
    }
  }

  /** As before the call, but for tables made on the way and a page lost. */
  ghost predicate Restored(mem: Mem, mem2: Mem, owner: seq<Owner>, owner2: seq<Owner>, a: nat, v0: nat, v1: nat,
                           lost: int)
    requires Shaped(mem, owner) && Shaped(mem2, owner2) && |mem| == |mem2|
  {
    && (forall b, e, j :: 0 <= b < |mem| && owner[b].Dir? && 0 <= e < ENTRIES && 0 <= j < ENTRIES ==>
          if b == a && Between(v0, v1, e, j) then !Present(Walk(mem2, b, e, j))
          else Walk(mem2, b, e, j) == Walk(mem, b, e, j))
    && (forall p :: 0 <= p < |mem| ==>
          owner2[p] == owner[p] || (owner[p].Free? && Taken(owner2[p], p, a, 0, 0, lost)))
    && SameUsers(mem, mem2, owner)
  }

  /** In [v0, v1) of a some pages may be mapped no more; nothing else is mapped differently. */
  ghost predicate Dropped(mem: Mem, mem2: Mem, owner: seq<Owner>, a: nat, v0: nat, v1: nat)
    requires Shaped(mem, owner) && |mem2| == |mem| && forall p :: 0 <= p < |mem2| ==> |mem2[p]| == ENTRIES
  {
    forall b, e, j :: 0 <= b < |mem| && owner[b].Dir? && 0 <= e < ENTRIES && 0 <= j < ENTRIES ==>
      Walk(mem2, b, e, j) == Walk(mem, b, e, j) || (b == a && Between(v0, v1, e, j) && !Present(Walk(mem2, b, e, j)))
  }

  lemma GrownDropped(mem: Mem, mem1: Mem, mem2: Mem, owner: seq<Owner>, owner1: seq<Owner>, owner2: seq<Owner>,
                     a: nat, v0: nat, v: nat, v1: nat, lost: int)
    requires Inv(mem, owner) && Inv(mem1, owner1) && Shaped(mem2, owner2) && |mem| == |mem1| == |mem2|
    requires a < |mem| && owner[a] == Dir && v0 <= v <= v1 <= USERPAGES
    requires Grown(mem, mem1, owner, owner1, a, v0, v, lost) && Cleared(mem1, mem2, owner1, owner2, a, v0, v1)
    requires v0 < v ==> Present(mem1[a][v0 / ENTRIES])
    ensures Dropped(mem, mem2, owner, a, v0, v1)
  {
    forall e: nat, j: nat | e < ENTRIES && j < ENTRIES && Between(v0, v, e, j)
      ensures Gone(mem1, a, v0, v1, e, j)
    {
    }
  }

  lemma GrownCleared(mem: Mem, mem1: Mem, mem2: Mem, owner: seq<Owner>, owner1: seq<Owner>, owner2: seq<Owner>,
                     a: nat, v0: nat, v: nat, v1: nat, lost: int)
    requires Inv(mem, owner) && Inv(mem1, owner1) && Shaped(mem2, owner2) && |mem| == |mem1| == |mem2|
    requires a < |mem| && owner[a] == Dir && v0 <= v <= v1 <= USERPAGES
    requires Grown(mem, mem1, owner, owner1, a, v0, v, lost) && Cleared(mem1, mem2, owner1, owner2, a, v0, v1)
    requires v0 < v ==> Present(mem1[a][v0 / ENTRIES])
    requires forall e, j :: 0 <= e < ENTRIES && 0 <= j < ENTRIES && Between(v0, v1, e, j) ==>
               !Present(Walk(mem, a, e, j))
    ensures Restored(mem, mem2, owner, owner2, a, v0, v1, lost)
  {
    forall e: nat, j: nat | e < ENTRIES && j < ENTRIES && Between(v0, v, e, j)
      ensures Gone(mem1, a, v0, v1, e, j)
    {
    }
    forall p | 0 <= p < |mem| ensures owner2[p] == owner[p] || (owner[p].Free? && Taken(owner2[p], p, a, 0, 0, lost)) {
      assert PageOk(mem, owner, p) && PageOk(mem1, owner1, p);
      assert owner1[p].User? && owner1[p] == owner[p] && owner[p].dir == a && owner[p].d < ENTRIES ==>
             !Between(v0, v1, owner[p].d, owner[p].i);
    }
  }

  /** Free pages that page v takes: itself, and a table if it is the first in one that is missing. */
  function Cost(mem: Mem, a: nat, v0: nat, v: nat): (r: nat)
    requires a < |mem| && |mem[a]| == ENTRIES && v < USERPAGES
  {
    if !Present(mem[a][v / ENTRIES]) && (v == v0 || v % ENTRIES == 0) then 2 else 1
  }

  /** Free pages that [v0, v) takes. */
  function Need(mem: Mem, a: nat, v0: nat, v: nat): (r: nat)
    requires a < |mem| && |mem[a]| == ENTRIES && v <= USERPAGES
  {
    if v <= v0 then 0 else Need(mem, a, v0, v - 1) + Cost(mem, a, v0, v - 1)
  }

  /** The table for page v cannot be had, the page itself can: the free list runs out in between. */
  predicate LosesAt(mem: Mem, a: nat, v0: nat, v: nat, free: nat)
    requires a < |mem| && |mem[a]| == ENTRIES && v < USERPAGES
  {
    Need(mem, a, v0, v) + 1 == free && Cost(mem, a, v0, v) == 2
  }

  lemma {:induction false} NeedGrows(mem: Mem, a: nat, v0: nat, v: nat, w: nat)
    requires a < |mem| && |mem[a]| == ENTRIES && v <= w <= USERPAGES
    ensures Need(mem, a, v0, v) <= Need(mem, a, v0, w)
    ensures v0 <= v < w ==> Need(mem, a, v0, v) + Cost(mem, a, v0, v) <= Need(mem, a, v0, w)
    decreases w
  {
    if v < w {
      NeedGrows(mem, a, v0, v, w - 1);
    }
  }

  ghost predicate Loses(mem: Mem, a: nat, v0: nat, v1: nat, free: nat)
    requires a < |mem| && |mem[a]| == ENTRIES && v1 <= USERPAGES
  {
    exists v :: v0 <= v < v1 && LosesAt(mem, a, v0, v, free)
  }

  /** With one free page and no table, the page is lost. */
  lemma LossExample(mem: Mem, a: nat)
    requires a < |mem| && |mem[a]| == ENTRIES && !Present(mem[a][0])
    ensures Loses(mem, a, 0, 1, 1)
  {
    assert LosesAt(mem, a, 0, 0, 1);
  }

  lemma NeedOne(mem: Mem, a: nat)
    requires a < |mem| && |mem[a]| == ENTRIES && !Present(mem[a][0])
    ensures Need(mem, a, 0, 1) == 2
  {
    assert Need(mem, a, 0, 0) == 0 && Cost(mem, a, 0, 0) == 2;
  }

  /** The free list runs out in at most one way. */
  lemma OneShortage(mem: Mem, a: nat, v0: nat, v: nat, w: nat, free: nat)
    requires a < |mem| && |mem[a]| == ENTRIES && v0 <= v <= USERPAGES && v0 <= w < USERPAGES
    requires LosesAt(mem, a, v0, w, free)
    ensures Need(mem, a, v0, v) != free
    ensures Need(mem, a, v0, v) < free ==> v <= w
    ensures v < USERPAGES && LosesAt(mem, a, v0, v, free) ==> v == w
  {
    NeedGrows(mem, a, v0, if v < w then v else w, if v < w then w else v);
  }

  /** The tables [v0, v) needs have been made. */
  ghost predicate Tabled(mem: Mem, mem2: Mem, a: nat, v0: nat, v: nat)
    requires a < |mem| && |mem[a]| == ENTRIES && a < |mem2| && |mem2[a]| == ENTRIES
  {
    forall e :: 0 <= e < ENTRIES ==>
      (Present(mem2[a][e]) <==> Present(mem[a][e]) || (v0 < v && v0 / ENTRIES <= e <= (v - 1) / ENTRIES))
  }

  /** w2 is w on a page that was free, with the same flags and the same bytes. */
  ghost predicate IsCopy(mem: Mem, mem2: Mem, owner: seq<Owner>, w: int, w2: int)
    requires |mem| == |mem2| == |owner|
  {
    && Present(w2) && Flags(w2) == Flags(w) && 0 <= Addr(w) < |mem| && 0 <= Addr(w2) < |mem|
    && owner[Addr(w2)].Free? && mem2[Addr(w2)] == mem[Addr(w)]
  }

  /** c is a new address space: the kernel's mappings, a's pages [0, v) copied, and nothing else of user memory. */
  ghost predicate Copied(mem: Mem, mem2: Mem, owner: seq<Owner>, owner2: seq<Owner>, a: nat, c: nat, v: nat)
    requires Shaped(mem, owner) && Shaped(mem2, owner2) && |mem| == |mem2| && a < |mem| && c < |mem|
  {
    && owner2[c] == Dir && owner[c].Free?
    && (forall e, j :: 0 <= e < USERDIRS && 0 <= j < ENTRIES ==>
          if Between(0, v, e, j) then IsCopy(mem, mem2, owner, Walk(mem, a, e, j), Walk(mem2, c, e, j))
          else !Present(Walk(mem2, c, e, j)))
    && OthersSame(mem, mem2, owner, c)
    && SameUsers(mem, mem2, owner)
  }

  /** The pages that allocuvm adds can be read and written by user code. */
  lemma GrownOpen(mem: Mem, mem2: Mem, owner: seq<Owner>, owner2: seq<Owner>, a: nat, v0: nat, v: nat, lost: int)
    requires Inv(mem, owner) && Inv(mem2, owner2) && |mem| == |mem2| && a < |mem| && owner[a] == Dir
    requires Grown(mem, mem2, owner, owner2, a, v0, v, lost)
    ensures forall e, j :: 0 <= e < ENTRIES && 0 <= j < ENTRIES && Between(v0, v, e, j) ==> UserWrites(mem2, a, e, j)
  {
    forall e, j | 0 <= e < ENTRIES && 0 <= j < ENTRIES && Between(v0, v, e, j) ensures UserWrites(mem2, a, e, j) {
      assert FreshEntry(mem2, owner, Walk(mem2, a, e, j));
      FlagBits(Walk(mem2, a, e, j));
      Effective(mem2, owner2, a, e, j);
    }
  }

  lemma CopyOpen(mem: Mem, mem2: Mem, owner: seq<Owner>, owner2: seq<Owner>, a: nat, c: nat, e: nat, j: nat)
    requires Inv(mem, owner) && Inv(mem2, owner2) && |mem| == |mem2| && a < |mem| && c < |mem| && e < ENTRIES
    requires owner[a] == Dir && owner2[c] == Dir && j < ENTRIES && Present(Walk(mem, a, e, j))
    requires IsCopy(mem, mem2, owner, Walk(mem, a, e, j), Walk(mem2, c, e, j))
    ensures UserReads(mem2, c, e, j) <==> UserReads(mem, a, e, j)
    ensures UserWrites(mem2, c, e, j) <==> UserWrites(mem, a, e, j)
  {
    FlagBits(Walk(mem, a, e, j));
    FlagBits(Walk(mem2, c, e, j));
    Effective(mem, owner, a, e, j);
    Effective(mem2, owner2, c, e, j);
  }

  /** User code may do the same with a copied page as with the page it was copied from. */
  lemma CopiedOpen(mem: Mem, mem2: Mem, owner: seq<Owner>, owner2: seq<Owner>, a: nat, c: nat, v: nat)
    requires Inv(mem, owner) && Inv(mem2, owner2) && |mem| == |mem2| && a < |mem| && c < |mem| && owner[a] == Dir
    requires Copied(mem, mem2, owner, owner2, a, c, v) && v <= USERPAGES && First(mem, a, 0, v, false) == v
    ensures forall e, j :: 0 <= e < USERDIRS && 0 <= j < ENTRIES && Between(0, v, e, j) ==>
              && (UserReads(mem2, c, e, j) <==> UserReads(mem, a, e, j))
              && (UserWrites(mem2, c, e, j) <==> UserWrites(mem, a, e, j))
  {
    forall e, j | 0 <= e < USERDIRS && 0 <= j < ENTRIES && Between(0, v, e, j)
      ensures UserReads(mem2, c, e, j) <==> UserReads(mem, a, e, j)
      ensures UserWrites(mem2, c, e, j) <==> UserWrites(mem, a, e, j)
    {
      var x := ENTRIES * e + j;
      assert x / ENTRIES == e && x % ENTRIES == j && HasPage(mem, a, x);
      CopyOpen(mem, mem2, owner, owner2, a, c, e, j);
    }
  }

  /** Pages that change hands were free and now belong to c, but for a lost one. */
  ghost predicate TakenBy(owner: seq<Owner>, owner2: seq<Owner>, c: nat, lost: int) {
    && |owner2| == |owner|
    && forall p :: 0 <= p < |owner| ==>
         owner2[p] == owner[p] || (owner[p].Free? && (Belongs(owner2[p], p, c) || (p == lost && owner2[p].Held?)))
  }

  lemma CopyStep(mem: Mem, mem1: Mem, mem2: Mem, mem3: Mem, owner: seq<Owner>, owner1: seq<Owner>, owner3: seq<Owner>,
                 a: nat, c: nat, v: nat, page: nat, made: int)
    requires Inv(mem, owner) && Inv(mem1, owner1) && Shaped(mem2, owner1) && Inv(mem3, owner3)
    requires |mem| == |mem1| == |mem2| == |mem3| && v < USERPAGES
    requires a < |mem| && owner[a] == Dir && c < |mem| && page < |mem| && owner1[page].Free? && made != page
    requires Copied(mem, mem1, owner, owner1, a, c, v) && TakenBy(owner, owner1, c, NONE)
    requires var w := Walk(mem, a, v / ENTRIES, v % ENTRIES);
      && Present(w) && 0 <= Addr(w) < |mem| && mem2[page] == mem[Addr(w)]
      && Walks(mem2, mem3, owner1[page := Held], c, v / ENTRIES, v % ENTRIES, Entry(page, Flags(w)))
    requires forall p :: 0 <= p < |mem| && p != page ==> mem2[p] == mem1[p]
    requires SameUsers(mem2, mem3, owner1[page := Held]) && mem3[page] == mem2[page]
    requires forall p :: 0 <= p < |mem| ==>
               owner3[p] == if p == page then User(c, v / ENTRIES, v % ENTRIES)
                            else if p == made then Table(c, v / ENTRIES) else owner1[p]
    requires 0 <= made < |mem| ==> owner1[made].Free?
    ensures Copied(mem, mem3, owner, owner3, a, c, v + 1) && TakenBy(owner, owner3, c, NONE)
  {
    RewriteWalks(mem1, mem2, owner1, page);
    forall e: nat, j: nat | e < ENTRIES && j < ENTRIES
      ensures Between(0, v + 1, e, j) <==> Between(0, v, e, j) || (e == v / ENTRIES && j == v % ENTRIES)
    {
    }
    forall e: nat, j: nat | e < USERDIRS && j < ENTRIES && Between(0, v, e, j)
      ensures IsCopy(mem, mem3, owner, Walk(mem, a, e, j), Walk(mem3, c, e, j))
    {
      assert IsCopy(mem, mem1, owner, Walk(mem, a, e, j), Walk(mem1, c, e, j));
      VmTables.Mapped(mem1, owner1, c, e, j);
    }
  }

  lemma ClearedNothing(mem: Mem, owner: seq<Owner>, a: nat, start: nat)
    requires Inv(mem, owner) && a < |mem|
    ensures Cleared(mem, mem, owner, owner, a, start, start)
  {
  }

  /** Free pages that copying v pages into an address space without user tables takes. */
  function CopyNeed(v: nat): (r: nat) {
    v + (v + ENTRIES - 1) / ENTRIES
  }

  /** Copying `pages` pages with this many free ones loses a page: the list runs out right before a table. */
  predicate CopyLoses(free: nat, pages: nat) {
    free >= 1 && (free - 1) % (ENTRIES + 1) == 0 && ENTRIES * ((free - 1) / (ENTRIES + 1)) < pages
  }

  /** The user tables in a directory are those of the first v pages. */
  ghost predicate UserTables(dir: seq<int>, v: nat)
    requires |dir| == ENTRIES
  {
    forall e :: 0 <= e < USERDIRS ==> (Present(dir[e]) <==> ENTRIES * e < v)
  }

  lemma UserTablesStep(dir: seq<int>, dir2: seq<int>, v: nat)
    requires |dir| == |dir2| == ENTRIES && v < USERPAGES && UserTables(dir, v) && Present(dir2[v / ENTRIES])
    requires forall e :: 0 <= e < ENTRIES && e != v / ENTRIES ==> dir2[e] == dir[e]
    ensures UserTables(dir2, v + 1)
    ensures Present(dir[v / ENTRIES]) <==> v % ENTRIES != 0
    ensures CopyNeed(v + 1) == CopyNeed(v) + if v % ENTRIES == 0 then 2 else 1
  {
  }

  /** Where the list runs out decides how `copyuvm` ends. */
  lemma CopyShort(v: nat, pages: nat, free: nat, turn: Turn)
    requires v < pages && !turn.Grew?
    requires turn.NoPage? ==> CopyNeed(v) == free
    requires turn.Lost? ==> CopyNeed(v) + 1 == free && v % ENTRIES == 0
    ensures CopyNeed(pages) > free && (CopyLoses(free, pages) <==> turn.Lost?)
  {
    if turn.Lost? {
      assert free - 1 == (ENTRIES + 1) * (v / ENTRIES);
    }
  }

  lemma CopyFits(pages: nat, free: nat)
    requires CopyNeed(pages) <= free
    ensures !CopyLoses(free, pages)
  {
  }

  datatype Turn = Grew | NoPage | Lost(page: nat)

  /** How `copyuvm` ends; lost is a page given up on the way, or NONE. */
  datatype CopyEnd = Complete | SetupFailed | Undone(lost: int) | Panicked

  datatype MapResult = Mapped | NoMemory | Remap

  /** Freeing all of a new address space undoes all that was taken for it. */
  lemma AllReturned(mem: Mem, owner: seq<Owner>, owner1: seq<Owner>, owner2: seq<Owner>, c: nat, lost: int)
    requires Inv(mem, owner) && c < |mem| && owner[c].Free? && TakenBy(owner, owner1, c, lost) && |owner2| == |owner|
    requires forall p :: 0 <= p < |owner| ==> owner2[p] == if Belongs(owner1[p], p, c) then Free else owner1[p]
    ensures forall p :: 0 <= p < |owner| && p != lost ==> owner2[p] == owner[p]
  {
    forall p | 0 <= p < |owner| && p != lost ensures owner2[p] == owner[p] {
      assert PageOk(mem, owner, p);
    }
  }

  lemma RowsKept(mem: Mem, mem2: Mem, c: nat, ks: seq<Kmap>)
    requires (forall p :: 0 <= p < |mem| ==> |mem[p]| == ENTRIES) && c < |mem| && KmapsOk(ks)
    requires |mem2| == |mem| && (forall p :: 0 <= p < |mem2| ==> |mem2[p]| == ENTRIES)
    requires KernelRows(mem, c, ks, |ks|)
    requires forall e, j :: USERDIRS <= e < ENTRIES && 0 <= j < ENTRIES ==> Walk(mem2, c, e, j) == Walk(mem, c, e, j)
    ensures KernelRows(mem2, c, ks, |ks|)
  {
  }

  lemma Shortage(mem: Mem, a: nat, v0: nat, v: nat, v1: nat, free: nat, turn: Turn)
    requires a < |mem| && |mem[a]| == ENTRIES && v0 <= v < v1 <= USERPAGES
    requires turn.NoPage? ==> Need(mem, a, v0, v) == free
    requires turn.Lost? ==> LosesAt(mem, a, v0, v, free)
    requires !turn.Grew?
    ensures Need(mem, a, v0, v1) > free && (Loses(mem, a, v0, v1, free) <==> turn.Lost?)
    ensures turn.Lost? ==> (LosesAt(mem, a, v0, v1 - 1, free) <==> v == v1 - 1)
    ensures turn.NoPage? ==> !LosesAt(mem, a, v0, v1 - 1, free)
  {
    NeedGrows(mem, a, v0, v, v1);
    if turn.NoPage? {
      forall w | v0 <= w < v1 ensures !LosesAt(mem, a, v0, w, free) {
        if LosesAt(mem, a, v0, w, free) {
          OneShortage(mem, a, v0, v, w, free);
        }
      }
    } else if LosesAt(mem, a, v0, v1 - 1, free) {
      OneShortage(mem, a, v0, v1 - 1, v, free);
    }
  }

  /** How `allocuvm` ends when page v, or its table, cannot be had; top is the first page mapped already, if any. */
  lemma AllocEnds(mem: Mem, a: nat, v0: nat, v: nat, top: nat, v1: nat, free: nat, turn: Turn)
    requires a < |mem| && |mem[a]| == ENTRIES && v0 <= v <= top <= v1 <= USERPAGES && v < v1 && !turn.Grew?
    requires turn.NoPage? ==> Need(mem, a, v0, v) == free
    requires turn.Lost? ==> v < top && LosesAt(mem, a, v0, v, free)
    ensures Loses(mem, a, v0, top, free) <==> turn.Lost?
    ensures Need(mem, a, v0, top) >= free
    ensures top == v1 ==> Need(mem, a, v0, v1) > free
    ensures top == v1 ==> (LosesAt(mem, a, v0, v1 - 1, free) <==> turn.Lost? && v + 1 == v1)
    ensures turn.Lost? && v + 1 == v1 ==> top == v1
  {
    if v < top {
      Shortage(mem, a, v0, v, top, free, turn);
    } else {
      NoShortage(mem, a, v0, top, free);
    }
  }

  lemma NoShortage(mem: Mem, a: nat, v0: nat, v1: nat, free: nat)
    requires a < |mem| && |mem[a]| == ENTRIES && v0 <= v1 <= USERPAGES && Need(mem, a, v0, v1) <= free
    ensures !Loses(mem, a, v0, v1, free)
  {
    forall w | v0 <= w < v1 ensures !LosesAt(mem, a, v0, w, free) {
      NeedGrows(mem, a, v0, w, v1);
    }
  }

  /**
   What a call of `allocuvm` for pages [v0, v1) that does not panic leaves; top is the first page mapped already, and
   free the number of free pages before.  grew: it returned the new size.  lost: a page taken from the free list and
   never mapped.
   */
  ghost predicate Allocated(mem: Mem, mem2: Mem, owner: seq<Owner>, owner2: seq<Owner>, a: nat, v0: nat, v1: nat,
                            free: nat, free2: nat, grew: bool, lost: int)
    requires Shaped(mem, owner) && Shaped(mem2, owner2) && |mem| == |mem2| && a < |mem| && v0 <= v1 <= USERPAGES
  {
    var top := First(mem, a, v0, v1, true);
    && (lost != NONE <==> Loses(mem, a, v0, top, free))
    && (lost != NONE ==> 0 <= lost < |mem| && owner[lost].Free? && owner2[lost].Held?)
    && if top < v1 then !grew && Dropped(mem, mem2, owner, a, v0, v1)
       else if Need(mem, a, v0, v1) <= free then
         grew && Grown(mem, mem2, owner, owner2, a, v0, v1, NONE) && free2 == free - Need(mem, a, v0, v1)
       else if LosesAt(mem, a, v0, v1 - 1, free) then grew && Grown(mem, mem2, owner, owner2, a, v0, v1 - 1, lost)
       else !grew && Restored(mem, mem2, owner, owner2, a, v0, v1, lost)
  }

  lemma AllocatedGrown(mem: Mem, mem2: Mem, owner: seq<Owner>, owner2: seq<Owner>, a: nat, v0: nat, v1: nat,
                       free: nat, free2: nat)
    requires Shaped(mem, owner) && Shaped(mem2, owner2) && |mem| == |mem2| && a < |mem| && v0 <= v1 <= USERPAGES
    requires Allocated(mem, mem2, owner, owner2, a, v0, v1, free, free2, true, NONE)
    ensures Grown(mem, mem2, owner, owner2, a, v0, v1, NONE)
  {
  }

  lemma AllocatedAll(mem: Mem, mem2: Mem, owner: seq<Owner>, owner2: seq<Owner>, a: nat, v0: nat, v1: nat,
                     free: nat, free2: nat)
    requires Shaped(mem, owner) && Shaped(mem2, owner2) && |mem| == |mem2| && a < |mem| && v0 <= v1 <= USERPAGES
    requires First(mem, a, v0, v1, true) == v1 && Grown(mem, mem2, owner, owner2, a, v0, v1, NONE)
    requires free2 + Need(mem, a, v0, v1) == free
    ensures Allocated(mem, mem2, owner, owner2, a, v0, v1, free, free2, true, NONE)
  {
    NoShortage(mem, a, v0, v1, free);
  }

  /** The last page is lost, and nobody notices. */
  lemma AllocatedButOne(mem: Mem, mem2: Mem, owner: seq<Owner>, owner2: seq<Owner>, a: nat, v0: nat, v: nat, v1: nat,
                        free: nat, free2: nat, turn: Turn)
    requires Shaped(mem, owner) && Shaped(mem2, owner2) && |mem| == |mem2| && a < |mem| && v0 <= v < v1 <= USERPAGES
    requires v + 1 == v1 == First(mem, a, v0, v1, true) && turn.Lost? && LosesAt(mem, a, v0, v, free)
    requires Grown(mem, mem2, owner, owner2, a, v0, v, turn.page)
    requires turn.page < |mem| && owner[turn.page].Free? && owner2[turn.page].Held?
    ensures Allocated(mem, mem2, owner, owner2, a, v0, v1, free, free2, true, turn.page)
  {
    AllocEnds(mem, a, v0, v, v1, v1, free, turn);
  }

  lemma AllocatedNone(mem: Mem, mem2: Mem, owner: seq<Owner>, owner2: seq<Owner>, a: nat, v0: nat, v: nat, top: nat,
                      v1: nat, free: nat, free2: nat, turn: Turn, lost: int)
    requires Shaped(mem, owner) && Shaped(mem2, owner2) && |mem| == |mem2| && a < |mem| && v0 <= v < v1 <= USERPAGES
    requires top == First(mem, a, v0, v1, true) && v <= top && !turn.Grew? && (turn.Lost? ==> v + 1 < v1)
    requires turn.NoPage? ==> Need(mem, a, v0, v) == free && lost == NONE
    requires turn.Lost? ==> v < top && LosesAt(mem, a, v0, v, free) && lost == turn.page
    requires turn.Lost? ==> turn.page < |mem| && owner[turn.page].Free? && owner2[turn.page].Held?
    requires Dropped(mem, mem2, owner, a, v0, v1)
    requires top == v1 ==> Restored(mem, mem2, owner, owner2, a, v0, v1, lost)
    ensures Allocated(mem, mem2, owner, owner2, a, v0, v1, free, free2, false, lost) && Need(mem, a, v0, top) >= free
  {
    AllocEnds(mem, a, v0, v, top, v1, free, turn);
  }
}
