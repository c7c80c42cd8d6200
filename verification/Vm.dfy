/** kalloc.c's page allocator and vm.c's address spaces. */
module Vm {
  import opened VmTables
  import opened VmSpaces

  class Kernel {
    var mem: Mem
    var freelist: seq<nat>
    ghost var owner: seq<Owner>

    ghost predicate Valid()
      reads this
    {
      Inv(mem, owner) && ListOk(freelist, owner)
    }

    /** The constructor leaves all pages to others; `freerange` gives them to the list with Kfree. */
    constructor (mem: Mem)
      requires forall p :: 0 <= p < |mem| ==> |mem[p]| == ENTRIES
      ensures Valid() && this.mem == mem && freelist == [] && owner == seq(|mem|, p => Held)
    {
      this.mem := mem;
      freelist := [];
      owner := seq(|mem|, p => Held);
    }

    method Kalloc() returns (p: int)
      requires Valid()
      modifies this`freelist, this`owner
      ensures Valid() && (p == NONE <==> old(freelist) == [])
      ensures p == NONE ==> freelist == old(freelist) && owner == old(owner)
      ensures p != NONE ==> 0 <= p < |mem| && old(freelist) == [p] + freelist
      ensures p != NONE ==> old(owner[p]).Free? && owner == old(owner)[p := Held]
    {
      if freelist == [] {
        return NONE;
      }
      p := freelist[0];
      Relabel(mem, owner, p, Held);
      freelist := freelist[1..];
      owner := owner[p := Held];
      assert forall q :: 0 <= q < |owner| && owner[q].Free? ==> q in freelist by {
        assert old(freelist) == [p] + freelist;
      }
    }

    method Kfree(p: nat)
      requires Valid() && p < |mem| && owner[p] == Held
      modifies this
      ensures Valid() && freelist == [p] + old(freelist) && owner == old(owner)[p := Free]
      ensures |mem| == |old(mem)| && forall q :: 0 <= q < |mem| && q != p ==> mem[q] == old(mem[q])
      ensures forall k :: 0 <= k < ENTRIES ==> mem[p][k] == 0x01010101
    {
      Rewrite(mem, owner, p, seq(ENTRIES, k => 0x01010101));
      mem := mem[p := seq(ENTRIES, k => 0x01010101)];
      Relabel(mem, owner, p, Free);
      owner := owner[p := Free];
      freelist := [p] + freelist;
    }

    /** `freerange`: pages [lo, hi) join the free list. */
    method FreeRange(lo: nat, hi: nat)
      requires Valid() && lo <= hi <= |mem| && forall p :: lo <= p < hi ==> owner[p] == Held
      modifies this
      ensures Valid() && |mem| == |old(mem)|
      ensures forall p :: 0 <= p < |mem| ==> owner[p] == if lo <= p < hi then Free else old(owner[p])
      ensures |freelist| == |old(freelist)| + (hi - lo)
    {
      var p := lo;
      while p < hi
        invariant lo <= p <= hi && Valid() && |mem| == |old(mem)| && |freelist| == |old(freelist)| + (p - lo)
        invariant forall q :: 0 <= q < |mem| ==> owner[q] == if lo <= q < p then Free else old(owner[q])
      {
        Kfree(p);
        p := p + 1;
      }
    }

    /** `kalloc` and `memset` to zero. */
    method Zalloc() returns (p: int)
      requires Valid()
      modifies this
      ensures Valid() && (p == NONE <==> old(freelist) == [])
      ensures p == NONE ==> freelist == old(freelist) && owner == old(owner) && mem == old(mem)
      ensures p != NONE ==> 0 <= p < |mem| && |mem| == |old(mem)| && old(freelist) == [p] + freelist
      ensures p != NONE ==> old(owner[p]).Free? && owner == old(owner)[p := Held] && Blank(mem[p])
      ensures forall q :: 0 <= q < |mem| && q != p ==> mem[q] == old(mem[q])
    {
      p := Kalloc();
      if p != NONE {
        Rewrite(mem, owner, p, seq(ENTRIES, k => 0));
        mem := mem[p := seq(ENTRIES, k => 0)];
      }
    }

    /** `walkpgdir`: the table of entry d of a, made if missing and wanted.  The mapping stays as it is. */
    method WalkPgdir(a: nat, d: nat, alloc: bool) returns (t: int)
      requires Valid() && a < |mem| && owner[a] == Dir && d < ENTRIES
      modifies this
      ensures Valid() && |mem| == |old(mem)| && SameWalks(old(mem), mem, old(owner))
      ensures SameUsers(old(mem), mem, old(owner))
      ensures t == NONE <==> !old(Present(mem[a][d])) && (!alloc || old(freelist) == [])
      ensures t == NONE || old(Present(mem[a][d])) ==>
                mem == old(mem) && owner == old(owner) && freelist == old(freelist)
      ensures t != NONE ==> 0 <= t < |mem| && owner[t] == Table(a, d) && Addr(mem[a][d]) == t && Flags(mem[a][d]) == 7
      ensures t != NONE && !old(Present(mem[a][d])) ==>
                old(owner[t]).Free? && owner == old(owner)[t := Table(a, d)] && old(freelist) == [t] + freelist
      ensures forall e :: 0 <= e < ENTRIES && e != d ==> mem[a][e] == old(mem[a][e])
    {
      assert PageOk(mem, owner, a);
      if Present(mem[a][d]) {
        return Addr(mem[a][d]);
      }
      if !alloc {
        return NONE;
      }
      t := Zalloc();
      if t == NONE {
        return NONE;
      }
      RewriteWalks(old(mem), mem, old(owner), t);
      var w := Entry(t, 6);
      TableWalks(mem, owner, a, d, t, w);
      AddTable(mem, owner, a, d, t, w);
      mem := Put(mem, a, d, w);
      owner := owner[t := Table(a, d)];
    }

    /**
     One turn of `mappages`: page under (d, i) of a.  A user page must be in hand and is given to its place;
     made is the table it took, if any.
     */
    method MapPage(a: nat, d: nat, i: nat, page: nat, perm: nat) returns (r: MapResult, ghost made: int)
      requires Valid() && a < |mem| && owner[a] == Dir && d < ENTRIES && i < ENTRIES && perm < PTE
      requires d < USERDIRS ==> page < |mem| && owner[page] == Held
      modifies this
      ensures Valid() && |mem| == |old(mem)| && SameUsers(old(mem), mem, old(owner))
      ensures r == NoMemory <==> !old(Present(mem[a][d])) && old(freelist) == []
      ensures r == Remap <==> old(Present(Walk(mem, a, d, i)))
      ensures r != Mapped ==> mem == old(mem) && owner == old(owner) && freelist == old(freelist)
      ensures r == Mapped ==> Walks(old(mem), mem, old(owner), a, d, i, Entry(page, perm))
      ensures r == Mapped ==> Present(mem[a][d]) && (d < USERDIRS ==> mem[page] == old(mem[page]))
      ensures r == Mapped ==> (made == NONE <==> old(Present(mem[a][d])))
      ensures made != NONE ==> 0 <= made < |mem| && old(owner[made]).Free? && old(freelist) == [made] + freelist
      ensures r == Mapped && made == NONE ==> freelist == old(freelist)
      ensures forall p :: 0 <= p < |mem| && r == Mapped ==>
                owner[p] == if d < USERDIRS && p == page then User(a, d, i)
                            else if p == made then Table(a, d) else old(owner[p])
      ensures forall e :: 0 <= e < ENTRIES && e != d ==> mem[a][e] == old(mem[a][e])
    {
      ghost var had := Present(mem[a][d]);
      assert PageOk(mem, owner, a);
      var t := WalkPgdir(a, d, true);
      made := if had then NONE else t;
      if t == NONE {
        return NoMemory, made;
      }
      assert PageOk(mem, owner, t);
      assert Walk(mem, a, d, i) == mem[t][i];
      if Present(mem[t][i]) {
        return Remap, made;
      }
      var w := Entry(page, perm);
      PutWalks(mem, owner, a, d, i, t, w);
      if d < USERDIRS {
        AddPage(mem, owner, a, d, i, t, page, w);
        owner := owner[page := User(a, d, i)];
      } else {
        AddKernelPage(mem, owner, a, d, i, t, w);
      }
      mem := Put(mem, t, i, w);
      r := Mapped;
    }

    /** One turn of `deallocuvm`: the page under (d, i) of a, if any, goes back to the free list. */
    method UnmapPage(a: nat, d: nat, i: nat)
      requires Valid() && a < |mem| && owner[a] == Dir && d < USERDIRS && i < ENTRIES && Present(mem[a][d])
      modifies this
      ensures Valid() && |mem| == |old(mem)|
      ensures !old(Present(Walk(mem, a, d, i))) ==> mem == old(mem) && owner == old(owner) && freelist == old(freelist)
      ensures old(Present(Walk(mem, a, d, i))) ==>
                var u := old(Addr(Walk(mem, a, d, i)));
                && 0 <= u < |mem| && freelist == [u] + old(freelist)
                && old(owner[u]) == User(a, d, i) && owner == old(owner)[u := Free]
                && Walks(old(mem), mem, old(owner), a, d, i, 0)
      ensures forall p :: 0 <= p < |mem| && (owner[p].User? || owner[p].Dir? || owner[p].Held?) ==>
                mem[p] == old(mem[p])
    {
      VmTables.Mapped(mem, owner, a, d, i);
      var t := Addr(mem[a][d]);
      var w := mem[t][i];
      if Present(w) {
        var u := Addr(w);
        PutWalks(mem, owner, a, d, i, t, 0);
        DropPage(mem, owner, a, d, i, t, u);
        mem := Put(mem, t, i, 0);
        owner := owner[u := Held];
        ghost var mem1, owner1 := mem, owner;
        Kfree(u);
        RewriteWalks(mem1, mem, owner1, u);
      }
    }

    /** One turn of `deallocuvm`'s loop, at page v; mem0 and owner0 are from before the loop. */
    method DeallocTurn(a: nat, v: nat, ghost start: nat, ghost end: nat, ghost mem0: Mem, ghost owner0: seq<Owner>)
      returns (v2: nat)
      requires Valid() && Inv(mem0, owner0) && |mem| == |mem0| && a < |mem0| && owner0[a] == Dir
      requires start <= v < end <= USERPAGES && Cleared(mem0, mem, owner0, owner, a, start, v)
      requires OnTrack(mem0, a, start, v)
      modifies this
      ensures Valid() && |mem| == |mem0| && v < v2 && OnTrack(mem0, a, start, v2)
      ensures Cleared(mem0, mem, owner0, owner, a, start, if v2 < end then v2 else end)
    {
      assert mem[a] == mem0[a] && owner[a] == Dir;
      TrackNext(mem0, a, start, v);
      if !Present(mem[a][v / ENTRIES]) {
        ClearedSkip(mem0, mem, owner0, owner, a, start, v, if v + ENTRIES < end then v + ENTRIES else end);
        v2 := v + (ENTRIES - 1) + 1;
      } else {
        ghost var mem1, owner1 := mem, owner;
        UnmapPage(a, v / ENTRIES, v % ENTRIES);
        ClearedStep(mem0, mem1, mem, owner0, owner1, owner, a, start, v);
        v2 := v + 1;
      }
    }

    /** `deallocuvm`; oldsz may exceed the process size. */
    method DeallocUvm(a: nat, oldsz: nat, newsz: nat) returns (r: nat)
      requires Valid() && a < |mem| && owner[a] == Dir && oldsz <= KERNBASE
      modifies this
      ensures Valid() && |mem| == |old(mem)| && r == if newsz >= oldsz then oldsz else newsz
      ensures newsz >= oldsz ==> mem == old(mem) && owner == old(owner) && freelist == old(freelist)
      ensures newsz < oldsz ==> Cleared(old(mem), mem, old(owner), owner, a, Pages(newsz), Pages(oldsz))
    {
      if newsz >= oldsz {
        return oldsz;
      }
      var start := Pages(newsz);
      var v := start;
      ghost var end := Pages(oldsz);
      ghost var mem0, owner0 := mem, owner;
      ClearedNothing(mem, owner, a, start);
      while PGSIZE * v < oldsz
        invariant Valid() && |mem| == |mem0| && start <= v && start <= end
        invariant Cleared(mem0, mem, owner0, owner, a, start, if v < end then v else end)
        invariant OnTrack(mem0, a, start, v)
      {
        v := DeallocTurn(a, v, start, end, mem0, owner0);
      }
      return newsz;
    }

    /** One turn of `freevm`'s loop; mem1 and owner1 are from before it. */
    method FreeTable(a: nat, n: nat, ghost mem1: Mem, ghost owner1: seq<Owner>)
      requires Valid() && Inv(mem1, owner1) && |mem| == |mem1| && a < |mem1| && owner1[a] == Dir && n < ENTRIES
      requires mem[a] == mem1[a] && TablesFreed(mem1, mem, owner1, owner, a, n)
      modifies this
      ensures Valid() && |mem| == |mem1| && mem[a] == mem1[a] && TablesFreed(mem1, mem, owner1, owner, a, n + 1)
    {
      ghost var mem2, owner2 := mem, owner;
      assert PageOk(mem1, owner1, a);
      if Present(mem[a][n]) {
        var t := Addr(mem[a][n]);
        Kfree(t);
        RewriteWalks(mem2, mem, owner2, t);
      }
      forall p | 0 <= p < |mem| ensures owner[p] == FreedTables(owner1[p], p, a, n + 1) {
        assert PageOk(mem1, owner1, p);
      }
    }

    /** `freevm`: every page of the address space, tables and directory too, is free again, and no other is touched. */
    method FreeVm(a: nat)
      requires Valid() && a < |mem| && owner[a] == Dir
      modifies this
      ensures Valid() && |mem| == |old(mem)| && OthersSame(old(mem), mem, old(owner), a)
      ensures forall p :: 0 <= p < |mem| ==> owner[p] == if Belongs(old(owner[p]), p, a) then Free else old(owner[p])
    {
      ghost var mem0, owner0 := mem, owner;
      var _ := DeallocUvm(a, KERNBASE, 0);
      ghost var mem1, owner1 := mem, owner;
      forall p | 0 <= p < |mem0| ensures !(owner1[p].User? && owner1[p].dir == a) {
        assert PageOk(mem0, owner0, p);
      }
      ghost var owner2 := seq(|owner|, p requires 0 <= p < |owner1| => Retired(owner1[p], p, a));
      Retire(mem, owner, owner2, a);
      owner := owner2;
      var n := 0;
      while n < ENTRIES
        invariant 0 <= n <= ENTRIES && Valid() && |mem| == |mem1| && mem[a] == mem1[a]
        invariant TablesFreed(mem1, mem, owner1, owner, a, n)
      {
        FreeTable(a, n, mem1, owner1);
        n := n + 1;
      }
      ghost var mem3, owner3 := mem, owner;
      forall p | 0 <= p < |mem1| && owner1[p].Table? ensures owner1[p].d < ENTRIES {
        assert PageOk(mem1, owner1, p);
      }
      Kfree(a);
      RewriteWalks(mem3, mem, owner3, a);
    }

    /** One turn of `mappages` on a kernel range, at its page n. */
    method MapTurn(a: nat, k: Kmap, n: nat, ghost mem0: Mem, ghost owner0: seq<Owner>) returns (r: MapResult)
      requires Valid() && Shaped(mem0, owner0) && |mem| == |mem0| && a < |mem| && owner0[a] == Dir && KmapOk(k)
      requires n < k.n
      requires TablesAdded(mem0, mem, owner0, owner, a) && Ranged(mem0, mem, owner0, a, k, n)
      modifies this
      ensures Valid() && |mem| == |mem0|
      ensures r == Mapped ==> TablesAdded(mem0, mem, owner0, owner, a) && Ranged(mem0, mem, owner0, a, k, n + 1)
      ensures r == Mapped ==> Dirs(mem[a]) == Dirs(old(mem[a])) + {(k.v + n) / ENTRIES}
      ensures r == Mapped ==> |freelist| + |Dirs(mem[a])| == |old(freelist)| + |Dirs(old(mem[a]))|
      ensures r != Mapped ==> mem == old(mem) && owner == old(owner) && freelist == old(freelist)
      ensures r == NoMemory ==> freelist == [] && (k.v + n) / ENTRIES !in Dirs(mem[a])
      ensures r == Remap <==> Present(Walk(mem0, a, (k.v + n) / ENTRIES, (k.v + n) % ENTRIES))
      ensures forall e :: 0 <= e < USERDIRS ==> mem[a][e] == old(mem[a][e])
    {
      var d, i := (k.v + n) / ENTRIES, (k.v + n) % ENTRIES;
      assert In(k, k.n, d, i) && !In(k, n, d, i);
      ghost var made;
      r, made := MapPage(a, d, i, k.pa + n, k.perm);
      if r == Mapped {
        DirsStep(old(mem[a]), mem[a], d);
      }
    }

    /** The first n pages of a kernel range are mapped, since mem0; total is what free pages and tables add up to. */
    ghost predicate MappedTo(a: nat, k: Kmap, n: nat, mem0: Mem, owner0: seq<Owner>, total: nat)
      requires Shaped(mem0, owner0) && a < |mem0|
      reads this
    {
      && Valid() && |mem| == |mem0| && KmapOk(k) && n <= k.n && owner0[a] == Dir
      && TablesAdded(mem0, mem, owner0, owner, a) && Ranged(mem0, mem, owner0, a, k, n) && !MappedWithin(mem0, a, k, n)
      && Dirs(mem[a]) == Dirs(mem0[a]) + Tables(k, n) && |freelist| + |Dirs(mem[a])| == total
      && forall e :: 0 <= e < USERDIRS ==> mem[a][e] == mem0[a][e]
    }

    method MapNext(a: nat, k: Kmap, n: nat, ghost mem0: Mem, ghost owner0: seq<Owner>, ghost total: nat)
      returns (r: MapResult)
      requires Shaped(mem0, owner0) && a < |mem0| && n < k.n && MappedTo(a, k, n, mem0, owner0, total)
      modifies this
      ensures r == Mapped ==> MappedTo(a, k, n + 1, mem0, owner0, total)
      ensures r != Mapped ==> MappedTo(a, k, n, mem0, owner0, total)
      ensures r == NoMemory ==> freelist == [] && Dirs(mem[a]) < Dirs(mem0[a]) + Tables(k, k.n)
      ensures r == Remap ==> MappedWithin(mem0, a, k, k.n)
    {
      TablesStep(k, n);
      WithinStep(mem0, a, k, n);
      r := MapTurn(a, k, n, mem0, owner0);
    }

    /**
     `mappages` on a kernel range.  It panics at the first page that is mapped already, and gives up when
     the tables it lacks are more than the free pages.
     */
    method MapPages(a: nat, k: Kmap) returns (r: MapResult)
      requires Valid() && a < |mem| && owner[a] == Dir && KmapOk(k)
      modifies this
      ensures Valid() && |mem| == |old(mem)| && TablesAdded(old(mem), mem, old(owner), owner, a)
      ensures r == Mapped ==> Ranged(old(mem), mem, old(owner), a, k, k.n) && !MappedWithin(old(mem), a, k, k.n)
      ensures r == Remap ==> MappedWithin(old(mem), a, k, k.n)
      ensures |freelist| + |Dirs(mem[a])| == |old(freelist)| + |Dirs(old(mem[a]))|
      ensures r == Mapped ==> Dirs(mem[a]) == Dirs(old(mem[a])) + Tables(k, k.n)
      ensures r == NoMemory ==> freelist == [] && Dirs(mem[a]) < Dirs(old(mem[a])) + Tables(k, k.n)
      ensures forall e :: 0 <= e < USERDIRS ==> mem[a][e] == old(mem[a][e])
    {
      ghost var mem0, owner0, total := mem, owner, |freelist| + |Dirs(mem[a])|;
      var n := 0;
      while n < k.n
        invariant 0 <= n <= k.n && MappedTo(a, k, n, mem0, owner0, total)
      {
        r := MapNext(a, k, n, mem0, owner0, total);
        if r != Mapped {
          return;
        }
        n := n + 1;
      }
      return Mapped;
    }

    /** A blank directory: nothing is mapped in it, and nothing elsewhere changes. */
    method NewSpace() returns (a: int)
      requires Valid()
      modifies this
      ensures Valid() && |mem| == |old(mem)| && (a == NONE <==> old(freelist) == [])
      ensures a == NONE ==> mem == old(mem) && owner == old(owner) && freelist == old(freelist)
      ensures a != NONE ==> 0 <= a < |mem| && SpaceMade(old(mem), mem, old(owner), owner, a) && Blank(mem[a])
      ensures a != NONE ==> SameWalks(old(mem), mem, old(owner)) && old(freelist) == [a] + freelist
    {
      a := Zalloc();
      if a != NONE {
        RewriteWalks(old(mem), mem, old(owner), a);
        NewDir(mem, owner, a);
        owner := owner[a := Dir];
      }
    }

    /** One turn of `setupkvm`'s loop: row m of the table. */
    method MapRow(a: nat, ks: seq<Kmap>, m: nat, ghost mem0: Mem, ghost owner0: seq<Owner>) returns (ok: bool)
      requires Valid() && KmapsOk(ks) && m < |ks| && Shaped(mem0, owner0) && |mem| == |mem0| && a < |mem|
      requires SpaceMade(mem0, mem, owner0, owner, a) && KernelMapped(mem, a, ks, m) && OthersSame(mem0, mem, owner0, a)
      requires Dirs(mem[a]) == RowTables(ks, m) && forall e :: 0 <= e < USERDIRS ==> mem[a][e] == 0
      modifies this
      ensures Valid() && |mem| == |mem0| && SpaceMade(mem0, mem, owner0, owner, a)
      ensures |freelist| + |Dirs(mem[a])| == |old(freelist)| + |Dirs(old(mem[a]))|
      ensures ok ==> Dirs(mem[a]) == RowTables(ks, m + 1)
      ensures ok ==> KernelMapped(mem, a, ks, m + 1) && OthersSame(mem0, mem, owner0, a)
      ensures forall e :: 0 <= e < USERDIRS ==> mem[a][e] == 0
      ensures !ok ==> freelist == [] && Dirs(mem[a]) < RowTables(ks, m + 1)
    {
      ghost var mem1, owner1 := mem, owner;
      assert forall e, j :: 0 <= e < ENTRIES && 0 <= j < ENTRIES && In(ks[m], ks[m].n, e, j) ==> Outside(ks, m, e, j);
      var r := MapPages(a, ks[m]);
      ok := r == Mapped;
      SpaceMadeNext(mem0, mem1, mem, owner0, owner1, owner, a);
      if ok {
        OthersSameNext(mem0, mem1, mem, owner0, owner1, a, ks[m]);
        KernelMappedNext(mem1, mem, owner1, a, ks, m);
      }
    }

    /** `setupkvm`'s loop over the rows of the table. */
    method MapRows(a: nat, ks: seq<Kmap>, ghost mem0: Mem, ghost owner0: seq<Owner>) returns (ok: bool)
      requires Valid() && KmapsOk(ks) && Shaped(mem0, owner0) && |mem| == |mem0| && a < |mem| && Blank(mem[a])
      requires SpaceMade(mem0, mem, owner0, owner, a) && OthersSame(mem0, mem, owner0, a)
      modifies this
      ensures Valid() && |mem| == |mem0| && SpaceMade(mem0, mem, owner0, owner, a)
      ensures ok <==> |RowTables(ks, |ks|)| <= |old(freelist)|
      ensures ok ==> KernelMapped(mem, a, ks, |ks|) && OthersSame(mem0, mem, owner0, a)
      ensures ok ==> forall e :: 0 <= e < USERDIRS ==> mem[a][e] == 0
      ensures |freelist| == if ok then |old(freelist)| - |RowTables(ks, |ks|)| else 0
    {
      BlankSpace(mem, a, ks);
      ghost var total := |freelist|;
      var m := 0;
      while m < |ks|
        invariant 0 <= m <= |ks| && Valid() && |mem| == |mem0| && SpaceMade(mem0, mem, owner0, owner, a)
        invariant KernelMapped(mem, a, ks, m) && OthersSame(mem0, mem, owner0, a)
        invariant forall e :: 0 <= e < USERDIRS ==> mem[a][e] == 0
        invariant Dirs(mem[a]) == RowTables(ks, m) && |freelist| + |RowTables(ks, m)| == total
      {
        ok := MapRow(a, ks, m, mem0, owner0);
        if !ok {
          TablesShort(ks, m + 1, Dirs(mem[a]));
          return;
        }
        m := m + 1;
      }
      return true;
    }

    /**
     `setupkvm`: a new address space with exactly the kernel's mappings.  It fails exactly when there are fewer
     free pages than a directory and the tables need; the directory and the tables made so far are then left
     behind, so that no page is free any more.
     */
    method SetupKvm(ks: seq<Kmap>) returns (a: int)
      requires Valid() && KmapsOk(ks)
      modifies this
      ensures Valid() && |mem| == |old(mem)| && SameUsers(old(mem), mem, old(owner))
      ensures a != NONE ==> 0 <= a < |mem| && SpaceMade(old(mem), mem, old(owner), owner, a)
      ensures a != NONE ==> KernelMapped(mem, a, ks, |ks|) && OthersSame(old(mem), mem, old(owner), a)
      ensures a != NONE ==> forall e :: 0 <= e < USERDIRS ==> mem[a][e] == 0
      ensures a == NONE <==> |old(freelist)| < 1 + |RowTables(ks, |ks|)|
      ensures |freelist| == if a == NONE then 0 else |old(freelist)| - 1 - |RowTables(ks, |ks|)|
      ensures a == NONE && |freelist| < |old(freelist)| <==> SetupLeaks(ks, |old(freelist)|)
      ensures SetupLeaks(ks, |old(freelist)|) ==> exists b :: SpaceMade(old(mem), mem, old(owner), owner, b)
    {
      a := NewSpace();
      if a != NONE {
        var ok := MapRows(a, ks, old(mem), old(owner));
        if !ok {
          return NONE;
        }
      }
    }

    /** One turn of `allocuvm`'s loop, at page v. */
    method AllocTurn(a: nat, v: nat, ghost v0: nat, ghost mem0: Mem, ghost owner0: seq<Owner>, ghost free: nat)
      returns (r: Turn)
      requires Valid() && Inv(mem0, owner0) && |mem| == |mem0| && a < |mem0| && owner0[a] == Dir && v0 <= v < USERPAGES
      requires Grown(mem0, mem, owner0, owner, a, v0, v, NONE) && Tabled(mem0, mem, a, v0, v)
      requires |freelist| + Need(mem0, a, v0, v) == free && !HasPage(mem0, a, v)
      modifies this
      ensures Valid() && |mem| == |mem0|
      ensures r.Grew? ==> Grown(mem0, mem, owner0, owner, a, v0, v + 1, NONE) && Tabled(mem0, mem, a, v0, v + 1)
      ensures r.Grew? ==> |freelist| + Need(mem0, a, v0, v + 1) == free
      ensures r.NoPage? ==> Grown(mem0, mem, owner0, owner, a, v0, v, NONE) && Need(mem0, a, v0, v) == free
      ensures r.Lost? ==> Grown(mem0, mem, owner0, owner, a, v0, v, r.page) && LosesAt(mem0, a, v0, v, free)
      ensures r.Lost? ==> r.page < |mem| && owner0[r.page].Free? && owner[r.page].Held?
      ensures !r.Grew? ==> freelist == [] && Tabled(mem0, mem, a, v0, v)
    {
      ghost var mem1, owner1 := mem, owner;
      var d, i := v / ENTRIES, v % ENTRIES;
      var page := Zalloc();
      if page == NONE {
        return NoPage;
      }
      ghost var mem2 := mem;
      RewriteWalks(mem1, mem, owner1, page);
      var res, made := MapPage(a, d, i, page, 6);
      if res == NoMemory {
        return Lost(page);
      }
      GrownStep(mem0, mem1, mem2, mem, owner0, owner1, owner, a, v0, v, page, made);
      return Grew;
    }

    /** The way out of `allocuvm` when a page cannot be had: what this call mapped goes back. */
    method AllocUndo(a: nat, oldsz: nat, newsz: nat, ghost v: nat, ghost mem0: Mem, ghost owner0: seq<Owner>,
                     ghost lost: int)
      requires Valid() && Inv(mem0, owner0) && |mem| == |mem0| && a < |mem0| && owner0[a] == Dir
      requires oldsz < newsz <= KERNBASE && Pages(oldsz) <= v <= Pages(newsz)
      requires Grown(mem0, mem, owner0, owner, a, Pages(oldsz), v, lost) && Tabled(mem0, mem, a, Pages(oldsz), v)
      modifies this
      ensures Valid() && |mem| == |mem0| && Dropped(mem0, mem, owner0, a, Pages(oldsz), Pages(newsz))
      ensures First(mem0, a, Pages(oldsz), Pages(newsz), true) == Pages(newsz) ==>
                Restored(mem0, mem, owner0, owner, a, Pages(oldsz), Pages(newsz), lost)
      ensures forall p :: 0 <= p < |mem| && old(owner[p]).Held? ==> owner[p].Held?
    {
      ghost var v0, v1 := Pages(oldsz), Pages(newsz);
      var _ := DeallocUvm(a, newsz, oldsz);
      GrownDropped(mem0, old(mem), mem, owner0, old(owner), owner, a, v0, v, v1, lost);
      if First(mem0, a, v0, v1, true) == v1 {
        FirstMapped(mem0, a, v0, v1);
        GrownCleared(mem0, old(mem), mem, owner0, old(owner), owner, a, v0, v, v1, lost);
      }
    }

    /** The turn of `allocuvm` that comes to a page mapped already: `mappages` panics, if there is a page to map. */
    method RemapTurn(a: nat, v: nat) returns (panic: bool)
      requires Valid() && a < |mem| && owner[a] == Dir && v < USERPAGES && HasPage(mem, a, v)
      modifies this
      ensures Valid() && |mem| == |old(mem)| && (panic <==> old(freelist) != [])
      ensures !panic ==> mem == old(mem) && owner == old(owner) && freelist == old(freelist)
    {
      var page := Zalloc();
      if page == NONE {
        return false;
      }
      RewriteWalks(old(mem), mem, old(owner), page);
      var res, _ := MapPage(a, v / ENTRIES, v % ENTRIES, page, 6);
      panic := res == Remap;
    }

    /** Either of the two, as page v is. */
    method AllocStep(a: nat, v: nat, ghost v0: nat, ghost mem0: Mem, ghost owner0: seq<Owner>, ghost free: nat)
      returns (r: Turn, panic: bool)
      requires Valid() && Inv(mem0, owner0) && |mem| == |mem0| && a < |mem0| && owner0[a] == Dir && v0 <= v < USERPAGES
      requires Grown(mem0, mem, owner0, owner, a, v0, v, NONE) && Tabled(mem0, mem, a, v0, v)
      requires |freelist| + Need(mem0, a, v0, v) == free
      modifies this
      ensures Valid() && |mem| == |mem0|
      ensures panic <==> HasPage(mem0, a, v) && Need(mem0, a, v0, v) < free
      ensures r.Grew? ==> Grown(mem0, mem, owner0, owner, a, v0, v + 1, NONE) && Tabled(mem0, mem, a, v0, v + 1)
      ensures r.Grew? ==> |freelist| + Need(mem0, a, v0, v + 1) == free
      ensures !panic && HasPage(mem0, a, v) ==> r.NoPage?
      ensures r.Grew? || r.Lost? ==> !panic && !HasPage(mem0, a, v)
      ensures !panic && r.NoPage? ==> Grown(mem0, mem, owner0, owner, a, v0, v, NONE) && Need(mem0, a, v0, v) == free
      ensures r.Lost? ==> Grown(mem0, mem, owner0, owner, a, v0, v, r.page) && LosesAt(mem0, a, v0, v, free)
      ensures r.Lost? ==> r.page < |mem| && owner0[r.page].Free? && owner[r.page].Held?
      ensures !panic && !r.Grew? ==> Tabled(mem0, mem, a, v0, v)
    {
      assert !Between(v0, v, v / ENTRIES, v % ENTRIES);
      if HasPage(mem, a, v) {
        panic := RemapTurn(a, v);
        return NoPage, panic;
      }
      r := AllocTurn(a, v, v0, mem0, owner0, free);
      panic := false;
    }

    /** `allocuvm`'s loop, up to where a page or a table cannot be had, or a page is mapped already; top is the first
        such. */
    method AllocPages(a: nat, oldsz: nat, newsz: nat, ghost top: nat) returns (turn: Turn, v: nat, panic: bool)
      requires Valid() && a < |mem| && owner[a] == Dir && oldsz <= newsz <= KERNBASE
      requires Pages(oldsz) <= top <= Pages(newsz) && (top < Pages(newsz) ==> HasPage(mem, a, top))
      requires forall x :: Pages(oldsz) <= x < top ==> !HasPage(mem, a, x)
      modifies this
      ensures Valid() && |mem| == |old(mem)| && Pages(oldsz) <= v <= top
      ensures panic <==> v == top < Pages(newsz) && Need(old(mem), a, Pages(oldsz), v) < |old(freelist)|
      ensures !panic ==> (turn.Grew? <==> v == Pages(newsz)) && Tabled(old(mem), mem, a, Pages(oldsz), v)
      ensures !panic ==>
                Grown(old(mem), mem, old(owner), owner, a, Pages(oldsz), v, if turn.Lost? then turn.page else NONE)
      ensures !panic && turn.Grew? ==> |freelist| + Need(old(mem), a, Pages(oldsz), v) == |old(freelist)|
      ensures !panic && turn.NoPage? ==> Need(old(mem), a, Pages(oldsz), v) == |old(freelist)|
      ensures turn.Lost? ==> !panic && v < top && LosesAt(old(mem), a, Pages(oldsz), v, |old(freelist)|)
      ensures turn.Lost? ==> turn.page < |mem| && old(owner)[turn.page].Free? && owner[turn.page].Held?
    {
      ghost var mem0, owner0, v0, v1, free := mem, owner, Pages(oldsz), Pages(newsz), |freelist|;
      v, panic, turn := Pages(oldsz), false, Grew;
      while PGSIZE * v < newsz
        invariant v0 <= v <= top && Valid() && |mem| == |mem0| && turn.Grew? && !panic
        invariant Grown(mem0, mem, owner0, owner, a, v0, v, NONE) && Tabled(mem0, mem, a, v0, v)
        invariant |freelist| + Need(mem0, a, v0, v) == free
      {
        assert v < v1 && (HasPage(mem0, a, v) <==> v == top);
        turn, panic := AllocStep(a, v, v0, mem0, owner0, free);
        if !turn.Grew? {
          return;
        }
        v := v + 1;
      }
      assert v == v1;
    }

    /** The rest of `allocuvm` when its loop came to page v without a page or a table for it. */
    method AllocShort(a: nat, oldsz: nat, newsz: nat, v: nat, turn: Turn, ghost mem0: Mem, ghost owner0: seq<Owner>,
                      ghost top: nat, ghost free: nat, ghost lost: int)
      returns (r: nat)
      requires Valid() && Inv(mem0, owner0) && |mem| == |mem0| && a < |mem0| && owner0[a] == Dir && !turn.Grew?
      requires oldsz < newsz < KERNBASE && Pages(oldsz) <= v < Pages(newsz) && v <= top
      requires top == First(mem0, a, Pages(oldsz), Pages(newsz), true)
      requires lost == (if turn.Lost? then turn.page else NONE)
      requires Grown(mem0, mem, owner0, owner, a, Pages(oldsz), v, lost)
      requires Tabled(mem0, mem, a, Pages(oldsz), v)
      requires turn.NoPage? ==> Need(mem0, a, Pages(oldsz), v) == free
      requires turn.Lost? ==> v < top && LosesAt(mem0, a, Pages(oldsz), v, free)
      requires turn.Lost? ==> turn.page < |mem| && owner0[turn.page].Free? && owner[turn.page].Held?
      modifies this
      ensures Valid() && |mem| == |mem0| && (r == 0 || r == newsz)
      ensures Allocated(mem0, mem, owner0, owner, a, Pages(oldsz), Pages(newsz), free, |freelist|, r == newsz, lost)
      ensures top < Pages(newsz) ==> Need(mem0, a, Pages(oldsz), top) >= free
    {
      ghost var v0, v1 := Pages(oldsz), Pages(newsz);
      PagesOf(newsz, v + 1);
      // After a lost page the loop ends here, or goes on to find the free list empty.
      if turn.Lost? && PGSIZE * (v + 1) >= newsz {
        AllocatedButOne(mem0, mem, owner0, owner, a, v0, v, v1, free, |freelist|, turn);
        return newsz;
      }
      AllocUndo(a, oldsz, newsz, v, mem0, owner0, lost);
      AllocatedNone(mem0, mem, owner0, owner, a, v0, v, top, v1, free, |freelist|, turn, lost);
      r := 0;
    }

    /** `allocuvm` past its checks. */
    method AllocGrow(a: nat, oldsz: nat, newsz: nat) returns (r: nat, panic: bool, ghost lost: int)
      requires Valid() && a < |mem| && owner[a] == Dir && oldsz <= newsz < KERNBASE
      modifies this
      ensures Valid() && |mem| == |old(mem)|
      ensures panic <==> var top := First(old(mem), a, Pages(oldsz), Pages(newsz), true);
                         top < Pages(newsz) && Need(old(mem), a, Pages(oldsz), top) < |old(freelist)|
      ensures !panic ==> (r == 0 || r == newsz)
                         && Allocated(old(mem), mem, old(owner), owner, a, Pages(oldsz), Pages(newsz),
                                      |old(freelist)|, |freelist|, r == newsz, lost)
    {
      ghost var mem0, owner0, v0, v1, free := mem, owner, Pages(oldsz), Pages(newsz), |freelist|;
      ghost var top := First(mem, a, v0, v1, true);
      lost, r := NONE, 0;
      var turn, v;
      turn, v, panic := AllocPages(a, oldsz, newsz, top);
      if panic {
        return;
      }
      if turn.Grew? {
        AllocatedAll(mem0, mem, owner0, owner, a, v0, v1, free, |freelist|);
        return newsz, false, lost;
      }
      PagesOf(oldsz, v);
      PagesOf(newsz, v);
      lost := if turn.Lost? then turn.page else NONE;
      r := AllocShort(a, oldsz, newsz, v, turn, mem0, owner0, top, free, lost);
    }

    /**
     `allocuvm`.  It panics exactly when it comes to a page that is mapped already with a page in hand.  It
     ignores `mappages` failing: lost is the page then left in nobody's hands, which happens exactly when the
     free list runs out between a page and its table.
     */
    method AllocUvm(a: nat, oldsz: nat, newsz: nat) returns (r: nat, panic: bool, ghost lost: int)
      requires Valid() && a < |mem| && owner[a] == Dir
      modifies this
      ensures Valid() && |mem| == |old(mem)|
      ensures newsz >= KERNBASE || newsz < oldsz ==>
                !panic && mem == old(mem) && owner == old(owner) && r == (if newsz >= KERNBASE then 0 else oldsz)
      ensures newsz < KERNBASE && newsz >= oldsz ==>
                && (panic <==> var top := First(old(mem), a, Pages(oldsz), Pages(newsz), true);
                               top < Pages(newsz) && Need(old(mem), a, Pages(oldsz), top) < |old(freelist)|)
                && (!panic ==> (r == 0 || r == newsz)
                               && Allocated(old(mem), mem, old(owner), owner, a, Pages(oldsz), Pages(newsz),
                                            |old(freelist)|, |freelist|, r == newsz, lost))
      ensures newsz < KERNBASE && newsz >= oldsz && !panic && r == newsz && lost == NONE ==>
                forall e, j :: 0 <= e < ENTRIES && 0 <= j < ENTRIES && Between(Pages(oldsz), Pages(newsz), e, j) ==>
                  UserWrites(mem, a, e, j)
    {
      if newsz >= KERNBASE {
        return 0, false, NONE;
      }
      if newsz < oldsz {
        return oldsz, false, NONE;
      }
      r, panic, lost := AllocGrow(a, oldsz, newsz);
      if !panic && r == newsz && lost == NONE {
        AllocatedGrown(old(mem), mem, old(owner), owner, a, Pages(oldsz), Pages(newsz), |old(freelist)|, |freelist|);
        GrownOpen(old(mem), mem, old(owner), owner, a, Pages(oldsz), Pages(newsz), NONE);
      }
    }

    /** One turn of `copyuvm`'s loop, at page v of a. */
    method CopyTurn(a: nat, c: nat, v: nat, ghost mem0: Mem, ghost owner0: seq<Owner>) returns (r: Turn)
      requires Valid() && Inv(mem0, owner0) && |mem| == |mem0| && a < |mem0| && c < |mem0| && owner0[a] == Dir
      requires v < USERPAGES && HasPage(mem0, a, v)
      requires Copied(mem0, mem, owner0, owner, a, c, v) && TakenBy(owner0, owner, c, NONE) && UserTables(mem[c], v)
      modifies this
      ensures Valid() && |mem| == |mem0|
      ensures r.Grew? ==> Copied(mem0, mem, owner0, owner, a, c, v + 1) && TakenBy(owner0, owner, c, NONE)
      ensures r.Grew? ==> UserTables(mem[c], v + 1) && |freelist| + CopyNeed(v + 1) == |old(freelist)| + CopyNeed(v)
      ensures r.Grew? ==>
                forall e, j :: USERDIRS <= e < ENTRIES && 0 <= j < ENTRIES ==>
                  Walk(mem, c, e, j) == old(Walk(mem, c, e, j))
      ensures r.NoPage? ==> mem == old(mem) && owner == old(owner) && old(freelist) == []
      ensures r.Lost? ==> r.page < |mem| && owner0[r.page].Free? && owner[r.page].Held?
      ensures r.Lost? ==> TakenBy(owner0, owner, c, r.page)
      ensures r.Lost? ==> |old(freelist)| == 1 && v % ENTRIES == 0
      ensures !r.Grew? ==> owner[c] == Dir && OthersSame(mem0, mem, owner0, c)
    {
      ghost var mem1, owner1 := mem, owner;
      var d, i := v / ENTRIES, v % ENTRIES;
      var w := Walk(mem, a, d, i);
      VmTables.Mapped(mem0, owner0, a, d, i);
      var page := Kalloc();
      if page == NONE {
        return NoPage;
      }
      Rewrite(mem, owner, page, mem[Addr(w)]);
      mem := mem[page := mem[Addr(w)]];
      ghost var mem2 := mem;
      RewriteWalks(mem1, mem, owner1, page);
      var res, made := MapPage(c, d, i, page, Flags(w));
      if res == NoMemory {
        return Lost(page);
      }
      CopyStep(mem0, mem1, mem2, mem, owner0, owner1, owner, a, c, v, page, made);
      UserTablesStep(mem1[c], mem[c], v);
      return Grew;
    }

    /** `copyuvm`'s loop, up to where a page or a table cannot be had, or the parent has no page; pages is
        the first such. */
    method CopyPages(a: nat, c: nat, sz: nat, ks: seq<Kmap>, ghost mem0: Mem, ghost owner0: seq<Owner>,
                     ghost pages: nat)
      returns (turn: Turn, panic: bool)
      requires Valid() && Inv(mem0, owner0) && |mem| == |mem0| && a < |mem0| && c < |mem0| && owner0[a] == Dir
      requires sz <= KERNBASE && KmapsOk(ks) && KernelRows(mem, c, ks, |ks|) && UserTables(mem[c], 0)
      requires pages <= Pages(sz) && (pages < Pages(sz) ==> !HasPage(mem0, a, pages))
      requires forall x :: 0 <= x < pages ==> HasPage(mem0, a, x)
      requires Copied(mem0, mem, owner0, owner, a, c, 0) && TakenBy(owner0, owner, c, NONE)
      modifies this
      ensures Valid() && |mem| == |mem0|
      ensures turn.Grew? <==> CopyNeed(pages) <= |old(freelist)|
      ensures panic <==> turn.Grew? && pages < Pages(sz)
      ensures turn.Grew? && !panic ==>
                Copied(mem0, mem, owner0, owner, a, c, Pages(sz)) && KernelRows(mem, c, ks, |ks|)
      ensures turn.Lost? <==> CopyLoses(|old(freelist)|, pages)
      ensures turn.Lost? ==> turn.page < |mem| && owner0[turn.page].Free? && owner[turn.page].Held?
      ensures TakenBy(owner0, owner, c, if turn.Lost? then turn.page else NONE)
      ensures !turn.Grew? ==> owner[c] == Dir && OthersSame(mem0, mem, owner0, c)
    {
      ghost var free := |freelist|;
      var v := 0;
      turn, panic := Grew, false;
      while PGSIZE * v < sz
        invariant 0 <= v <= pages && Valid() && |mem| == |mem0| && turn.Grew?
        invariant Copied(mem0, mem, owner0, owner, a, c, v) && TakenBy(owner0, owner, c, NONE)
        invariant KernelRows(mem, c, ks, |ks|) && UserTables(mem[c], v) && |freelist| + CopyNeed(v) == free
      {
        ghost var mem1 := mem;
        assert a != c && HasPage(mem, a, v) == HasPage(mem0, a, v);
        if !HasPage(mem, a, v) {
          CopyFits(pages, free);
          panic := true;
          return;
        }
        turn := CopyTurn(a, c, v, mem0, owner0);
        if !turn.Grew? {
          CopyShort(v, pages, free, turn);
          return;
        }
        RowsKept(mem1, mem, c, ks);
        v := v + 1;
      }
      CopyFits(pages, free);
    }

    /**
     `copyuvm`: on success the child has the parent's pages [0, sz), same bytes and flags, on pages that were free,
     and the kernel's mappings.  When it runs out of pages under way, every page taken goes back but lost,
     which it held when a table could not be had.  It panics when it comes to a page the parent does not have.  How
     it ends depends on the first such page and on the number of free pages alone: those `setupkvm` takes, and those
     left for the copies and their tables.
     */
    method CopyUvm(a: nat, sz: nat, ks: seq<Kmap>) returns (c: int, ghost end: CopyEnd)
      requires Valid() && a < |mem| && owner[a] == Dir && sz <= KERNBASE && KmapsOk(ks)
      modifies this
      ensures Valid() && |mem| == |old(mem)| && (c != NONE <==> end.Complete?)
      ensures end.SetupFailed? <==> |old(freelist)| < 1 + |RowTables(ks, |ks|)|
      ensures !end.SetupFailed? ==>
                var left, top := |old(freelist)| - 1 - |RowTables(ks, |ks|)|, First(old(mem), a, 0, Pages(sz), false);
                && (end.Complete? <==> CopyNeed(top) <= left && top == Pages(sz))
                && (end.Panicked? <==> CopyNeed(top) <= left && top < Pages(sz))
                && (end.Undone? && end.lost != NONE <==> CopyLoses(left, top))
      ensures end.Complete? ==> 0 <= c < |mem| && Copied(old(mem), mem, old(owner), owner, a, c, Pages(sz))
      ensures end.Complete? ==> KernelRows(mem, c, ks, |ks|) && TakenBy(old(owner), owner, c, NONE)
      ensures end.Complete? ==>
                forall e, j :: 0 <= e < USERDIRS && 0 <= j < ENTRIES && Between(0, Pages(sz), e, j) ==>
                  && (UserReads(mem, c, e, j) <==> old(UserReads(mem, a, e, j)))
                  && (UserWrites(mem, c, e, j) <==> old(UserWrites(mem, a, e, j)))
      ensures end.SetupFailed? && old(freelist) != [] ==> exists b :: SpaceMade(old(mem), mem, old(owner), owner, b)
      ensures end.Undone? ==> forall p :: 0 <= p < |mem| && p != end.lost ==> owner[p] == old(owner[p])
      ensures end.Undone? && end.lost != NONE ==>
                0 <= end.lost < |mem| && old(owner)[end.lost].Free? && owner[end.lost].Held?
      ensures end.Undone? ==> SameWalks(old(mem), mem, old(owner))
      ensures end.Undone? ==> forall p :: 0 <= p < |mem| && old(owner[p]).User? ==> mem[p] == old(mem[p])
    {
      ghost var mem0, owner0 := mem, owner;
      c := SetupKvm(ks);
      if c == NONE {
        return c, SetupFailed;
      }
      var turn, panic := CopyPages(a, c, sz, ks, mem0, owner0, First(mem0, a, 0, Pages(sz), false));
      if panic {
        return NONE, Panicked;
      }
      if turn.Grew? {
        CopiedOpen(mem0, mem, owner0, owner, a, c, Pages(sz));
        return c, Complete;
      }
      ghost var owner2 := owner;
      FreeVm(c);
      end := Undone(if turn.Lost? then turn.page else NONE);
      AllReturned(mem0, owner0, owner2, owner, c, end.lost);
      return NONE, end;
    }
  }

  /** With 64 free pages `setupkvm` fails, and every one of them is left in a directory nobody has. */
  method SetupLeakExample(data: nat) returns (k: Kernel, a: int)
    requires 0x80100 < data < 0x8E000
    ensures k.Valid() && |k.mem| == 64 && a == NONE && k.freelist == []
    ensures forall p :: 0 <= p < 64 ==> k.owner[p].Dir? || k.owner[p].Table?
  {
    k := new Kernel(seq(64, p => seq(ENTRIES, j => 0)));
    k.FreeRange(0, 64);
    KernelTables(data);
    a := k.SetupKvm(KernelMap(data));
  }

  /** A machine with this many pages, and a process of one page. */
  method OnePage(pages: nat, data: nat) returns (k: Kernel, a: int)
    requires 0x80100 < data < 0x8E000 && pages >= 67
    ensures fresh(k) && k.Valid() && |k.mem| == pages && |k.freelist| == pages - 67
    ensures 0 <= a < pages && k.owner[a] == Dir && Present(Walk(k.mem, a, 0, 0))
  {
    k := new Kernel(seq(pages, p => seq(ENTRIES, j => 0)));
    k.FreeRange(0, pages);
    KernelTables(data);
    a := k.SetupKvm(KernelMap(data));
    assert forall e, j :: 0 <= e < ENTRIES && 0 <= j < ENTRIES && Between(0, 1, e, j) ==>
             Outside(KernelMap(data), 4, e, j);
    NeedOne(k.mem, a);
    assert Pages(0) == 0 && Pages(PGSIZE) == 1;
    var r, panic, lost := k.AllocUvm(a, 0, PGSIZE);
    assert Between(0, 1, 0, 0);
  }

  /** With one page to spare after `setupkvm`, copying a one-page process fails and loses that page. */
  method CopyLossExample(data: nat) returns (k: Kernel, c: int, ghost end: CopyEnd)
    requires 0x80100 < data < 0x8E000
    ensures k.Valid() && c == NONE && end.Undone? && 0 <= end.lost < |k.mem| && k.owner[end.lost].Held?
  {
    var a;
    k, a := OnePage(133, data);
    KernelTables(data);
    assert Pages(PGSIZE) == 1;
    c, end := k.CopyUvm(a, PGSIZE, KernelMap(data));
  }
}
