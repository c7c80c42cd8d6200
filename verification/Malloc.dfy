/** umalloc.c: the Kernighan and Ritchie allocator. */
module Malloc {
  import opened Types
  import opened MallocHeap

  const NULL := -1
  const UNIT := 8
  const MINUNITS := 4096

  /** nunits of `malloc`, computed in 32 bits. */
  function Units(nbytes: nat): (r: nat)
    ensures r >= 1
  {
    (nbytes + UNIT - 1) % UINT / UNIT + 1
  }

  function CoreUnits(nu: nat): (r: nat) {
    if nu < MINUNITS then MINUNITS else nu
  }

  /** The signed argument sbrk receives from `morecore`. */
  function SbrkBytes(nu: nat): (r: int) {
    var x := CoreUnits(nu) * UNIT % UINT;
    if x < UINT / 2 then x else x - UINT
  }

  /** A request is rounded up to enough units, and sbrk is asked for what the header will claim, exactly up to these
      sizes. */
  lemma RequestSizes(nbytes: nat)
    requires nbytes < UINT
    ensures UNIT * (Units(nbytes) - 1) >= nbytes <==> nbytes <= UINT - UNIT
    ensures nbytes <= UINT - UNIT ==> UNIT * (Units(nbytes) - 1) < nbytes + UNIT
    ensures SbrkBytes(Units(nbytes)) == UNIT * CoreUnits(Units(nbytes)) <==>
            nbytes <= UINT / 2 - 2 * UNIT || UINT - UNIT < nbytes
    ensures CoreUnits(Units(nbytes)) >= Units(nbytes) && UNIT * CoreUnits(Units(nbytes)) >= 32768
    ensures CoreUnits(Units(nbytes)) > Units(nbytes) ==> UNIT * CoreUnits(Units(nbytes)) == 32768
  {
  }

  /** The header writes of `free`, once p is found. */
  function Freed(mem: Mem, p: nat, b: nat): (r: Mem)
    requires p < |mem| && b < |mem| && mem[p].ptr < |mem|
  {
    var next := mem[p].ptr;
    var mem1 :=
      if b + mem[b].size == next then mem[b := Header(mem[next].ptr, mem[b].size + mem[next].size)]
      else mem[b := mem[b].(ptr := next)];
    if p + mem1[p].size == b then mem1[p := Header(mem1[b].ptr, mem1[p].size + mem1[b].size)]
    else mem1[p := mem1[p].(ptr := b)]
  }

  /** The units of these live blocks, headers and contents, are as before. */
  ghost predicate Untouched(mem: Mem, mem2: Mem, live: set<nat>, mark: map<nat, nat>) {
    && |mem| == |mem2|
    && forall u :: u in mark && mark[u] in live ==> u < |mem| && mem2[u] == mem[u]
  }

  /** Live blocks keep their units, so leaving them untouched twice leaves them untouched. */
  lemma UntouchedTwice(mem1: Mem, free1: set<nat>, mark1: map<nat, nat>,
                       mem2: Mem, free2: set<nat>, mark2: map<nat, nat>, mem3: Mem, live: set<nat>)
    requires Good(mem1, free1, live, mark1) && Good(mem2, free2, live, mark2)
    requires Untouched(mem1, mem2, live, mark1) && Untouched(mem2, mem3, live, mark2)
    ensures Untouched(mem1, mem3, live, mark1)
  {
    forall u | u in mark1 && mark1[u] in live ensures u in mark2 && mark2[u] == mark1[u] {
      var b := mark1[u];
      assert Owns(mem1, mark1, b) && Owns(mem2, mark2, b);
      assert b in mark1 && mark1[b] == b;
    }
  }

  /** The n units from b on lie within one free block. */
  ghost predicate Covered(mem: Mem, free: set<nat>, b: nat, n: nat) {
    exists q :: q in free && q < |mem| && q <= b && b + n <= q + mem[q].size
  }

  lemma FreeNext(mem: Mem, free: set<nat>, live: set<nat>, mark: map<nat, nat>, p: nat, b: nat)
    returns (mem2: Mem, free2: set<nat>, mark2: map<nat, nat>)
    requires Good(mem, free, live, mark) && Coalesced(mem, free) && b in live && p in free
    requires p < b && (mem[p].ptr == BASE || b < mem[p].ptr)
    ensures Good(mem2, free2, live - {b}, mark2) && p in free2 && b in free2
    ensures Gaps(mem2, free2, {(p, b)})
    ensures forall u :: u in mark2 <==> u in mark
    ensures mem[p].ptr < |mem|
    ensures var next := mem[p].ptr;
      mem2 == (if b + mem[b].size == next then mem[b := Header(mem[next].ptr, mem[b].size + mem[next].size)]
               else mem[b := mem[b].(ptr := next)])[p := mem[p].(ptr := b)]
  {
    var next := mem[p].ptr;
    assert Points(mem, free, p);
    Insert(mem, free, live, mark, p, b);
    InsertGaps(mem, free, live, mark, p, b);
    mem2, free2, mark2 := Linked(mem, p, b), free + {b}, mark;
    if b + mem[b].size == next {
      Merge(mem2, free2, live - {b}, mark2, b, next);
      assert {(p, b), (b, next)} == {(p, b)} + {(b, next)};
      MergeGaps(mem2, free2, live - {b}, mark2, b, next, {(p, b)});
      mem2, free2, mark2 := Joined(mem2, b, next), free2 - {next}, Remarked(mark2, b, next);
    } else if next != BASE {
      Disjoint(mem, free, live, mark, b, next);
    }
  }

  /** `free`'s writes take b off the live blocks and leave the free list ordered, partitioned and fully coalesced. */
  lemma FreeGood(mem: Mem, free: set<nat>, live: set<nat>, mark: map<nat, nat>, p: nat, b: nat)
    returns (free2: set<nat>, mark2: map<nat, nat>)
    requires Good(mem, free, live, mark) && Coalesced(mem, free) && b in live && p in free
    requires p < b && (mem[p].ptr == BASE || b < mem[p].ptr)
    ensures mem[p].ptr < |mem|
    ensures Good(Freed(mem, p, b), free2, live - {b}, mark2) && p in free2
    ensures Coalesced(Freed(mem, p, b), free2)
    ensures forall u :: u in mark2 <==> u in mark
    ensures Untouched(mem, Freed(mem, p, b), live - {b}, mark)
    ensures Covered(Freed(mem, p, b), free2, b, mem[b].size)
  {
    HeadersApart(mem, free, live, mark, p);
    HeadersApart(mem, free, live, mark, b);
    var mem2;
    mem2, free2, mark2 := FreeNext(mem, free, live, mark, p, b);
    if p + mem[p].size == b {
      assert mem2[p] == mem[p].(ptr := b);
      Merge(mem2, free2, live - {b}, mark2, p, b);
      assert {(p, b)} == {} + {(p, b)};
      MergeGaps(mem2, free2, live - {b}, mark2, p, b, {});
      assert Freed(mem, p, b) == Joined(mem2, p, b);
      assert p + Joined(mem2, p, b)[p].size >= b + mem[b].size;
      free2, mark2 := free2 - {b}, Remarked(mark2, p, b);
    } else {
      assert Freed(mem, p, b) == mem2 && mem2[b].size >= mem[b].size;
      Disjoint(mem, free, live, mark, p, b);
    }
  }

  /** The header writes of `malloc` for n units out of p. */
  function Taken(mem: Mem, prev: nat, p: nat, n: nat): (r: Mem)
    requires prev < |mem| && p < |mem| && 1 <= n <= mem[p].size && p + mem[p].size <= |mem|
  {
    if mem[p].size == n then mem[prev := mem[prev].(ptr := mem[p].ptr)] else Cut(mem, p, n)
  }

  /** They make one block of n units live, out of free units, and change nothing else. */
  lemma TakeGood(mem: Mem, free: set<nat>, live: set<nat>, mark: map<nat, nat>, prev: nat, p: nat, n: nat)
    returns (free2: set<nat>, mark2: map<nat, nat>)
    requires Good(mem, free, live, mark) && Coalesced(mem, free)
    requires prev in free && p in free && mem[prev].ptr == p && 1 <= n <= mem[p].size
    ensures p + mem[p].size <= |mem|
    ensures var r := p + mem[p].size - n;
      && r !in live && Taken(mem, prev, p, n)[r].size == n
      && Good(Taken(mem, prev, p, n), free2, live + {r}, mark2)
    ensures Coalesced(Taken(mem, prev, p, n), free2) && prev in free2
    ensures forall u :: u in mark2 <==> u in mark
    ensures Untouched(mem, Taken(mem, prev, p, n), live, mark)
  {
    assert Points(mem, free, prev);
    assert Owns(mem, mark, p);
    HeadersApart(mem, free, live, mark, p);
    HeadersApart(mem, free, live, mark, prev);
    if mem[p].size == n {
      Unlink(mem, free, live, mark, prev, p);
      free2, mark2 := free - {p}, mark;
    } else {
      Split(mem, free, live, mark, p, n);
      free2, mark2 := free, MarkedFrom(mark, p, p + mem[p].size - n);
    }
  }

  /** Free blocks still ahead of the search for b's place. */
  ghost function Ahead(free: set<nat>, p: nat, b: nat): (r: set<nat>) {
    set q | q in free && (if p < b then p < q < b else p < q || q < b)
  }

  ghost predicate Fits(mem: Mem, free: set<nat>, n: nat) {
    exists q :: q in free && q < |mem| && mem[q].size >= n
  }

  /** p is the first block with room for n on the walk that starts after `from`. */
  ghost predicate FirstFit(mem: Mem, free: set<nat>, from: int, n: nat, p: nat) {
    && p in free && p < |mem| && mem[p].size >= n && 0 <= from
    && forall q :: q in free && q < |mem| && q != p && (p == from || Visited(from, p, q)) ==> mem[q].size < n
  }

  ghost predicate TooSmall(mem: Mem, free: set<nat>, from: nat, last: nat, n: nat) {
    forall q :: q in free && q < |mem| && Visited(from, last, q) ==> mem[q].size < n
  }

  /** One more block on the walk: it fits, or is too small like those before, and after a whole round nothing fits. */
  lemma Walk(mem: Mem, free: set<nat>, from: nat, prev: nat, n: nat)
    requires Chain(mem, free) && from in free && prev in free && TooSmall(mem, free, from, prev, n)
    ensures var p := mem[prev].ptr;
      && p in free
      && (mem[p].size >= n ==> FirstFit(mem, free, from, n, p))
      && (mem[p].size < n && p != from ==>
            TooSmall(mem, free, from, p, n) && Unvisited(free, from, p) < Unvisited(free, from, prev))
      && (mem[p].size < n && p == from ==> !Fits(mem, free, n))
  {
    VisitNext(mem, free, from, prev);
  }

  lemma EmptyGood(mem: Mem)
    requires |mem| > 0 && mem[BASE] == Header(BASE, 0)
    ensures Good(mem, {BASE}, {}, map[]) && Coalesced(mem, {BASE})
  {
    assert Points(mem, {BASE}, BASE);
  }

  class Heap {
    var mem: Mem
    var freep: int
    ghost var free: set<nat>
    ghost var live: set<nat>
    ghost var mark: map<nat, nat>

    ghost predicate Valid()
      reads this
    {
      && |mem| > 0
      && if freep == NULL then free == {} && live == {} && mark == map[]
         else freep in free && Good(mem, free, live, mark) && Coalesced(mem, free)
    }

    /** Before the first call `freep` is null. */
    constructor (mem: Mem)
      requires |mem| > 0
      ensures Valid() && live == {} && mark == map[] && this.mem == mem
    {
      this.mem := mem;
      freep := NULL;
      free, live, mark := {}, {}, map[];
    }

    /** The loop of `free`: where block bp belongs in address order. */
    method FindPlace(bp: nat) returns (p: nat)
      requires Valid() && bp in live
      ensures p in free && p < bp && (mem[p].ptr == BASE || bp < mem[p].ptr)
    {
      assert Owns(mem, mark, bp);
      p := freep;
      while !(bp > p && bp < mem[p].ptr)
        invariant p in free
        decreases Ahead(free, p, bp)
      {
        assert Points(mem, free, p);
        assert p != bp;
        if p >= mem[p].ptr && (bp > p || bp < mem[p].ptr) {
          return;
        }
        ghost var q := mem[p].ptr;
        assert Ahead(free, q, bp) < Ahead(free, p, bp) by {
          assert q in Ahead(free, p, bp) && q !in Ahead(free, q, bp);
        }
        p := mem[p].ptr;
      }
    }

    /** The header writes of `free`, joining bp to its neighbours where they touch. */
    method Link(p: nat, bp: nat)
      requires p < |mem| && bp < |mem| && mem[p].ptr < |mem|
      modifies this`mem
      ensures mem == Freed(old(mem), p, bp)
    {
      if bp + mem[bp].size == mem[p].ptr {
        var next := mem[p].ptr;
        mem := mem[bp := Header(mem[next].ptr, mem[bp].size + mem[next].size)];
      } else {
        mem := mem[bp := mem[bp].(ptr := mem[p].ptr)];
      }
      if p + mem[p].size == bp {
        mem := mem[p := Header(mem[bp].ptr, mem[p].size + mem[bp].size)];
      } else {
        mem := mem[p := mem[p].(ptr := bp)];
      }
    }

    /** `free`: bp stops being live; its units, and only they, become free. */
    method Free(bp: nat)
      requires Valid() && bp in live
      modifies this
      ensures Valid() && freep != NULL
      ensures live == old(live) - {bp}
      ensures forall u :: u in mark <==> u in old(mark)
      ensures Untouched(old(mem), mem, live, old(mark))
      ensures Covered(mem, free, bp, old(mem[bp].size))
    {
      var p := FindPlace(bp);
      ghost var free2, mark2 := FreeGood(mem, free, live, mark, p, bp);
      Link(p, bp);
      freep := p;
      free, live, mark := free2, live - {bp}, mark2;
    }

    /** Room sbrk may hand out: above `base` and new to the heap. */
    ghost predicate CanGrant(sbrk: int, n: nat)
      reads this
    {
      sbrk != NULL ==> BASE < sbrk && sbrk + n <= |mem| && forall u :: Within(sbrk, n, u) ==> u !in mark
    }

    /** `morecore`: sbrk is the unit sbrk answers with, or NULL. */
    method MoreCore(nu: nat, sbrk: int) returns (p: int)
      requires Valid() && freep != NULL && nu >= 1 && CanGrant(sbrk, CoreUnits(nu))
      modifies this
      ensures Valid() && live == old(live) && freep != NULL && (p == NULL <==> sbrk == NULL)
      ensures p == NULL ==> mem == old(mem) && freep == old(freep) && free == old(free) && mark == old(mark)
      ensures p != NULL ==> p == freep && Fits(mem, free, nu)
      ensures p != NULL ==> forall u :: u in mark <==> u in old(mark) || Within(sbrk, CoreUnits(nu), u)
      ensures Untouched(old(mem), mem, live, old(mark))
    {
      HeadersApart(mem, free, live, mark, freep);
      if sbrk == NULL {
        return NULL;
      }
      var n := CoreUnits(nu);
      Grant(mem, free, live, mark, sbrk, n);
      assert sbrk !in live by {
        if sbrk in live {
          assert Owns(mem, mark, sbrk);
          assert Within(sbrk, n, sbrk);
        }
      }
      mem := mem[sbrk := mem[sbrk].(size := n)];
      live, mark := live + {sbrk}, Granted(mark, sbrk, n);
      Free(sbrk);
      return freep;
    }

    /** Lines 75 to 84: n units out of block p, whole or cut from its end. */
    method Take(prevp: nat, p: nat, n: nat) returns (r: nat)
      requires Valid() && freep != NULL && prevp in free && p in free
      requires mem[prevp].ptr == p && 1 <= n <= mem[p].size
      modifies this
      ensures Valid() && freep == prevp && r < |mem| && mem[r].size == n
      ensures r == p + old(mem[p].size) - n
      ensures r !in old(live) && live == old(live) + {r}
      ensures forall u :: u in mark <==> u in old(mark)
      ensures Untouched(old(mem), mem, old(live), old(mark))
    {
      ghost var free2, mark2 := TakeGood(mem, free, live, mark, prevp, p, n);
      r := p + mem[p].size - n;
      if mem[p].size == n {
        mem := mem[prevp := mem[prevp].(ptr := mem[p].ptr)];
      } else {
        mem := mem[p := mem[p].(size := mem[p].size - n)];
        mem := mem[r := mem[r].(size := n)];
      }
      freep := prevp;
      free, live, mark := free2, live + {r}, mark2;
    }

    /** `malloc`'s loop, from `freep` until a block fits or the walk is back where it began. */
    method Search(n: nat) returns (found: bool, prevp: nat, p: nat)
      requires Valid() && freep != NULL
      ensures prevp in free && p in free && mem[prevp].ptr == p
      ensures found ==> FirstFit(mem, free, freep, n, p)
      ensures found <==> Fits(mem, free, n)
    {
      prevp := freep;
      p := mem[prevp].ptr;
      while true
        invariant prevp in free && p == mem[prevp].ptr && TooSmall(mem, free, freep, prevp, n)
        decreases Unvisited(free, freep, prevp)
      {
        Walk(mem, free, freep, prevp, n);
        if mem[p].size >= n {
          return true, prevp, p;
        }
        if p == freep {
          return false, prevp, p;
        }
        prevp := p;
        p := mem[p].ptr;
      }
    }

    /** The first call links `base` to itself. */
    method Start()
      requires Valid()
      modifies this
      ensures Valid() && freep != NULL && live == old(live) && mark == old(mark)
      ensures forall n :: n >= 1 ==> (Fits(mem, free, n) <==> Fits(old(mem), old(free), n))
      ensures old(freep) != NULL ==> mem == old(mem) && freep == old(freep) && free == old(free)
      ensures Untouched(old(mem), mem, live, mark)
    {
      if freep == NULL {
        mem := mem[BASE := Header(BASE, 0)];
        freep := BASE;
        free := {BASE};
        EmptyGood(mem);
      }
      HeadersApart(mem, free, live, mark, freep);
    }

    /** `malloc` once the list exists: at most one call of `morecore`, after which something fits. */
    method Allocate(n: nat, sbrk: int) returns (b: int)
      requires Valid() && freep != NULL && n >= 1 && CanGrant(sbrk, CoreUnits(n))
      modifies this
      ensures Valid()
      ensures b == NULL <==> sbrk == NULL && !Fits(old(mem), old(free), n)
      ensures b == NULL ==> live == old(live)
      ensures b != NULL ==> 0 <= b < |mem| && b !in old(live) && live == old(live) + {b} && mem[b].size == n
      ensures forall u :: u in mark <==>
                u in old(mark) || (sbrk != NULL && !Fits(old(mem), old(free), n) && Within(sbrk, CoreUnits(n), u))
      ensures Untouched(old(mem), mem, old(live), old(mark))
      ensures Fits(old(mem), old(free), n) ==>
                exists p: nat :: FirstFit(old(mem), old(free), old(freep), n, p) && b == p + old(mem)[p].size - n
    {
      HeadersApart(mem, free, live, mark, freep);
      var found, prevp, p := Search(n);
      if found {
        b := Take(prevp, p, n);
        return;
      }
      var hp := MoreCore(n, sbrk);
      if hp == NULL {
        return NULL;
      }
      found, prevp, p := Search(n);
      ghost var mem2, free2, mark2 := mem, free, mark;
      b := Take(prevp, p, n);
      UntouchedTwice(old(mem), old(free), old(mark), mem2, free2, mark2, mem, old(live));
    }

    /**
     `malloc`; sbrk is what sbrk would answer `morecore`, which is asked at most once.  A block of
     just enough units becomes live, out of units that were free or are new, by first fit; null exactly
     when nothing fits and sbrk fails.  The source demands no bound; RequestSizes says where it stops counting right.
     */
    method Malloc(nbytes: nat, sbrk: int) returns (r: int)
      requires Valid() && nbytes <= UINT / 2 - 2 * UNIT && CanGrant(sbrk, CoreUnits(Units(nbytes)))
      modifies this
      ensures Valid()
      ensures r == NULL <==> sbrk == NULL && !Fits(old(mem), old(free), Units(nbytes))
      ensures r == NULL ==> live == old(live)
      ensures r != NULL ==> 1 <= r <= |mem| && r - 1 !in old(live) && live == old(live) + {r - 1}
      ensures r != NULL ==> nbytes <= UNIT * (mem[r - 1].size - 1) < nbytes + UNIT
      ensures forall u :: u in mark <==>
                u in old(mark) || (sbrk != NULL && !Fits(old(mem), old(free), Units(nbytes))
                                   && Within(sbrk, CoreUnits(Units(nbytes)), u))
      ensures Untouched(old(mem), mem, old(live), old(mark))
      ensures Fits(old(mem), old(free), Units(nbytes)) ==>
                exists p: nat :: FirstFit(old(mem), old(free), old(freep), Units(nbytes), p)
                            && r - 1 == p + old(mem)[p].size - Units(nbytes)
    {
      RequestSizes(nbytes);
      Start();
      var b := Allocate(Units(nbytes), sbrk);
      return if b == NULL then NULL else b + 1;
    }

    /** A program writing into a block it holds leaves the allocator intact. */
    method Write(u: nat, h: Header)
      requires Valid() && u in mark && mark[u] in live && u != mark[u] && u < |mem|
      modifies this`mem
      ensures Valid() && mem == old(mem)[u := h]
    {
      Scribble(mem, free, live, mark, u, h);
      NoHeader(mem, free, live, mark, u);
      mem := mem[u := h];
    }
  }
}
