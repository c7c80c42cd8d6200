/**
 The heap of umalloc.c in units of one Header: the circular free list through
 `base` (unit 0), and which block every unit obtained from sbrk belongs to.
 */
module MallocHeap {

  datatype Header = Header(ptr: nat, size: nat)

  type Mem = seq<Header>

  const BASE := 0

  /** q comes after p on the address-ordered cycle through the blocks of free. */
  ghost predicate Succ(free: set<nat>, p: nat, q: nat) {
    && q in free
    && if p < q then forall r :: r in free ==> r <= p || q <= r else q == BASE && forall r :: r in free ==> r <= p
  }

  ghost predicate Points(mem: Mem, free: set<nat>, p: nat) {
    p < |mem| && Succ(free, p, mem[p].ptr)
  }

  /** The free list is one cycle through `base`, in address order. */
  ghost predicate Chain(mem: Mem, free: set<nat>) {
    && BASE in free
    && (forall p :: p in free ==> p < |mem|)
    && mem[BASE].size == 0
    && (forall p {:trigger Points(mem, free, p)} :: p in free ==> Points(mem, free, p))
  }

  /** Block b has exactly the units its header claims. */
  ghost predicate Owns(mem: Mem, mark: map<nat, nat>, b: nat) {
    && BASE < b && b < |mem| && b + mem[b].size <= |mem| && mem[b].size >= 1
    && forall u :: (b <= u < b + mem[b].size) <==> (u in mark && mark[u] == b)
  }

  /** Each unit of mark lies in exactly one block, mark[u], which is either live or on the free list. */
  ghost predicate Partition(mem: Mem, free: set<nat>, live: set<nat>, mark: map<nat, nat>) {
    && live !! free && (forall b :: b in live ==> BASE < b < |mem|)
    && (forall b {:trigger Owns(mem, mark, b)} :: b in live ==> Owns(mem, mark, b))
    && (forall b {:trigger Owns(mem, mark, b)} :: b in free && b != BASE ==> Owns(mem, mark, b))
    && (forall u :: u in mark ==> mark[u] != BASE && (mark[u] in live || mark[u] in free))
  }

  ghost predicate Good(mem: Mem, free: set<nat>, live: set<nat>, mark: map<nat, nat>) {
    Chain(mem, free) && Partition(mem, free, live, mark)
  }

  /** No free block ends where another begins. */
  ghost predicate Coalesced(mem: Mem, free: set<nat>)
    requires forall p :: p in free ==> p < |mem|
  {
    forall p, q :: p in free && q in free && p < q ==> p + mem[p].size < q
  }

  /** Any two different blocks, live or free, share no unit. */
  lemma Disjoint(mem: Mem, free: set<nat>, live: set<nat>, mark: map<nat, nat>, a: nat, b: nat)
    requires Good(mem, free, live, mark) && a < b
    requires (a in live || a in free) && (b in live || b in free)
    ensures a + mem[a].size <= b
  {
    assert Owns(mem, mark, b);
    assert b in mark;
    if a != BASE {
      assert Owns(mem, mark, a);
    }
  }

  /** A header belongs to its own block. */
  lemma HeadersApart(mem: Mem, free: set<nat>, live: set<nat>, mark: map<nat, nat>, p: nat)
    requires Good(mem, free, live, mark) && (p in free || p in live)
    ensures p in mark ==> mark[p] == p
    ensures forall u :: u in mark ==> u < |mem|
  {
    forall u | u in mark ensures BASE < mark[u] <= u < |mem| {
      assert Owns(mem, mark, mark[u]);
    }
    if p != BASE {
      assert Owns(mem, mark, p);
    }
  }

  function Linked(mem: Mem, p: nat, b: nat): (r: Mem)
    requires p < |mem| && b < |mem|
  {
    mem[b := mem[b].(ptr := mem[p].ptr)][p := mem[p].(ptr := b)]
  }

  /** Putting a live block on the free list where it belongs. */
  lemma Insert(mem: Mem, free: set<nat>, live: set<nat>, mark: map<nat, nat>, p: nat, b: nat)
    requires Good(mem, free, live, mark) && b in live && p in free
    requires p < b && (mem[p].ptr == BASE || b < mem[p].ptr)
    ensures Good(Linked(mem, p, b), free + {b}, live - {b}, mark)
  {
    var mem2, free2 := Linked(mem, p, b), free + {b};
    assert Owns(mem, mark, b);
    forall q | q in free2 ensures Points(mem2, free2, q) {
      assert Points(mem, free, p);
      if q in free {
        assert Points(mem, free, q);
      }
    }
    forall c | c in live || (c in free && c != BASE) ensures Owns(mem2, mark, c) {
      assert Owns(mem, mark, c);
    }
  }

  /** a swallows the free block that begins where a ends. */
  function Joined(mem: Mem, a: nat, b: nat): (r: Mem)
    requires a < |mem| && b < |mem|
  {
    mem[a := Header(mem[b].ptr, mem[a].size + mem[b].size)]
  }

  function Remarked(mark: map<nat, nat>, a: nat, b: nat): (r: map<nat, nat>) {
    map u | u in mark :: if mark[u] == b then a else mark[u]
  }

  lemma Merge(mem: Mem, free: set<nat>, live: set<nat>, mark: map<nat, nat>, a: nat, b: nat)
    requires Good(mem, free, live, mark) && a in free && b in free
    requires BASE < a && mem[a].ptr == b && a + mem[a].size == b
    ensures Good(Joined(mem, a, b), free - {b}, live, Remarked(mark, a, b))
  {
    var mem2, free2, mark2 := Joined(mem, a, b), free - {b}, Remarked(mark, a, b);
    assert Owns(mem, mark, a) && Owns(mem, mark, b);
    forall q | q in free2 ensures Points(mem2, free2, q) {
      assert Points(mem, free, q) && Points(mem, free, a) && Points(mem, free, b);
    }
    forall c | c in live || (c in free2 && c != BASE) ensures Owns(mem2, mark2, c) {
      assert Owns(mem, mark, c);
    }
  }

  /** Taking a whole block p off the list; prev comes before it. */
  lemma Unlink(mem: Mem, free: set<nat>, live: set<nat>, mark: map<nat, nat>, prev: nat, p: nat)
    requires Good(mem, free, live, mark) && prev in free && p in free && p != BASE && mem[prev].ptr == p
    ensures Good(mem[prev := mem[prev].(ptr := mem[p].ptr)], free - {p}, live + {p}, mark)
  {
    var mem2, free2 := mem[prev := mem[prev].(ptr := mem[p].ptr)], free - {p};
    forall q | q in free2 ensures Points(mem2, free2, q) {
      assert Points(mem, free, q) && Points(mem, free, prev) && Points(mem, free, p);
    }
    forall c | c in live || (c in free && c != BASE) ensures Owns(mem2, mark, c) {
      assert Owns(mem, mark, c);
    }
  }

  function Cut(mem: Mem, p: nat, n: nat): (r: Mem)
    requires p < |mem| && 1 <= n < mem[p].size && p + mem[p].size <= |mem|
  {
    var q := p + mem[p].size - n;
    mem[p := mem[p].(size := mem[p].size - n)][q := mem[q].(size := n)]
  }

  function MarkedFrom(mark: map<nat, nat>, p: nat, q: nat): (r: map<nat, nat>) {
    map u | u in mark :: if mark[u] == p && q <= u then q else mark[u]
  }

  lemma NoHeader(mem: Mem, free: set<nat>, live: set<nat>, mark: map<nat, nat>, q: nat)
    requires Good(mem, free, live, mark) && q in mark && mark[q] != q
    ensures q !in live && q !in free && q < |mem|
    ensures forall u :: u in mark ==> mark[u] != q
  {
    HeadersApart(mem, free, live, mark, BASE);
    if q in live || q in free {
      HeadersApart(mem, free, live, mark, q);
    }
  }

  lemma SplitOwns(mem: Mem, mark: map<nat, nat>, p: nat, n: nat, c: nat)
    requires Owns(mem, mark, p) && 1 <= n < mem[p].size
    requires c != p ==> Owns(mem, mark, c)
    requires forall u :: u in mark ==> mark[u] != p + mem[p].size - n
    ensures var q := p + mem[p].size - n; c != q && Owns(Cut(mem, p, n), MarkedFrom(mark, p, q), c)
    ensures var q := p + mem[p].size - n; Owns(Cut(mem, p, n), MarkedFrom(mark, p, q), q)
  {
    var q := p + mem[p].size - n;
    assert q in mark && mark[q] == p;
    assert c in mark && mark[c] == c;
  }

  /** Cutting n units off the end of p. */
  lemma Split(mem: Mem, free: set<nat>, live: set<nat>, mark: map<nat, nat>, p: nat, n: nat)
    requires Good(mem, free, live, mark) && p in free && 1 <= n < mem[p].size
    ensures p + mem[p].size <= |mem|
    ensures p + mem[p].size - n !in live + free
    ensures p + mem[p].size - n in mark && mark[p + mem[p].size - n] == p
    ensures var q := p + mem[p].size - n;
      Good(Cut(mem, p, n), free, live + {q}, MarkedFrom(mark, p, q))
  {
    assert Owns(mem, mark, p);
    var q := p + mem[p].size - n;
    var mem2, mark2 := Cut(mem, p, n), MarkedFrom(mark, p, q);
    NoHeader(mem, free, live, mark, q);
    SplitOwns(mem, mark, p, n, p);
    forall c | c in live || (c in free && c != BASE) ensures Owns(mem2, mark2, c) {
      assert Owns(mem, mark, c);
      SplitOwns(mem, mark, p, n, c);
    }
    forall c | c in free ensures Points(mem2, free, c) {
      assert Points(mem, free, c);
    }
  }

  predicate Within(p: nat, n: nat, u: nat) {
    p <= u < p + n
  }

  function Granted(mark: map<nat, nat>, p: nat, n: nat): (r: map<nat, nat>) {
    mark + map u: nat | u < p + n && Within(p, n, u) :: p
  }

  /** The units [p, p + n) come new from sbrk as one block. */
  lemma Grant(mem: Mem, free: set<nat>, live: set<nat>, mark: map<nat, nat>, p: nat, n: nat)
    requires Good(mem, free, live, mark) && BASE < p && 1 <= n && p + n <= |mem|
    requires forall u :: Within(p, n, u) ==> u !in mark
    ensures Good(mem[p := mem[p].(size := n)], free, live + {p}, Granted(mark, p, n))
  {
    var mem2, mark2 := mem[p := mem[p].(size := n)], Granted(mark, p, n);
    forall c | c in live || (c in free && c != BASE) ensures c != p && Owns(mem2, mark2, c) {
      assert Owns(mem, mark, c);
      assert c in mark;
    }
    forall c | c in free ensures Points(mem2, free, c) {
      assert Points(mem, free, c);
    }
  }

  /** What a program writes beside the headers of its live blocks is its own. */
  lemma Scribble(mem: Mem, free: set<nat>, live: set<nat>, mark: map<nat, nat>, u: nat, h: Header)
    requires Good(mem, free, live, mark) && u in mark && mark[u] in live && u != mark[u] && u < |mem|
    ensures Good(mem[u := h], free, live, mark)
  {
    var mem2 := mem[u := h];
    forall c | c in live || (c in free && c != BASE) ensures c != u && Owns(mem2, mark, c) {
      assert Owns(mem, mark, c);
      assert c in mark && mark[c] == c;
    }
    assert u != BASE by {
      assert Owns(mem, mark, mark[u]);
    }
    forall c | c in free ensures Points(mem2, free, c) {
      assert Points(mem, free, c);
    }
  }

  /** All pairs of free blocks but those of e have a gap between them. */
  ghost predicate Gaps(mem: Mem, free: set<nat>, e: set<(nat, nat)>)
    requires forall p :: p in free ==> p < |mem|
  {
    forall p, q :: p in free && q in free && p < q && (p, q) !in e ==> p + mem[p].size < q
  }

  lemma InsertGaps(mem: Mem, free: set<nat>, live: set<nat>, mark: map<nat, nat>, p: nat, b: nat)
    requires Good(mem, free, live, mark) && b in live && p in free && Coalesced(mem, free)
    requires p < b && (mem[p].ptr == BASE || b < mem[p].ptr)
    ensures forall q :: q in free + {b} ==> q < |mem|
    ensures Gaps(Linked(mem, p, b), free + {b}, {(p, b), (b, mem[p].ptr)})
  {
    var next := mem[p].ptr;
    assert Points(mem, free, p);
    assert Owns(mem, mark, b);
    if next != BASE {
      Disjoint(mem, free, live, mark, b, next);
    }
    Disjoint(mem, free, live, mark, p, b);
    forall x, y | x in free + {b} && y in free + {b} && x < y && (x, y) !in {(p, b), (b, next)}
      ensures x + mem[x].size < y
    {
      if y == b {
        assert x + mem[x].size < p;
      } else if x == b {
        assert next < y;
      }
    }
  }

  lemma MergeGaps(mem: Mem, free: set<nat>, live: set<nat>, mark: map<nat, nat>, a: nat, b: nat, e: set<(nat, nat)>)
    requires Good(mem, free, live, mark) && a in free && b in free
    requires BASE < a && mem[a].ptr == b && a + mem[a].size == b
    requires Gaps(mem, free, e + {(a, b)}) && forall y :: (a, y) !in e && (b, y) !in e
    ensures Gaps(Joined(mem, a, b), free - {b}, e)
  {
    var mem2 := Joined(mem, a, b);
    assert Points(mem, free, a);
    forall x, y | x in free - {b} && y in free - {b} && x < y && (x, y) !in e ensures x + mem2[x].size < y {
      if x == a {
        assert b + mem[b].size < y;
      }
    }
  }

  /** Blocks passed when walking the cycle from `from` until `last`. */
  ghost predicate Visited(from: nat, last: nat, q: nat) {
    if from <= last then from < q <= last else q > from || q <= last
  }

  ghost function Unvisited(free: set<nat>, from: nat, last: nat): (r: set<nat>) {
    set q | q in free && !Visited(from, last, q)
  }

  lemma VisitNext(mem: Mem, free: set<nat>, from: nat, prev: nat)
    requires Chain(mem, free) && from in free && prev in free
    ensures mem[prev].ptr in free
    ensures forall q :: q in free && Visited(from, mem[prev].ptr, q) && mem[prev].ptr != from ==>
              q == mem[prev].ptr || Visited(from, prev, q)
    ensures forall q :: q in free && mem[prev].ptr == from ==> q == from || Visited(from, prev, q)
    ensures mem[prev].ptr != from ==> Unvisited(free, from, mem[prev].ptr) < Unvisited(free, from, prev)
  {
    assert Points(mem, free, prev);
    var p := mem[prev].ptr;
    if p != from {
      assert p in Unvisited(free, from, prev) && p !in Unvisited(free, from, p);
    }
  }

  ghost function Follow(mem: Mem, p: nat, n: nat): (r: nat)
  {
    if n == 0 then p
    else
      var q := Follow(mem, p, n - 1);
      if q < |mem| then mem[q].ptr else q
  }

  /** Some block comes just before q. */
  lemma Predecessor(mem: Mem, free: set<nat>, q: nat, r: nat) returns (p: nat)
    requires Chain(mem, free) && q in free && r in free && r < q
    ensures p in free && p < q && mem[p].ptr == q
    decreases q - r
  {
    assert Points(mem, free, r);
    if mem[r].ptr == q {
      p := r;
    } else {
      p := Predecessor(mem, free, q, mem[r].ptr);
    }
  }

  /** It is one cycle: from `base`, the pointers lead to every free block. */
  lemma {:induction false} OneCycle(mem: Mem, free: set<nat>, q: nat)
    requires Chain(mem, free) && q in free
    ensures exists n: nat :: Follow(mem, BASE, n) == q
    decreases q
  {
    if q == BASE {
      assert Follow(mem, BASE, 0) == q;
    } else {
      var p := Predecessor(mem, free, q, BASE);
      OneCycle(mem, free, p);
      var n: nat :| Follow(mem, BASE, n) == p;
      assert Follow(mem, BASE, n + 1) == q;
    }
  }
}
