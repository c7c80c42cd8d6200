/**
 Physical pages and the two-level page tables of vm.c (32-bit paging, section
 4.3 of the Intel SDM, Volume 3A): page numbers instead of addresses, a page as
 1024 words, an entry as a word whose low twelve bits are its flags.
 */
module VmTables {

  const ENTRIES := 1024
  const USERDIRS := 512
  const PTE := 4096

  type Mem = seq<seq<int>>

  predicate Present(w: int) {
    w % 2 == 1
  }

  function Addr(w: int): (r: int) {
    w / PTE
  }

  function Flags(w: int): (r: int) {
    w % PTE
  }

  /** pa | perm | PTE_P. */
  function Entry(page: nat, perm: nat): (r: int)
    requires perm < PTE
    ensures Addr(r) == page && Present(r) && Flags(r) == if Present(perm) then perm else perm + 1
  {
    PTE * page + (if Present(perm) then perm else perm + 1)
  }

  /** What a physical page is used for; Held is in the hands of a running call, or of a part of the kernel that is not
      modelled. */
  datatype Owner = Free | Held | Dir | Table(dir: nat, d: nat) | User(dir: nat, d: nat, i: nat)

  predicate Shaped(mem: Mem, owner: seq<Owner>) {
    |owner| == |mem| && forall p :: 0 <= p < |mem| ==> |mem[p]| == ENTRIES
  }

  /** The page tables of directory a are those its entries say, each open to all that its own entries allow. */
  ghost predicate DirOk(mem: Mem, owner: seq<Owner>, a: nat)
    requires Shaped(mem, owner) && a < |mem|
  {
    forall d :: 0 <= d < ENTRIES && Present(mem[a][d]) ==>
      0 <= Addr(mem[a][d]) < |mem| && owner[Addr(mem[a][d])] == Table(a, d) && Flags(mem[a][d]) == 7
  }

  /** t is the table of entry d of directory a, and its user entries own the pages they point to. */
  ghost predicate TableOk(mem: Mem, owner: seq<Owner>, t: nat, a: nat, d: nat)
    requires Shaped(mem, owner) && t < |mem|
  {
    && a < |mem| && d < ENTRIES && owner[a] == Dir && Present(mem[a][d]) && Addr(mem[a][d]) == t
    && (d < USERDIRS ==>
          forall i :: 0 <= i < ENTRIES && Present(mem[t][i]) ==>
            0 <= Addr(mem[t][i]) < |mem| && owner[Addr(mem[t][i])] == User(a, d, i))
  }

  /** The two-level walk of the hardware and of `walkpgdir`: the entry for page (d, i) of a, 0 if there is none. */
  function Walk(mem: Mem, a: nat, d: nat, i: nat): (r: int)
    requires a < |mem| && d < |mem[a]|
  {
    if Present(mem[a][d]) && 0 <= Addr(mem[a][d]) < |mem| && i < |mem[Addr(mem[a][d])]|
    then mem[Addr(mem[a][d])][i] else 0
  }

  /** u is mapped at (d, i) of a, and so nowhere else. */
  ghost predicate UserOk(mem: Mem, owner: seq<Owner>, u: nat, a: nat, d: nat, i: nat)
    requires Shaped(mem, owner)
  {
    && a < |mem| && d < USERDIRS && i < ENTRIES && owner[a] == Dir
    && Present(mem[a][d]) && 0 <= Addr(mem[a][d]) < |mem|
    && Present(Walk(mem, a, d, i)) && Addr(Walk(mem, a, d, i)) == u
  }

  ghost predicate PageOk(mem: Mem, owner: seq<Owner>, p: nat)
    requires Shaped(mem, owner) && p < |mem|
  {
    match owner[p]
    case Dir => DirOk(mem, owner, p)
    case Table(a, d) => TableOk(mem, owner, p, a, d)
    case User(a, d, i) => UserOk(mem, owner, p, a, d, i)
    case _ => true
  }

  /** Every page has one use, and the tables agree with it. */
  ghost predicate Inv(mem: Mem, owner: seq<Owner>) {
    Shaped(mem, owner) && forall p {:trigger PageOk(mem, owner, p)} :: 0 <= p < |mem| ==> PageOk(mem, owner, p)
  }

  function Put(mem: Mem, p: nat, k: nat, w: int): (r: Mem)
    requires p < |mem| && k < |mem[p]|
  {
    mem[p := mem[p][k := w]]
  }

  predicate Blank(page: seq<int>) {
    forall k :: 0 <= k < |page| ==> page[k] == 0
  }

  /** A fresh blank page becomes the table of an empty directory entry. */
  lemma AddTable(mem: Mem, owner: seq<Owner>, a: nat, d: nat, t: nat, w: int)
    requires Inv(mem, owner) && a < |mem| && d < ENTRIES && t < |mem|
    requires owner[a] == Dir && !Present(mem[a][d]) && owner[t] == Held && Blank(mem[t])
    requires Present(w) && Addr(w) == t && Flags(w) == 7
    ensures Inv(Put(mem, a, d, w), owner[t := Table(a, d)])
  {
    var mem2, owner2 := Put(mem, a, d, w), owner[t := Table(a, d)];
    assert PageOk(mem, owner, a);
    forall p | 0 <= p < |mem| ensures PageOk(mem2, owner2, p) {
      assert PageOk(mem, owner, p);
    }
  }

  /** A page in hand goes under an empty user entry. */
  lemma AddPage(mem: Mem, owner: seq<Owner>, a: nat, d: nat, i: nat, t: nat, u: nat, w: int)
    requires Inv(mem, owner) && a < |mem| && d < USERDIRS && i < ENTRIES && t < |mem| && u < |mem|
    requires owner[t] == Table(a, d) && !Present(mem[t][i]) && owner[u] == Held
    requires Present(w) && Addr(w) == u
    ensures Inv(Put(mem, t, i, w), owner[u := User(a, d, i)])
  {
    var mem2, owner2 := Put(mem, t, i, w), owner[u := User(a, d, i)];
    assert PageOk(mem, owner, t);
    forall p | 0 <= p < |mem| ensures PageOk(mem2, owner2, p) {
      assert PageOk(mem, owner, p);
    }
  }

  /** And comes back out of it. */
  lemma DropPage(mem: Mem, owner: seq<Owner>, a: nat, d: nat, i: nat, t: nat, u: nat)
    requires Inv(mem, owner) && t < |mem| && u < |mem| && d < USERDIRS && i < ENTRIES
    requires owner[t] == Table(a, d) && Present(mem[t][i]) && Addr(mem[t][i]) == u
    ensures owner[u] == User(a, d, i)
    ensures Inv(Put(mem, t, i, 0), owner[u := Held])
  {
    var mem2, owner2 := Put(mem, t, i, 0), owner[u := Held];
    assert PageOk(mem, owner, t);
    forall p | 0 <= p < |mem| ensures PageOk(mem2, owner2, p) {
      assert PageOk(mem, owner, p);
    }
  }

  /** Kernel entries point at pages they do not own. */
  lemma AddKernelPage(mem: Mem, owner: seq<Owner>, a: nat, d: nat, i: nat, t: nat, w: int)
    requires Inv(mem, owner) && USERDIRS <= d && i < ENTRIES && t < |mem| && owner[t] == Table(a, d)
    ensures Inv(Put(mem, t, i, w), owner)
  {
    var mem2 := Put(mem, t, i, w);
    assert PageOk(mem, owner, t);
    forall p | 0 <= p < |mem| ensures PageOk(mem2, owner, p) {
      assert PageOk(mem, owner, p);
      if owner[p].User? {
        assert PageOk(mem, owner, owner[p].dir);
      }
    }
  }

  /** What is in a page that is no table does not matter. */
  lemma Rewrite(mem: Mem, owner: seq<Owner>, p: nat, page: seq<int>)
    requires Inv(mem, owner) && p < |mem| && !owner[p].Dir? && !owner[p].Table? && |page| == ENTRIES
    ensures Inv(mem[p := page], owner)
  {
    var mem2 := mem[p := page];
    forall q | 0 <= q < |mem| ensures PageOk(mem2, owner, q) {
      assert PageOk(mem, owner, q);
      if owner[q].User? {
        assert PageOk(mem, owner, owner[q].dir);
      }
    }
  }

  lemma Relabel(mem: Mem, owner: seq<Owner>, p: nat, o: Owner)
    requires Inv(mem, owner) && p < |mem| && (owner[p].Free? || owner[p].Held?) && (o.Free? || o.Held?)
    ensures Inv(mem, owner[p := o])
  {
    var owner2 := owner[p := o];
    forall q | 0 <= q < |mem| ensures PageOk(mem, owner2, q) {
      assert PageOk(mem, owner, q);
    }
  }

  lemma NewDir(mem: Mem, owner: seq<Owner>, p: nat)
    requires Inv(mem, owner) && p < |mem| && owner[p] == Held && Blank(mem[p])
    ensures Inv(mem, owner[p := Dir])
  {
    var owner2 := owner[p := Dir];
    forall q | 0 <= q < |mem| ensures PageOk(mem, owner2, q) {
      assert PageOk(mem, owner, q);
    }
  }

  /** The owner after a whole directory a is given up. */
  function Retired(o: Owner, p: nat, a: nat): (r: Owner) {
    if p == a || (o.Table? && o.dir == a) then Held else o
  }

  ghost predicate IsRetired(owner: seq<Owner>, owner2: seq<Owner>, a: nat) {
    |owner2| == |owner| && forall p :: 0 <= p < |owner| ==> owner2[p] == Retired(owner[p], p, a)
  }

  /** A directory with no user page left can be given up, tables and all. */
  lemma Retire(mem: Mem, owner: seq<Owner>, owner2: seq<Owner>, a: nat)
    requires Inv(mem, owner) && a < |mem| && owner[a] == Dir && IsRetired(owner, owner2, a)
    requires forall p :: 0 <= p < |mem| && owner[p].User? ==> owner[p].dir != a
    ensures Inv(mem, owner2)
  {
    forall q | 0 <= q < |mem| ensures PageOk(mem, owner2, q) {
      assert PageOk(mem, owner, q);
    }
  }

  /** Two places never share a physical page: not in one address space, nor in two. */
  lemma Unshared(mem: Mem, owner: seq<Owner>, a: nat, d: nat, i: nat, a2: nat, d2: nat, i2: nat)
    requires Inv(mem, owner) && a < |mem| && a2 < |mem| && owner[a] == Dir && owner[a2] == Dir
    requires d < USERDIRS && d2 < USERDIRS && i < ENTRIES && i2 < ENTRIES
    requires Present(Walk(mem, a, d, i)) && Present(Walk(mem, a2, d2, i2))
    requires Addr(Walk(mem, a, d, i)) == Addr(Walk(mem, a2, d2, i2))
    ensures a == a2 && d == d2 && i == i2
  {
    Mapped(mem, owner, a, d, i);
    Mapped(mem, owner, a2, d2, i2);
  }

  /** A mapped user page is owned by the place it is mapped at. */
  lemma Mapped(mem: Mem, owner: seq<Owner>, a: nat, d: nat, i: nat)
    requires Inv(mem, owner) && a < |mem| && owner[a] == Dir && d < USERDIRS && i < ENTRIES
    ensures Present(Walk(mem, a, d, i)) ==>
              0 <= Addr(Walk(mem, a, d, i)) < |mem| && owner[Addr(Walk(mem, a, d, i))] == User(a, d, i)
    ensures Present(mem[a][d]) ==> 0 <= Addr(mem[a][d]) < |mem| && owner[Addr(mem[a][d])] == Table(a, d)
  {
    assert PageOk(mem, owner, a);
    if Present(mem[a][d]) {
      assert PageOk(mem, owner, Addr(mem[a][d]));
    }
  }

  // ----- What user code may do -----

  /** PTE_W. */
  predicate Writable(w: int) {
    w / 2 % 2 == 1
  }

  /** PTE_U. */
  predicate ForUser(w: int) {
    w / 4 % 2 == 1
  }

  /** User code can read page (d, i) of a: both levels must allow it (section 4.6 of the SDM). */
  predicate UserReads(mem: Mem, a: nat, d: nat, i: nat)
    requires a < |mem| && d < |mem[a]|
  {
    && Present(mem[a][d]) && ForUser(mem[a][d])
    && Present(Walk(mem, a, d, i)) && ForUser(Walk(mem, a, d, i))
  }

  predicate UserWrites(mem: Mem, a: nat, d: nat, i: nat)
    requires a < |mem| && d < |mem[a]|
  {
    UserReads(mem, a, d, i) && Writable(mem[a][d]) && Writable(Walk(mem, a, d, i))
  }

  lemma EvenPlus(x: int, y: int)
    ensures (2 * x + y) % 2 == y % 2
  {
  }

  lemma FlagBits(w: int)
    ensures Present(w) <==> Present(Flags(w))
    ensures Writable(w) <==> Writable(Flags(w))
    ensures ForUser(w) <==> ForUser(Flags(w))
  {
    var q, f := w / PTE, w % PTE;
    EvenPlus(2048 * q, f);
    EvenPlus(1024 * q, f / 2);
    EvenPlus(512 * q, f / 4);
    assert w / 2 == 2 * (1024 * q) + f / 2;
    assert w / 4 == 2 * (512 * q) + f / 4;
  }

  /** The directory grants everything, so that the entry of a page alone decides. */
  lemma Effective(mem: Mem, owner: seq<Owner>, a: nat, d: nat, i: nat)
    requires Inv(mem, owner) && a < |mem| && owner[a] == Dir && d < ENTRIES && i < ENTRIES
    ensures UserReads(mem, a, d, i) <==> Present(Walk(mem, a, d, i)) && ForUser(Walk(mem, a, d, i))
    ensures UserWrites(mem, a, d, i) <==> UserReads(mem, a, d, i) && Writable(Walk(mem, a, d, i))
  {
    assert PageOk(mem, owner, a);
    FlagBits(mem[a][d]);
  }
}
