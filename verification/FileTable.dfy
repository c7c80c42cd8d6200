/** file.c's table of open files and the descriptors of sysfile.c, fork and exit, as they are updated in place. */
module FileTable {
  import opened FileRefs

  /** Between two system calls. */
  predicate Resting(q: Proc) {
    q.live && q.using == NONE && q.mid == Calm && q.held == []
  }

  /** The descriptors of all processes. */
  ghost function Fds(procs: seq<Proc>): (r: seq<seq<int>>)
    ensures |r| == |procs|
  {
    seq(|procs|, p requires 0 <= p < |procs| => procs[p].ofile)
  }

  lemma FdsUpdate(procs: seq<Proc>, p: nat, q: Proc)
    requires p < |procs|
    ensures Fds(procs[p := q]) == Fds(procs)[p := q.ofile]
    ensures q.ofile == procs[p].ofile ==> Fds(procs[p := q]) == Fds(procs)
  {
    assert Fds(procs)[p] == procs[p].ofile;
  }

  /** Process p may act, and has a file at fd. */
  predicate Has(s: State, p: nat, fd: nat) {
    Acts(s, p, Calm) && HasFd(s.procs[p], fd) && InTable(s, s.procs[p].ofile[fd])
  }

  /** The two steps of `dup`. */
  ghost function DupDone(s: State, p: nat, src: nat, fd: nat): (s': State)
    requires Has(s, p, src) && fd < |s.procs[p].ofile| == |s.procs[p].owned|
  {
    var q := s.procs[p];
    var f := q.ofile[src];
    WithProc(Referred(s, f, 1), p, q.(ofile := q.ofile[fd := f], owned := q.owned[fd := f]))
  }

  lemma DupSteps(s: State, p: nat, src: nat, fd: nat) returns (mid: State)
    requires Inv(s) && Has(s, p, src) && EmptyFd(s.procs[p], fd)
    ensures DupsFd(s, mid, p, src, fd) && DupsRef(mid, DupDone(s, p, src, fd), p)
    ensures Inv(DupDone(s, p, src, fd))
  {
    var q := s.procs[p];
    mid := WithProc(s, p, q.(ofile := q.ofile[fd := q.ofile[src]], mid := Dup(src, fd)));
    DupFdKeeps(s, mid, p, src, fd);
    assert DupsRef(mid, DupDone(s, p, src, fd), p);
    DupRefKeeps(mid, DupDone(s, p, src, fd), p);
  }

  /** The two steps of `exit` on one descriptor. */
  ghost function ExitDone(s: State, p: nat, fd: nat): (s': State)
    requires Has(s, p, fd)
  {
    var q := s.procs[p];
    WithProc(Closed(s, q.ofile[fd]), p, q.(ofile := q.ofile[fd := NONE], owned := q.owned[fd := NONE]))
  }

  lemma ExitSteps(s: State, p: nat, fd: nat) returns (mid: State)
    requires Inv(s) && Has(s, p, fd)
    ensures ExitDrops(s, mid, p, fd) && QuietStep(mid, ExitDone(s, p, fd), ExitClear(p))
    ensures Inv(ExitDone(s, p, fd))
  {
    var q := s.procs[p];
    mid := WithProc(Closed(s, q.ofile[fd]), p, q.(owned := q.owned[fd := NONE], mid := Exit(fd)));
    ExitDropKeeps(s, mid, p, fd);
    assert QuietStep(mid, ExitDone(s, p, fd), ExitClear(p));
    QuietKeeps(mid, ExitDone(s, p, fd), ExitClear(p));
  }

  /** The two steps of `fork` on one descriptor. */
  ghost function ForkDone(s: State, p: nat, c: nat, fd: nat): (s': State)
    requires Has(s, p, fd) && c < |s.procs| && EmptyFd(s.procs[c], fd)
  {
    var f, r := s.procs[p].ofile[fd], s.procs[c];
    WithProc(Referred(s, f, 1), c, r.(ofile := r.ofile[fd := f], owned := r.owned[fd := f]))
  }

  lemma ForkSteps(s: State, p: nat, c: nat, fd: nat) returns (mid: State)
    requires Inv(s) && Has(s, p, fd) && s.procs[p].held == [] && c < |s.procs| && c != p && EmptyFd(s.procs[c], fd)
    requires !s.procs[c].live && s.procs[c].forker == p
    ensures ForkRefs(s, mid, p, fd) && ForkStores(mid, ForkDone(s, p, c, fd), p, c, 0, fd)
    ensures Inv(ForkDone(s, p, c, fd))
  {
    var q, s' := s.procs[p], ForkDone(s, p, c, fd);
    mid := WithProc(Referred(s, q.ofile[fd], 1), p, q.(held := q.held + [q.ofile[fd]]));
    assert ForkRefs(s, mid, p, fd);
    ForkRefKeeps(s, mid, p, fd);
    assert ForkStores(mid, s', p, c, 0, fd) by {
      assert Remove(mid.procs[p].held, 0) == [];
      assert s'.procs == mid.procs[p := q][c := s'.procs[c]];
    }
    ForkStoreKeeps(mid, s', p, c, 0, fd);
  }

  /** What is known of a descriptor of a process at rest. */
  lemma FdFacts(s: State, p: nat, fd: nat)
    requires Inv(s) && p < |s.procs| && s.procs[p].mid == Calm && fd < NOFILE
    ensures var q := s.procs[p];
      && |q.ofile| == |q.owned| == NOFILE && q.owned[fd] == q.ofile[fd]
      && (q.ofile[fd] != NONE ==> InTable(s, q.ofile[fd]) && s.files[q.ofile[fd]].ref >= 1)
  {
    var q := s.procs[p];
    assert ProcOk(s, q);
    if q.ofile[fd] != NONE {
      InUse(s, p, q.ofile[fd]);
    }
  }

  /** If one process changes, the counts change by its references. */
  lemma CountChange(s: State, s': State, p: nat, f: nat)
    requires Inv(s) && Inv(s') && p < |s.procs| == |s'.procs| && s'.procs == s.procs[p := s'.procs[p]]
    requires f < |s.files| == |s'.files| && s.procs[p].mid == s'.procs[p].mid == Calm
    requires s.procs[p].held == s'.procs[p].held == []
    ensures s'.files[f].ref + multiset(s.procs[p].ofile)[f] == s.files[f].ref + multiset(s'.procs[p].ofile)[f]
  {
    TotalUpdate(s.procs, p, s'.procs[p], f);
    var q, q' := s.procs[p], s'.procs[p];
    assert ProcOk(s, q) && ProcOk(s', q');
    assert q.owned == q.ofile && q'.owned == q'.ofile;
  }

  lemma NoneInNoFds(f: nat)
    ensures multiset(NoFds())[f] == 0
  {
    assert f !in NoFds();
  }

  lemma DupKeeps(s: State, p: nat, src: nat, fd: nat)
    requires Inv(s) && Has(s, p, src) && EmptyFd(s.procs[p], fd)
    ensures Inv(DupDone(s, p, src, fd))
    ensures Fds(DupDone(s, p, src, fd).procs) == Fds(s.procs)[p := s.procs[p].ofile[fd := s.procs[p].ofile[src]]]
  {
    var _ := DupSteps(s, p, src, fd);
    FdsUpdate(s.procs, p, DupDone(s, p, src, fd).procs[p]);
  }

  lemma ExitKeeps(s: State, p: nat, fd: nat)
    requires Inv(s) && Has(s, p, fd)
    ensures Inv(ExitDone(s, p, fd))
    ensures Fds(ExitDone(s, p, fd).procs) == Fds(s.procs)[p := s.procs[p].ofile[fd := NONE]]
  {
    var _ := ExitSteps(s, p, fd);
    FdsUpdate(s.procs, p, ExitDone(s, p, fd).procs[p]);
  }

  lemma ForkKeeps(s: State, p: nat, c: nat, fd: nat)
    requires Inv(s) && Has(s, p, fd) && s.procs[p].held == [] && c < |s.procs| && c != p && EmptyFd(s.procs[c], fd)
    requires !s.procs[c].live && s.procs[c].forker == p
    ensures Inv(ForkDone(s, p, c, fd))
    ensures Fds(ForkDone(s, p, c, fd).procs) == Fds(s.procs)[c := s.procs[c].ofile[fd := s.procs[p].ofile[fd]]]
  {
    var _ := ForkSteps(s, p, c, fd);
    FdsUpdate(s.procs, c, ForkDone(s, p, c, fd).procs[c]);
  }

  ghost predicate TwoFree(files: seq<File>) {
    exists f, g :: 0 <= f < g < |files| && files[f].ref == 0 == files[g].ref
  }

  predicate CanPipe(s: State, p: nat, rf: int, wf: int) {
    && p < |s.procs| && Resting(s.procs[p]) && InTable(s, rf) && InTable(s, wf) && rf != wf
    && s.files[rf] == s.files[wf] == File(0, Unset)
  }

  /** Process p holds two new files of these kinds. */
  ghost function Both(s: State, p: nat, rf: int, wf: int, kr: Kind, kw: Kind): (s': State)
    requires CanPipe(s, p, rf, wf)
  {
    s.(files := s.files[rf := File(1, kr)][wf := File(1, kw)], procs := s.procs[p := s.procs[p].(held := [rf, wf])])
  }

  ghost function Alloced(s: State, p: nat, f: nat): (s': State)
    requires p < |s.procs| && f < |s.files|
  {
    WithProc(Referred(s, f, 1), p, s.procs[p].(held := s.procs[p].held + [f]))
  }

  ghost function Dropped(s: State, p: nat, k: nat): (s': State)
    requires p < |s.procs| && k < |s.procs[p].held| && InTable(s, s.procs[p].held[k])
  {
    WithProc(Closed(s, s.procs[p].held[k]), p, s.procs[p].(held := Remove(s.procs[p].held, k)))
  }

  ghost function Installed(s: State, p: nat, k: nat, fd: nat): (s': State)
    requires p < |s.procs| && k < |s.procs[p].held| && EmptyFd(s.procs[p], fd)
  {
    var q := s.procs[p];
    WithProc(s, p, q.(ofile := q.ofile[fd := q.held[k]], owned := q.owned[fd := q.held[k]], held := Remove(q.held, k)))
  }

  ghost function Taken(s: State, p: nat, fd: nat): (s': State)
    requires p < |s.procs| && HasFd(s.procs[p], fd)
  {
    var q := s.procs[p];
    WithProc(s, p, q.(ofile := q.ofile[fd := NONE], owned := q.owned[fd := NONE], held := q.held + [q.ofile[fd]]))
  }

  lemma AllocDrop(s: State, p: nat, f: nat)
    requires p < |s.procs| && f < |s.files| && s.files[f] == File(0, Unset) && s.procs[p].held == []
    ensures Alloced(s, p, f).procs[p].held == [f] && Dropped(Alloced(s, p, f), p, 0) == s
  {
    var s' := Dropped(Alloced(s, p, f), p, 0);
    assert s'.files == s.files && s'.procs[p] == s.procs[p] && s'.procs == s.procs;
  }

  lemma AllocTwo(s: State, p: nat, rf: nat, wf: nat)
    requires CanPipe(s, p, rf, wf)
    ensures Alloced(Alloced(s, p, rf), p, wf) == Both(s, p, rf, wf, Unset, Unset)
  {
    var s' := Alloced(Alloced(s, p, rf), p, wf);
    assert s'.procs[p].held == [rf, wf];
    assert s'.files == s.files[rf := File(1, Unset)][wf := File(1, Unset)];
  }

  predicate NoEmpty(fds: seq<int>) {
    forall x :: 0 <= x < |fds| ==> fds[x] != NONE
  }

  predicate LowestEmpty(fds: seq<int>, fd: int) {
    0 <= fd < |fds| && fds[fd] == NONE && forall x :: 0 <= x < fd ==> fds[x] != NONE
  }

  ghost predicate TwoEmpty(fds: seq<int>) {
    exists x, y :: 0 <= x < y < |fds| && fds[x] == NONE == fds[y]
  }

  /** With the lowest empty descriptor taken, whether there is another tells whether there were two. */
  lemma SecondEmpty(fds: seq<int>, fds1: seq<int>, fd0: nat, f: nat, fd1: int)
    requires LowestEmpty(fds, fd0) && fds1 == fds[fd0 := f]
    requires if fd1 == NONE then NoEmpty(fds1) else LowestEmpty(fds1, fd1)
    ensures fd1 == NONE <==> !TwoEmpty(fds)
    ensures fd1 != NONE ==> fd0 < fd1 < |fds| && fds[fd1] == NONE
    ensures fds1[fd0 := NONE] == fds
  {
    if fd1 == NONE {
      assert forall x :: 0 <= x < |fds| && x != fd0 ==> fds[x] == fds1[x];
    } else {
      assert fd1 != fd0 && fds[fd0] == NONE == fds[fd1];
    }
  }

  /** Descriptors fd0 and fd1, empty before, are the two ends of a new pipe, on two files that were free. */
  predicate PipeOpened(files: seq<File>, files': seq<File>, fds: seq<int>, fds': seq<int>, rf: int, wf: int,
                       fd0: int, fd1: int, pipe: nat)
  {
    && 0 <= rf < |files| && 0 <= wf < |files| && rf != wf && files[rf] == files[wf] == File(0, Unset)
    && files' == files[rf := File(1, Pipe(End(pipe, false)))][wf := File(1, Pipe(End(pipe, true)))]
    && 0 <= fd0 < fd1 < |fds| && fds[fd0] == NONE == fds[fd1] && fds' == fds[fd0 := rf][fd1 := wf]
  }

  lemma UpdateTwice<T>(s: seq<T>, p: nat, x: T, y: T)
    requires p < |s|
    ensures s[p := x][p := y] == s[p := y] && s[p := x][p] == x && s[p := s[p]] == s
  {
  }

  class Ftable {
    var files: seq<File>
    var ofile: seq<seq<int>>   // proc->ofile, by process
    var pipes: nat             // pipes made so far
    ghost var s: State         // all of it, with who holds what in between

    ghost predicate Valid()
      reads this
    {
      Inv(s) && s.files == files && ofile == Fds(s.procs) && pipes == s.pipes
    }

    /** `fileinit`: no file is open, and process 0 is the only one of n. */
    constructor (n: nat)
      requires n >= 1
      ensures Valid() && Init(s) && |files| == NFILE && |ofile| == n && At(0)
    {
      files, pipes, ofile := seq(NFILE, _ => File(0, Unset)), 0, seq(n, _ => NoFds());
      s := State(seq(NFILE, _ => File(0, Unset)),
                 seq(n, p => Proc(NoFds(), NoFds(), [], Calm, NONE, p == 0, NONE)), 0, []);
      new;
      InitInv(s);
    }

    /** The files take this step, in which process i changes, and the invariant is kept. */
    ghost method Go(s': State, step: Step, i: nat)
      requires Inv(s) && NextStep(s, s', step) && i < |s.procs| == |s'.procs| && s'.procs == s.procs[i := s'.procs[i]]
      modifies this`s
      ensures s == s' && Inv(s) && Fds(s.procs) == Fds(old(s.procs))[i := s'.procs[i].ofile]
      ensures s'.procs[i].ofile == old(s.procs[i]).ofile ==> Fds(s.procs) == Fds(old(s.procs))
    {
      assert Next(s, s');
      NextInv(s, s');
      FdsUpdate(s.procs, i, s'.procs[i]);
      s := s';
    }

    /** The scan of `filealloc`. */
    method FindFile() returns (f: int)
      ensures f == NONE ==> forall g :: 0 <= g < |files| ==> files[g].ref != 0
      ensures f != NONE ==> 0 <= f < |files| && files[f].ref == 0 && forall g :: 0 <= g < f ==> files[g].ref != 0
    {
      f := 0;
      while f < |files|
        invariant 0 <= f <= |files| && forall g :: 0 <= g < f ==> files[g].ref != 0
      {
        if files[f].ref == 0 {
          return;
        }
        f := f + 1;
      }
      f := NONE;
    }

    /** `filealloc` */
    method FileAlloc(p: nat) returns (f: int)
      requires Valid() && Acts(s, p, Calm)
      modifies this`files, this`s
      ensures Valid()
      ensures f == NONE ==> s == old(s) && forall g :: 0 <= g < |files| ==> files[g].ref != 0
      ensures f != NONE ==> 0 <= f < |old(files)| && old(files)[f] == File(0, Unset)
      ensures f != NONE ==> forall g :: 0 <= g < f ==> old(files)[g].ref != 0
      ensures f != NONE ==> s == Alloced(old(s), p, f)
    {
      f := FindFile();
      if f != NONE {
        files := files[f := files[f].(ref := 1)];
        Go(Alloced(s, p, f), Alloc(p, f), p);
      }
    }

    /** `filedup`; ok is false when it panics. */
    method FileDup(f: nat) returns (ok: bool)
      requires f < |files|
      modifies this`files
      ensures ok <==> old(files)[f].ref >= 1
      ensures files == if ok then old(files)[f := old(files)[f].(ref := old(files)[f].ref + 1)] else old(files)
    {
      if files[f].ref < 1 {
        return false;
      }
      files := files[f := files[f].(ref := files[f].ref + 1)];
      return true;
    }

    /** `fileclose`; ok is false when it panics.  end is the end of a pipe that it then closes. */
    method FileClose(f: nat) returns (ok: bool, end: seq<End>)
      requires f < |files|
      modifies this`files
      ensures ok <==> old(files)[f].ref >= 1
      ensures !ok ==> files == old(files) && end == []
      ensures |files| == |old(files)| && files == old(files)[f := files[f]]
      ensures ok && old(files)[f].ref > 1 ==> files[f] == File(old(files)[f].ref - 1, old(files)[f].kind) && end == []
      ensures ok && old(files)[f].ref == 1 ==> files[f] == File(0, Unset)
      ensures ok && old(files)[f].ref == 1 ==>
                end == match old(files)[f].kind case Pipe(e) => [e] case _ => []
      ensures ok ==> forall t: State :: t.files == old(files) ==>
                       Closed(t, f).files == files && Closed(t, f).closed == t.closed + end
    {
      end := [];
      if files[f].ref < 1 {
        return false, [];
      }
      files := files[f := files[f].(ref := files[f].ref - 1)];
      if files[f].ref > 0 {
        return true, [];
      }
      var ff := files[f];
      files := files[f := File(0, Unset)];
      if ff.kind.Pipe? {
        end := [ff.kind.end];
      }
      ok := true;
    }

    /** The scan of `fdalloc`. */
    method FindFd(p: nat) returns (fd: int)
      requires Valid() && p < |ofile|
      ensures |ofile[p]| == NOFILE && if fd == NONE then NoEmpty(ofile[p]) else LowestEmpty(ofile[p], fd)
    {
      assert ProcOk(s, s.procs[p]);
      fd := 0;
      while fd < NOFILE
        invariant 0 <= fd <= NOFILE && forall x :: 0 <= x < fd ==> ofile[p][x] != NONE
      {
        if ofile[p][fd] == NONE {
          return;
        }
        fd := fd + 1;
      }
      fd := NONE;
    }

    /** `fdalloc` of the file a process holds: the lowest free descriptor takes over the reference. */
    method FdAlloc(p: nat, ghost k: nat, f: nat) returns (fd: int)
      requires Valid() && Acts(s, p, Calm) && k < |s.procs[p].held| && s.procs[p].held[k] == f
      modifies this`ofile, this`s
      ensures Valid() && files == old(files)
      ensures |old(ofile)[p]| == NOFILE && if fd == NONE then NoEmpty(old(ofile)[p]) else LowestEmpty(old(ofile)[p], fd)
      ensures fd == NONE ==> s == old(s) && ofile == old(ofile)
      ensures fd != NONE ==> EmptyFd(old(s.procs[p]), fd) && s == Installed(old(s), p, k, fd)
      ensures fd != NONE ==> ofile == old(ofile)[p := old(ofile)[p][fd := f]]
    {
      fd := FindFd(p);
      if fd != NONE {
        ghost var q := s.procs[p];
        assert ProcOk(s, q);
        ofile := ofile[p := ofile[p][fd := f]];
        Go(Installed(s, p, k, fd), Install(p, k, fd), p);
      }
    }

    /** Process p is between two system calls. */
    ghost predicate At(p: nat)
      reads this
    {
      p < |s.procs| && Resting(s.procs[p])
    }

    /** `sys_dup` once it has a file and a free descriptor for it. */
    method DupInto(p: nat, src: nat, fd: nat)
      requires Valid() && At(p) && src < NOFILE && fd < NOFILE && ofile[p][src] != NONE == ofile[p][fd]
      modifies this`files, this`ofile, this`s
      ensures Valid() && At(p) && s.closed == old(s.closed) && 0 <= old(ofile[p][src]) < |files|
      ensures ofile == old(ofile)[p := old(ofile)[p][fd := old(ofile[p][src])]]
      ensures files == Referred(old(s), old(ofile[p][src]), 1).files
    {
      FdFacts(s, p, src);
      FdFacts(s, p, fd);
      var f := ofile[p][src];
      ofile := ofile[p := ofile[p][fd := f]];
      var ok := FileDup(f);
      DupKeeps(s, p, src, fd);
      s := DupDone(s, p, src, fd);
    }

    /** `sys_dup`: one more descriptor for the same file, and one more reference. */
    method SysDup(p: nat, src: int) returns (r: int)
      requires Valid() && At(p)
      modifies this`files, this`ofile, this`s
      ensures Valid() && At(p) && s.closed == old(s.closed)
      ensures r == -1 <==> !(0 <= src < NOFILE) || old(ofile[p][src]) == NONE || NoEmpty(old(ofile)[p])
      ensures r == -1 ==> s == old(s)
      ensures r != -1 ==>
                && LowestEmpty(old(ofile)[p], r)
                && ofile == old(ofile)[p := old(ofile)[p][r := old(ofile[p][src])]]
                && 0 <= old(ofile[p][src]) < |old(files)| && files == Referred(old(s), old(ofile[p][src]), 1).files
    {
      assert ProcOk(s, s.procs[p]);
      if src < 0 || src >= NOFILE || ofile[p][src] == NONE {
        return -1;
      }
      r := FindFd(p);
      if r == NONE {
        return -1;
      }
      DupInto(p, src, r);
    }

    /** `proc->ofile[fd] = 0`: the reference stays with the caller. */
    method Clear(p: nat, fd: nat)
      requires Valid() && Acts(s, p, Calm) && fd < NOFILE && ofile[p][fd] != NONE
      modifies this`ofile, this`s
      ensures Valid() && HasFd(old(s.procs[p]), fd) && s == Taken(old(s), p, fd)
      ensures s.procs[p].held == old(s.procs[p]).held + [old(ofile[p][fd])] && Acts(s, p, Calm)
      ensures ofile == old(ofile)[p := old(ofile)[p][fd := NONE]]
    {
      FdFacts(s, p, fd);
      ofile := ofile[p := ofile[p][fd := NONE]];
      Go(Taken(s, p, fd), Take(p, fd), p);
    }

    /** `sys_close`: the descriptor is free, and the last reference closes the file. */
    method SysClose(p: nat, fd: int) returns (r: int)
      requires Valid() && At(p)
      modifies this`files, this`ofile, this`s
      ensures Valid() && At(p)
      ensures r == if 0 <= fd < NOFILE && old(ofile)[p][fd] != NONE then 0 else -1
      ensures r == -1 ==> s == old(s)
      ensures r == 0 ==>
                var f := old(ofile)[p][fd];
                && ofile == old(ofile)[p := old(ofile)[p][fd := NONE]] && 0 <= f < |old(files)|
                && files == Closed(old(s), f).files && s.closed == Closed(old(s), f).closed
    {
      ghost var q := s.procs[p];
      assert ProcOk(s, q);
      if fd < 0 || fd >= NOFILE || ofile[p][fd] == NONE {
        return -1;
      }
      var f := ofile[p][fd];
      Clear(p, fd);
      DropHeld(p, 0, f);
      r := 0;
    }

    /** `fileclose` of a file the process holds; it does not panic. */
    method DropHeld(p: nat, ghost k: nat, f: nat)
      requires Valid() && Acts(s, p, Calm) && k < |s.procs[p].held| && s.procs[p].held[k] == f
      modifies this`files, this`s
      ensures Valid() && f < |files|
      ensures s == Dropped(old(s), p, k)
    {
      ghost var q := s.procs[p];
      assert ProcOk(s, q);
      InUse(s, p, f);
      var ok, _ := FileClose(f);
      Go(Dropped(s, p, k), Drop(p, k), p);
    }

    /** `fileclose` of the two files a process holds, rf first. */
    method DropBoth(p: nat, ghost i: nat, rf: nat, wf: nat)
      requires Valid() && Acts(s, p, Calm) && i < 2 == |s.procs[p].held| && rf != wf
      requires s.procs[p].held[i] == rf && s.procs[p].held[1 - i] == wf
      requires InTable(s, rf) && InTable(s, wf) && files[rf].ref == files[wf].ref == 1
      modifies this`files, this`s
      ensures Valid() && files == old(files)[rf := File(0, Unset)][wf := File(0, Unset)]
      ensures s.procs == old(s.procs)[p := old(s.procs[p]).(held := [])] && s.pipes == old(s.pipes)
      ensures old(files)[rf].kind.Unset? && old(files)[wf].kind.Unset? ==> s.closed == old(s.closed)
    {
      assert Remove(s.procs[p].held, i) == [wf];
      DropHeld(p, i, rf);
      DropHeld(p, 0, wf);
    }

    /** The two calls of `filealloc` in `pipealloc`, with the first undone if the second fails. */
    method TwoFiles(p: nat) returns (rf: int, wf: int)
      requires Valid() && At(p)
      modifies this`files, this`s
      ensures Valid()
      ensures wf == NONE ==> s == old(s) && !TwoFree(old(files))
      ensures wf != NONE ==> CanPipe(old(s), p, rf, wf) && s == Both(old(s), p, rf, wf, Unset, Unset)
      ensures wf != NONE ==> TwoFree(old(files))
    {
      wf := NONE;
      rf := FileAlloc(p);
      if rf == NONE {
        return;
      }
      wf := FileAlloc(p);
      if wf == NONE {
        AllocDrop(old(s), p, rf);
        DropHeld(p, 0, rf);
        return;
      }
      assert rf < wf && old(files)[rf].ref == 0 == old(files)[wf].ref;
      AllocTwo(old(s), p, rf, wf);
    }

    /** `pipealloc`; page: there is a page for the pipe.  What it took it gives back if it fails. */
    method PipeAlloc(p: nat, page: bool) returns (rf: int, wf: int)
      requires Valid() && At(p)
      modifies this`files, this`pipes, this`s
      ensures Valid()
      ensures wf == NONE ==> s == old(s)
      ensures wf == NONE <==> !page || !TwoFree(old(files))
      ensures wf != NONE ==>
                && CanPipe(old(s), p, rf, wf) && pipes == old(pipes) + 1
                && s == Both(old(s), p, rf, wf, Pipe(End(old(pipes), false)), Pipe(End(old(pipes), true)))
                        .(pipes := pipes)
    {
      rf, wf := TwoFiles(p);
      if wf == NONE {
        return;
      }
      if !page {
        DropBoth(p, 0, rf, wf);
        assert files == old(files) && s.procs == old(s.procs);
        return rf, NONE;
      }
      PipeSet(p, rf, wf);
    }

    /** `pipealloc` fills in its two files. */
    method PipeSet(p: nat, rf: nat, wf: nat)
      requires Valid() && Acts(s, p, Calm) && s.procs[p].held == [rf, wf] && rf != wf
      requires InTable(s, rf) && InTable(s, wf) && files[rf] == files[wf] == File(1, Unset)
      modifies this`files, this`pipes, this`s
      ensures Valid() && files == old(files)[rf := File(1, Pipe(End(old(pipes), false)))]
                                            [wf := File(1, Pipe(End(old(pipes), true)))]
      ensures pipes == old(pipes) + 1 && s == old(s).(files := files, pipes := pipes)
    {
      files := files[rf := File(1, Pipe(End(pipes, false)))][wf := File(1, Pipe(End(pipes, true)))];
      pipes := pipes + 1;
      Go(s.(files := files, pipes := pipes), SetPipe(p, rf, wf), p);
    }

    /** `sys_pipe` gives up with its first descriptor filled. */
    method UndoFirst(p: nat, rf: nat, wf: nat, fd0: nat)
      requires Valid() && Acts(s, p, Calm) && s.procs[p].held == [wf] && rf != wf && fd0 < NOFILE && ofile[p][fd0] == rf
      requires InTable(s, rf) && InTable(s, wf) && files[rf].ref == files[wf].ref == 1
      modifies this`files, this`ofile, this`s
      ensures Valid() && At(p) && ofile == old(ofile)[p := old(ofile)[p][fd0 := NONE]]
      ensures files == old(files)[rf := File(0, Unset)][wf := File(0, Unset)]
    {
      Clear(p, fd0);
      assert s.procs[p].held == [wf, rf];
      DropBoth(p, 1, rf, wf);
    }

    /** The second call of `fdalloc` in `sys_pipe`; if it fails, the first is undone and both files are closed. */
    method SecondFd(p: nat, rf: nat, wf: nat, fd0: nat) returns (fd1: int)
      requires Valid() && Acts(s, p, Calm) && s.procs[p].held == [wf] && rf != wf && fd0 < NOFILE && ofile[p][fd0] == rf
      requires InTable(s, rf) && InTable(s, wf) && files[rf].ref == files[wf].ref == 1
      modifies this`files, this`ofile, this`s
      ensures Valid() && At(p)
      ensures fd1 == NONE ==>
                && NoEmpty(old(ofile)[p]) && ofile == old(ofile)[p := old(ofile)[p][fd0 := NONE]]
                && files == old(files)[rf := File(0, Unset)][wf := File(0, Unset)]
      ensures fd1 != NONE ==>
                && LowestEmpty(old(ofile)[p], fd1) && ofile == old(ofile)[p := old(ofile)[p][fd1 := wf]]
                && files == old(files) && s.closed == old(s.closed)
    {
      fd1 := FdAlloc(p, 0, wf);
      if fd1 == NONE {
        UndoFirst(p, rf, wf, fd0);
      } else {
        assert s.procs[p].held == [];
      }
    }

    /** The two calls of `fdalloc` in `sys_pipe`; what is not to be had is all given back. */
    method PipeFds(p: nat, rf: nat, wf: nat) returns (fd0: int, fd1: int)
      requires Valid() && Acts(s, p, Calm) && s.procs[p].held == [rf, wf] && rf != wf
      requires InTable(s, rf) && InTable(s, wf) && files[rf].ref == files[wf].ref == 1
      modifies this`files, this`ofile, this`s
      ensures Valid() && At(p)
      ensures fd1 == NONE ==> ofile == old(ofile) && files == old(files)[rf := File(0, Unset)][wf := File(0, Unset)]
      ensures fd1 == NONE <==> !TwoEmpty(old(ofile)[p])
      ensures fd1 != NONE ==> files == old(files) && s.closed == old(s.closed)
      ensures fd1 != NONE ==> 0 <= fd0 < fd1 < NOFILE && old(ofile)[p][fd0] == NONE == old(ofile)[p][fd1]
      ensures fd1 != NONE ==> ofile == old(ofile)[p := old(ofile)[p][fd0 := rf][fd1 := wf]]
    {
      fd1 := NONE;
      fd0 := FdAlloc(p, 0, rf);
      if fd0 == NONE {
        DropBoth(p, 0, rf, wf);
        return;
      }
      assert s.procs[p].held == [wf];
      fd1 := SecondFd(p, rf, wf, fd0);
      ghost var fds, fds1 := old(ofile)[p], old(ofile)[p][fd0 := rf];
      SecondEmpty(fds, fds1, fd0, rf, fd1);
      UpdateTwice(old(ofile), p, fds1, if fd1 == NONE then fds else fds1[fd1 := wf]);
    }

    /** `sys_pipe`: two new files on two descriptors, or everything as it was. */
    method SysPipe(p: nat, page: bool) returns (fd0: int, fd1: int, r: int)
      requires Valid() && At(p)
      modifies this
      ensures Valid() && At(p)
      ensures r == if page && TwoFree(old(files)) && TwoEmpty(old(ofile)[p]) then 0 else -1
      ensures r == -1 ==> files == old(files) && ofile == old(ofile)
      ensures r == 0 ==>
                exists rf, wf :: PipeOpened(old(files), files, old(ofile)[p], ofile[p], rf, wf, fd0, fd1, old(pipes))
      ensures r == 0 ==> ofile == old(ofile)[p := ofile[p]] && s.closed == old(s.closed)
    {
      fd0, fd1 := NONE, NONE;
      var rf, wf := PipeAlloc(p, page);
      if wf == NONE {
        return fd0, fd1, -1;
      }
      fd0, fd1 := PipeFds(p, rf, wf);
      if fd1 == NONE {
        assert files == old(files);
        return fd0, fd1, -1;
      }
      assert PipeOpened(old(files), files, old(ofile)[p], ofile[p], rf, wf, fd0, fd1, old(pipes));
      r := 0;
    }

    /** One turn of the loop in `exit`. */
    method ExitClose(p: nat, fd: nat)
      requires Valid() && At(p) && fd < NOFILE
      modifies this`files, this`ofile, this`s
      ensures Valid() && At(p) && ofile == old(ofile)[p := old(ofile)[p][fd := NONE]]
      ensures |files| == |old(files)| && |s.procs| == |old(s.procs)| && s.procs == old(s.procs)[p := s.procs[p]]
    {
      FdFacts(s, p, fd);
      var f := ofile[p][fd];
      if f == NONE {
        assert ofile[p][fd := NONE] == ofile[p];
        return;
      }
      var ok, _ := FileClose(f);
      ofile := ofile[p := ofile[p][fd := NONE]];
      ExitKeeps(s, p, fd);
      s := ExitDone(s, p, fd);
    }

    /** The loop of `exit`. */
    method ExitLoop(p: nat)
      requires Valid() && At(p)
      modifies this`files, this`ofile, this`s
      ensures Valid() && At(p) && |files| == |old(files)| && ofile == old(ofile)[p := NoFds()]
      ensures |s.procs| == |old(s.procs)| && s.procs == old(s.procs)[p := s.procs[p]]
    {
      FdFacts(s, p, 0);
      for fd := 0 to NOFILE
        invariant Valid() && At(p) && |files| == |old(files)|
        invariant |ofile| == |old(ofile)| && ofile == old(ofile)[p := ofile[p]] && |ofile[p]| == NOFILE
        invariant forall x :: 0 <= x < fd ==> ofile[p][x] == NONE
        invariant |s.procs| == |old(s.procs)| && s.procs == old(s.procs)[p := s.procs[p]]
      {
        ExitClose(p, fd);
      }
      assert ofile[p] == NoFds();
    }

    /** `exit` closes all files: every file is left with the references of the others. */
    method ExitFiles(p: nat)
      requires Valid() && At(p)
      modifies this`files, this`ofile, this`s
      ensures Valid() && |files| == |old(files)| && ofile == old(ofile)[p := NoFds()]
      ensures forall f :: 0 <= f < |files| ==> files[f].ref == old(files)[f].ref - multiset(old(ofile)[p])[f]
      ensures p < |s.procs| && !s.procs[p].live
    {
      ExitLoop(p);
      assert old(ofile)[p] == old(s.procs[p]).ofile && s.procs[p].ofile == Fds(s.procs)[p] == NoFds();
      forall f | 0 <= f < |files| ensures files[f].ref == old(files)[f].ref - multiset(old(ofile)[p])[f] {
        CountChange(old(s), s, p, f);
        NoneInNoFds(f);
      }
      ghost var q := s.procs[p];
      Go(WithProc(s, p, q.(live := false)), ExitEnd(p), p);
    }

    /** Process p is making process c. */
    ghost predicate Forking(p: nat, c: nat)
      reads this
    {
      At(p) && c < |s.procs| && c != p && !s.procs[c].live && s.procs[c].forker == p && s.procs[c].mid == Calm
    }

    /** One turn of the loop in `fork`. */
    method ForkDup(p: nat, c: nat, fd: nat)
      requires Valid() && Forking(p, c) && fd < NOFILE && ofile[c][fd] == NONE
      modifies this`files, this`ofile, this`s
      ensures Valid() && Forking(p, c) && ofile == old(ofile)[c := old(ofile)[c][fd := old(ofile)[p][fd]]]
      ensures |files| == |old(files)| && |s.procs| == |old(s.procs)| && s.procs == old(s.procs)[c := s.procs[c]]
      ensures s.procs[c].held == old(s.procs[c]).held
    {
      FdFacts(s, p, fd);
      FdFacts(s, c, fd);
      var f := ofile[p][fd];
      if f == NONE {
        assert ofile[c][fd := NONE] == ofile[c];
        return;
      }
      var ok := FileDup(f);
      ofile := ofile[c := ofile[c][fd := f]];
      ForkKeeps(s, p, c, fd);
      s := ForkDone(s, p, c, fd);
    }

    /** The loop of `fork`. */
    method ForkLoop(p: nat, c: nat)
      requires Valid() && Forking(p, c) && ofile[c] == NoFds() && s.procs[c].held == []
      modifies this`files, this`ofile, this`s
      ensures Valid() && Forking(p, c) && |files| == |old(files)| && ofile == old(ofile)[c := old(ofile)[p]]
      ensures |s.procs| == |old(s.procs)| && s.procs == old(s.procs)[c := s.procs[c]] && s.procs[c].held == []
    {
      FdFacts(s, p, 0);
      for fd := 0 to NOFILE
        invariant Valid() && Forking(p, c) && |files| == |old(files)| && s.procs[c].held == []
        invariant |ofile| == |old(ofile)| && ofile == old(ofile)[c := ofile[c]] && |ofile[c]| == NOFILE
        invariant forall x :: 0 <= x < NOFILE ==> ofile[c][x] == if x < fd then old(ofile)[p][x] else NONE
        invariant |s.procs| == |old(s.procs)| && s.procs == old(s.procs)[c := s.procs[c]]
      {
        ForkDup(p, c, fd);
      }
      assert ofile[c] == old(ofile)[p];
    }

    /** `fork` gives the child all files: it has the same descriptors, and each file as many references more. */
    method ForkFiles(p: nat, c: nat)
      requires Valid() && At(p) && c < |s.procs| && !s.procs[c].live && s.procs[c].forker == NONE
      modifies this`files, this`ofile, this`s
      ensures Valid() && At(p) && At(c) && |files| == |old(files)| && ofile == old(ofile)[c := old(ofile)[p]]
      ensures forall f :: 0 <= f < |files| ==> files[f].ref == old(files)[f].ref + multiset(old(ofile)[p])[f]
    {
      ghost var r := s.procs[c];
      assert ProcOk(s, r) && r.ofile == NoFds();
      Go(WithProc(s, c, r.(forker := p)), ForkStart(p, c), c);
      ghost var s1 := s;
      ForkLoop(p, c);
      assert s1.procs[c].ofile == NoFds() && s.procs[c].ofile == Fds(s.procs)[c] == old(ofile)[p];
      forall f | 0 <= f < |files| ensures files[f].ref == old(files)[f].ref + multiset(old(ofile)[p])[f] {
        CountChange(s1, s, c, f);
        NoneInNoFds(f);
      }
      Go(WithProc(s, c, s.procs[c].(live := true, forker := NONE)), ForkEnd(p, c), c);
    }
  }
}
