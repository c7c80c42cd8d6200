/**
 Open files and who refers to them: file.c's reference counts and the
 descriptors of sysfile.c, fork and exit, as a step system.  One step is what one
 process does to the file table under ftable.lock, or to its own descriptors.
 */
module FileRefs {
  import PP = PipeProtocol

  const NONE := -1
  const NFILE := 100
  const NOFILE := 16

  /** One of the two ends of a pipe.  Pipes are numbered as they are allocated. */
  datatype End = End(pipe: nat, writable: bool)

  datatype Kind = Unset | Pipe(end: End) | Inode(ip: nat)

  datatype File = File(ref: int, kind: Kind)

  /** A descriptor that refers to a file without being counted: `dup` fills it before `filedup`, `exit` clears it after
      `fileclose`. */
  datatype Mid = Calm | Dup(src: nat, fd: nat) | Exit(fd: nat)

  /**
   ofile: the descriptors.  owned: those that are counted, NONE where one is not.  held: references in local variables
   of the system call under way.  using: the descriptor of a read or write under way.  forker: the process that is
   making this one.
   */
  datatype Proc = Proc(ofile: seq<int>, owned: seq<int>, held: seq<int>, mid: Mid, using: int, live: bool, forker: int)

  /** closed is history: the ends for which `pipeclose` was called. */
  datatype State = State(files: seq<File>, procs: seq<Proc>, pipes: nat, closed: seq<End>)

  datatype Step =
    | Alloc(p: nat, f: nat)                        // filealloc
    | SetPipe(p: nat, f: nat, g: nat)              // pipealloc fills in both files
    | SetInode(p: nat, fd: nat, ip: nat)           // sys_open fills in the file
    | Install(p: nat, k: nat, fd: nat)             // fdalloc of a file just allocated
    | DupFd(p: nat, src: nat, fd: nat)             // fdalloc in sys_dup
    | DupRef(p: nat)                               // filedup in sys_dup
    | Take(p: nat, fd: nat)                        // sys_close clears the descriptor, as does sys_pipe when it fails
    | Drop(p: nat, k: nat)                         // fileclose of a file in hand
    | ExitDrop(p: nat, fd: nat)                    // fileclose in exit
    | ExitClear(p: nat)                            // and the descriptor after it
    | ExitEnd(p: nat)
    | ForkStart(p: nat, c: nat)
    | ForkRef(p: nat, fd: nat)                     // filedup in fork
    | ForkStore(p: nat, c: nat, k: nat, fd: nat)   // np->ofile[fd] = f
    | ForkEnd(p: nat, c: nat)
    | CallOn(p: nat, fd: nat)                      // fileread, filewrite
    | CallEnd(p: nat)

  function Remove<T>(s: seq<T>, k: nat): (r: seq<T>)
    requires k < |s|
  {
    s[..k] + s[k + 1..]
  }

  // ----- What filealloc, filedup and fileclose do to a file -----

  function Referred(s: State, f: nat, n: int): (s': State)
    requires f < |s.files|
  {
    s.(files := s.files[f := s.files[f].(ref := s.files[f].ref + n)])
  }

  /** `fileclose` past its panic: the last reference gone, the file is free again and its pipe end is closed. */
  function Closed(s: State, f: nat): (s': State)
    requires f < |s.files|
  {
    if s.files[f].ref > 1 then Referred(s, f, -1)
    else
      State(s.files[f := File(0, Unset)], s.procs, s.pipes,
            if s.files[f].kind.Pipe? then s.closed + [s.files[f].kind.end] else s.closed)
  }

  function WithProc(s: State, p: nat, q: Proc): (s': State)
    requires p < |s.procs|
  {
    s.(procs := s.procs[p := q])
  }

  /** A descriptor that `argfd` accepts. */
  predicate HasFd(q: Proc, fd: nat) {
    fd < |q.ofile| == |q.owned| && q.owned[fd] != NONE
  }

  predicate EmptyFd(q: Proc, fd: nat) {
    fd < |q.ofile| == |q.owned| && q.ofile[fd] == NONE && q.owned[fd] == NONE
  }

  predicate InTable(s: State, f: int) {
    0 <= f < |s.files|
  }

  /** Who acts, and whether it can: a live process that is not inside a read or write. */
  predicate Acts(s: State, p: nat, mid: Mid) {
    p < |s.procs| && s.procs[p].live && s.procs[p].using == NONE && s.procs[p].mid == mid
  }

  ghost predicate Allocs(s: State, s': State, p: nat, f: nat) {
    && Acts(s, p, Calm) && f < |s.files| && s.files[f].ref == 0
    && var q := s.procs[p];
       s' == WithProc(Referred(s, f, 1), p, q.(held := q.held + [f]))
  }

  ghost predicate SetsPipe(s: State, s': State, p: nat, f: nat, g: nat) {
    && Acts(s, p, Calm) && f in s.procs[p].held && g in s.procs[p].held && f != g && f < |s.files| && g < |s.files|
    && s.files[f].kind.Unset? && s.files[g].kind.Unset?
    && s' == s.(files := s.files[f := s.files[f].(kind := Pipe(End(s.pipes, false)))]
                                [g := s.files[g].(kind := Pipe(End(s.pipes, true)))],
                pipes := s.pipes + 1)
  }

  ghost predicate SetsInode(s: State, s': State, p: nat, fd: nat, ip: nat) {
    && Acts(s, p, Calm) && HasFd(s.procs[p], fd)
    && var f := s.procs[p].ofile[fd];
       InTable(s, f) && s.files[f].kind.Unset? && s' == s.(files := s.files[f := s.files[f].(kind := Inode(ip))])
  }

  ghost predicate Installs(s: State, s': State, p: nat, k: nat, fd: nat) {
    && Acts(s, p, Calm) && k < |s.procs[p].held| && EmptyFd(s.procs[p], fd)
    && var q := s.procs[p];
       s' == WithProc(s, p, q.(ofile := q.ofile[fd := q.held[k]], owned := q.owned[fd := q.held[k]],
                               held := Remove(q.held, k)))
  }

  ghost predicate DupsFd(s: State, s': State, p: nat, src: nat, fd: nat) {
    && Acts(s, p, Calm) && HasFd(s.procs[p], src) && EmptyFd(s.procs[p], fd)
    && var q := s.procs[p];
       s' == WithProc(s, p, q.(ofile := q.ofile[fd := q.ofile[src]], mid := Dup(src, fd)))
  }

  ghost predicate DupsRef(s: State, s': State, p: nat) {
    && p < |s.procs|
    && var q := s.procs[p];
       && q.mid.Dup? && Acts(s, p, q.mid) && q.mid.fd < |q.ofile| == |q.owned| && InTable(s, q.ofile[q.mid.fd])
       && s' == WithProc(Referred(s, q.ofile[q.mid.fd], 1), p,
                         q.(owned := q.owned[q.mid.fd := q.ofile[q.mid.fd]], mid := Calm))
  }

  ghost predicate Takes(s: State, s': State, p: nat, fd: nat) {
    && Acts(s, p, Calm) && HasFd(s.procs[p], fd)
    && var q := s.procs[p];
       s' == WithProc(s, p, q.(ofile := q.ofile[fd := NONE], owned := q.owned[fd := NONE],
                               held := q.held + [q.ofile[fd]]))
  }

  ghost predicate Drops(s: State, s': State, p: nat, k: nat) {
    && Acts(s, p, Calm) && k < |s.procs[p].held| && InTable(s, s.procs[p].held[k])
    && var q := s.procs[p];
       s' == WithProc(Closed(s, q.held[k]), p, q.(held := Remove(q.held, k)))
  }

  ghost predicate ExitDrops(s: State, s': State, p: nat, fd: nat) {
    && Acts(s, p, Calm) && HasFd(s.procs[p], fd) && InTable(s, s.procs[p].ofile[fd])
    && var q := s.procs[p];
       s' == WithProc(Closed(s, q.ofile[fd]), p, q.(owned := q.owned[fd := NONE], mid := Exit(fd)))
  }

  ghost predicate ForkRefs(s: State, s': State, p: nat, fd: nat) {
    && Acts(s, p, Calm) && HasFd(s.procs[p], fd) && InTable(s, s.procs[p].ofile[fd])
    && var q := s.procs[p];
       s' == WithProc(Referred(s, q.ofile[fd], 1), p, q.(held := q.held + [q.ofile[fd]]))
  }

  ghost predicate ForkStores(s: State, s': State, p: nat, c: nat, k: nat, fd: nat) {
    && Acts(s, p, Calm) && c < |s.procs| && c != p && !s.procs[c].live && s.procs[c].forker == p
    && k < |s.procs[p].held| && EmptyFd(s.procs[c], fd)
    && var q, r := s.procs[p], s.procs[c];
       s' == WithProc(WithProc(s, p, q.(held := Remove(q.held, k))), c,
                      r.(ofile := r.ofile[fd := q.held[k]], owned := r.owned[fd := q.held[k]]))
  }

  /** Steps that move no reference: process i, which need not be the one that acts, becomes q. */
  ghost predicate Quiet(s: State, step: Step, i: nat, q: Proc) {
    && step.p < |s.procs| && i < |s.procs|
    && var me, was := s.procs[step.p], s.procs[i];
       match step
       case ExitClear(p) =>
         && i == p && me.mid.Exit? && Acts(s, p, me.mid) && me.mid.fd < |me.ofile|
         && q == me.(ofile := me.ofile[me.mid.fd := NONE], mid := Calm)
       case ExitEnd(p) =>
         && i == p && Acts(s, p, Calm) && me.held == [] && (forall fd :: 0 <= fd < |me.ofile| ==> me.ofile[fd] == NONE)
         && q == me.(live := false)
       case ForkStart(p, c) =>
         i == c && Acts(s, p, Calm) && !was.live && was.forker == NONE && q == was.(forker := p)
       case ForkEnd(p, c) =>
         i == c && Acts(s, p, Calm) && !was.live && was.forker == p && q == was.(live := true, forker := NONE)
       case CallOn(p, fd) =>
         i == p && Acts(s, p, Calm) && me.held == [] && HasFd(me, fd) && q == me.(using := fd)
       case CallEnd(p) =>
         i == p && me.live && me.using != NONE && q == me.(using := NONE)
       case _ => false
  }

  ghost predicate QuietStep(s: State, s': State, step: Step) {
    var i := if step.ForkStart? || step.ForkEnd? then step.c else step.p;
    i < |s.procs| == |s'.procs| && Quiet(s, step, i, s'.procs[i]) && s' == WithProc(s, i, s'.procs[i])
  }

  ghost predicate NextStep(s: State, s': State, step: Step) {
    match step
    case Alloc(p, f) => Allocs(s, s', p, f)
    case SetPipe(p, f, g) => SetsPipe(s, s', p, f, g)
    case SetInode(p, fd, ip) => SetsInode(s, s', p, fd, ip)
    case Install(p, k, fd) => Installs(s, s', p, k, fd)
    case DupFd(p, src, fd) => DupsFd(s, s', p, src, fd)
    case DupRef(p) => DupsRef(s, s', p)
    case Take(p, fd) => Takes(s, s', p, fd)
    case Drop(p, k) => Drops(s, s', p, k)
    case ExitDrop(p, fd) => ExitDrops(s, s', p, fd)
    case ForkRef(p, fd) => ForkRefs(s, s', p, fd)
    case ForkStore(p, c, k, fd) => ForkStores(s, s', p, c, k, fd)
    case _ => QuietStep(s, s', step)
  }

  ghost predicate Next(s: State, s': State) {
    exists step :: NextStep(s, s', step)
  }

  function NoFds(): (r: seq<int>)
    ensures |r| == NOFILE && forall fd :: 0 <= fd < NOFILE ==> r[fd] == NONE
  {
    seq(NOFILE, _ => NONE)
  }

  /** No file is open, and one process is there. */
  ghost predicate Init(s: State) {
    && (forall f :: 0 <= f < |s.files| ==> s.files[f] == File(0, Unset))
    && (forall p :: 0 <= p < |s.procs| ==> s.procs[p] == Proc(NoFds(), NoFds(), [], Calm, NONE, p == 0, NONE))
    && s.pipes == 0 && s.closed == []
  }

  ghost predicate IsRun(run: seq<State>) {
    run != [] && Init(run[0]) && forall i :: 0 < i < |run| ==> StepTo(run, i)
  }

  ghost predicate StepTo(run: seq<State>, i: nat)
    requires 0 < i < |run|
  {
    Next(run[i - 1], run[i])
  }

  // ----- Counting references -----

  /** How often process q refers to file f. */
  ghost function Refs(q: Proc, f: int): (n: nat) {
    multiset(q.owned)[f] + multiset(q.held)[f]
  }

  ghost function Total(procs: seq<Proc>, f: int): (n: nat) {
    if procs == [] then 0 else Refs(procs[0], f) + Total(procs[1..], f)
  }

  lemma {:induction false} TotalUpdate(procs: seq<Proc>, p: nat, q: Proc, f: int)
    requires p < |procs|
    ensures Total(procs[p := q], f) == Total(procs, f) - Refs(procs[p], f) + Refs(q, f)
    ensures Refs(procs[p], f) <= Total(procs, f)
  {
    if p == 0 {
      assert procs[0 := q][1..] == procs[1..];
    } else {
      assert procs[p := q][1..] == procs[1..][p - 1 := q];
      TotalUpdate(procs[1..], p - 1, q, f);
    }
  }

  lemma {:induction false} TotalNone(procs: seq<Proc>, f: int)
    requires forall p :: 0 <= p < |procs| ==> Refs(procs[p], f) == 0
    ensures Total(procs, f) == 0
  {
    if procs != [] {
      TotalNone(procs[1..], f);
    }
  }

  /** A descriptor set from x to y. */
  lemma RefsSet(s: seq<int>, i: nat, y: int, f: int)
    requires i < |s|
    ensures multiset(s[i := y])[f] == multiset(s)[f] - (if s[i] == f then 1 else 0) + (if y == f then 1 else 0)
    ensures s[i] == f ==> multiset(s)[f] >= 1
  {
    assert s[i] in multiset(s);
  }

  lemma RefsRemove(s: seq<int>, k: nat, f: int)
    requires k < |s|
    ensures multiset(Remove(s, k))[f] == multiset(s)[f] - (if s[k] == f then 1 else 0)
    ensures s[k] == f ==> multiset(s)[f] >= 1
  {
    assert s == s[..k] + [s[k]] + s[k + 1..];
    assert multiset(s) == multiset(s[..k]) + multiset{s[k]} + multiset(s[k + 1..]);
  }

  // ----- The invariant -----

  /** The descriptor that is not counted, NONE if all are. */
  function Uncounted(q: Proc): (fd: int) {
    if q.mid == Calm then NONE else q.mid.fd
  }

  ghost predicate ProcOk(s: State, q: Proc) {
    && |q.ofile| == |q.owned| == NOFILE
    && (forall fd :: 0 <= fd < NOFILE && q.owned[fd] != NONE ==> InTable(s, q.owned[fd]))
    && (forall fd :: 0 <= fd < NOFILE ==> q.owned[fd] == if fd == Uncounted(q) then NONE else q.ofile[fd])
    && (forall k :: 0 <= k < |q.held| ==> InTable(s, q.held[k]))
    && (q.mid != Calm ==> q.mid.fd < NOFILE)
    && (q.mid.Dup? ==> q.mid.src < NOFILE && q.owned[q.mid.src] == q.ofile[q.mid.fd] != NONE)
    && (q.using == NONE || (0 <= q.using < NOFILE && q.mid == Calm && q.owned[q.using] != NONE))
    && (!q.live ==> q.held == [] && q.mid == Calm && q.using == NONE)
    && (!q.live && q.forker == NONE ==> forall fd :: 0 <= fd < NOFILE ==> q.ofile[fd] == NONE)
  }

  /** A free file has no kind; an end of a pipe belongs to one file, and to none once it is closed. */
  ghost predicate EndsOk(s: State) {
    && (forall f :: 0 <= f < |s.files| ==> s.files[f].ref >= 0 && (s.files[f].ref == 0 ==> s.files[f].kind.Unset?))
    && (forall f :: 0 <= f < |s.files| && s.files[f].kind.Pipe? ==>
          s.files[f].kind.end.pipe < s.pipes && s.files[f].kind.end !in s.closed)
    && (forall f, g :: 0 <= f < g < |s.files| && s.files[f].kind.Pipe? ==> s.files[f].kind != s.files[g].kind)
    && (forall e :: e in s.closed ==> e.pipe < s.pipes)
    && (forall i, j :: 0 <= i < j < |s.closed| ==> s.closed[i] != s.closed[j])
  }

  ghost predicate Counted(s: State) {
    forall f :: 0 <= f < |s.files| ==> s.files[f].ref == Total(s.procs, f)
  }

  ghost predicate Inv(s: State) {
    Counted(s) && EndsOk(s) && forall p :: 0 <= p < |s.procs| ==> ProcOk(s, s.procs[p])
  }

  lemma InitInv(s: State)
    requires Init(s)
    ensures Inv(s)
  {
    forall f | 0 <= f < |s.files| ensures s.files[f].ref == Total(s.procs, f) {
      forall p | 0 <= p < |s.procs| ensures Refs(s.procs[p], f) == 0 {
        assert f !in NoFds();
      }
      TotalNone(s.procs, f);
    }
  }

  /** Process p goes from q to q', and the counts follow its references. */
  ghost predicate Follows(s: State, s': State, p: nat, q': Proc) {
    && p < |s.procs| && s'.procs == s.procs[p := q'] && |s'.files| == |s.files|
    && forall f :: 0 <= f < |s.files| ==> s'.files[f].ref - s.files[f].ref == Refs(q', f) - Refs(s.procs[p], f)
  }

  lemma FollowsKeeps(s: State, s': State, p: nat, q': Proc)
    requires Inv(s) && Follows(s, s', p, q') && ProcOk(s, q') && EndsOk(s')
    ensures Inv(s')
  {
    forall f | 0 <= f < |s'.files| ensures s'.files[f].ref == Total(s'.procs, f) {
      TotalUpdate(s.procs, p, q', f);
    }
    forall i | 0 <= i < |s'.procs| ensures ProcOk(s', s'.procs[i]) {
      assert ProcOk(s, if i == p then q' else s.procs[i]);
    }
  }

  /** A process refers only to files that are in use. */
  lemma InUse(s: State, p: nat, f: nat)
    requires Counted(s) && p < |s.procs| && f < |s.files| && (f in s.procs[p].owned || f in s.procs[p].held)
    ensures s.files[f].ref >= 1
  {
    TotalUpdate(s.procs, p, s.procs[p], f);
  }

  lemma ClosedEnds(s: State, f: nat)
    requires EndsOk(s) && f < |s.files| && s.files[f].ref >= 1
    ensures EndsOk(Closed(s, f))
  {
  }

  lemma MoreRefs(s: State, f: nat)
    requires EndsOk(s) && f < |s.files|
    ensures EndsOk(Referred(s, f, 1))
  {
  }

  lemma AllocKeeps(s: State, s': State, p: nat, f: nat)
    requires Inv(s) && Allocs(s, s', p, f)
    ensures Inv(s')
  {
    var q := s.procs[p];
    MoreRefs(s, f);
    FollowsKeeps(s, s', p, q.(held := q.held + [f]));
  }

  lemma SetPipeKeeps(s: State, s': State, p: nat, f: nat, g: nat)
    requires Inv(s) && SetsPipe(s, s', p, f, g)
    ensures Inv(s')
  {
    InUse(s, p, f);
    InUse(s, p, g);
    FollowsKeeps(s, s', p, s.procs[p]);
  }

  lemma SetInodeKeeps(s: State, s': State, p: nat, fd: nat, ip: nat)
    requires Inv(s) && SetsInode(s, s', p, fd, ip)
    ensures Inv(s')
  {
    InUse(s, p, s.procs[p].ofile[fd]);
    FollowsKeeps(s, s', p, s.procs[p]);
  }

  lemma InstallKeeps(s: State, s': State, p: nat, k: nat, fd: nat)
    requires Inv(s) && Installs(s, s', p, k, fd)
    ensures Inv(s')
  {
    var q, q' := s.procs[p], s'.procs[p];
    assert Follows(s, s', p, q') by {
      forall f | 0 <= f < |s.files| ensures Refs(q', f) == Refs(q, f) {
        RefsSet(q.owned, fd, q.held[k], f);
        RefsRemove(q.held, k, f);
      }
    }
    FollowsKeeps(s, s', p, q');
  }

  lemma DupFdKeeps(s: State, s': State, p: nat, src: nat, fd: nat)
    requires Inv(s) && DupsFd(s, s', p, src, fd)
    ensures Inv(s')
  {
    FollowsKeeps(s, s', p, s'.procs[p]);
  }

  lemma DupRefKeeps(s: State, s': State, p: nat)
    requires Inv(s) && DupsRef(s, s', p)
    ensures Inv(s')
  {
    var q, q' := s.procs[p], s'.procs[p];
    assert Follows(s, s', p, q') by {
      forall f | 0 <= f < |s.files| ensures Refs(q', f) == Refs(q, f) + if f == q.ofile[q.mid.fd] then 1 else 0 {
        RefsSet(q.owned, q.mid.fd, q.ofile[q.mid.fd], f);
      }
    }
    MoreRefs(s, q.ofile[q.mid.fd]);
    FollowsKeeps(s, s', p, q');
  }

  lemma TakeKeeps(s: State, s': State, p: nat, fd: nat)
    requires Inv(s) && Takes(s, s', p, fd)
    ensures Inv(s')
  {
    var q, q' := s.procs[p], s'.procs[p];
    assert Follows(s, s', p, q') by {
      forall f | 0 <= f < |s.files| ensures Refs(q', f) == Refs(q, f) {
        RefsSet(q.owned, fd, NONE, f);
      }
    }
    FollowsKeeps(s, s', p, q');
  }

  lemma DropKeeps(s: State, s': State, p: nat, k: nat)
    requires Inv(s) && Drops(s, s', p, k)
    ensures Inv(s')
  {
    var q, q' := s.procs[p], s'.procs[p];
    InUse(s, p, q.held[k]);
    assert Follows(s, s', p, q') by {
      forall f | 0 <= f < |s.files| ensures Refs(q', f) == Refs(q, f) - if f == q.held[k] then 1 else 0 {
        RefsRemove(q.held, k, f);
      }
    }
    ClosedEnds(s, q.held[k]);
    FollowsKeeps(s, s', p, q');
  }

  lemma ExitDropKeeps(s: State, s': State, p: nat, fd: nat)
    requires Inv(s) && ExitDrops(s, s', p, fd)
    ensures Inv(s')
  {
    var q, q' := s.procs[p], s'.procs[p];
    InUse(s, p, q.ofile[fd]);
    assert Follows(s, s', p, q') by {
      forall f | 0 <= f < |s.files| ensures Refs(q', f) == Refs(q, f) - if f == q.owned[fd] then 1 else 0 {
        RefsSet(q.owned, fd, NONE, f);
      }
    }
    ClosedEnds(s, q.ofile[fd]);
    FollowsKeeps(s, s', p, q');
  }

  lemma ForkRefKeeps(s: State, s': State, p: nat, fd: nat)
    requires Inv(s) && ForkRefs(s, s', p, fd)
    ensures Inv(s')
  {
    MoreRefs(s, s.procs[p].ofile[fd]);
    FollowsKeeps(s, s', p, s'.procs[p]);
  }

  lemma ForkStoreCounts(s: State, s': State, p: nat, c: nat, k: nat, fd: nat, f: nat)
    requires Inv(s) && ForkStores(s, s', p, c, k, fd) && f < |s.files|
    ensures Total(s'.procs, f) == Total(s.procs, f)
  {
    var q, r := s.procs[p], s.procs[c];
    var q', r' := s'.procs[p], s'.procs[c];
    RefsRemove(q.held, k, f);
    RefsSet(r.owned, fd, q.held[k], f);
    TotalUpdate(s.procs, p, q', f);
    TotalUpdate(s.procs[p := q'], c, r', f);
  }

  lemma ForkStoreKeeps(s: State, s': State, p: nat, c: nat, k: nat, fd: nat)
    requires Inv(s) && ForkStores(s, s', p, c, k, fd)
    ensures Inv(s')
  {
    forall f | 0 <= f < |s.files| ensures s'.files[f].ref == Total(s'.procs, f) {
      ForkStoreCounts(s, s', p, c, k, fd, f);
    }
    forall i | 0 <= i < |s'.procs| ensures ProcOk(s', s'.procs[i]) {
      assert ProcOk(s, s.procs[i]);
    }
  }

  lemma QuietKeeps(s: State, s': State, step: Step)
    requires Inv(s) && QuietStep(s, s', step)
    ensures Inv(s')
  {
    var i := if step.ForkStart? || step.ForkEnd? then step.c else step.p;
    FollowsKeeps(s, s', i, s'.procs[i]);
  }

  lemma NextInv(s: State, s': State)
    requires Inv(s) && Next(s, s')
    ensures Inv(s')
  {
    var step :| NextStep(s, s', step);
    match step
    case Alloc(p, f) => AllocKeeps(s, s', p, f);
    case SetPipe(p, f, g) => SetPipeKeeps(s, s', p, f, g);
    case SetInode(p, fd, ip) => SetInodeKeeps(s, s', p, fd, ip);
    case Install(p, k, fd) => InstallKeeps(s, s', p, k, fd);
    case DupFd(p, src, fd) => DupFdKeeps(s, s', p, src, fd);
    case DupRef(p) => DupRefKeeps(s, s', p);
    case Take(p, fd) => TakeKeeps(s, s', p, fd);
    case Drop(p, k) => DropKeeps(s, s', p, k);
    case ExitDrop(p, fd) => ExitDropKeeps(s, s', p, fd);
    case ForkRef(p, fd) => ForkRefKeeps(s, s', p, fd);
    case ForkStore(p, c, k, fd) => ForkStoreKeeps(s, s', p, c, k, fd);
    case _ => QuietKeeps(s, s', step);
  }

  lemma {:induction false} RunInv(run: seq<State>, i: nat)
    requires IsRun(run) && i < |run|
    ensures Inv(run[i])
  {
    if i == 0 {
      InitInv(run[0]);
    } else {
      RunInv(run, i - 1);
      assert StepTo(run, i);
      NextInv(run[i - 1], run[i]);
    }
  }

  // ----- Main results -----

  /** At every moment of every run a file's count is the number of references to it: counted descriptors of all
      processes, and references that system calls under way hold. */
  lemma CountsHolders(run: seq<State>, i: nat, f: nat)
    requires IsRun(run) && i < |run| && f < |run[i].files|
    ensures run[i].files[f].ref == Total(run[i].procs, f)
    ensures run[i].files[f].ref == 0 <==> forall p :: 0 <= p < |run[i].procs| ==> Refs(run[i].procs[p], f) == 0
  {
    RunInv(run, i);
    var procs := run[i].procs;
    if run[i].files[f].ref == 0 {
      forall p | 0 <= p < |procs| ensures Refs(procs[p], f) == 0 {
        TotalUpdate(procs, p, procs[p], f);
      }
    } else if forall p :: 0 <= p < |procs| ==> Refs(procs[p], f) == 0 {
      TotalNone(procs, f);
    }
  }

  /** The file that a step passes to `filedup` or `fileclose`. */
  function Passed(s: State, step: Step): (f: int)
    requires step.p < |s.procs|
  {
    var q := s.procs[step.p];
    match step
    case DupRef(p) => if q.mid.Dup? && q.mid.fd < |q.ofile| then q.ofile[q.mid.fd] else NONE
    case Drop(p, k) => if k < |q.held| then q.held[k] else NONE
    case ExitDrop(p, fd) => if fd < |q.ofile| then q.ofile[fd] else NONE
    case ForkRef(p, fd) => if fd < |q.ofile| then q.ofile[fd] else NONE
    case _ => NONE
  }

  lemma PassedInUse(s: State, s': State, step: Step)
    requires Inv(s) && NextStep(s, s', step)
    ensures step.p < |s.procs|
    ensures Passed(s, step) != NONE ==> InTable(s, Passed(s, step)) && s.files[Passed(s, step)].ref >= 1
  {
    var f := Passed(s, step);
    if f != NONE {
      var q := s.procs[step.p];
      assert ProcOk(s, q);
      assert step.DupRef? ==> q.owned[q.mid.src] == f;
      InUse(s, step.p, f);
    }
  }

  /** Neither `filedup` nor `fileclose` ever panics, although `dup` fills a descriptor before it is counted and `exit`
      leaves one behind that is counted no more. */
  lemma NeverPanics(run: seq<State>, i: nat, s': State, step: Step)
    requires IsRun(run) && i < |run| && NextStep(run[i], s', step)
    ensures step.p < |run[i].procs|
    ensures var f := Passed(run[i], step); f != NONE ==> InTable(run[i], f) && run[i].files[f].ref >= 1
  {
    RunInv(run, i);
    PassedInUse(run[i], s', step);
  }

  /** Some open file is this end of a pipe. */
  ghost predicate OpenEnd(s: State, e: End) {
    exists f :: 0 <= f < |s.files| && s.files[f].kind == Pipe(e)
  }

  /** Process q is inside a read or write on file f. */
  predicate UsesFile(q: Proc, f: int) {
    0 <= q.using < |q.ofile| && q.ofile[q.using] == f
  }

  /** Nobody is inside a read or write on this end. */
  ghost predicate NoCall(s: State, e: End) {
    forall p, f :: 0 <= p < |s.procs| && 0 <= f < |s.files| && UsesFile(s.procs[p], f) ==> s.files[f].kind != Pipe(e)
  }

  lemma TotalTwo(procs: seq<Proc>, p: nat, r: nat, f: int)
    requires p < |procs| && r < |procs| && p != r
    ensures Refs(procs[p], f) + Refs(procs[r], f) <= Total(procs, f)
  {
    var none := procs[p].(owned := [], held := []);
    TotalUpdate(procs, p, none, f);
    TotalUpdate(procs[p := none], r, procs[r], f);
  }

  /** Whoever gives up the last reference to a file, nobody is inside a call on it. */
  lemma LastUnused(s: State, p: nat, f: nat, r: nat)
    requires Inv(s) && p < |s.procs| && f < |s.files| && s.files[f].ref <= 1 && Refs(s.procs[p], f) >= 1
    requires s.procs[p].using == NONE && r < |s.procs|
    ensures !UsesFile(s.procs[r], f)
  {
    var q := s.procs[r];
    if UsesFile(q, f) {
      assert ProcOk(s, q) && q.owned[q.using] == f && f in multiset(q.owned);
      TotalTwo(s.procs, p, r, f);
    }
  }

  lemma ClosedGrows(s: State, s': State, step: Step)
    requires NextStep(s, s', step)
    ensures |s'.files| == |s.files| && s.closed <= s'.closed
  {
  }

  /** A file gets a kind when it has none, an end of a new pipe if of any, and loses it when its end is closed. */
  lemma KindStep(s: State, s': State, step: Step, f: nat)
    requires Inv(s) && NextStep(s, s', step) && f < |s.files|
    ensures |s'.files| == |s.files|
    ensures var k, k' := s.files[f].kind, s'.files[f].kind;
      || k' == k
      || (k.Unset? && (k'.Pipe? ==> k'.end.pipe >= s.pipes))
      || (k'.Unset? && (k.Pipe? ==> k.end in s'.closed))
  {
    PassedInUse(s, s', step);
  }

  /** Which ends are open changes only as pipes are made and as `pipeclose` is called. */
  lemma EndStep(s: State, s': State, step: Step, e: End)
    requires Inv(s) && EndsOk(s') && NextStep(s, s', step) && e.pipe < s.pipes
    ensures OpenEnd(s', e) <==> OpenEnd(s, e) && e !in s'.closed
  {
    if OpenEnd(s, e) && e !in s'.closed {
      var f :| 0 <= f < |s.files| && s.files[f].kind == Pipe(e);
      KindStep(s, s', step, f);
      assert s'.files[f].kind == Pipe(e);
    }
    if OpenEnd(s', e) {
      var f :| 0 <= f < |s'.files| && s'.files[f].kind == Pipe(e);
      ClosedGrows(s, s', step);
      KindStep(s, s', step, f);
      assert s.files[f].kind == Pipe(e);
    }
  }

  /** `pipeclose` is called for an end that was open, when nobody is inside a call on it. */
  lemma ClosesIdle(s: State, s': State, step: Step, e: End)
    requires Inv(s) && NextStep(s, s', step) && e in s'.closed && e !in s.closed
    ensures OpenEnd(s, e) && NoCall(s, e)
  {
    PassedInUse(s, s', step);
    var f, p := Passed(s, step), step.p;
    assert f != NONE && s.files[f].kind == Pipe(e) && s.files[f].ref <= 1;
    assert ProcOk(s, s.procs[p]) && (f in multiset(s.procs[p].owned) || f in multiset(s.procs[p].held));
    forall r, g | 0 <= r < |s.procs| && 0 <= g < |s.files| && UsesFile(s.procs[r], g)
      ensures s.files[g].kind != Pipe(e)
    {
      LastUnused(s, p, f, r);
    }
  }

  /** Over every run, `pipeclose` is called for an end at most once: when its last reference goes, while nobody is
      inside a call on it.  From then on it is not open, and nobody calls on it. */
  lemma PipeClosedOnce(run: seq<State>, i: nat, e: End)
    requires IsRun(run) && i + 1 < |run|
    ensures e in run[i + 1].closed && e !in run[i].closed ==> OpenEnd(run[i], e) && NoCall(run[i], e)
    ensures e in run[i].closed ==> e in run[i + 1].closed && !OpenEnd(run[i + 1], e) && NoCall(run[i + 1], e)
    ensures forall j, k :: 0 <= j < k < |run[i].closed| ==> run[i].closed[j] != run[i].closed[k]
    ensures e.pipe < run[i].pipes ==> (OpenEnd(run[i + 1], e) <==> OpenEnd(run[i], e) && e !in run[i + 1].closed)
  {
    RunInv(run, i);
    RunInv(run, i + 1);
    assert StepTo(run, i + 1);
    var step :| NextStep(run[i], run[i + 1], step);
    ClosedGrows(run[i], run[i + 1], step);
    if e.pipe < run[i].pipes {
      EndStep(run[i], run[i + 1], step, e);
    }
    if e in run[i + 1].closed && e !in run[i].closed {
      ClosesIdle(run[i], run[i + 1], step, e);
    }
  }

  // ----- What PipeProtocol takes from here -----

  ghost predicate InCall(s: State, p: nat, e: End)
    requires p < |s.procs|
  {
    exists f :: 0 <= f < |s.files| && UsesFile(s.procs[p], f) && s.files[f].kind == Pipe(e)
  }

  predicate IsCall(pc: PP.Pc, writable: bool) {
    PP.Calling(pc, if writable then PP.Writer else PP.Reader)
  }

  /** t is pipe x as these files have it: which ends are open, and whoever is inside `piperead` or `pipewrite` came
      there through a descriptor. */
  ghost predicate Agrees(s: State, t: PP.State, x: nat) {
    && |t.pcs| == |t.killed| == |s.procs|
    && (t.readref <==> OpenEnd(s, End(x, false))) && (t.writeref <==> OpenEnd(s, End(x, true)))
    && CallsAgree(s, t, x)
  }

  /** Whoever is inside a call stays there, on the same end, whatever others do, as long as the end is not closed. */
  lemma CallKept(s: State, s': State, step: Step, r: nat, e: End)
    requires Inv(s) && NextStep(s, s', step) && r < |s.procs| && InCall(s, r, e) && e !in s'.closed
    requires step.CallEnd? ==> step.p != r
    ensures |s'.procs| == |s.procs| && InCall(s', r, e)
  {
    var f :| 0 <= f < |s.files| && UsesFile(s.procs[r], f) && s.files[f].kind == Pipe(e);
    KindStep(s, s', step, f);
    assert ProcOk(s, s.procs[r]) && s'.procs[r] == s.procs[r];
    assert UsesFile(s'.procs[r], f) && s'.files[f].kind == Pipe(e);
  }

  lemma OneClosed(s: State, s': State, step: Step)
    requires NextStep(s, s', step)
    ensures |s'.procs| == |s.procs| && s.closed <= s'.closed && |s'.closed| <= |s.closed| + 1
  {
  }

  /** The calls of t are calls of s. */
  ghost predicate CallsAgree(s: State, t: PP.State, x: nat) {
    |t.pcs| == |s.procs| && forall p, w :: 0 <= p < |t.pcs| && IsCall(t.pcs[p], w) ==> InCall(s, p, End(x, w))
  }

  lemma CallsKept(s: State, s': State, step: Step, t: PP.State, x: nat)
    requires Inv(s) && NextStep(s, s', step) && CallsAgree(s, t, x)
    requires step.CallEnd? ==> step.p < |t.pcs| && t.pcs[step.p].at.Out?
    requires forall w :: End(x, w) in s'.closed ==> NoCall(s, End(x, w))
    ensures CallsAgree(s', t, x)
  {
    OneClosed(s, s', step);
    forall p, w | 0 <= p < |t.pcs| && IsCall(t.pcs[p], w) ensures InCall(s', p, End(x, w)) {
      assert InCall(s, p, End(x, w));
      CallKept(s, s', step, p, End(x, w));
    }
  }

  lemma ClosedNoCall(s: State, e: End)
    requires EndsOk(s) && e in s.closed
    ensures NoCall(s, e)
  {
  }

  /** A step that neither calls on pipe x nor closes an end of it leaves the two in agreement. */
  lemma OtherAgrees(s: State, s': State, step: Step, t: PP.State, x: nat)
    requires Inv(s) && Inv(s') && NextStep(s, s', step) && Agrees(s, t, x) && x < s.pipes
    requires step.CallEnd? ==> step.p < |t.pcs| && t.pcs[step.p].at.Out?
    requires forall w :: End(x, w) in s'.closed ==> End(x, w) in s.closed
    ensures Agrees(s', t, x)
  {
    forall w | End(x, w) in s'.closed ensures NoCall(s, End(x, w)) {
      ClosedNoCall(s, End(x, w));
    }
    CallsKept(s, s', step, t, x);
    ClosedEndShut(s, s', step, x);
  }

  lemma ClosedEndShut(s: State, s': State, step: Step, x: nat)
    requires Inv(s) && Inv(s') && NextStep(s, s', step) && x < s.pipes
    ensures forall w :: OpenEnd(s', End(x, w)) <==> OpenEnd(s, End(x, w)) && End(x, w) !in s'.closed
    ensures forall w :: End(x, w) in s.closed ==> !OpenEnd(s, End(x, w))
  {
    forall w ensures OpenEnd(s', End(x, w)) <==> OpenEnd(s, End(x, w)) && End(x, w) !in s'.closed {
      EndStep(s, s', step, End(x, w));
    }
  }

  /** A read or write on an open end is a call that PipeProtocol admits. */
  lemma CallAgrees(s: State, s': State, p: nat, fd: nat, t: PP.State, x: nat, w: bool, n: nat)
    requires Inv(s) && Inv(s') && NextStep(s, s', CallOn(p, fd)) && Agrees(s, t, x) && t.pcs[p].at.Out? && x < s.pipes
    requires InTable(s, s.procs[p].ofile[fd]) && s.files[s.procs[p].ofile[fd]].kind == Pipe(End(x, w))
    ensures var e := PP.Call(p, if w then PP.Writer else PP.Reader, n);
            PP.Enabled(t, e) && Agrees(s', PP.After(t, e), x)
  {
    var e := PP.Call(p, if w then PP.Writer else PP.Reader, n);
    OtherAgrees(s, s', CallOn(p, fd), t, x);
    assert UsesFile(s'.procs[p], s.procs[p].ofile[fd]) && InCall(s', p, End(x, w));
  }

  lemma IdleEnd(s: State, t: PP.State, x: nat, w: bool)
    requires CallsAgree(s, t, x) && NoCall(s, End(x, w))
    ensures PP.Idle(t.pcs, if w then PP.Writer else PP.Reader)
  {
    forall p | 0 <= p < |t.pcs| ensures !IsCall(t.pcs[p], w) {
      assert IsCall(t.pcs[p], w) ==> InCall(s, p, End(x, w));
    }
  }

  lemma ClosesOne(s: State, s': State, step: Step, x: nat, w: bool)
    requires Inv(s) && NextStep(s, s', step) && End(x, w) in s'.closed && End(x, w) !in s.closed
    ensures forall v :: End(x, v) in s'.closed ==> NoCall(s, End(x, v))
    ensures NoCall(s, End(x, w)) && OpenEnd(s, End(x, w)) && (End(x, !w) in s'.closed ==> End(x, !w) in s.closed)
  {
    ClosesIdle(s, s', step, End(x, w));
    OneClosed(s, s', step);
    assert s'.closed == s.closed + [End(x, w)];
    forall v | End(x, v) in s'.closed ensures NoCall(s, End(x, v)) {
      if v != w {
        ClosedNoCall(s, End(x, v));
      }
    }
  }

  /** So is the close of an end: it comes when PipeProtocol says it may, and takes the reference to that end. */
  lemma CloseAgrees(s: State, s': State, step: Step, t: PP.State, x: nat, w: bool, n: nat)
    requires Inv(s) && Inv(s') && NextStep(s, s', step) && Agrees(s, t, x) && x < s.pipes
    requires step.p < |t.pcs| && t.pcs[step.p].at.Out? && End(x, w) in s'.closed && End(x, w) !in s.closed
    ensures var e := PP.Call(step.p, PP.Closer(w), n); PP.Enabled(t, e) && Agrees(s', PP.After(t, e), x)
  {
    ClosesOne(s, s', step, x, w);
    IdleEnd(s, t, x, w);
    CallsKept(s, s', step, t, x);
    ClosedEndShut(s, s', step, x);
    CloseAfter(s, s', t, step.p, x, w, n);
  }

  lemma CloseAfter(s: State, s': State, t: PP.State, p: nat, x: nat, w: bool, n: nat)
    requires Agrees(s, t, x) && CallsAgree(s', t, x) && p < |t.pcs| && t.pcs[p].at.Out?
    requires OpenEnd(s, End(x, w)) && !OpenEnd(s', End(x, w)) && (OpenEnd(s', End(x, !w)) <==> OpenEnd(s, End(x, !w)))
    requires PP.Idle(t.pcs, if w then PP.Writer else PP.Reader)
    ensures var e := PP.Call(p, PP.Closer(w), n); PP.Enabled(t, e) && Agrees(s', PP.After(t, e), x)
  {
  }
}
