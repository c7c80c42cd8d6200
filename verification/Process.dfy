/** proc.c and the scheduling decision of trap.c: what each section does to the records of the process table. */
module Process {

  const NPROC := 64
  const NONE := -1
  const INIT := 0          // allocproc hands out the lowest free slot, so the first process has slot 0
  const MAXINT := 0x7fff_ffff

  datatype PState = UNUSED | EMBRYO | SLEEPING | RUNNABLE | RUNNING | ZOMBIE

  /** What a process sleeps on: a process record (as wait() does) or anything else. */
  datatype Chan = NoChan | ProcChan(slot: int) | Other(addr: int)

  datatype Proc = Proc(
    state: PState, pid: int, parent: int, chan: Chan, killed: bool,
    tickets: int, stride: int, pass: int, limit: int)

  /** C's int after an addition that may wrap. */
  function Int32(x: int): (r: int)
    ensures -MAXINT - 1 <= r <= MAXINT
    ensures -MAXINT - 1 <= x <= MAXINT ==> r == x
  {
    (x + MAXINT + 1) % (2 * MAXINT + 2) - MAXINT - 1
  }

  lemma Int32Twice(a: int, b: int)
    ensures Int32(a + Int32(b)) == Int32(a + b)
  {
    var m, k := 2 * MAXINT + 2, (b + MAXINT + 1) / (2 * MAXINT + 2);
    assert Int32(b) == b - k * m;
  }

  /** C's division of a non-negative numerator: truncated toward zero. */
  function Quotient(a: nat, b: int): (q: int)
    requires b != 0
    ensures b > 0 ==> 0 <= q && b * q <= a < b * (q + 1)
    ensures b < 0 ==> q <= 0 && b * q <= a < b * (q - 1)
  {
    if b > 0 then a / b else -(a / -b)
  }

  // ----- What each section does to the table, as functions of the table -----

  predicate Eligible(p: Proc) {
    (p.state.SLEEPING? || p.state.RUNNABLE? || p.state.RUNNING?) && p.tickets > 0
  }

  /** The slot the stride scan ends with: slot 0, or an eligible slot, the first of least pass. */
  ghost predicate IsPick(ps: seq<Proc>, r: int) {
    && 0 <= r < |ps|
    && (r == 0 || Eligible(ps[r]))
    && ps[r].pass <= ps[0].pass
    && (forall j :: 0 <= j < |ps| && Eligible(ps[j]) ==> ps[r].pass <= ps[j].pass)
    && (forall j :: 0 <= j < r && (j == 0 || Eligible(ps[j])) ==> ps[r].pass < ps[j].pass)
  }

  /** The record of a process as it is given the CPU. */
  function Charged(p: Proc): (p': Proc) {
    var q := if p.pass >= p.limit then p.(limit := Int32(p.limit + Int32(p.pass + p.stride)))
             else p.(pass := Int32(p.pass + p.stride));
    var run := q.(state := RUNNING);
    if run.pass < 0 then run.(pass := 0, limit := run.stride) else run
  }

  /** The record of the running process after a trap: it loses the CPU or pays for another step. */
  function Trapped(p: Proc, timer: bool): (p': Proc) {
    if p.state.RUNNING? && (p.pass >= p.limit || timer) then
      p.(limit := Int32(p.limit + Int32(p.pass + p.stride)), state := RUNNABLE)
    else if p.state.RUNNING? then
      p.(pass := Int32(p.pass + p.stride))
    else p
  }

  function Woken(ps: seq<Proc>, c: Chan): (r: seq<Proc>)
    ensures |r| == |ps|
  {
    seq(|ps|, i requires 0 <= i < |ps| =>
      if ps[i].state.SLEEPING? && ps[i].chan == c then ps[i].(state := RUNNABLE) else ps[i])
  }

  function Allocated(p: Proc, pid: int, tickets: int): (p': Proc)
    requires tickets != 0
  {
    p.(state := EMBRYO, pid := pid, tickets := tickets, pass := 0,
       stride := Quotient(10000, tickets), limit := Quotient(10000, tickets))
  }

  /** The children of `me` go to init, and `me` becomes a zombie. */
  function Orphaned(ps: seq<Proc>, me: int): (r: seq<Proc>)
    requires 0 <= me < |ps|
    ensures |r| == |ps|
  {
    seq(|ps|, i requires 0 <= i < |ps| =>
      var p := if ps[i].parent == me then ps[i].(parent := INIT) else ps[i];
      if i == me then p.(state := ZOMBIE) else p)
  }

  predicate HasZombieChild(ps: seq<Proc>, me: int) {
    exists i :: 0 <= i < |ps| && ps[i].parent == me && ps[i].state.ZOMBIE?
  }

  predicate HasChild(ps: seq<Proc>, me: int) {
    exists i :: 0 <= i < |ps| && ps[i].parent == me
  }

  /** A record once the loop of exit has passed it (done) and init has been woken (reap). */
  function Adopted(p: Proc, me: int, done: bool, reap: bool): (p': Proc) {
    var q := if done && p.parent == me then p.(parent := INIT) else p;
    if reap && q.state.SLEEPING? && q.chan == ProcChan(INIT) then q.(state := RUNNABLE) else q
  }

  function Exited(ps: seq<Proc>, me: int): (r: seq<Proc>)
    requires 0 <= me < |ps|
    ensures |r| == |ps|
  {
    var told := Woken(ps, ProcChan(ps[me].parent));
    var reap := if HasZombieChild(ps, me) then Woken(told, ProcChan(INIT)) else told;
    Orphaned(reap, me)
  }

  function Reaped(p: Proc): (p': Proc) {
    p.(state := UNUSED, pid := 0, parent := NONE, killed := false)
  }

  /** ps' is ps with a zombie child of `me`, of pid r, turned back into a free slot. */
  ghost predicate IsReaped(ps: seq<Proc>, ps': seq<Proc>, me: int, r: int) {
    exists i :: 0 <= i < |ps| && ps[i].parent == me && ps[i].state.ZOMBIE? && r == ps[i].pid
                && ps' == ps[i := Reaped(ps[i])]
  }

  function Killed(p: Proc): (p': Proc) {
    p.(killed := true, state := if p.state.SLEEPING? then RUNNABLE else p.state)
  }

  /** ps' is ps with the first process of that pid killed. */
  ghost predicate IsKilled(ps: seq<Proc>, ps': seq<Proc>, pid: int) {
    exists i :: 0 <= i < |ps| && ps[i].pid == pid && (forall j :: 0 <= j < i ==> ps[j].pid != pid)
                && ps' == ps[i := Killed(ps[i])]
  }
}
