/**
 The life cycle of processes as a step system over the process table: fork,
 exit, wait, sleep, wakeup, kill, traps and dispatches in any order.  The
 dispatcher may pick a sleeping process, which then behaves like a spurious
 wakeup.
 */
module ProcTree {
  import opened Process

  /** making[i]: the slot process i is filling in inside forks(), or NONE. */
  datatype Sys = Sys(ps: seq<Proc>, nextpid: int, cur: int, making: seq<int>)

  datatype Step =
    | Alloc(np: int, tickets: int)
    | GiveUp
    | Publish(tickets: int)
    | Exit
    | Reap(r: int)
    | WaitSleep
    | Sleep(c: Chan)
    | Wakeup(c: Chan)
    | Kill(pid: int)
    | Dispatch(m: int)
    | Trap(timer: bool)

  predicate Live(p: Proc) {
    p.state.SLEEPING? || p.state.RUNNABLE? || p.state.RUNNING?
  }

  ghost predicate Shape(s: Sys) {
    && |s.ps| == |s.making| == NPROC
    && (s.cur == NONE || 0 <= s.cur < NPROC)
    && forall i :: 0 <= i < NPROC ==> -1 <= s.making[i] < NPROC
  }

  /** After userinit: one process, init, in slot 0. */
  ghost predicate Init(s: Sys) {
    && Shape(s) && s.cur == NONE && s.nextpid == 2
    && s.ps[INIT] == Proc(RUNNABLE, 1, NONE, NoChan, false, 300, 33, 0, 33)
    && (forall i :: 1 <= i < NPROC ==> s.ps[i] == Proc(UNUSED, 0, NONE, NoChan, false, 0, 0, 0, 0))
    && (forall i :: 0 <= i < NPROC ==> s.making[i] == NONE)
  }

  ghost predicate NextStep(s: Sys, s': Sys, step: Step)
    requires Shape(s)
  {
    match step
    case Alloc(np, tickets) =>
      && s.cur != NONE && s.making[s.cur] == NONE && tickets != 0
      && 0 <= np < NPROC && s.ps[np].state.UNUSED?
      && s' == Sys(s.ps[np := Allocated(s.ps[np], s.nextpid, tickets)], s.nextpid + 1, s.cur, s.making[s.cur := np])
    case GiveUp =>
      && s.cur != NONE && s.making[s.cur] != NONE
      && var np := s.making[s.cur];
         s' == Sys(s.ps[np := s.ps[np].(state := UNUSED)], s.nextpid, s.cur, s.making[s.cur := NONE])
    case Publish(tickets) =>
      && s.cur != NONE && s.making[s.cur] != NONE && tickets != 0
      && var np := s.making[s.cur];
         s' == Sys(s.ps[np := Allocated(s.ps[np], s.ps[np].pid, tickets).(parent := s.cur, state := RUNNABLE)],
                   s.nextpid, s.cur, s.making[s.cur := NONE])
    case Exit =>
      && s.cur != NONE && s.cur != INIT && s.making[s.cur] == NONE
      && s' == Sys(Exited(s.ps, s.cur), s.nextpid, NONE, s.making)
    case Reap(r) =>
      && s.cur != NONE && s.making[s.cur] == NONE
      && IsReaped(s.ps, s'.ps, s.cur, r)
      && s' == Sys(s'.ps, s.nextpid, s.cur, s.making)
    case WaitSleep =>
      && s.cur != NONE && s.making[s.cur] == NONE && !HasZombieChild(s.ps, s.cur)
      && s' == Sys(s.ps[s.cur := s.ps[s.cur].(chan := ProcChan(s.cur), state := SLEEPING)], s.nextpid, NONE, s.making)
    case Sleep(c) =>
      && s.cur != NONE && !c.ProcChan?
      && s' == Sys(s.ps[s.cur := s.ps[s.cur].(chan := c, state := SLEEPING)], s.nextpid, NONE, s.making)
    case Wakeup(c) =>
      s' == Sys(Woken(s.ps, c), s.nextpid, s.cur, s.making)
    case Kill(pid) =>
      && IsKilled(s.ps, s'.ps, pid)
      && s' == Sys(s'.ps, s.nextpid, s.cur, s.making)
    case Dispatch(m) =>
      && s.cur == NONE && IsPick(s.ps, m)
      && s' == Sys(s.ps[m := Charged(s.ps[m])], s.nextpid, m, s.making)
    case Trap(timer) =>
      && s.cur != NONE
      && var q := Trapped(s.ps[s.cur], timer);
         s' == Sys(s.ps[s.cur := q], s.nextpid, if q.state.RUNNING? then s.cur else NONE, s.making)
  }

  ghost predicate Next(s: Sys, s': Sys) {
    Shape(s) && exists step :: NextStep(s, s', step)
  }

  ghost predicate IsRun(run: seq<Sys>) {
    && run != [] && Init(run[0])
    && forall i :: 0 < i < |run| ==> StepTo(run, i)
  }

  ghost predicate StepTo(run: seq<Sys>, i: nat)
    requires 0 < i < |run|
  {
    Next(run[i - 1], run[i])
  }

  // ----- The invariant -----

  /** A process other than init has a live parent, which is older. */
  ghost predicate HasParent(ps: seq<Proc>, i: int)
    requires 0 <= i < |ps|
  {
    && 0 <= ps[i].parent < |ps| && Live(ps[ps[i].parent])
    && ps[ps[i].parent].pid < ps[i].pid
  }

  ghost predicate TreeOk(s: Sys)
    requires Shape(s)
  {
    && Live(s.ps[INIT]) && s.ps[INIT].parent == NONE
    && (forall i :: 0 <= i < NPROC && (s.ps[i].state.UNUSED? || s.ps[i].state.EMBRYO?) ==> s.ps[i].parent == NONE)
    && (forall i :: 0 < i < NPROC && !s.ps[i].state.UNUSED? ==> s.ps[INIT].pid < s.ps[i].pid < s.nextpid)
    && s.ps[INIT].pid < s.nextpid
    && (forall i {:trigger HasParent(s.ps, i)} ::
          0 < i < NPROC && (Live(s.ps[i]) || s.ps[i].state.ZOMBIE?) ==> HasParent(s.ps, i))
  }

  ghost predicate ForkOk(s: Sys)
    requires Shape(s)
  {
    && (forall i {:trigger s.making[i]} :: 0 <= i < NPROC && s.making[i] != NONE ==>
          && s.making[i] != INIT && s.ps[s.making[i]].state.EMBRYO?
          && Live(s.ps[i]) && s.ps[i].pid < s.ps[s.making[i]].pid)
    && (forall i, j :: 0 <= i < j < NPROC && s.making[i] != NONE ==> s.making[i] != s.making[j])
    && (s.cur != NONE ==> s.ps[s.cur].state.RUNNING?)
  }

  /** Nobody sleeps in wait() with a zombie child. */
  ghost predicate WaitOk(s: Sys)
    requires Shape(s)
  {
    forall i :: 0 <= i < NPROC && s.ps[i].state.SLEEPING? && s.ps[i].chan == ProcChan(i) ==> !HasZombieChild(s.ps, i)
  }

  /** No two slots have a pid in common, except for free ones without any. */
  ghost predicate PidsOk(s: Sys)
    requires Shape(s)
  {
    && (forall i :: 0 <= i < NPROC ==> 0 <= s.ps[i].pid < s.nextpid && (!s.ps[i].state.UNUSED? ==> s.ps[i].pid > 0))
    && (forall i, j :: 0 <= i < j < NPROC && s.ps[i].pid == s.ps[j].pid ==> s.ps[i].pid == 0)
  }

  ghost predicate Orderly(s: Sys) {
    Shape(s) && TreeOk(s) && ForkOk(s) && WaitOk(s)
  }

  ghost predicate Inv(s: Sys) {
    Orderly(s) && PidsOk(s)
  }

  lemma InitInv(s: Sys)
    requires Init(s)
    ensures Inv(s)
  {
  }

  /** A step that only moves processes between the live states keeps the tree. */
  ghost predicate SameTree(ps: seq<Proc>, ps': seq<Proc>) {
    && |ps'| == |ps|
    && forall i :: 0 <= i < |ps| ==>
         && ps'[i].pid == ps[i].pid && ps'[i].parent == ps[i].parent
         && (ps'[i].state == ps[i].state || (Live(ps[i]) && Live(ps'[i])))
  }

  lemma SameTreeKeeps(s: Sys, s': Sys)
    requires Orderly(s) && Shape(s') && SameTree(s.ps, s'.ps) && s'.making == s.making && s'.nextpid == s.nextpid
    requires s'.cur != NONE ==> s'.ps[s'.cur].state.RUNNING?
    requires forall i :: 0 <= i < NPROC && s'.ps[i].state.SLEEPING? && s'.ps[i].chan == ProcChan(i) ==>
               (s.ps[i].state.SLEEPING? && s.ps[i].chan == ProcChan(i)) || !HasZombieChild(s.ps, i)
    ensures Orderly(s')
  {
    forall i | 0 <= i < NPROC && HasZombieChild(s'.ps, i) ensures HasZombieChild(s.ps, i) {
      var k :| 0 <= k < NPROC && s'.ps[k].parent == i && s'.ps[k].state.ZOMBIE?;
      assert s.ps[k].parent == i && s.ps[k].state.ZOMBIE?;
    }
    forall i | 0 < i < NPROC && (Live(s'.ps[i]) || s'.ps[i].state.ZOMBIE?) ensures HasParent(s'.ps, i) {
      assert HasParent(s.ps, i);
    }
  }

  /** Rewriting a slot that is nobody's parent and no zombie, before or after, disturbs no other process. */
  lemma SlotRewritten(s: Sys, np: int, p: Proc)
    requires Orderly(s) && 0 < np < NPROC && (s.ps[np].state.UNUSED? || s.ps[np].state.EMBRYO?) && !p.state.ZOMBIE?
    ensures forall i :: 0 < i < NPROC && i != np && (Live(s.ps[i]) || s.ps[i].state.ZOMBIE?) ==>
              HasParent(s.ps[np := p], i)
    ensures forall i :: 0 <= i < NPROC && HasZombieChild(s.ps[np := p], i) ==> HasZombieChild(s.ps, i)
  {
    var ps' := s.ps[np := p];
    forall i | 0 < i < NPROC && i != np && (Live(s.ps[i]) || s.ps[i].state.ZOMBIE?) ensures HasParent(ps', i) {
      assert HasParent(s.ps, i);
    }
    forall i | 0 <= i < NPROC && HasZombieChild(ps', i) ensures HasZombieChild(s.ps, i) {
      var k :| 0 <= k < NPROC && ps'[k].parent == i && ps'[k].state.ZOMBIE?;
      assert s.ps[k].parent == i && s.ps[k].state.ZOMBIE?;
    }
  }

  lemma AllocKeeps(s: Sys, s': Sys, np: int, tickets: int)
    requires Orderly(s) && NextStep(s, s', Alloc(np, tickets))
    ensures Orderly(s')
  {
    SlotRewritten(s, np, s'.ps[np]);
  }

  lemma GiveUpKeeps(s: Sys, s': Sys)
    requires Orderly(s) && NextStep(s, s', GiveUp)
    ensures Orderly(s')
  {
    var np := s.making[s.cur];
    SlotRewritten(s, np, s'.ps[np]);
  }

  lemma PublishKeeps(s: Sys, s': Sys, tickets: int)
    requires Orderly(s) && NextStep(s, s', Publish(tickets))
    ensures Orderly(s')
  {
    var np := s.making[s.cur];
    SlotRewritten(s, np, s'.ps[np]);
  }

  /** One record across exit. */
  lemma ExitedAt(ps: seq<Proc>, me: int, i: int)
    requires 0 <= me < |ps| && 0 <= i < |ps|
    ensures var p, q := ps[i], Exited(ps, me)[i];
            && q == p.(state := q.state, parent := q.parent)
            && q.parent == (if p.parent == me then INIT else p.parent)
            && (if i == me then q.state.ZOMBIE?
                else if p.state.SLEEPING?
                        && (p.chan == ProcChan(ps[me].parent)
                            || (p.chan == ProcChan(INIT) && HasZombieChild(ps, me)))
                then q.state.RUNNABLE? else q.state == p.state)
  {
  }

  /** Who has a zombie child after exit: the parent, those who had one, and init if it inherits one. */
  lemma ExitedZombies(s: Sys, i: int)
    requires Orderly(s) && s.cur != NONE && s.cur != INIT && 0 <= i < NPROC && HasZombieChild(Exited(s.ps, s.cur), i)
    ensures i == s.ps[s.cur].parent || HasZombieChild(s.ps, i) || (i == INIT && HasZombieChild(s.ps, s.cur))
  {
    assert HasParent(s.ps, s.cur);
    var ps' := Exited(s.ps, s.cur);
    var k :| 0 <= k < NPROC && ps'[k].parent == i && ps'[k].state.ZOMBIE?;
    ExitedAt(s.ps, s.cur, k);
    assert k == s.cur || s.ps[k].state.ZOMBIE?;
  }

  lemma ExitTree(s: Sys, s': Sys)
    requires Orderly(s) && NextStep(s, s', Exit)
    ensures Shape(s') && TreeOk(s') && ForkOk(s')
  {
    var me := s.cur;
    forall i | 0 <= i < NPROC
      ensures s'.ps[i].pid == s.ps[i].pid && s'.ps[i].parent == (if s.ps[i].parent == me then INIT else s.ps[i].parent)
      ensures i == me ==> s'.ps[i].state.ZOMBIE?
      ensures i != me ==> (Live(s'.ps[i]) <==> Live(s.ps[i])) && (!Live(s.ps[i]) ==> s'.ps[i].state == s.ps[i].state)
    {
      ExitedAt(s.ps, me, i);
    }
    forall i | 0 < i < NPROC && (Live(s'.ps[i]) || s'.ps[i].state.ZOMBIE?) ensures HasParent(s'.ps, i) {
      assert HasParent(s.ps, i);
    }
  }

  /** exit: children change hands, the parent and init hear of the zombies they now have. */
  lemma ExitKeeps(s: Sys, s': Sys)
    requires Orderly(s) && NextStep(s, s', Exit)
    ensures Orderly(s')
  {
    ExitTree(s, s');
    forall i | 0 <= i < NPROC && HasZombieChild(s'.ps, i)
      ensures !(s'.ps[i].state.SLEEPING? && s'.ps[i].chan == ProcChan(i))
    {
      ExitedAt(s.ps, s.cur, i);
      ExitedZombies(s, i);
    }
  }

  lemma ReapKeeps(s: Sys, s': Sys, r: int)
    requires Orderly(s) && NextStep(s, s', Reap(r))
    ensures Orderly(s')
  {
    var z :| 0 <= z < NPROC && s.ps[z].parent == s.cur && s.ps[z].state.ZOMBIE? && s'.ps == s.ps[z := Reaped(s.ps[z])];
    forall i | 0 < i < NPROC && (Live(s'.ps[i]) || s'.ps[i].state.ZOMBIE?) ensures HasParent(s'.ps, i) {
      assert HasParent(s.ps, i);
    }
    forall i | 0 <= i < NPROC && HasZombieChild(s'.ps, i) ensures HasZombieChild(s.ps, i) {
      var k :| 0 <= k < NPROC && s'.ps[k].parent == i && s'.ps[k].state.ZOMBIE?;
      assert s.ps[k].parent == i && s.ps[k].state.ZOMBIE?;
    }
  }

  /** A step that rewrites one live process, keeping it live. */
  lemma OneKeeps(s: Sys, s': Sys, k: int)
    requires Orderly(s) && Shape(s') && 0 <= k < NPROC && s'.ps == s.ps[k := s'.ps[k]]
    requires s'.making == s.making && s'.nextpid == s.nextpid
    requires s'.ps[k].pid == s.ps[k].pid && s'.ps[k].parent == s.ps[k].parent
    requires s'.ps[k].state == s.ps[k].state || (Live(s.ps[k]) && Live(s'.ps[k]))
    requires s'.cur != NONE ==> s'.ps[s'.cur].state.RUNNING?
    requires s'.ps[k].state.SLEEPING? && s'.ps[k].chan == ProcChan(k) ==>
               (s.ps[k].state.SLEEPING? && s.ps[k].chan == ProcChan(k)) || !HasZombieChild(s.ps, k)
    ensures Orderly(s')
  {
    assert SameTree(s.ps, s'.ps);
    SameTreeKeeps(s, s');
  }

  lemma KillKeeps(s: Sys, s': Sys, pid: int)
    requires Orderly(s) && NextStep(s, s', Kill(pid))
    ensures Orderly(s')
  {
    var k :| 0 <= k < NPROC && s'.ps == s.ps[k := Killed(s.ps[k])];
    OneKeeps(s, s', k);
  }

  lemma WakeupKeeps(s: Sys, s': Sys, c: Chan)
    requires Orderly(s) && NextStep(s, s', Wakeup(c))
    ensures Orderly(s')
  {
    assert SameTree(s.ps, s'.ps);
    SameTreeKeeps(s, s');
  }

  /** Every step of every operation keeps the tree, the half-made children and the waiting parents in order. */
  lemma StepOrderly(s: Sys, s': Sys, step: Step)
    requires Orderly(s) && NextStep(s, s', step)
    ensures Orderly(s')
  {
    match step
    case Alloc(np, tickets) => AllocKeeps(s, s', np, tickets);
    case GiveUp => GiveUpKeeps(s, s');
    case Publish(tickets) => PublishKeeps(s, s', tickets);
    case Exit => ExitKeeps(s, s');
    case Reap(r) => ReapKeeps(s, s', r);
    case WaitSleep => OneKeeps(s, s', s.cur);
    case Sleep(c) => OneKeeps(s, s', s.cur);
    case Wakeup(c) => WakeupKeeps(s, s', c);
    case Kill(pid) => KillKeeps(s, s', pid);
    case Dispatch(m) => OneKeeps(s, s', m);
    case Trap(timer) => OneKeeps(s, s', s.cur);
  }

  /** A step after which every slot has its pid, or none and no process either. */
  lemma PidsKept(s: Sys, s': Sys)
    requires Shape(s) && PidsOk(s) && Shape(s') && s'.nextpid == s.nextpid
    requires forall i :: 0 <= i < NPROC ==>
               || (s'.ps[i].pid == s.ps[i].pid && (s.ps[i].state.UNUSED? ==> s'.ps[i].state.UNUSED?))
               || (s'.ps[i].pid == 0 && s'.ps[i].state.UNUSED?)
    ensures PidsOk(s')
  {
  }

  lemma ExitPids(s: Sys, s': Sys)
    requires Inv(s) && Shape(s') && NextStep(s, s', Exit)
    ensures PidsOk(s')
  {
    forall i | 0 <= i < NPROC
      ensures s'.ps[i].pid == s.ps[i].pid && (s.ps[i].state.UNUSED? ==> s'.ps[i].state.UNUSED?)
    {
      ExitedAt(s.ps, s.cur, i);
    }
    PidsKept(s, s');
  }

  /** A pid is never given out twice. */
  lemma StepPids(s: Sys, s': Sys, step: Step)
    requires Inv(s) && Shape(s') && NextStep(s, s', step)
    ensures PidsOk(s')
  {
    match step
    case Alloc(np, _) =>
    case Exit =>
      ExitPids(s, s');
    case Dispatch(m) =>
      assert m == INIT || Eligible(s.ps[m]);
      PidsKept(s, s');
    case _ =>
      PidsKept(s, s');
  }

  lemma StepInv(s: Sys, s': Sys, step: Step)
    requires Inv(s) && NextStep(s, s', step)
    ensures Inv(s')
  {
    StepOrderly(s, s', step);
    StepPids(s, s', step);
  }

  lemma NextInv(s: Sys, s': Sys)
    requires Inv(s) && Next(s, s')
    ensures Inv(s')
  {
    var step :| NextStep(s, s', step);
    StepInv(s, s', step);
  }

  lemma {:induction false} RunInv(run: seq<Sys>, i: nat)
    requires IsRun(run) && i < |run|
    ensures Inv(run[i])
  {
    if i == 0 {
      InitInv(run[0]);
    } else {
      RunInv(run, i - 1);
      assert StepTo(run, i);
      NextInv(run[i - 1], run[i]);
    }
  }

  // ----- Main results -----

  /** A chain of parents from slot path[0] up to init, through live processes. */
  ghost predicate IsAncestry(ps: seq<Proc>, path: seq<int>) {
    && path != [] && path[|path| - 1] == INIT
    && (forall k :: 0 <= k < |path| ==> 0 <= path[k] < |ps| && (k > 0 ==> Live(ps[path[k]])))
    && (forall k :: 0 < k < |path| ==> ps[path[k - 1]].parent == path[k])
  }

  lemma {:induction false} ClimbToInit(s: Sys, i: int) returns (path: seq<int>)
    requires Inv(s) && 0 <= i < NPROC && (Live(s.ps[i]) || s.ps[i].state.ZOMBIE?)
    ensures path != [] && path[0] == i && IsAncestry(s.ps, path)
    decreases s.ps[i].pid - s.ps[INIT].pid
  {
    if i == INIT {
      path := [INIT];
    } else {
      assert HasParent(s.ps, i);
      var rest := ClimbToInit(s, s.ps[i].parent);
      path := [i] + rest;
      forall k | 0 < k < |path| ensures s.ps[path[k - 1]].parent == path[k] {
        if k > 1 {
          assert path[k - 1] == rest[k - 2] && path[k] == rest[k - 1];
        }
      }
    }
  }

  /** At every moment of every run, every live or zombie process hangs under
      init by a chain of live parents, no zombie or free slot has children, and
      no parent is asleep in wait() with a zombie child. */
  lemma ProcessTree(run: seq<Sys>, n: nat, i: int)
    requires IsRun(run) && n < |run| && 0 <= i < NPROC
    ensures Shape(run[n])
    ensures Live(run[n].ps[i]) || run[n].ps[i].state.ZOMBIE? ==>
              exists path :: path != [] && path[0] == i && IsAncestry(run[n].ps, path)
    ensures HasChild(run[n].ps, i) ==> Live(run[n].ps[i])
    ensures run[n].ps[i].state.SLEEPING? && run[n].ps[i].chan == ProcChan(i) ==> !HasZombieChild(run[n].ps, i)
  {
    RunInv(run, n);
    var s := run[n];
    if Live(s.ps[i]) || s.ps[i].state.ZOMBIE? {
      var path := ClimbToInit(s, i);
    }
    if HasChild(s.ps, i) {
      var k :| 0 <= k < NPROC && s.ps[k].parent == i;
      assert HasParent(s.ps, k);
    }
  }

  // ----- What one step does to the fields, and what it means over runs -----

  /** wakeup(c) makes every sleeper on c runnable, and touches nothing else. */
  lemma WakeupReaches(s: Sys, s': Sys, c: Chan, i: int)
    requires Shape(s) && NextStep(s, s', Wakeup(c)) && 0 <= i < NPROC
    ensures |s'.ps| == NPROC && s'.cur == s.cur && s'.nextpid == s.nextpid
    ensures !(s'.ps[i].state.SLEEPING? && s'.ps[i].chan == c)
    ensures s.ps[i].state.SLEEPING? && s.ps[i].chan == c ==>
              s'.ps[i].state.RUNNABLE? && s'.ps[i].(state := SLEEPING) == s.ps[i]
    ensures !(s.ps[i].state.SLEEPING? && s.ps[i].chan == c) ==> s'.ps[i] == s.ps[i]
  {
  }

  /** A process keeps the CPU at a trap exactly when it is below its limit and the trap is not the timer's; it pays a
      stride for that, and otherwise is runnable with a new limit. */
  lemma TrapDecides(s: Sys, s': Sys, timer: bool)
    requires Inv(s) && NextStep(s, s', Trap(timer))
    ensures |s'.ps| == NPROC && forall i :: 0 <= i < NPROC && i != s.cur ==> s'.ps[i] == s.ps[i]
    ensures var p, q := s.ps[s.cur], s'.ps[s.cur];
            && s'.cur == (if !timer && p.pass < p.limit then s.cur else NONE)
            && (s'.cur == s.cur ==> q.state.RUNNING? && q == p.(pass := Int32(p.pass + p.stride)))
            && (s'.cur == NONE ==>
                  q.state.RUNNABLE? && q == p.(state := q.state, limit := Int32(p.limit + p.pass + p.stride)))
  {
    Int32Twice(s.ps[s.cur].limit, s.ps[s.cur].pass + s.ps[s.cur].stride);
  }

  /** kill marks the one process with that pid, and leaves nobody with it asleep. */
  lemma KillMarks(s: Sys, s': Sys, pid: int)
    requires Inv(s) && NextStep(s, s', Kill(pid))
    ensures |s'.ps| == NPROC && s'.cur == s.cur
    ensures exists i :: 0 <= i < NPROC && s.ps[i].pid == pid && s'.ps[i].killed
    ensures forall i :: 0 <= i < NPROC && s'.ps[i].pid == pid && pid != 0 ==> s'.ps[i].killed
    ensures forall i :: 0 <= i < NPROC && s'.ps[i].pid == pid ==> !s'.ps[i].state.SLEEPING?
    ensures forall i :: 0 <= i < NPROC ==>
              && s'.ps[i] == s.ps[i].(killed := s'.ps[i].killed, state := s'.ps[i].state)
              && (s.ps[i].killed ==> s'.ps[i].killed)
              && (s'.ps[i].state == s.ps[i].state || (s.ps[i].state.SLEEPING? && s'.ps[i].state.RUNNABLE?))
    ensures forall i :: 0 <= i < NPROC && s.ps[i].pid != pid ==> s'.ps[i] == s.ps[i]
  {
  }

  ghost predicate Takes(run: seq<Sys>, steps: seq<Step>, i: nat) {
    i < |steps| && i + 1 < |run| && Shape(run[i]) && NextStep(run[i], run[i + 1], steps[i])
  }

  /** A run together with its steps. */
  ghost predicate Traced(run: seq<Sys>, steps: seq<Step>) {
    |run| == |steps| + 1 && Init(run[0]) && forall i :: 0 <= i < |steps| ==> Takes(run, steps, i)
  }

  lemma TracedInv(run: seq<Sys>, steps: seq<Step>, n: nat)
    requires Traced(run, steps) && n < |run|
    ensures Inv(run[n])
  {
    forall i | 0 < i < |run| ensures StepTo(run, i) {
      assert Takes(run, steps, i - 1);
    }
    RunInv(run, n);
  }

  predicate AsleepOn(p: Proc, c: Chan) {
    p.state.SLEEPING? && p.chan == c
  }

  /** The step that would have woken a sleeper on c in slot i: a wakeup of c, the exit of a child of a waiting parent, a
      kill of the sleeper, or the scheduler, which picks sleepers too. */
  ghost predicate Wakes(s: Sys, step: Step, i: int, c: Chan)
    requires Shape(s) && 0 <= i < NPROC
  {
    match step
    case Wakeup(c') => c' == c
    case Exit => s.cur != NONE && c == ProcChan(s.ps[s.cur].parent)
    case Kill(pid) => pid == s.ps[i].pid && pid != 0
    case Dispatch(m) => m == i
    case _ => false
  }

  /** Who is asleep on c after a step was so before it and the step woke nobody there, or has just gone to sleep. */
  lemma StillAsleep(s: Sys, s': Sys, step: Step, i: int, c: Chan)
    requires Inv(s) && NextStep(s, s', step) && 0 <= i < NPROC && |s'.ps| == NPROC && AsleepOn(s'.ps[i], c)
    ensures || (AsleepOn(s.ps[i], c) && !Wakes(s, step, i, c))
            || (s.cur == i && (step == Sleep(c) || (step == WaitSleep && c == ProcChan(i))))
  {
    match step
    case Exit => ExitedAt(s.ps, s.cur, i);
    case Kill(pid) => KillMarks(s, s', pid);
    case Wakeup(c') => WakeupReaches(s, s', c', i);
    case _ =>
  }

  /** Step m puts slot i to sleep on c. */
  ghost predicate FallsAsleep(run: seq<Sys>, steps: seq<Step>, m: nat, i: int, c: Chan) {
    && m < |steps| && m < |run| && run[m].cur == i
    && (steps[m] == Sleep(c) || (steps[m] == WaitSleep && c == ProcChan(i)))
  }

  ghost predicate SleepsOn(run: seq<Sys>, steps: seq<Step>, k: nat, i: int, c: Chan)
    requires 0 <= i < NPROC
  {
    k < |steps| && k < |run| && Shape(run[k]) && AsleepOn(run[k].ps[i], c) && !Wakes(run[k], steps[k], i, c)
  }

  lemma AsleepBefore(run: seq<Sys>, steps: seq<Step>, n: nat, i: int, c: Chan)
    requires Traced(run, steps) && n < |steps| && 0 <= i < NPROC && Shape(run[n + 1]) && AsleepOn(run[n + 1].ps[i], c)
    ensures SleepsOn(run, steps, n, i, c) || FallsAsleep(run, steps, n, i, c)
  {
    TracedInv(run, steps, n);
    assert Takes(run, steps, n);
    StillAsleep(run[n], run[n + 1], steps[n], i, c);
  }

  /** No wakeup is lost: at every moment of every run, a process asleep on c went to sleep on it at some step m, and
      nothing that wakes it has happened since. */
  lemma {:induction false} NoLostWakeup(run: seq<Sys>, steps: seq<Step>, n: nat, i: int, c: Chan) returns (m: nat)
    requires Traced(run, steps) && n < |run| && 0 <= i < NPROC && Shape(run[n]) && AsleepOn(run[n].ps[i], c)
    ensures m < n && FallsAsleep(run, steps, m, i, c) && forall k :: m < k < n ==> SleepsOn(run, steps, k, i, c)
  {
    assert n > 0;
    AsleepBefore(run, steps, n - 1, i, c);
    if FallsAsleep(run, steps, n - 1, i, c) {
      m := n - 1;
    } else {
      m := NoLostWakeup(run, steps, n - 1, i, c);
    }
  }

  lemma ReapFrees(s: Sys, s': Sys, r: int, i: int)
    requires Inv(s) && NextStep(s, s', Reap(r)) && 0 <= i < NPROC
    ensures |s'.ps| == NPROC && s'.ps[i].pid != r && 0 < r < s'.nextpid
  {
  }

  lemma PidsMove(s: Sys, s': Sys, step: Step, i: int)
    requires Inv(s) && NextStep(s, s', step) && 0 <= i < NPROC
    ensures |s'.ps| == NPROC && s'.nextpid >= s.nextpid
    ensures s'.ps[i].pid == s.ps[i].pid || s'.ps[i].pid == 0 || s'.ps[i].pid >= s.nextpid
  {
    match step
    case Exit => ExitedAt(s.ps, s.cur, i);
    case Wakeup(c) => WakeupReaches(s, s', c, i);
    case _ =>
  }

  ghost predicate Gone(s: Sys, r: int) {
    Shape(s) && 0 < r < s.nextpid && forall i :: 0 <= i < NPROC ==> s.ps[i].pid != r
  }

  lemma ReapGone(s: Sys, s': Sys, r: int)
    requires Inv(s) && NextStep(s, s', Reap(r)) && Shape(s')
    ensures Gone(s', r)
  {
    forall i | 0 <= i < NPROC ensures s'.ps[i].pid != r {
      ReapFrees(s, s', r, i);
    }
  }

  lemma StaysGone(s: Sys, s': Sys, step: Step, r: int)
    requires Inv(s) && NextStep(s, s', step) && Shape(s') && Gone(s, r)
    ensures Gone(s', r)
  {
    forall i | 0 <= i < NPROC ensures s'.ps[i].pid != r && s'.nextpid >= s.nextpid {
      PidsMove(s, s', step, i);
    }
    PidsMove(s, s', step, 0);
  }

  lemma GoneStep(run: seq<Sys>, steps: seq<Step>, n: nat, r: int)
    requires Traced(run, steps) && n < |steps| && (steps[n] == Reap(r) || Gone(run[n], r))
    ensures Gone(run[n + 1], r)
  {
    TracedInv(run, steps, n);
    TracedInv(run, steps, n + 1);
    assert Takes(run, steps, n);
    if steps[n] == Reap(r) {
      ReapGone(run[n], run[n + 1], r);
    } else {
      StaysGone(run[n], run[n + 1], steps[n], r);
    }
  }

  /** A pid that wait has returned is nobody's ever after. */
  lemma {:induction false} PidGone(run: seq<Sys>, steps: seq<Step>, k: nat, n: nat, r: int)
    requires Traced(run, steps) && k < n < |run| && steps[k] == Reap(r)
    ensures Gone(run[n], r)
    decreases n
  {
    if k < n - 1 {
      PidGone(run, steps, k, n - 1, r);
    }
    GoneStep(run, steps, n - 1, r);
  }

  // ----- Marks that outlive their process -----

  /** No free or half-made slot is marked, so that every process begins unmarked. */
  ghost predicate NoOldMarks(s: Sys)
    requires Shape(s)
  {
    forall i :: 0 <= i < NPROC && (s.ps[i].state.UNUSED? || s.ps[i].state.EMBRYO?) ==> !s.ps[i].killed
  }

  /** Only processes that have been published have this pid. */
  ghost predicate NamesProcess(s: Sys, step: Step)
    requires Shape(s)
  {
    step.Kill? ==>
      forall i :: 0 <= i < NPROC && s.ps[i].pid == step.pid ==> Live(s.ps[i]) || s.ps[i].state.ZOMBIE?
  }

  lemma MarksKept(s: Sys, s': Sys, step: Step)
    requires Inv(s) && NextStep(s, s', step) && Shape(s') && NoOldMarks(s)
    ensures NamesProcess(s, step) ==> NoOldMarks(s')
    ensures !NamesProcess(s, step) ==> !NoOldMarks(s')
  {
    match step
    case Exit =>
      forall i | 0 <= i < NPROC && (s'.ps[i].state.UNUSED? || s'.ps[i].state.EMBRYO?) ensures !s'.ps[i].killed {
        ExitedAt(s.ps, s.cur, i);
      }
    case Kill(pid) =>
      KillNames(s, s', pid);
    case _ =>
  }

  lemma KillNames(s: Sys, s': Sys, pid: int)
    requires Inv(s) && NextStep(s, s', Kill(pid)) && Shape(s') && NoOldMarks(s)
    ensures NamesProcess(s, Kill(pid)) <==> NoOldMarks(s')
  {
    var k :| 0 <= k < NPROC && s.ps[k].pid == pid && s'.ps == s.ps[k := Killed(s.ps[k])];
    forall i | 0 <= i < NPROC && s.ps[i].pid == pid
      ensures (Live(s.ps[i]) || s.ps[i].state.ZOMBIE?) <==> (Live(s.ps[k]) || s.ps[k].state.ZOMBIE?)
    {
      assert i == k || pid == 0;
    }
    assert s'.ps[k] == Killed(s.ps[k]);
    assert NoOldMarks(s') <==> Live(s.ps[k]) || s.ps[k].state.ZOMBIE?;
  }

  lemma MarksStep(run: seq<Sys>, steps: seq<Step>, n: nat)
    requires Traced(run, steps) && n < |steps| && Shape(run[n]) && NoOldMarks(run[n])
    ensures Shape(run[n + 1]) && (NamesProcess(run[n], steps[n]) <==> NoOldMarks(run[n + 1]))
  {
    TracedInv(run, steps, n);
    TracedInv(run, steps, n + 1);
    assert Takes(run, steps, n);
    MarksKept(run[n], run[n + 1], steps[n]);
  }

  lemma {:induction false} MarksRun(run: seq<Sys>, steps: seq<Step>, n: nat)
    requires Traced(run, steps) && n < |run|
    requires forall k :: 0 <= k < |steps| ==> Shape(run[k]) && NamesProcess(run[k], steps[k])
    ensures Shape(run[n]) && NoOldMarks(run[n])
  {
    if n > 0 {
      MarksRun(run, steps, n - 1);
      MarksStep(run, steps, n - 1);
    }
  }

  /** Every process of a run begins unmarked, if and only if every kill names a published process. */
  lemma BornUnmarked(run: seq<Sys>, steps: seq<Step>)
    requires Traced(run, steps)
    ensures forall n :: 0 <= n < |run| ==> Shape(run[n])
    ensures (forall n :: 0 <= n < |run| ==> NoOldMarks(run[n]))
            <==> forall k :: 0 <= k < |steps| ==> NamesProcess(run[k], steps[k])
  {
    forall n | 0 <= n < |run| ensures Shape(run[n]) {
      TracedInv(run, steps, n);
    }
    if forall n :: 0 <= n < |run| ==> NoOldMarks(run[n]) {
      forall k | 0 <= k < |steps| ensures NamesProcess(run[k], steps[k]) {
        assert NoOldMarks(run[k]) && NoOldMarks(run[k + 1]);
        MarksStep(run, steps, k);
      }
    }
    if forall k :: 0 <= k < |steps| ==> NamesProcess(run[k], steps[k]) {
      forall n | 0 <= n < |run| ensures NoOldMarks(run[n]) {
        MarksRun(run, steps, n);
      }
    }
  }

  /** kill(0) finds a free slot and marks it: the process that fork makes there next begins its life killed. */
  lemma KillZero() returns (run: seq<Sys>, steps: seq<Step>)
    ensures Traced(run, steps) && |steps| == 3 && Shape(run[3])
    ensures steps[1] == Kill(0) && run[3].ps[1].state.EMBRYO? && run[3].ps[1].killed
  {
    var none := seq(NPROC, _ => NONE);
    var unused := Proc(UNUSED, 0, NONE, NoChan, false, 0, 0, 0, 0);
    var ps := seq(NPROC, _ => unused)[INIT := Proc(RUNNABLE, 1, NONE, NoChan, false, 300, 33, 0, 33)];
    var ps1 := ps[INIT := Charged(ps[INIT])];
    var ps2 := ps1[1 := Killed(unused)];
    steps := [Dispatch(INIT), Kill(0), Alloc(1, 500)];
    run := [Sys(ps, 2, NONE, none), Sys(ps1, 2, INIT, none), Sys(ps2, 2, INIT, none),
            Sys(ps2[1 := Allocated(ps2[1], 2, 500)], 3, INIT, none[INIT := 1])];
    assert IsPick(ps, INIT);
    assert IsKilled(ps1, ps2, 0) by {
      assert ps1[1].pid == 0 && forall j :: 0 <= j < 1 ==> ps1[j].pid != 0;
    }
    assert Takes(run, steps, 0) && Takes(run, steps, 1) && Takes(run, steps, 2);
  }

  // ----- Slots are not lost -----

  /** Every half-made slot has somebody who is making it. */
  ghost predicate NoLostSlots(s: Sys)
    requires Shape(s)
  {
    forall i :: 0 <= i < NPROC && s.ps[i].state.EMBRYO? ==> i in s.making
  }

  lemma HalfMade(s: Sys, s': Sys, step: Step, i: int, j: int)
    requires Inv(s) && NextStep(s, s', step) && Shape(s') && 0 <= i < NPROC && s'.ps[i].state.EMBRYO?
    requires s.ps[i].state.EMBRYO? ==> 0 <= j < NPROC && s.making[j] == i
    ensures i in s'.making
  {
    match step
    case Exit => ExitedAt(s.ps, s.cur, i); assert s'.making[j] == i;
    case Alloc(np, _) => assert s'.making[if i == np then s.cur else j] == i;
    case _ => assert s'.making[j] == i;
  }

  lemma SlotsKept(s: Sys, s': Sys, step: Step)
    requires Inv(s) && NextStep(s, s', step) && Shape(s') && NoLostSlots(s)
    ensures NoLostSlots(s')
  {
    forall i | 0 <= i < NPROC && s'.ps[i].state.EMBRYO? ensures i in s'.making {
      var j := 0;
      if s.ps[i].state.EMBRYO? {
        j :| 0 <= j < NPROC && s.making[j] == i;
      }
      HalfMade(s, s', step, i, j);
    }
  }

  /** At every moment of every run a slot that is neither free nor a process's is being filled in by a live process. */
  lemma {:induction false} SlotsAccounted(run: seq<Sys>, steps: seq<Step>, n: nat)
    requires Traced(run, steps) && n < |run|
    ensures Inv(run[n]) && NoLostSlots(run[n])
  {
    TracedInv(run, steps, n);
    if n > 0 {
      SlotsAccounted(run, steps, n - 1);
      assert Takes(run, steps, n - 1);
      SlotsKept(run[n - 1], run[n], steps[n - 1]);
    }
  }

  // ----- Children belong to who made them -----

  /** Step m is the end of a fork by p that makes slot i. */
  ghost predicate Makes(run: seq<Sys>, steps: seq<Step>, m: nat, p: int, i: int) {
    && m < |steps| && m < |run| && steps[m].Publish?
    && run[m].cur == p && 0 <= p < |run[m].making| && run[m].making[p] == i
  }

  predicate ChildOf(s: Sys, i: int, p: int, pid: int) {
    0 <= i < |s.ps| && s.ps[i].parent == p && s.ps[i].pid == pid
  }

  lemma ChildBefore(s: Sys, s': Sys, step: Step, i: int, p: int, pid: int)
    requires Inv(s) && NextStep(s, s', step) && Shape(s') && ChildOf(s', i, p, pid) && p != NONE && p != INIT
    ensures ChildOf(s, i, p, pid) || (step.Publish? && s.cur == p && s.making[p] == i)
  {
    match step
    case Exit => ExitedAt(s.ps, s.cur, i);
    case Wakeup(c) => WakeupReaches(s, s', c, i);
    case _ =>
  }

  lemma ChildStep(run: seq<Sys>, steps: seq<Step>, n: nat, i: int, p: int, pid: int)
    requires Traced(run, steps) && n < |steps| && ChildOf(run[n + 1], i, p, pid) && p != NONE && p != INIT
    ensures ChildOf(run[n], i, p, pid) || Makes(run, steps, n, p, i)
  {
    TracedInv(run, steps, n);
    TracedInv(run, steps, n + 1);
    assert Takes(run, steps, n);
    ChildBefore(run[n], run[n + 1], steps[n], i, p, pid);
  }

  /** At every moment of every run a process's parent is the one that forked it, and has been ever since, or init. */
  lemma {:induction false} MadeByParent(run: seq<Sys>, steps: seq<Step>, n: nat, i: int, p: int, pid: int)
    returns (m: nat)
    requires Traced(run, steps) && n < |run| && ChildOf(run[n], i, p, pid) && p != NONE && p != INIT
    ensures m < n && Makes(run, steps, m, p, i) && forall k :: m < k <= n ==> ChildOf(run[k], i, p, pid)
  {
    assert n > 0;
    ChildStep(run, steps, n - 1, i, p, pid);
    if ChildOf(run[n - 1], i, p, pid) {
      m := MadeByParent(run, steps, n - 1, i, p, pid);
    } else {
      m := n - 1;
    }
  }
}
