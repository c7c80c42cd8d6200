/**
 proc.c and the end of trap.c on one CPU, as they run: the process table is an
 array of records updated in place.  Every public method is one section that the
 source runs under ptable.lock and is one step of ProcTree, so the tree of
 processes is kept by construction; `sleep`, `yield` and `exit` end by giving up
 the CPU, which is `cur` becoming NONE.
 */
module ProcTable {
  import opened Process
  import PT = ProcTree

  class Ptable {
    const proc: array<Proc>
    var nextpid: int
    var cur: int
    ghost var making: seq<int>   // per process, the slot it is filling in inside forks()

    ghost predicate Shaped()
      reads this
    {
      proc.Length == NPROC && (cur == NONE || 0 <= cur < NPROC)
    }

    ghost function System(): (s: PT.Sys)
      reads this, proc
    {
      PT.Sys(proc[..], nextpid, cur, making)
    }

    ghost predicate Valid()
      reads this, proc
    {
      Shaped() && PT.Inv(System())
    }

    /** The system has taken one step, and is as it should be. */
    twostate predicate Stepped(step: PT.Step)
      reads this, proc
    {
      Valid() && PT.Shape(old(System())) && PT.NextStep(old(System()), System(), step)
    }

    /** `pinit` and `userinit`: one process, init, in slot 0. */
    constructor ()
      ensures Valid() && fresh(proc) && PT.Init(System())
    {
      proc := new Proc[NPROC](_ => Proc(UNUSED, 0, NONE, NoChan, false, 0, 0, 0, 0));
      nextpid, cur := 1, NONE;
      making := seq(NPROC, _ => NONE);
      new;
      proc[INIT] := proc[INIT].(state := EMBRYO, pid := nextpid);
      nextpid := nextpid + 1;
      proc[INIT] := proc[INIT].(tickets := 300, pass := 0,
                                stride := Quotient(10000, 300), limit := Quotient(10000, 300));
      proc[INIT] := proc[INIT].(state := RUNNABLE);
      PT.InitInv(System());
    }

    /** The scan of the stride scheduler. */
    method Pick() returns (minProc: int)
      requires Shaped()
      ensures IsPick(proc[..], minProc)
    {
      minProc := 0;
      for p := 0 to NPROC
        invariant 0 <= minProc < NPROC && (minProc == 0 || minProc < p)
        invariant minProc == 0 || Eligible(proc[minProc])
        invariant proc[minProc].pass <= proc[0].pass
        invariant forall j :: 0 <= j < p && Eligible(proc[j]) ==> proc[minProc].pass <= proc[j].pass
        invariant forall j :: 0 <= j < minProc && (j == 0 || Eligible(proc[j])) ==> proc[minProc].pass < proc[j].pass
      {
        if proc[p].pass < proc[minProc].pass && Eligible(proc[p]) {
          minProc := p;
        }
      }
    }

    /** One turn of `scheduler` up to the context switch. */
    method Dispatch()
      requires Valid() && cur == NONE
      modifies this`cur, proc
      ensures cur != NONE && Stepped(PT.Dispatch(cur))
    {
      var m := Pick();
      if proc[m].pass >= proc[m].limit {
        proc[m] := proc[m].(limit := Int32(proc[m].limit + Int32(proc[m].pass + proc[m].stride)));
      } else {
        proc[m] := proc[m].(pass := Int32(proc[m].pass + proc[m].stride));
      }
      proc[m] := proc[m].(state := RUNNING);
      cur := m;
      if proc[m].pass < 0 {
        proc[m] := proc[m].(pass := 0, limit := proc[m].stride);
      }
      assert proc[..] == old(proc[..])[m := Charged(old(proc[..])[m])];
      PT.StepInv(old(System()), System(), PT.Dispatch(m));
    }

    /** The end of `trap`, with the `yield` it may call. */
    method Trap(timer: bool)
      requires Valid() && cur != NONE
      modifies this`cur, proc
      ensures Stepped(PT.Trap(timer))
      ensures cur == if !timer && old(proc[cur]).pass < old(proc[cur]).limit then old(cur) else NONE
      ensures cur == NONE ==> proc[old(cur)].state.RUNNABLE?
      ensures cur != NONE ==> proc[cur].state.RUNNING? && proc[cur].limit == old(proc[cur]).limit
    {
      var p, me := proc[cur], cur;
      if p.state.RUNNING? && (p.pass >= p.limit || timer) {
        proc[cur] := p.(limit := Int32(p.limit + Int32(p.pass + p.stride)));
        proc[cur] := proc[cur].(state := RUNNABLE);   // yield
        cur := NONE;
      } else if p.state.RUNNING? && p.pass < p.limit {
        proc[cur] := p.(pass := Int32(p.pass + p.stride));
      }
      assert proc[..] == old(proc[..])[me := Trapped(p, timer)];
      PT.StepInv(old(System()), System(), PT.Trap(timer));
    }

    /** `wakeup1` */
    method Wakeup1(c: Chan)
      requires Shaped()
      modifies proc
      ensures proc[..] == Woken(old(proc[..]), c)
      ensures forall i :: 0 <= i < NPROC ==> !(proc[i].state.SLEEPING? && proc[i].chan == c)
      ensures forall i :: 0 <= i < NPROC ==>
                proc[i] == if old(proc[i]).state.SLEEPING? && old(proc[i]).chan == c
                           then old(proc[i]).(state := RUNNABLE) else old(proc[i])
    {
      for p := 0 to NPROC
        invariant forall i :: 0 <= i < p ==> proc[i] == Woken(old(proc[..]), c)[i]
        invariant forall i :: p <= i < NPROC ==> proc[i] == old(proc[i])
      {
        if proc[p].state.SLEEPING? && proc[p].chan == c {
          proc[p] := proc[p].(state := RUNNABLE);
        }
      }
    }

    /** `wakeup` */
    method Wakeup(c: Chan)
      requires Valid()
      modifies proc
      ensures Stepped(PT.Wakeup(c))
      ensures forall i :: 0 <= i < NPROC ==> !(proc[i].state.SLEEPING? && proc[i].chan == c)
      ensures forall i :: 0 <= i < NPROC ==>
                proc[i] == if old(proc[i]).state.SLEEPING? && old(proc[i]).chan == c
                           then old(proc[i]).(state := RUNNABLE) else old(proc[i])
    {
      Wakeup1(c);
      PT.StepInv(old(System()), System(), PT.Wakeup(c));
    }

    /** The locked part of `allocproc` inside `forks`: the lowest unused slot, or NONE when there is none. */
    method AllocProc(tickets: int) returns (np: int)
      requires Valid() && tickets != 0 && cur != NONE && making[cur] == NONE
      modifies this`nextpid, this`making, proc
      ensures np == NONE ==> System() == old(System()) && forall i :: 0 <= i < NPROC ==> !proc[i].state.UNUSED?
      ensures np != NONE ==> Stepped(PT.Alloc(np, tickets)) && forall i :: 0 <= i < np ==> !old(proc[i]).state.UNUSED?
    {
      np := 0;
      while np < NPROC && !proc[np].state.UNUSED?
        invariant 0 <= np <= NPROC
        invariant forall i :: 0 <= i < np ==> !proc[i].state.UNUSED?
      {
        np := np + 1;
      }
      if np == NPROC {
        return NONE;
      }
      proc[np] := proc[np].(state := EMBRYO, pid := nextpid);
      nextpid := nextpid + 1;
      proc[np] := proc[np].(tickets := tickets, pass := 0, stride := Quotient(10000, tickets));
      proc[np] := proc[np].(limit := proc[np].stride);
      making := making[cur := np];
      assert proc[..] == old(proc[..])[np := Allocated(old(proc[..])[np], old(nextpid), tickets)];
      PT.StepInv(old(System()), System(), PT.Alloc(np, tickets));
    }

    /** `forks` when the copy of the address space fails. */
    method GiveUp(np: int)
      requires Valid() && cur != NONE && making[cur] == np != NONE
      modifies this`making, proc
      ensures Stepped(PT.GiveUp)
    {
      proc[np] := proc[np].(state := UNUSED);
      making := making[cur := NONE];
      assert proc[..] == old(proc[..])[np := old(proc[..])[np].(state := UNUSED)];
      PT.StepInv(old(System()), System(), PT.GiveUp);
    }

    /** The end of `forks`: the child gets its parent and becomes runnable. */
    method Publish(np: int, tickets: int)
      requires Valid() && cur != NONE && making[cur] == np != NONE && tickets != 0
      modifies this`making, proc
      ensures Stepped(PT.Publish(tickets))
    {
      proc[np] := proc[np].(parent := cur);
      proc[np] := proc[np].(tickets := tickets, pass := 0, stride := Quotient(10000, tickets));
      proc[np] := proc[np].(limit := proc[np].stride);
      proc[np] := proc[np].(state := RUNNABLE);
      making := making[cur := NONE];
      ghost var was := old(proc[..])[np];
      assert was.state.EMBRYO?;
      assert proc[..] == old(proc[..])[np := Allocated(was, was.pid, tickets).(parent := cur, state := RUNNABLE)];
      PT.StepInv(old(System()), System(), PT.Publish(tickets));
    }

    /** The table part of `exit`. */
    method LeaveTable()
      requires Shaped() && cur != NONE
      modifies this`cur, proc
      ensures Shaped() && cur == NONE
      ensures proc[..] == Exited(old(proc[..]), old(cur))
    {
      var me := cur;
      ghost var was := proc[..];
      Wakeup1(ProcChan(proc[me].parent));
      ghost var told := proc[..];
      assert HasZombieChild(was, me) <==> HasZombieChild(told, me) by {
        assert forall i :: 0 <= i < NPROC ==>
            told[i].parent == was[i].parent && (told[i].state.ZOMBIE? <==> was[i].state.ZOMBIE?);
      }
      ghost var reap := false;
      for p := 0 to NPROC
        invariant cur == me
        invariant reap <==> exists k :: 0 <= k < p && told[k].parent == me && told[k].state.ZOMBIE?
        invariant forall i :: 0 <= i < NPROC ==> proc[i] == Adopted(told[i], me, i < p, reap)
      {
        if proc[p].parent == me {
          proc[p] := proc[p].(parent := INIT);
          if proc[p].state.ZOMBIE? {
            Wakeup1(ProcChan(INIT));
            reap := true;
          }
        }
      }
      proc[me] := proc[me].(state := ZOMBIE);
      cur := NONE;
    }

    /** The locked part of `exit`.  exit() panics in init. */
    method Exit()
      requires Valid() && cur != NONE && cur != INIT && making[cur] == NONE
      modifies this`cur, proc
      ensures Stepped(PT.Exit)
    {
      LeaveTable();
      PT.StepInv(old(System()), System(), PT.Exit);
    }

    /** One pass of the loop in `wait`: reap a zombie child, give up, or go to sleep. */
    method WaitOnce() returns (r: int, slept: bool)
      requires Valid() && cur != NONE && making[cur] == NONE
      modifies this`cur, proc
      ensures HasZombieChild(old(proc[..]), old(cur)) ==> !slept && Stepped(PT.Reap(r))
      ensures !HasZombieChild(old(proc[..]), old(cur)) ==>
                (slept <==> HasChild(old(proc[..]), old(cur)) && !old(proc[cur]).killed)
      ensures !HasZombieChild(old(proc[..]), old(cur)) && !slept ==> r == -1 && System() == old(System())
      ensures slept ==> Stepped(PT.WaitSleep)
    {
      var havekids := false;
      for p := 0 to NPROC
        invariant proc[..] == old(proc[..]) && cur == old(cur)
        invariant havekids <==> exists i :: 0 <= i < p && proc[i].parent == cur
        invariant forall i :: 0 <= i < p ==> !(proc[i].parent == cur && proc[i].state.ZOMBIE?)
      {
        if proc[p].parent == cur {
          havekids := true;
          if proc[p].state.ZOMBIE? {
            r := proc[p].pid;
            proc[p] := proc[p].(state := UNUSED, pid := 0, parent := NONE, killed := false);
            assert proc[..] == old(proc[..])[p := Reaped(old(proc[..])[p])];
            PT.StepInv(old(System()), System(), PT.Reap(r));
            return r, false;
          }
        }
      }
      if !havekids || proc[cur].killed {
        return -1, false;
      }
      ghost var me := cur;
      proc[cur] := proc[cur].(chan := ProcChan(cur));
      proc[cur] := proc[cur].(state := SLEEPING);
      cur := NONE;
      assert proc[..] == old(proc[..])[me := old(proc[..])[me].(chan := ProcChan(me), state := SLEEPING)];
      PT.StepInv(old(System()), System(), PT.WaitSleep);
      return 0, true;
    }

    /** `sleep` once it holds ptable.lock, on anything but a process. */
    method Sleep(c: Chan)
      requires Valid() && cur != NONE && !c.ProcChan?
      modifies this`cur, proc
      ensures Stepped(PT.Sleep(c))
    {
      ghost var me := cur;
      proc[cur] := proc[cur].(chan := c);
      proc[cur] := proc[cur].(state := SLEEPING);
      cur := NONE;
      assert proc[..] == old(proc[..])[me := old(proc[..])[me].(chan := c, state := SLEEPING)];
      PT.StepInv(old(System()), System(), PT.Sleep(c));
    }

    /** `kill`: the first process with that pid is marked, and woken if it sleeps. */
    method Kill(pid: int) returns (r: int)
      requires Valid()
      modifies proc
      ensures r == -1 || r == 0
      ensures r == -1 ==> System() == old(System()) && forall i :: 0 <= i < NPROC ==> proc[i].pid != pid
      ensures r == 0 ==> Stepped(PT.Kill(pid))
      ensures forall i :: 0 <= i < NPROC && proc[i].pid == pid ==> !proc[i].state.SLEEPING?
      ensures forall i :: 0 <= i < NPROC && proc[i].pid == pid && pid != 0 ==> proc[i].killed
    {
      for p := 0 to NPROC
        invariant proc[..] == old(proc[..])
        invariant forall i :: 0 <= i < p ==> proc[i].pid != pid
      {
        if proc[p].pid == pid {
          proc[p] := proc[p].(killed := true);
          if proc[p].state.SLEEPING? {
            proc[p] := proc[p].(state := RUNNABLE);
          }
          assert proc[..] == old(proc[..])[p := Killed(old(proc[..])[p])];
          PT.StepInv(old(System()), System(), PT.Kill(pid));
          PT.KillMarks(old(System()), System(), pid);
          return 0;
        }
      }
      return -1;
    }
  }
}
