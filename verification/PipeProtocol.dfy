/**
 The pipe lock, the process-table lock and sleep/wakeup, for any number of
 readers and writers of one pipe: one step per lock operation or loop turn of
 pipe.c and of `sleep`.  `wakeup` takes and releases ptable.lock inside one step.
 */
module PipeProtocol {
  import opened Pipe

  datatype Role = Reader | Writer | Closer(writable: bool)

  /**
   Where a process stands in `piperead`, `pipewrite` or `pipeclose`.  Sleep to Ready is `sleep`:
   wanting ptable.lock, holding both locks, the pipe lock released, asleep, woken.
   */
  datatype Place = Out | Lock | Test | Copy | WakeFull | Sleep | Both | Commit | Asleep | Ready | Wake | Finish

  /** `left` is what the call still has to move; `unsignalled`, that it stored bytes since it last woke readers. */
  datatype Pc = Pc(role: Role, at: Place, left: nat, unsignalled: bool)

  /**
   lk and pt hold the process inside p->lock and ptable.lock, -1 for nobody.
   readref and writeref: an open file still refers to that end.
   lost is history: some return of `pipewrite` has left a reader asleep beside unread bytes.
   */
  datatype State = State(pcs: seq<Pc>, killed: seq<bool>, lk: int, pt: int, count: nat,
                         readopen: bool, writeopen: bool, readref: bool, writeref: bool, lost: bool)

  datatype Event = Call(i: nat, role: Role, n: nat) | Run(i: nat) | Kill(i: nat) | Dispatch(i: nat)

  /** Asleep on &p->nread (&p->nwrite), or past the release of the pipe lock on the way there. */
  predicate Down(pc: Pc, role: Role) {
    pc.role == role && (pc.at.Commit? || pc.at.Asleep?)
  }

  predicate SomeReaderDown(pcs: seq<Pc>) {
    exists j :: 0 <= j < |pcs| && Down(pcs[j], Reader)
  }

  function Woken(pc: Pc, role: Role): (r: Pc) {
    if pc.role == role && pc.at.Asleep? then pc.(at := Ready) else pc
  }

  function WakeAll(pcs: seq<Pc>, role: Role): (r: seq<Pc>) {
    seq(|pcs|, j requires 0 <= j < |pcs| => Woken(pcs[j], role))
  }

  /** A step of process i: it keeps its role and all marks, and others at most wake up. */
  predicate Shifts(s: State, t: State, i: nat) {
    && |t.pcs| == |s.pcs| && i < |s.pcs| && t.pcs[i].role == s.pcs[i].role && t.killed == s.killed
    && forall j :: 0 <= j < |s.pcs| && j != i ==>
         t.pcs[j] == s.pcs[j] || (s.pcs[j].at.Asleep? && t.pcs[j] == s.pcs[j].(at := Ready))
  }

  function Moved(s: State, i: nat, at: Place): (r: State)
    requires i < |s.pcs|
    ensures Shifts(s, r, i)
  {
    s.(pcs := s.pcs[i := s.pcs[i].(at := at)])
  }

  /** A wakeup of `role` by process i, which then stands at `at`. */
  function Wakeup(s: State, i: nat, role: Role, at: Place): (r: State)
    requires i < |s.pcs|
    ensures Shifts(s, r, i)
  {
    s.(pcs := WakeAll(s.pcs, role)[i := s.pcs[i].(at := at, unsignalled := false)])
  }

  /** What process i waits for before its next step. */
  predicate CanRun(s: State, i: nat) {
    i < |s.pcs| == |s.killed| &&
    match s.pcs[i].at
    case Out => false
    case Asleep => false
    case Lock => s.lk < 0
    case Sleep => s.pt < 0
    case Ready => s.pt < 0
    case WakeFull => s.pt < 0
    case Wake => s.pt < 0
    case _ => true
  }

  function Locked(s: State, i: nat): (r: State)
    requires i < |s.pcs|
    ensures Shifts(s, r, i)
  {
    match s.pcs[i].role
    case Closer(w) =>
      if w then Moved(s, i, Wake).(lk := i, writeopen := false) else Moved(s, i, Wake).(lk := i, readopen := false)
    case _ => Moved(s, i, Test).(lk := i)
  }

  /** The head of the reader's wait loop. */
  function TestRead(s: State, i: nat): (r: State)
    requires i < |s.pcs| == |s.killed|
    ensures Shifts(s, r, i)
  {
    if s.count == 0 && s.writeopen then
      if s.killed[i] then Moved(s, i, Out).(lk := -1) else Moved(s, i, Sleep)
    else Moved(s, i, Copy)
  }

  /** One turn of the writer's loops. */
  function TestWrite(s: State, i: nat): (r: State)
    requires i < |s.pcs| == |s.killed|
    ensures Shifts(s, r, i)
  {
    var pc := s.pcs[i];
    if pc.left == 0 then Moved(s, i, Wake)
    else if s.count == PIPESIZE then
      if !s.readopen || s.killed[i] then
        Moved(s, i, Out).(lk := -1, lost := s.lost || (pc.unsignalled && SomeReaderDown(s.pcs)))
      else Moved(s, i, WakeFull)
    else s.(pcs := s.pcs[i := pc.(left := pc.left - 1, unsignalled := true)], count := s.count + 1)
  }

  function CopyOut(s: State, i: nat): (r: State)
    requires i < |s.pcs|
    ensures Shifts(s, r, i)
  {
    var pc := s.pcs[i];
    if pc.left == 0 || s.count == 0 then Moved(s, i, Wake)
    else s.(pcs := s.pcs[i := pc.(left := pc.left - 1)], count := s.count - 1)
  }

  /** Whom a process wakes at Wake. */
  function Wakes(role: Role): (r: Role) {
    if role == Reader || role == Closer(false) then Writer else Reader
  }

  function DoRun(s: State, i: nat): (r: State)
    requires CanRun(s, i)
    ensures Shifts(s, r, i)
  {
    match s.pcs[i].at
    case Lock => Locked(s, i)
    case Test => if s.pcs[i].role.Reader? then TestRead(s, i) else TestWrite(s, i)
    case Copy => CopyOut(s, i)
    case WakeFull => Wakeup(s, i, Reader, Sleep)
    case Sleep => Moved(s, i, Both).(pt := i)
    case Both => Moved(s, i, Commit).(lk := -1)
    case Commit => Moved(s, i, Asleep).(pt := -1)
    case Ready => Moved(s, i, Lock)
    case Wake => Wakeup(s, i, Wakes(s.pcs[i].role), Finish)
    case Finish => Moved(s, i, Out).(lk := -1)
    case _ => s
  }

  predicate Calling(pc: Pc, role: Role) {
    pc.role == role && !pc.at.Out?
  }

  predicate Idle(pcs: seq<Pc>, role: Role) {
    forall j :: 0 <= j < |pcs| ==> !Calling(pcs[j], role)
  }

  /** Calls come from open files; an end is closed once its last file goes, when no call on it is under way. */
  predicate Enabled(s: State, e: Event) {
    e.i < |s.pcs| == |s.killed| &&
    match e
    case Call(i, role, n) =>
      s.pcs[i].at.Out? &&
      (match role
       case Reader => s.readref
       case Writer => s.writeref
       case Closer(w) => if w then s.writeref && Idle(s.pcs, Writer) else s.readref && Idle(s.pcs, Reader))
    case Run(i) => CanRun(s, i)
    case Kill(i) => s.pt < 0
    // The stride dispatcher also picks sleeping processes.
    case Dispatch(i) => s.pt < 0 && s.pcs[i].at.Asleep?
  }

  function After(s: State, e: Event): (r: State)
    requires Enabled(s, e)
  {
    match e
    case Call(i, role, n) =>
      s.(pcs := s.pcs[i := Pc(role, Lock, n, false)],
         readref := s.readref && role != Closer(false), writeref := s.writeref && role != Closer(true))
    case Run(i) => DoRun(s, i)
    case Kill(i) => (if s.pcs[i].at.Asleep? then Moved(s, i, Ready) else s).(killed := s.killed[i := true])
    case Dispatch(i) => Moved(s, i, Lock)
  }

  predicate Init(s: State) {
    && |s.pcs| == |s.killed| && (forall j :: 0 <= j < |s.pcs| ==> s.pcs[j].at == Out)
    && s.lk == -1 && s.pt == -1 && s.count == 0
    && s.readopen && s.writeopen && s.readref && s.writeref && !s.lost
  }

  /** run lists the states passed, first and last included. */
  ghost predicate Trace(run: seq<State>, es: seq<Event>) {
    && |run| == |es| + 1 && Init(run[0])
    && forall k :: 0 <= k < |es| ==> StepAt(run, es, k)
  }

  ghost predicate StepAt(run: seq<State>, es: seq<Event>, k: nat)
    requires k < |es| < |run|
  {
    Enabled(run[k], es[k]) && run[k + 1] == After(run[k], es[k])
  }

  predicate HoldsLk(pc: Pc) {
    pc.at.Test? || pc.at.Copy? || pc.at.WakeFull? || pc.at.Sleep? || pc.at.Both? || pc.at.Wake? || pc.at.Finish?
  }

  predicate HoldsPt(pc: Pc) {
    pc.at.Both? || pc.at.Commit?
  }

  /** The holder of the pipe lock is bound to wake `role` before it lets go of it. */
  predicate WillWake(s: State, role: Role) {
    && 0 <= s.lk < |s.pcs|
    && var pc := s.pcs[s.lk];
       || (pc.at.Wake? && Wakes(pc.role) == role)
       || (if role.Reader? then pc.at.WakeFull? || (pc.role.Writer? && pc.at.Test? && pc.unsignalled) else pc.at.Copy?)
  }

  /** No reader needs waking now that is not about to be woken. */
  predicate ReadersFine(s: State) {
    (s.count == 0 && s.writeopen) || WillWake(s, Reader) || s.lost
  }

  predicate WritersFine(s: State) {
    (s.count == PIPESIZE && s.readopen) || WillWake(s, Writer)
  }

  /** What holds of one process at pc in state s. */
  predicate PcOk(s: State, pc: Pc) {
    && (Down(pc, Reader) ==> ReadersFine(s))
    && (Down(pc, Writer) ==> WritersFine(s))
    && (Calling(pc, Reader) ==> s.readref)
    && (Calling(pc, Writer) ==> s.writeref)
    && (pc.at.Copy? ==> pc.role.Reader?) && (pc.at.WakeFull? ==> pc.role.Writer?)
    && (pc.role.Closer? ==> pc.at.Out? || pc.at.Lock? || pc.at.Wake? || pc.at.Finish?)
    && (pc.role.Closer? && !pc.at.Out? ==> if pc.role.writable then !s.writeref else !s.readref)
    && (pc.at.Sleep? || pc.at.Both? || pc.at.WakeFull? ==>
          if pc.role.Reader? then s.count == 0 && s.writeopen else s.count == PIPESIZE && s.readopen)
  }

  predicate Shape(s: State) {
    && |s.pcs| == |s.killed| && s.count <= PIPESIZE
    && -1 <= s.lk < |s.pcs| && -1 <= s.pt < |s.pcs|
    && (s.readref ==> s.readopen) && (s.writeref ==> s.writeopen)
  }

  predicate LocksOk(s: State) {
    forall j :: 0 <= j < |s.pcs| ==> (HoldsLk(s.pcs[j]) <==> s.lk == j) && (HoldsPt(s.pcs[j]) <==> s.pt == j)
  }

  predicate Inv(s: State) {
    Shape(s) && LocksOk(s) && forall j :: 0 <= j < |s.pcs| ==> PcOk(s, s.pcs[j])
  }

  /** Who holds a lock changes only between i and nobody. */
  predicate Passed(was: int, now: int, i: nat, holds: bool) {
    (now == i <==> holds) && (now == was || ((was == i || was == -1) && (now == i || now == -1)))
  }

  /** s to t is a step of i that keeps both sides fine and leaves what a lock holder relies on. */
  predicate Careful(s: State, t: State, i: nat)
    requires i < |s.pcs| == |t.pcs|
  {
    && Shape(t) && PcOk(t, t.pcs[i])
    && t.readref == s.readref && t.writeref == s.writeref
    && ((t.count == s.count && t.readopen == s.readopen && t.writeopen == s.writeopen) || s.lk == i || s.lk == -1)
    && Passed(s.lk, t.lk, i, HoldsLk(t.pcs[i])) && Passed(s.pt, t.pt, i, HoldsPt(t.pcs[i]))
  }

  lemma OtherOk(s: State, t: State, i: nat, j: nat)
    requires Inv(s) && i < |s.pcs| == |t.pcs| && j < |s.pcs| && i != j && Careful(s, t, i)
    requires t.pcs[j] == s.pcs[j]
    requires Down(s.pcs[j], Reader) && ReadersFine(s) ==> ReadersFine(t)
    requires Down(s.pcs[j], Writer) && WritersFine(s) ==> WritersFine(t)
    ensures PcOk(t, t.pcs[j])
  {
  }

  lemma StepInv(s: State, t: State, i: nat)
    requires Inv(s) && i < |s.pcs| && t.pcs == s.pcs[i := if i < |t.pcs| then t.pcs[i] else s.pcs[i]]
    requires Careful(s, t, i)
    requires ReadersFine(s) ==> ReadersFine(t)
    requires WritersFine(s) ==> WritersFine(t)
    ensures Inv(t)
  {
    forall j | 0 <= j < |s.pcs| && j != i ensures PcOk(t, t.pcs[j]) {
      OtherOk(s, t, i, j);
    }
  }

  lemma LockInv(s: State, i: nat)
    requires Inv(s) && CanRun(s, i) && s.pcs[i].at.Lock?
    ensures Inv(Locked(s, i))
  {
    StepInv(s, Locked(s, i), i);
  }

  lemma TestReadInv(s: State, i: nat)
    requires Inv(s) && CanRun(s, i) && s.pcs[i].at.Test? && s.pcs[i].role.Reader?
    ensures Inv(TestRead(s, i))
  {
    StepInv(s, TestRead(s, i), i);
  }

  lemma TestWriteInv(s: State, i: nat)
    requires Inv(s) && CanRun(s, i) && s.pcs[i].at.Test? && s.pcs[i].role.Writer?
    ensures Inv(TestWrite(s, i))
  {
    var t := TestWrite(s, i);
    if t.pcs[i].at.Out? {
      assert ReadersFine(s) && !ReadersFine(t) ==> !SomeReaderDown(s.pcs);
      forall j | 0 <= j < |s.pcs| && j != i ensures PcOk(t, t.pcs[j]) {
        OtherOk(s, t, i, j);
      }
    } else {
      StepInv(s, t, i);
    }
  }

  lemma CopyInv(s: State, i: nat)
    requires Inv(s) && CanRun(s, i) && s.pcs[i].at.Copy?
    ensures Inv(CopyOut(s, i))
  {
    StepInv(s, CopyOut(s, i), i);
  }

  /** The steps of `sleep`. */
  lemma SleepInv(s: State, i: nat)
    requires Inv(s) && CanRun(s, i)
    requires s.pcs[i].at.Sleep? || s.pcs[i].at.Both? || s.pcs[i].at.Commit? || s.pcs[i].at.Ready? || s.pcs[i].at.Finish?
    ensures Inv(DoRun(s, i))
  {
    StepInv(s, DoRun(s, i), i);
  }

  lemma WakeupInv(s: State, i: nat, role: Role)
    requires Inv(s) && CanRun(s, i) && (s.pcs[i].at.Wake? || s.pcs[i].at.WakeFull?)
    requires role == if s.pcs[i].at.Wake? then Wakes(s.pcs[i].role) else Reader
    ensures Inv(Wakeup(s, i, role, if s.pcs[i].at.Wake? then Finish else Sleep))
  {
    var t := Wakeup(s, i, role, if s.pcs[i].at.Wake? then Finish else Sleep);
    assert Careful(s, t, i);
    forall j | 0 <= j < |s.pcs| && j != i ensures PcOk(t, t.pcs[j]) {
      if t.pcs[j] == s.pcs[j] {
        OtherOk(s, t, i, j);
      }
    }
  }

  lemma RunInv(s: State, i: nat)
    requires Inv(s) && CanRun(s, i)
    ensures Inv(DoRun(s, i))
  {
    match s.pcs[i].at
    case Lock => LockInv(s, i);
    case Test =>
      if s.pcs[i].role.Reader? {
        TestReadInv(s, i);
      } else {
        TestWriteInv(s, i);
      }
    case Copy => CopyInv(s, i);
    case WakeFull => WakeupInv(s, i, Reader);
    case Wake => WakeupInv(s, i, Wakes(s.pcs[i].role));
    case _ => SleepInv(s, i);
  }

  lemma CallInv(s: State, e: Event)
    requires Inv(s) && e.Call? && Enabled(s, e)
    ensures Inv(After(s, e))
  {
    var t := After(s, e);
    forall j | 0 <= j < |s.pcs| ensures PcOk(t, t.pcs[j]) {
      assert PcOk(s, s.pcs[j]);
      assert e.role == Closer(false) ==> !Calling(s.pcs[j], Reader);
      assert e.role == Closer(true) ==> !Calling(s.pcs[j], Writer);
    }
  }

  lemma NextInv(s: State, e: Event)
    requires Inv(s) && Enabled(s, e)
    ensures Inv(After(s, e))
  {
    match e
    case Call(_, _, _) => CallInv(s, e);
    case Run(i) => RunInv(s, i);
    case Kill(i) => StepInv(s, After(s, e), i);
    case Dispatch(i) => StepInv(s, After(s, e), i);
  }

  lemma InitInv(s: State)
    requires Init(s)
    ensures Inv(s)
  {
  }

  lemma {:induction false} TraceInv(run: seq<State>, es: seq<Event>, k: nat)
    requires Trace(run, es) && k <= |es|
    ensures Inv(run[k])
  {
    if k == 0 {
      InitInv(run[0]);
    } else {
      TraceInv(run, es, k - 1);
      assert StepAt(run, es, k - 1);
      NextInv(run[k - 1], es[k - 1]);
    }
  }

  /** j sleeps although its wait is over, and nobody holds the pipe lock to wake it. */
  predicate Stuck(s: State, j: nat) {
    && j < |s.pcs| && s.lk == -1
    && ((Down(s.pcs[j], Reader) && (s.count > 0 || !s.writeopen))
        || (Down(s.pcs[j], Writer) && (s.count < PIPESIZE || !s.readopen)))
  }

  /** Nobody is ever stuck, but for a reader that an aborted `pipewrite` left behind. */
  lemma StuckMeansLost(s: State, j: nat)
    requires Inv(s) && Stuck(s, j)
    ensures s.lost && s.pcs[j].role.Reader?
  {
    assert PcOk(s, s.pcs[j]);
  }

  /** The one step that loses a wakeup. */
  predicate Abandons(s: State, e: Event) {
    && Enabled(s, e) && e.Run?
    && var pc := s.pcs[e.i];
       && pc.role.Writer? && pc.at.Test? && pc.left > 0 && s.count == PIPESIZE && s.killed[e.i]
       && pc.unsignalled && SomeReaderDown(s.pcs)
  }

  predicate SomeStuck(s: State) {
    exists j :: 0 <= j < |s.pcs| && Stuck(s, j)
  }

  lemma LostStep(s: State, e: Event)
    requires Inv(s) && Enabled(s, e)
    ensures After(s, e).lost <==> s.lost || Abandons(s, e)
    ensures Abandons(s, e) ==> After(s, e).lk == -1
  {
    if e.Run? {
      assert PcOk(s, s.pcs[e.i]);
      if SomeReaderDown(s.pcs) {
        var j :| 0 <= j < |s.pcs| && Down(s.pcs[j], Reader);
        assert PcOk(s, s.pcs[j]);
      }
    }
  }

  /** From any reachable state: a step that abandons a sleeping reader leaves it stuck; if none ever did, nobody is. */
  lemma LosesIffAbandons(s: State, e: Event)
    requires Inv(s) && Enabled(s, e)
    ensures Inv(After(s, e))
    ensures After(s, e).lost <==> s.lost || Abandons(s, e)
    ensures Abandons(s, e) ==> SomeStuck(After(s, e))
    ensures SomeStuck(After(s, e)) ==> After(s, e).lost
  {
    var t := After(s, e);
    NextInv(s, e);
    LostStep(s, e);
    if Abandons(s, e) {
      var j :| 0 <= j < |s.pcs| && Down(s.pcs[j], Reader);
      assert Stuck(t, j);
    }
    if SomeStuck(t) {
      var j :| 0 <= j < |t.pcs| && Stuck(t, j);
      StuckMeansLost(t, j);
    }
  }

  lemma TraceStep(run: seq<State>, es: seq<Event>, k: nat)
    requires Trace(run, es) && k < |es|
    ensures run[k + 1].lost <==> run[k].lost || Abandons(run[k], es[k])
    ensures Abandons(run[k], es[k]) ==> SomeStuck(run[k + 1])
    ensures SomeStuck(run[k + 1]) ==> run[k + 1].lost
  {
    TraceInv(run, es, k);
    assert StepAt(run, es, k);
    LosesIffAbandons(run[k], es[k]);
  }

  /** Step k - 1 may set the flag for good; when it does, it leaves something behind. */
  ghost predicate SetsFlag(flag: seq<bool>, left: seq<bool>, sets: seq<bool>, k: nat)
    requires 1 <= k <= |sets| && |flag| == |left| == |sets| + 1
  {
    && (flag[k] <==> flag[k - 1] || sets[k - 1])
    && (sets[k - 1] ==> left[k]) && (left[k] ==> flag[k])
  }

  /** A flag that each step may set for good, and what it leaves behind when it first does. */
  lemma {:induction false} Sticky(flag: seq<bool>, left: seq<bool>, sets: seq<bool>, n: nat)
    requires n <= |sets| && |flag| == |left| == |sets| + 1 && !flag[0] && !left[0]
    requires forall k :: 1 <= k <= |sets| ==> SetsFlag(flag, left, sets, k)
    ensures flag[n] <==> exists k :: 0 <= k <= n && left[k]
    ensures flag[n] <==> exists k :: 0 <= k < n && sets[k]
  {
    if n > 0 {
      Sticky(flag, left, sets, n - 1);
      assert SetsFlag(flag, left, sets, n);
    }
  }

  /** Over whole runs: someone was stuck at some time if and only if a killed writer abandoned a sleeping reader. */
  lemma LostWakeup(run: seq<State>, es: seq<Event>)
    requires Trace(run, es)
    ensures run[|es|].lost <==> exists k :: 0 <= k <= |es| && SomeStuck(run[k])
    ensures run[|es|].lost <==> exists k :: 0 <= k < |es| && Abandons(run[k], es[k])
  {
    var flag := seq(|es| + 1, k requires 0 <= k < |run| => run[k].lost);
    var left := seq(|es| + 1, k requires 0 <= k < |run| => SomeStuck(run[k]));
    var sets := seq(|es|, k requires 0 <= k < |es| < |run| => Abandons(run[k], es[k]));
    forall k | 1 <= k <= |es|
      ensures SetsFlag(flag, left, sets, k)
    {
      TraceStep(run, es, k - 1);
    }
    Sticky(flag, left, sets, |es|);
    assert forall k :: 0 <= k <= |es| ==> left[k] == SomeStuck(run[k]);
    assert forall k :: 0 <= k < |es| ==> sets[k] == Abandons(run[k], es[k]);
  }

  /** The two locks never deadlock: if any process is under way and awake, some process can step. */
  lemma NoDeadlock(s: State, i: nat)
    requires Inv(s) && i < |s.pcs| && !s.pcs[i].at.Out? && !s.pcs[i].at.Asleep?
    ensures exists j :: CanRun(s, j)
  {
    if !CanRun(s, i) {
      if s.pt >= 0 {
        assert CanRun(s, s.pt);
      } else {
        assert CanRun(s, s.lk);
      }
    }
  }

  lemma Extend(run: seq<State>, es: seq<Event>, e: Event) returns (run2: seq<State>, es2: seq<Event>)
    requires Trace(run, es) && Enabled(run[|es|], e)
    ensures Trace(run2, es2) && run2[|es2|] == After(run[|es|], e)
  {
    run2, es2 := run + [After(run[|es|], e)], es + [e];
    forall k | 0 <= k < |es2| ensures StepAt(run2, es2, k) {
      if k < |es| {
        assert StepAt(run, es, k);
      }
    }
  }

  /** A writer alone with the lock stores until the pipe is full. */
  lemma {:induction false} Fill(run: seq<State>, es: seq<Event>, n: nat) returns (run2: seq<State>, es2: seq<Event>)
    requires Trace(run, es) && Inv(run[|es|])
    requires var s := run[|es|];
      |s.pcs| == 2 && s.pcs[1] == Pc(Writer, Test, n + 1, n < PIPESIZE) && s.count + n == PIPESIZE
    ensures Trace(run2, es2)
    ensures run2[|es2|] == run[|es|].(count := PIPESIZE, pcs := [run[|es|].pcs[0], Pc(Writer, Test, 1, true)])
    decreases n
  {
    var s := run[|es|];
    if n == 0 {
      assert s.pcs == [s.pcs[0], s.pcs[1]];
      run2, es2 := run, es;
    } else {
      NextInv(s, Run(1));
      run2, es2 := Extend(run, es, Run(1));
      run2, es2 := Fill(run2, es2, n - 1);
    }
  }

  /** The steps of `sleep`, with both locks free to take. */
  lemma GoToSleep(run: seq<State>, es: seq<Event>) returns (run2: seq<State>, es2: seq<Event>)
    requires Trace(run, es)
    requires var s := run[|es|]; |s.pcs| == |s.killed| == 2 && s.pcs[0].at.Sleep? && s.pt == -1
    ensures Trace(run2, es2)
    ensures run2[|es2|] == run[|es|].(lk := -1, pcs := [run[|es|].pcs[0].(at := Asleep), run[|es|].pcs[1]])
  {
    run2, es2 := Extend(run, es, Run(0));
    run2, es2 := Extend(run2, es2, Run(0));
    run2, es2 := Extend(run2, es2, Run(0));
  }

  lemma ReaderGoesToSleep() returns (run: seq<State>, es: seq<Event>)
    ensures Trace(run, es)
    ensures run[|es|] == State([Pc(Reader, Asleep, 1, false), Pc(Reader, Out, 0, false)], [false, false],
                               -1, -1, 0, true, true, true, true, false)
  {
    var out := Pc(Reader, Out, 0, false);
    run, es := [State([out, out], [false, false], -1, -1, 0, true, true, true, true, false)], [];
    run, es := Extend(run, es, Call(0, Reader, 1));
    run, es := Extend(run, es, Run(0));
    run, es := Extend(run, es, Run(0));
    run, es := GoToSleep(run, es);
  }

  /** The loss happens: a reader sleeps, a writer of 513 bytes is killed and returns with the pipe full. */
  lemma WakeupCanBeLost()
    ensures exists run, es :: Trace(run, es) && SomeStuck(run[|es|])
  {
    var run, es := ReaderGoesToSleep();
    run, es := Extend(run, es, Call(1, Writer, PIPESIZE + 1));
    run, es := Extend(run, es, Kill(1));
    run, es := Extend(run, es, Run(1));
    TraceInv(run, es, |es|);
    run, es := Fill(run, es, PIPESIZE);
    run, es := Extend(run, es, Run(1));
    assert Stuck(run[|es|], 0);
  }

  // ----- Killed while waiting -----

  /** Past the test of `killed`, on the way to sleep or there. */
  predicate OnWay(pc: Pc) {
    pc.at.WakeFull? || pc.at.Sleep? || pc.at.Both? || pc.at.Commit? || pc.at.Asleep?
  }

  /** The kill comes after the test of `killed` and before the sleep, and so wakes nobody. */
  predicate KilledLate(s: State, e: Event, i: nat) {
    e == Kill(i) && i < |s.pcs| && (s.pcs[i].at.WakeFull? || s.pcs[i].at.Sleep?)
  }

  predicate Doomed(s: State, i: nat) {
    i < |s.pcs| && i < |s.killed| && OnWay(s.pcs[i]) && s.killed[i]
  }

  /** No marked process sets out to sleep. */
  lemma MarkedReader(s: State, i: nat)
    requires i < |s.pcs| == |s.killed| && s.killed[i]
    ensures !OnWay(TestRead(s, i).pcs[i])
  {
  }

  lemma MarkedWriter(s: State, i: nat)
    requires i < |s.pcs| == |s.killed| && s.killed[i] && s.pcs[i].at.Test?
    ensures !OnWay(TestWrite(s, i).pcs[i])
  {
  }

  lemma LockedAwake(s: State, i: nat)
    requires i < |s.pcs|
    ensures !OnWay(Locked(s, i).pcs[i])
  {
    var at := if s.pcs[i].role.Closer? then Wake else Test;
    assert Locked(s, i).pcs == s.pcs[i := s.pcs[i].(at := at)];
  }

  lemma CopyAwake(s: State, i: nat)
    requires i < |s.pcs| && s.pcs[i].at.Copy?
    ensures !OnWay(CopyOut(s, i).pcs[i])
  {
  }

  lemma MarkedStaysAwake(s: State, i: nat)
    requires CanRun(s, i) && s.killed[i] && !OnWay(s.pcs[i])
    ensures !OnWay(DoRun(s, i).pcs[i])
  {
    var at := s.pcs[i].at;
    if at.Test? && s.pcs[i].role.Reader? {
      MarkedReader(s, i);
    } else if at.Test? {
      MarkedWriter(s, i);
    } else if at.Lock? {
      LockedAwake(s, i);
    } else if at.Copy? {
      CopyAwake(s, i);
    } else {
      assert at.Ready? || at.Wake? || at.Finish?;
    }
  }

  lemma DoomedRun(s: State, i: nat, j: nat)
    requires CanRun(s, j) && Doomed(DoRun(s, j), i)
    ensures Doomed(s, i)
  {
    assert Shifts(s, DoRun(s, j), j);
    if i == j && !OnWay(s.pcs[i]) {
      MarkedStaysAwake(s, i);
    }
  }

  lemma DoomedStep(s: State, e: Event, i: nat)
    requires Inv(s) && Enabled(s, e) && Doomed(After(s, e), i)
    ensures Doomed(s, i) || KilledLate(s, e, i)
  {
    match e
    case Run(j) =>
      DoomedRun(s, i, j);
    case Kill(j) =>
      assert i < |s.pcs| && (HoldsPt(s.pcs[i]) <==> s.pt == i);
    case _ =>
  }

  lemma DoomedBefore(run: seq<State>, es: seq<Event>, n: nat, i: nat)
    requires Trace(run, es) && n < |es| && Doomed(run[n + 1], i)
    ensures Doomed(run[n], i) || KilledLate(run[n], es[n], i)
  {
    TraceInv(run, es, n);
    assert StepAt(run, es, n);
    DoomedStep(run[n], es[n], i);
  }

  /** Over every run: whoever sleeps although it was killed was killed between its test of the mark and `sleep`, and has
      not been woken since. */
  lemma {:induction false} KilledAsleep(run: seq<State>, es: seq<Event>, n: nat, i: nat) returns (k: nat)
    requires Trace(run, es) && n <= |es| && Doomed(run[n], i)
    ensures k < n && KilledLate(run[k], es[k], i) && forall m :: k < m <= n ==> Doomed(run[m], i)
  {
    assert n > 0;
    DoomedBefore(run, es, n - 1, i);
    if Doomed(run[n - 1], i) {
      k := KilledAsleep(run, es, n - 1, i);
    } else {
      k := n - 1;
    }
  }

  /** And that happens: a reader of an empty pipe is killed there, and sleeps. */
  lemma KilledCanSleep() returns (run: seq<State>, es: seq<Event>)
    ensures Trace(run, es)
    ensures var s := run[|es|]; |s.pcs| == |s.killed| == 2 && s.pcs[0].at.Asleep? && s.killed[0]
  {
    var out := Pc(Reader, Out, 0, false);
    run, es := [State([out, out], [false, false], -1, -1, 0, true, true, true, true, false)], [];
    run, es := Extend(run, es, Call(0, Reader, 1));
    run, es := Extend(run, es, Run(0));
    run, es := Extend(run, es, Run(0));
    run, es := Extend(run, es, Kill(0));
    run, es := GoToSleep(run, es);
  }

  // ----- Freeing the pipe -----

  predicate EndOpen(s: State, writable: bool) {
    if writable then s.writeopen else s.readopen
  }

  predicate Closing(pc: Pc) {
    pc.role.Closer? && !pc.at.Out?
  }

  /** An end is closed by one process, whose turn at the lock is still to come as long as the end is open. */
  predicate CloseOnce(s: State) {
    && (forall j :: 0 <= j < |s.pcs| && Closing(s.pcs[j]) && s.pcs[j].at.Lock? ==> EndOpen(s, s.pcs[j].role.writable))
    && (forall j, k :: 0 <= j < k < |s.pcs| && Closing(s.pcs[j]) && Closing(s.pcs[k]) ==>
          s.pcs[j].role != s.pcs[k].role)
  }

  lemma CloseOnceCall(s: State, e: Event)
    requires Inv(s) && CloseOnce(s) && Enabled(s, e) && e.Call?
    ensures CloseOnce(After(s, e))
  {
    forall j | 0 <= j < |s.pcs| && Closing(s.pcs[j]) ensures s.pcs[j].role != e.role {
      assert PcOk(s, s.pcs[j]);
    }
  }

  lemma RunLeavesLock(s: State, i: nat)
    requires CanRun(s, i) && PcOk(s, s.pcs[i]) && Closing(s.pcs[i])
    ensures !DoRun(s, i).pcs[i].at.Lock?
  {
  }

  /** A process on its way through a call keeps its role, and a closer leaves the lock behind once. */
  lemma RoleKept(s: State, e: Event, j: nat, t: State)
    requires Inv(s) && Enabled(s, e) && !e.Call? && j < |s.pcs| && t == After(s, e)
    ensures |t.pcs| == |s.pcs| && t.pcs[j].role == s.pcs[j].role && (Closing(t.pcs[j]) ==> Closing(s.pcs[j]))
    ensures Closing(t.pcs[j]) && t.pcs[j].at.Lock? ==> s.pcs[j].at.Lock? && (e.Run? ==> j != e.i)
  {
    assert PcOk(s, s.pcs[j]);
    if e.Run? && j == e.i && Closing(s.pcs[j]) {
      RunLeavesLock(s, j);
    }
  }

  lemma OpenKept(s: State, e: Event, w: bool)
    requires Inv(s) && Enabled(s, e) && !e.Call?
    ensures EndOpen(s, w) ==> EndOpen(After(s, e), w) || (e.Run? && s.pcs[e.i].role == Closer(w) && s.pcs[e.i].at.Lock?)
  {
  }

  lemma CloseOnceStep(s: State, e: Event)
    requires Inv(s) && CloseOnce(s) && Enabled(s, e)
    ensures CloseOnce(After(s, e))
  {
    if e.Call? {
      CloseOnceCall(s, e);
    } else {
      CloseOnceOther(s, e, After(s, e));
    }
  }

  lemma CloseOnceOther(s: State, e: Event, t: State)
    requires Inv(s) && CloseOnce(s) && Enabled(s, e) && !e.Call? && t == After(s, e) && |t.pcs| == |s.pcs|
    ensures CloseOnce(t)
  {
    forall j | 0 <= j < |s.pcs|
      ensures t.pcs[j].role == s.pcs[j].role && (Closing(t.pcs[j]) ==> Closing(s.pcs[j]))
      ensures Closing(t.pcs[j]) && t.pcs[j].at.Lock? ==> EndOpen(t, t.pcs[j].role.writable)
    {
      RoleKept(s, e, j, t);
      if Closing(t.pcs[j]) && t.pcs[j].at.Lock? {
        OpenKept(s, e, t.pcs[j].role.writable);
      }
    }
  }

  lemma {:induction false} TraceCloseOnce(run: seq<State>, es: seq<Event>, k: nat)
    requires Trace(run, es) && k <= |es|
    ensures CloseOnce(run[k])
  {
    if k > 0 {
      TraceCloseOnce(run, es, k - 1);
      TraceInv(run, es, k - 1);
      assert StepAt(run, es, k - 1);
      CloseOnceStep(run[k - 1], es[k - 1]);
    }
  }

  /** The step in which `pipeclose` frees the page. */
  predicate Frees(s: State, e: Event) {
    && Enabled(s, e) && e.Run? && Closing(s.pcs[e.i]) && s.pcs[e.i].at.Finish?
    && !s.readopen && !s.writeopen
  }

  /** Nobody is inside the pipe code and nobody can get in. */
  predicate Dead(s: State) {
    && (forall j :: 0 <= j < |s.pcs| ==> s.pcs[j].at.Out?)
    && !s.readref && !s.writeref
  }

  lemma FreesDead(s: State, e: Event)
    requires Inv(s) && CloseOnce(s) && Frees(s, e)
    ensures Dead(After(s, e))
  {
    forall j | 0 <= j < |s.pcs| && j != e.i ensures s.pcs[j].at.Out? {
      assert PcOk(s, s.pcs[j]);
    }
  }

  lemma DeadStays(s: State, e: Event)
    requires Dead(s) && Enabled(s, e)
    ensures Dead(After(s, e)) && !Frees(s, e)
  {
  }

  lemma {:induction false} DeadLater(run: seq<State>, es: seq<Event>, k: nat, m: nat)
    requires Trace(run, es) && k <= m <= |es| && Dead(run[k])
    ensures Dead(run[m])
    decreases m
  {
    if k < m {
      DeadLater(run, es, k, m - 1);
      assert StepAt(run, es, m - 1);
      DeadStays(run[m - 1], es[m - 1]);
    }
  }

  /** Over every run the page is freed at most once, when everyone else is out of the pipe code, for good. */
  lemma FreedOnce(run: seq<State>, es: seq<Event>, k: nat, m: nat)
    requires Trace(run, es) && k < |es| && Frees(run[k], es[k])
    ensures k < m < |es| ==> Dead(run[m]) && !Frees(run[m], es[m])
    ensures Dead(run[k + 1])
  {
    TraceInv(run, es, k);
    TraceCloseOnce(run, es, k);
    assert StepAt(run, es, k);
    FreesDead(run[k], es[k]);
    if k < m < |es| {
      DeadLater(run, es, k + 1, m);
      assert StepAt(run, es, m);
      DeadStays(run[m], es[m]);
    }
  }
}
