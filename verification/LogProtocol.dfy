/**
 The log shared by any number of concurrent file-system operations, as a step
 system: `begin_op`, `log_write` and `end_op` of different operations interleave
 freely, `commit` and recovery write one block per step, and the machine may
 lose power between any two steps, recovery included.

 The state carries its own history: `hist` lists the stores of every operation
 since the disk was formatted, and `durable` is how much of it is committed.
 */
module LogProtocol {
  import opened LogDisk

  /**
   budget: how many new blocks one operation may log, of which `begin_op` reserves MAXOPBLOCKS.
   nbuf: the buffers of the cache.  holders: how many buffers operations and readers hold at once
   between two steps, beside the pinned ones.
   */
  datatype Config = Config(start: nat, size: nat, format: Disk, budget: nat, nbuf: nat, holders: nat)

  datatype Op = Op(id: nat, left: nat)   // `left`: blocks it may still add to the log

  datatype Event =
    | Begin(op: nat)
    | Store(op: nat, b: int, v: Block)
    | End(op: nat)

  datatype Phase =
    | Running
    | Committing(pc: nat)   // pc single-block writes of commit() done
    | Booting
    | Recovering(pc: nat)
    | Panicked(why: Failure)

  /** bget finds every buffer in use; iderw gets a block beyond the disk; lh.block is written past its end. */
  datatype Failure = NoBuffer | BadBlock | Overrun

  datatype State = State(
    disk: Disk, cache: map<int, Block>, lh: seq<int>, held: nat, outstanding: int, phase: Phase,
    ops: seq<Op>, hist: seq<Event>, durable: nat)

  datatype Step =
    | BeginOp(id: nat)
    | LogWrite(k: nat, b: int, v: Block)
    | EndOp(k: nat)
    | CommitBlock
    | Hold
    | Release
    | NoBuffers
    | DiskPanic
    | ListOverrun(k: nat, b: int)
    | CommitDone
    | Crash
    | ReadLog
    | RecoverBlock
    | Boot

  // ----- What the history means -----

  ghost function Stored(d: Disk, e: Event): (r: Disk)
    ensures |r| == |d|
  {
    if e.Store? && 0 <= e.b < |d| then d[e.b := e.v] else d
  }

  ghost function Opened(ids: set<nat>, e: Event): set<nat> {
    if e.Begin? then ids + {e.op} else if e.End? then ids - {e.op} else ids
  }

  /** The home blocks after all the stores of a history. */
  ghost function Effect(d: Disk, h: seq<Event>): (r: Disk)
    ensures |r| == |d|
  {
    if h == [] then d else Stored(Effect(d, h[..|h| - 1]), h[|h| - 1])
  }

  /** The operations begun but not ended in a history. */
  ghost function Open(h: seq<Event>): (ids: set<nat>) {
    if h == [] then {} else Opened(Open(h[..|h| - 1]), h[|h| - 1])
  }

  lemma Snoc(d: Disk, h: seq<Event>, e: Event)
    ensures Effect(d, h + [e]) == Stored(Effect(d, h), e)
    ensures Open(h + [e]) == Opened(Open(h), e)
  {
    assert (h + [e])[..|h|] == h;
  }

  // ----- Steps -----

  ghost predicate Init(c: Config, s: State) {
    && c.size >= 1 && |c.format| == c.start && c.budget >= MAXOPBLOCKS
    && GoodDisk(s.disk, c.start, c.size)
    && DecodeHead(s.disk[c.start]) == []
    && s.disk[..c.start] == c.format
    && s == State(s.disk, map[], [], 0, 0, Running, [], [], 0)
  }

  /** A buffer is neither pinned nor held. */
  predicate CleanBuffer(c: Config, s: State) {
    |s.lh| + s.held < c.nbuf
  }

  function Remove<T>(s: seq<T>, k: nat): seq<T>
    requires k < |s|
  {
    s[..k] + s[k + 1..]
  }

  ghost predicate NextStep(c: Config, s: State, s': State, step: Step) {
    match step
    case BeginOp(id) =>
      && s.phase.Running?
      && |s.lh| + (s.outstanding + 1) * MAXOPBLOCKS <= LOGSIZE
      && (forall i :: 0 <= i < |s.ops| ==> s.ops[i].id != id)
      && s' == s.(outstanding := s.outstanding + 1, ops := s.ops + [Op(id, c.budget)], hist := s.hist + [Begin(id)])
    case LogWrite(k, b, v) =>
      && !s.phase.Panicked? && k < |s.ops| && 0 <= b < c.start
      && (b in s.lh || (s.ops[k].left > 0 && |s.lh| < LOGSIZE && CleanBuffer(c, s)))
      && var op := s.ops[k];
         s' == s.(cache := s.cache[b := v],
                  lh := if b in s.lh then s.lh else s.lh + [b],
                  ops := if b in s.lh then s.ops else s.ops[k := op.(left := op.left - 1)],
                  hist := s.hist + [Store(op.id, b, v)])
    case EndOp(k) =>
      && !s.phase.Panicked? && k < |s.ops|
      && s' == s.(outstanding := s.outstanding - 1,
                  ops := Remove(s.ops, k),
                  hist := s.hist + [End(s.ops[k].id)],
                  phase := if s.outstanding == 1 then Committing(0) else s.phase)
    case CommitBlock =>
      && s.phase.Committing? && CanWrite(c, s)
      && var pc := s.phase.pc;
         s' == s.(disk := CommitWrite(s.disk, c.start, s.cache, s.lh, pc),
                  phase := Committing(pc + 1),
                  durable := if pc == |s.lh| then |s.hist| else s.durable)
    case Hold =>
      && (s.phase.Running? || s.phase.Committing?) && s.held < c.holders && CleanBuffer(c, s)
      && s' == s.(held := s.held + 1)
    case Release =>
      && !s.phase.Panicked? && s.held > 0 && s' == s.(held := s.held - 1)
    case NoBuffers =>
      && NeedsBuffer(c, s) && !CleanBuffer(c, s)
      && s' == s.(phase := Panicked(NoBuffer))
    case DiskPanic =>
      && s.phase.Committing? && s.phase.pc < |s.lh| && c.start + 1 + s.phase.pc >= |s.disk| && CleanBuffer(c, s)
      && s' == s.(phase := Panicked(BadBlock))
    case ListOverrun(k, b) =>
      && !s.phase.Panicked? && k < |s.ops| && s.ops[k].left > 0 && 0 <= b < c.start && b !in s.lh
      && |s.lh| >= LOGSIZE && CleanBuffer(c, s)
      && s' == s.(phase := Panicked(Overrun))
    case CommitDone =>
      && s.phase.Committing? && s.phase.pc == (if s.lh == [] then 0 else 2 * |s.lh| + 2)
      && s' == s.(lh := [], cache := map[], phase := Running, durable := |s.hist|)
    case Crash =>
      && s.durable <= |s.hist|
      && s' == State(s.disk, map[], [], 0, 0, Booting, [], s.hist[..s.durable], s.durable)
    case ReadLog =>
      && s.phase.Booting? && c.start < |s.disk| && 0 <= s.disk[c.start][0] <= LOGSIZE
      && s' == s.(lh := DecodeHead(s.disk[c.start]), phase := Recovering(0))
    case RecoverBlock =>
      && s.phase.Recovering? && s.phase.pc <= |s.lh| && c.start + |s.lh| < |s.disk|
      && (forall i :: 0 <= i < |s.lh| ==> 0 <= s.lh[i] < c.start)
      && s' == s.(disk := RecoverWrite(s.disk, c.start, s.lh, s.phase.pc), phase := Recovering(s.phase.pc + 1))
    case Boot =>
      && s.phase.Recovering? && s.phase.pc == |s.lh| + 1
      && s' == s.(lh := [], phase := Running)
  }

  /** Somebody's next step is a `bget` of a block that is not in the cache. */
  ghost predicate NeedsBuffer(c: Config, s: State) {
    || ((s.phase.Running? || s.phase.Committing?) && s.held < c.holders)
    || (s.phase.Running? && exists k :: 0 <= k < |s.ops| && s.ops[k].left > 0)
    || (s.phase.Committing? && s.lh != [] && s.phase.pc <= 2 * |s.lh| + 1)
  }

  /** The block that commit writes next exists on the device, and there is a buffer for it. */
  ghost predicate CanWrite(c: Config, s: State)
    requires s.phase.Committing?
  {
    var pc := s.phase.pc;
    && s.lh != [] && |s.lh| <= LOGSIZE && pc <= 2 * |s.lh| + 1
    && CleanBuffer(c, s) && c.start < |s.disk|
    && (if pc < |s.lh| then c.start + 1 + pc < |s.disk| else c.start + |s.lh| < |s.disk|)
    && forall i :: 0 <= i < |s.lh| ==> 0 <= s.lh[i] < c.start && s.lh[i] in s.cache
  }

  ghost predicate Next(c: Config, s: State, s': State) {
    exists step :: NextStep(c, s, s', step)
  }

  ghost predicate IsRun(c: Config, run: seq<State>) {
    && run != [] && Init(c, run[0])
    && forall i :: 0 < i < |run| ==> StepTo(c, run, i)
  }

  ghost predicate StepTo(c: Config, run: seq<State>, i: nat)
    requires 0 < i < |run|
  {
    Next(c, run[i - 1], run[i])
  }

  // ----- The invariant -----

  function Reserved(ops: seq<Op>): (n: nat)
  {
    if ops == [] then 0 else ops[0].left + Reserved(ops[1..])
  }

  ghost function Ids(ops: seq<Op>): (ids: set<nat>) {
    set i | 0 <= i < |ops| :: ops[i].id
  }

  ghost predicate OpsOk(c: Config, s: State) {
    && s.outstanding == |s.ops| && s.held <= c.holders && c.budget >= MAXOPBLOCKS
    && (forall i :: 0 <= i < |s.ops| ==> s.ops[i].left <= c.budget)
    && (forall i, j :: 0 <= i < j < |s.ops| ==> s.ops[i].id != s.ops[j].id)
    && Open(s.hist) == Ids(s.ops)
    && (!s.phase.Running? && !s.phase.Panicked? ==> s.ops == [])
    && (s.phase.Running? && s.ops == [] ==> s.durable == |s.hist|)
  }

  ghost predicate SpaceOk(c: Config, s: State) {
    && |s.lh| <= LOGSIZE
    && (c.budget == MAXOPBLOCKS ==> |s.lh| + Reserved(s.ops) <= LOGSIZE)
    && Distinct(s.lh)
    && forall i :: 0 <= i < |s.lh| ==> 0 <= s.lh[i] < c.start
  }

  /** Whatever phase the machine is in, a reboot sees whole operations only. */
  ghost predicate AtomicOk(c: Config, s: State) {
    && c.size >= 1 && |c.format| == c.start
    && GoodDisk(s.disk, c.start, c.size)
    && s.durable <= |s.hist|
    && Logical(s.disk, c.start, c.size) == Effect(c.format, s.hist[..s.durable])
    && Open(s.hist[..s.durable]) == {}
  }

  /** The open transaction is the difference between the committed and the current files. */
  ghost predicate OpenTransaction(c: Config, s: State)
    requires GoodDisk(s.disk, c.start, c.size)
  {
    && (forall b :: b in s.cache <==> b in s.lh)
    && DecodeHead(s.disk[c.start]) == []
    && Overlay(s.disk[..c.start], s.cache, s.lh) == Effect(c.format, s.hist)
  }

  ghost predicate PhaseOk(c: Config, s: State)
    requires GoodDisk(s.disk, c.start, c.size)
  {
    match s.phase
    case Running => OpenTransaction(c, s)
    case Committing(pc) =>
      if pc <= |s.lh| then
        && OpenTransaction(c, s)
        && pc < c.size
        && forall i :: 0 <= i < pc ==> s.lh[i] in s.cache && s.disk[c.start + 1 + i] == s.cache[s.lh[i]]
      else
        && |s.lh| < c.size && s.lh != []
        && (forall b :: b in s.cache <==> b in s.lh)
        && RecoverPoint(s.disk, c.start, c.size, s.lh, pc - |s.lh| - 1)
        && s.durable == |s.hist|
    case Booting => s.durable == |s.hist| && s.cache == map[]
    case Recovering(pc) => s.durable == |s.hist| && s.cache == map[] && RecoverPoint(s.disk, c.start, c.size, s.lh, pc)
    case Panicked(_) => true
  }

  ghost predicate Inv(c: Config, s: State) {
    && AtomicOk(c, s) && OpsOk(c, s) && SpaceOk(c, s) && PhaseOk(c, s)
  }

  lemma InitInv(c: Config, s: State)
    requires Init(c, s)
    ensures Inv(c, s)
  {
    assert Logical(s.disk, c.start, c.size) == s.disk[..c.start];
    assert Overlay(c.format, s.cache, []) == c.format;
  }

  lemma {:induction false} ReservedAppend(ops: seq<Op>, op: Op)
    ensures Reserved(ops + [op]) == Reserved(ops) + op.left
  {
    if ops != [] {
      assert (ops + [op])[1..] == ops[1..] + [op];
      ReservedAppend(ops[1..], op);
    }
  }

  lemma {:induction false} ReservedUpdate(ops: seq<Op>, k: nat, op: Op)
    requires k < |ops|
    ensures Reserved(ops[k := op]) == Reserved(ops) - ops[k].left + op.left
    ensures Reserved(Remove(ops, k)) == Reserved(ops) - ops[k].left
  {
    if k == 0 {
      assert ops[0 := op][1..] == ops[1..];
      assert Remove(ops, 0) == ops[1..];
    } else {
      assert ops[k := op][1..] == ops[1..][k - 1 := op];
      assert Remove(ops, k)[1..] == Remove(ops[1..], k - 1);
      ReservedUpdate(ops[1..], k - 1, op);
    }
  }

  lemma {:induction false} ReservedBound(ops: seq<Op>)
    requires forall i :: 0 <= i < |ops| ==> ops[i].left <= MAXOPBLOCKS
    ensures Reserved(ops) <= |ops| * MAXOPBLOCKS
  {
    if ops != [] {
      ReservedBound(ops[1..]);
    }
  }

  lemma IdsAppend(ops: seq<Op>, op: Op)
    ensures Ids(ops + [op]) == Ids(ops) + {op.id}
  {
    forall x | x in Ids(ops) + {op.id} ensures x in Ids(ops + [op]) {
      if x == op.id {
        assert (ops + [op])[|ops|].id == x;
      } else {
        var i :| 0 <= i < |ops| && ops[i].id == x;
        assert (ops + [op])[i].id == x;
      }
    }
  }

  lemma IdsUpdate(ops: seq<Op>, k: nat, op: Op)
    requires k < |ops| && op.id == ops[k].id
    ensures Ids(ops[k := op]) == Ids(ops)
  {
    forall x | x in Ids(ops) ensures x in Ids(ops[k := op]) {
      var i :| 0 <= i < |ops| && ops[i].id == x;
      assert ops[k := op][i].id == x;
    }
  }

  lemma IdsRemove(ops: seq<Op>, k: nat)
    requires k < |ops| && forall i, j :: 0 <= i < j < |ops| ==> ops[i].id != ops[j].id
    ensures Ids(Remove(ops, k)) == Ids(ops) - {ops[k].id}
    ensures forall i, j :: 0 <= i < j < |ops| - 1 ==> Remove(ops, k)[i].id != Remove(ops, k)[j].id
  {
    var rest := Remove(ops, k);
    forall x | x in Ids(ops) - {ops[k].id} ensures x in Ids(rest) {
      var i :| 0 <= i < |ops| && ops[i].id == x;
      assert rest[if i < k then i else i - 1].id == x;
    }
    forall x | x in Ids(rest) ensures x in Ids(ops) - {ops[k].id} {
      var i :| 0 <= i < |rest| && rest[i].id == x;
      assert rest[i] == ops[if i < k then i else i + 1];
    }
  }

  lemma BeginOpOps(c: Config, s: State, s': State, id: nat)
    requires OpsOk(c, s) && SpaceOk(c, s) && NextStep(c, s, s', BeginOp(id))
    ensures OpsOk(c, s') && SpaceOk(c, s')
  {
    Snoc(c.format, s.hist, Begin(id));
    ReservedAppend(s.ops, Op(id, c.budget));
    if c.budget == MAXOPBLOCKS {
      ReservedBound(s.ops);
    }
    IdsAppend(s.ops, Op(id, c.budget));
  }

  lemma BeginOpKeeps(c: Config, s: State, s': State, id: nat)
    requires Inv(c, s) && NextStep(c, s, s', BeginOp(id))
    ensures Inv(c, s')
  {
    BeginOpOps(c, s, s', id);
    Snoc(c.format, s.hist, Begin(id));
    assert s'.hist[..s.durable] == s.hist[..s.durable];
  }

  lemma LogWriteOverlay(home: Disk, cache: map<int, Block>, lh: seq<int>, b: int, v: Block)
    requires forall x :: x in lh ==> x in cache
    requires 0 <= b < |home|
    ensures Overlay(home, cache[b := v], if b in lh then lh else lh + [b]) == Overlay(home, cache, lh)[b := v]
  {
    var lh' := if b in lh then lh else lh + [b];
    assert forall x :: x in lh' <==> x in lh || x == b;
  }

  lemma LogWriteOps(c: Config, s: State, s': State, k: nat, b: int, v: Block)
    requires OpsOk(c, s) && NextStep(c, s, s', LogWrite(k, b, v))
    ensures OpsOk(c, s')
  {
    var op := s.ops[k];
    Snoc(c.format, s.hist, Store(op.id, b, v));
    if b !in s.lh {
      IdsUpdate(s.ops, k, op.(left := op.left - 1));
    }
  }

  lemma LogWriteSpace(c: Config, s: State, s': State, k: nat, b: int, v: Block)
    requires SpaceOk(c, s) && NextStep(c, s, s', LogWrite(k, b, v))
    ensures SpaceOk(c, s')
  {
    if b !in s.lh {
      ReservedUpdate(s.ops, k, s.ops[k].(left := s.ops[k].left - 1));
      assert s'.lh == s.lh + [b];
    }
  }

  lemma LogWriteFiles(c: Config, s: State, s': State, k: nat, b: int, v: Block)
    requires Inv(c, s) && NextStep(c, s, s', LogWrite(k, b, v))
    ensures AtomicOk(c, s') && PhaseOk(c, s')
  {
    Snoc(c.format, s.hist, Store(s.ops[k].id, b, v));
    assert s'.hist[..s.durable] == s.hist[..s.durable];
    LogWriteOverlay(s.disk[..c.start], s.cache, s.lh, b, v);
  }

  lemma LogWriteKeeps(c: Config, s: State, s': State, k: nat, b: int, v: Block)
    requires Inv(c, s) && NextStep(c, s, s', LogWrite(k, b, v))
    ensures Inv(c, s')
  {
    LogWriteOps(c, s, s', k, b, v);
    LogWriteSpace(c, s, s', k, b, v);
    LogWriteFiles(c, s, s', k, b, v);
  }

  lemma EndOpKeeps(c: Config, s: State, s': State, k: nat)
    requires Inv(c, s) && NextStep(c, s, s', EndOp(k))
    ensures Inv(c, s')
  {
    Snoc(c.format, s.hist, End(s.ops[k].id));
    assert s'.hist[..s.durable] == s.hist[..s.durable];
    ReservedUpdate(s.ops, k, s.ops[k]);
    IdsRemove(s.ops, k);
  }

  lemma LogBlockKeeps(c: Config, s: State, s': State)
    requires Inv(c, s) && NextStep(c, s, s', CommitBlock) && s.phase.pc < |s.lh|
    ensures Inv(c, s')
  {
    var before, after := s.disk, s'.disk;
    assert after[..c.start] == before[..c.start] && after[c.start] == before[c.start];
    assert Logical(after, c.start, c.size) == Logical(before, c.start, c.size);
  }

  lemma CommitBlockOps(c: Config, s: State, s': State)
    requires OpsOk(c, s) && SpaceOk(c, s) && NextStep(c, s, s', CommitBlock)
    ensures OpsOk(c, s') && SpaceOk(c, s')
  {
  }

  /** The disk side of the header write. */
  lemma HeaderDisk(c: Config, s: State)
    requires AtomicOk(c, s) && PhaseOk(c, s) && SpaceOk(c, s) && s.phase == Committing(|s.lh|) && s.lh != []
    ensures forall b :: b in s.lh ==> b in s.cache
    ensures var d' := CommitWrite(s.disk, c.start, s.cache, s.lh, |s.lh|);
      && RecoverPoint(d', c.start, c.size, s.lh, 0)
      && Logical(d', c.start, c.size) == Effect(c.format, s.hist)
  {
    var home := s.disk[..c.start];
    assert LoggedPoint(s.disk, c.start, c.size, home, s.cache, s.lh, |s.lh|);
    HeaderWriteCommits(s.disk, c.start, c.size, home, s.cache, s.lh);
  }

  lemma HeaderKeeps(c: Config, s: State, s': State)
    requires Inv(c, s) && NextStep(c, s, s', CommitBlock) && s.phase.pc == |s.lh|
    ensures Inv(c, s')
  {
    HeaderDisk(c, s);
    CommitBlockOps(c, s, s');
    assert s.hist[..|s.hist|] == s.hist;
  }

  /** The disk side of a home block write, and of the last header write. */
  lemma HomeDisk(c: Config, s: State)
    requires AtomicOk(c, s) && PhaseOk(c, s) && s.phase.Committing? && |s.lh| < s.phase.pc <= 2 * |s.lh| + 1
    ensures var pc, d' := s.phase.pc - |s.lh| - 1, RecoverWrite(s.disk, c.start, s.lh, s.phase.pc - |s.lh| - 1);
      && RecoverPoint(d', c.start, c.size, s.lh, pc + 1)
      && Logical(d', c.start, c.size) == Logical(s.disk, c.start, c.size)
  {
    RecoverWriteKeepsLogical(s.disk, c.start, c.size, s.lh, s.phase.pc - |s.lh| - 1);
  }

  lemma HomeShape(c: Config, s: State, s': State)
    requires NextStep(c, s, s', CommitBlock) && s.phase.pc > |s.lh|
    ensures CanWrite(c, s) && |s.lh| < s.phase.pc <= 2 * |s.lh| + 1
    ensures s'.disk == RecoverWrite(s.disk, c.start, s.lh, s.phase.pc - |s.lh| - 1)
    ensures s' == s.(disk := s'.disk, phase := Committing(s.phase.pc + 1))
  {
  }

  lemma HomeState(c: Config, s: State, s': State, pc: nat, d': Disk)
    requires Inv(c, s) && s.phase == Committing(|s.lh| + 1 + pc)
    requires s' == s.(disk := d', phase := Committing(|s.lh| + 1 + (pc + 1)))
    requires RecoverPoint(d', c.start, c.size, s.lh, pc + 1)
    requires Logical(d', c.start, c.size) == Logical(s.disk, c.start, c.size)
    ensures Inv(c, s')
  {
  }

  lemma HomeBlockKeeps(c: Config, s: State, s': State)
    requires Inv(c, s) && NextStep(c, s, s', CommitBlock) && s.phase.pc > |s.lh|
    ensures Inv(c, s')
  {
    HomeShape(c, s, s');
    HomeDisk(c, s);
    HomeState(c, s, s', s.phase.pc - |s.lh| - 1, s'.disk);
  }

  lemma CommitBlockKeeps(c: Config, s: State, s': State)
    requires Inv(c, s) && NextStep(c, s, s', CommitBlock)
    ensures Inv(c, s')
  {
    if s.phase.pc < |s.lh| {
      LogBlockKeeps(c, s, s');
    } else if s.phase.pc == |s.lh| {
      HeaderKeeps(c, s, s');
    } else {
      HomeBlockKeeps(c, s, s');
    }
  }

  lemma CommitDoneKeeps(c: Config, s: State, s': State)
    requires Inv(c, s) && NextStep(c, s, s', CommitDone)
    ensures Inv(c, s')
  {
    var home := s.disk[..c.start];
    assert s.hist[..|s.hist|] == s.hist;
    if s.lh == [] {
      assert Overlay(home, s.cache, []) == home;
      assert Logical(s.disk, c.start, c.size) == home;
    } else {
      RecoveryFinished(s.disk, c.start, c.size, s.lh);
    }
    assert Overlay(home, s'.cache, []) == home;
  }

  lemma CrashKeeps(c: Config, s: State, s': State)
    requires Inv(c, s) && NextStep(c, s, s', Crash)
    ensures Inv(c, s')
  {
    assert s'.hist[..s'.durable] == s'.hist;
  }

  lemma ReadLogKeeps(c: Config, s: State, s': State)
    requires Inv(c, s) && NextStep(c, s, s', ReadLog)
    ensures Inv(c, s')
  {
  }

  lemma HeldKeeps(c: Config, s: State, held: nat)
    requires Inv(c, s) && held <= c.holders
    ensures Inv(c, s.(held := held))
  {
  }

  lemma PanicKeeps(c: Config, s: State, why: Failure)
    requires Inv(c, s)
    ensures Inv(c, s.(phase := Panicked(why)))
  {
  }

  lemma BufferKeeps(c: Config, s: State, s': State, step: Step)
    requires Inv(c, s) && NextStep(c, s, s', step)
    requires step.Hold? || step.Release? || step.NoBuffers? || step.DiskPanic? || step.ListOverrun?
    ensures Inv(c, s')
  {
    if step.Hold? || step.Release? {
      HeldKeeps(c, s, s'.held);
    } else {
      PanicKeeps(c, s, s'.phase.why);
    }
  }

  lemma RecoverBlockKeeps(c: Config, s: State, s': State)
    requires Inv(c, s) && NextStep(c, s, s', RecoverBlock)
    ensures Inv(c, s')
  {
    RecoverWriteKeepsLogical(s.disk, c.start, c.size, s.lh, s.phase.pc);
  }

  lemma BootKeeps(c: Config, s: State, s': State)
    requires Inv(c, s) && NextStep(c, s, s', Boot)
    ensures Inv(c, s')
  {
    var home := s.disk[..c.start];
    RecoveryFinished(s.disk, c.start, c.size, s.lh);
    assert s.hist[..|s.hist|] == s.hist;
    assert Overlay(home, s'.cache, []) == home;
  }

  lemma NextInv(c: Config, s: State, s': State)
    requires Inv(c, s) && Next(c, s, s')
    ensures Inv(c, s')
  {
    var step :| NextStep(c, s, s', step);
    match step
    case BeginOp(id) => BeginOpKeeps(c, s, s', id);
    case LogWrite(k, b, v) => LogWriteKeeps(c, s, s', k, b, v);
    case EndOp(k) => EndOpKeeps(c, s, s', k);
    case CommitBlock => CommitBlockKeeps(c, s, s');
    case CommitDone => CommitDoneKeeps(c, s, s');
    case Crash => CrashKeeps(c, s, s');
    case RecoverBlock => RecoverBlockKeeps(c, s, s');
    case Boot => BootKeeps(c, s, s');
    case ReadLog => ReadLogKeeps(c, s, s');
    case _ => BufferKeeps(c, s, s', step);
  }

  lemma {:induction false} RunInv(c: Config, run: seq<State>, i: nat)
    requires IsRun(c, run) && i < |run|
    ensures Inv(c, run[i])
  {
    if i == 0 {
      InitInv(c, run[0]);
    } else {
      RunInv(c, run, i - 1);
      assert StepTo(c, run, i);
      NextInv(c, run[i - 1], run[i]);
    }
  }

  // ----- Main results -----

  /** Group commit and crash atomicity over every interleaving.  At every moment
      of every run a reboot would recover exactly the effect of a prefix of the
      history in which no operation is half done; a commit in progress has no
      operation outstanding; and once nothing is outstanding everything that
      happened is committed. */
  lemma GroupCommit(c: Config, run: seq<State>, i: nat)
    requires IsRun(c, run) && i < |run|
    ensures GoodDisk(run[i].disk, c.start, c.size) && run[i].durable <= |run[i].hist|
    ensures Logical(run[i].disk, c.start, c.size) == Effect(c.format, run[i].hist[..run[i].durable])
    ensures Open(run[i].hist[..run[i].durable]) == {}
    ensures run[i].phase.Committing? ==> run[i].outstanding == 0 && Open(run[i].hist) == {}
    ensures run[i].phase.Running? && run[i].outstanding == 0 ==> run[i].durable == |run[i].hist|
  {
    RunInv(c, run, i);
  }

  /** No `log_write` can land while a commit is under way, although `log_write` checks nothing. */
  lemma NoWriteDuringCommit(c: Config, run: seq<State>, i: nat, s': State, k: nat, b: int, v: Block)
    requires IsRun(c, run) && i < |run| && NextStep(c, run[i], s', LogWrite(k, b, v))
    ensures run[i].phase.Running?
  {
    RunInv(c, run, i);
  }

  /** The log never holds more than LOGSIZE blocks, never lists one twice, and has room for all that is reserved. */
  lemma LogSpace(c: Config, run: seq<State>, i: nat)
    requires IsRun(c, run) && i < |run|
    ensures |run[i].lh| <= LOGSIZE && Distinct(run[i].lh)
    ensures c.budget == MAXOPBLOCKS ==> |run[i].lh| + Reserved(run[i].ops) <= LOGSIZE
  {
    RunInv(c, run, i);
  }

  lemma DurableStep(c: Config, s: State, s': State)
    requires s.durable <= |s.hist| && Next(c, s, s')
    ensures s.durable <= |s'.hist| && s.hist[..s.durable] == s'.hist[..s.durable]
    ensures s.durable <= s'.durable
  {
    var step :| NextStep(c, s, s', step);
  }

  /** What is committed stays committed: later states only extend the committed history. */
  lemma {:induction false} Durable(c: Config, run: seq<State>, i: nat, j: nat)
    requires IsRun(c, run) && i <= j < |run|
    ensures run[i].durable <= run[j].durable <= |run[j].hist|
    ensures run[i].durable <= |run[i].hist| && run[i].hist[..run[i].durable] == run[j].hist[..run[i].durable]
    decreases j - i
  {
    RunInv(c, run, i);
    if i < j {
      Durable(c, run, i + 1, j);
      var s, s' := run[i], run[i + 1];
      assert StepTo(c, run, i + 1);
      DurableStep(c, s, s');
      var t := run[j].hist;
      assert t[..s.durable] == t[..s'.durable][..s.durable];
      assert s'.hist[..s.durable] == s'.hist[..s'.durable][..s.durable];
    }
  }

  // ----- How large the log must be -----

  lemma Extend(c: Config, run: seq<State>, s': State, step: Step)
    requires IsRun(c, run) && NextStep(c, run[|run| - 1], s', step)
    ensures IsRun(c, run + [s'])
  {
    var run' := run + [s'];
    forall i | 0 < i < |run'| ensures StepTo(c, run', i) {
      if i < |run| {
        assert StepTo(c, run, i);
      }
    }
  }

  /** Some run ends in this failure. */
  ghost predicate FailsWith(c: Config, why: Failure) {
    exists run: seq<State> :: IsRun(c, run) && run[|run| - 1].phase == Panicked(why)
  }

  /** What the sizes must be for that.  A full list and the buffers held beside it take the whole cache; or a list as
      long as the log area is written with a buffer to spare; or operations log more than is reserved, with a buffer
      for the block that is one too many. */
  predicate CanFail(c: Config, why: Failure) {
    match why
    case NoBuffer => c.nbuf <= LOGSIZE + c.holders
    case BadBlock => c.size <= LOGSIZE && c.size < c.nbuf
    case Overrun => c.budget > MAXOPBLOCKS && LOGSIZE < c.nbuf
  }

  lemma SafeStep(c: Config, s: State, s': State, step: Step)
    requires OpsOk(c, s) && SpaceOk(c, s) && GoodDisk(s.disk, c.start, c.size) && NextStep(c, s, s', step)
    requires s'.phase.Panicked? && s'.phase != s.phase
    ensures CanFail(c, s'.phase.why)
  {
    if step.ListOverrun? {
      ReservedUpdate(s.ops, step.k, s.ops[step.k]);
    }
  }

  lemma {:induction false} NeverFails(c: Config, run: seq<State>, i: nat, why: Failure)
    requires IsRun(c, run) && i < |run| && !CanFail(c, why)
    ensures run[i].phase != Panicked(why)
  {
    if i > 0 {
      NeverFails(c, run, i - 1, why);
      assert StepTo(c, run, i);
      RunInv(c, run, i - 1);
      var step :| NextStep(c, run[i - 1], run[i], step);
      if run[i].phase == Panicked(why) {
        SafeStep(c, run[i - 1], run[i], step);
      }
    }
  }

  /** The sizes for which failing runs are built. */
  predicate Sized(c: Config) {
    c.size >= 1 && |c.format| == c.start && c.start > LOGSIZE && c.budget >= MAXOPBLOCKS && c.nbuf >= 1
  }

  /** What operation i may still log when j blocks are: the first two log ten each, the third the rest. */
  function Left(c: Config, j: nat, i: nat): (r: int) {
    if j <= 10 * i then c.budget else if j >= 10 * i + 10 && i < 2 then c.budget - 10 else c.budget + 10 * i - j
  }

  /** As many blocks as the list takes. */
  ghost predicate FullList(c: Config, bs: seq<int>) {
    |bs| == LOGSIZE && Distinct(bs) && forall i :: 0 <= i < LOGSIZE ==> 0 <= bs[i] < c.start
  }

  /** Three operations at once, which have logged the first j of the blocks bs, ten each. */
  ghost predicate Filled(c: Config, s: State, bs: seq<int>, j: nat)
    requires j <= |bs|
  {
    && s.phase.Running? && s.outstanding == 3
    && s.lh == bs[..j]
    && |s.ops| == 3 && forall i :: 0 <= i < 3 ==> s.ops[i].id == i && s.ops[i].left == Left(c, j, i)
  }

  lemma ThreeOps(c: Config) returns (run: seq<State>)
    requires Sized(c)
    ensures IsRun(c, run) && Filled(c, run[|run| - 1], [], 0) && run[|run| - 1].held == 0
    ensures run[|run| - 1].hist == [Begin(0), Begin(1), Begin(2)]
  {
    var zero: Block := seq(128, _ => 0);
    var s0 := State(c.format + seq(c.size, _ => zero), map[], [], 0, 0, Running, [], [], 0);
    assert DecodeHead(zero) == [];
    run := [s0];
    var s1 := s0.(outstanding := 1, ops := [Op(0, c.budget)], hist := [Begin(0)]);
    Extend(c, run, s1, BeginOp(0));
    run := run + [s1];
    var s2 := s1.(outstanding := 2, ops := s1.ops + [Op(1, c.budget)], hist := s1.hist + [Begin(1)]);
    Extend(c, run, s2, BeginOp(1));
    run := run + [s2];
    var s3 := s2.(outstanding := 3, ops := s2.ops + [Op(2, c.budget)], hist := s2.hist + [Begin(2)]);
    Extend(c, run, s3, BeginOp(2));
    run := run + [s3];
  }

  /** The blocks that operation k stores to in h are among its ten of bs. */
  ghost predicate StoresIn(h: seq<Event>, bs: seq<int>) {
    forall i :: 0 <= i < |h| && h[i].Store? ==>
      h[i].op < 3 && 10 * h[i].op + 10 <= |bs| && h[i].b in bs[10 * h[i].op..10 * h[i].op + 10]
  }

  lemma StoresInNext(h: seq<Event>, bs: seq<int>, j: nat, v: Block)
    requires StoresIn(h, bs) && j < LOGSIZE == |bs|
    ensures StoresIn(h + [Store(j / 10, bs[j], v)], bs)
  {
    var k := j / 10;
    assert bs[10 * k..10 * k + 10][j - 10 * k] == bs[j];
  }

  lemma {:induction false} FillLog(c: Config, v: Block, bs: seq<int>, j: nat) returns (run: seq<State>)
    requires Sized(c) && FullList(c, bs) && j <= LOGSIZE && j <= c.nbuf
    ensures IsRun(c, run) && Filled(c, run[|run| - 1], bs, j) && run[|run| - 1].held == 0
    ensures StoresIn(run[|run| - 1].hist, bs)
  {
    if j == 0 {
      run := ThreeOps(c);
    } else {
      run := FillLog(c, v, bs, j - 1);
      var s, k, b := run[|run| - 1], (j - 1) / 10, bs[j - 1];
      var s' := s.(cache := s.cache[b := v], lh := s.lh + [b],
                   ops := s.ops[k := Op(k, s.ops[k].left - 1)], hist := s.hist + [Store(k, b, v)]);
      assert bs[..j] == bs[..j - 1] + [b];
      StoresInNext(s.hist, bs, j - 1, v);
      Extend(c, run, s', LogWrite(k, b, v));
      run := run + [s'];
    }
  }

  lemma {:induction false} HoldSome(c: Config, v: Block, bs: seq<int>, j: nat, h: nat) returns (run: seq<State>)
    requires Sized(c) && FullList(c, bs) && j <= LOGSIZE && j + h <= c.nbuf && h <= c.holders
    ensures IsRun(c, run) && Filled(c, run[|run| - 1], bs, j) && run[|run| - 1].held == h
  {
    if h == 0 {
      run := FillLog(c, v, bs, j);
    } else {
      run := HoldSome(c, v, bs, j, h - 1);
      var s := run[|run| - 1];
      Extend(c, run, s.(held := h), Hold);
      run := run + [s.(held := h)];
    }
  }

  lemma EndThree(c: Config, run0: seq<State>, bs: seq<int>, j: nat) returns (run: seq<State>)
    requires IsRun(c, run0) && j <= |bs| && Filled(c, run0[|run0| - 1], bs, j)
    ensures IsRun(c, run)
    ensures var s, s' := run0[|run0| - 1], run[|run| - 1];
      s'.phase == Committing(0) && s'.lh == s.lh && s'.held == s.held
  {
    run := run0;
    var s := run[|run| - 1];
    var s1 := s.(outstanding := 2, ops := Remove(s.ops, 0), hist := s.hist + [End(0)]);
    Extend(c, run, s1, EndOp(0));
    run := run + [s1];
    var s2 := s1.(outstanding := 1, ops := Remove(s1.ops, 0), hist := s1.hist + [End(1)]);
    Extend(c, run, s2, EndOp(0));
    run := run + [s2];
    var s3 := s2.(outstanding := 0, ops := [], hist := s2.hist + [End(2)], phase := Committing(0));
    assert Remove(s2.ops, 0) == [];
    Extend(c, run, s3, EndOp(0));
    run := run + [s3];
  }

  lemma Fail(c: Config, run0: seq<State>, why: Failure, step: Step) returns (run: seq<State>)
    requires IsRun(c, run0) && NextStep(c, run0[|run0| - 1], run0[|run0| - 1].(phase := Panicked(why)), step)
    ensures IsRun(c, run) && run[|run| - 1].phase == Panicked(why)
  {
    var s' := run0[|run0| - 1].(phase := Panicked(why));
    Extend(c, run0, s', step);
    run := run0 + [s'];
  }

  /** Some full list. */
  function FirstBlocks(): (bs: seq<int>) {
    seq(LOGSIZE, i => i)
  }

  /** Too few buffers: a transaction and the buffers held beside it take them all, and commit finds none for the log. */
  lemma FewBuffersFail(c: Config, v: Block) returns (run: seq<State>)
    requires Sized(c) && c.nbuf <= LOGSIZE + c.holders
    ensures IsRun(c, run) && run[|run| - 1].phase == Panicked(NoBuffer)
  {
    var j := if c.nbuf < LOGSIZE then c.nbuf else LOGSIZE;
    run := HoldSome(c, v, FirstBlocks(), j, c.nbuf - j);
    run := EndThree(c, run, FirstBlocks(), j);
    run := Fail(c, run, NoBuffer, NoBuffers);
  }

  function Least(a: nat, b: nat): nat {
    if a < b then a else b
  }

  /** Three operations that log more than is reserved for them, ten blocks of bs each and then one more, fail with all
      three open: they take the list past its end if there is a buffer for that block, and run out of buffers if not. */
  lemma ListsFail(c: Config, v: Block, bs: seq<int>, more: int) returns (run: seq<State>)
    requires Sized(c) && c.budget > MAXOPBLOCKS && FullList(c, bs) && 0 <= more < c.start && more !in bs
    ensures IsRun(c, run) && |run| > 1
    ensures run[|run| - 1].phase == Panicked(if LOGSIZE < c.nbuf then Overrun else NoBuffer)
    ensures NextStep(c, run[|run| - 2], run[|run| - 1], if LOGSIZE < c.nbuf then ListOverrun(2, more) else NoBuffers)
    ensures run[|run| - 2].lh == bs[..Least(LOGSIZE, c.nbuf)] && run[|run| - 2].phase.Running?
    ensures run[|run| - 2].outstanding == 3 && StoresIn(run[|run| - 2].hist, bs)
  {
    var j := Least(LOGSIZE, c.nbuf);
    var run0 := FillLog(c, v, bs, j);
    var s := run0[|run0| - 1];
    var why := if LOGSIZE < c.nbuf then Overrun else NoBuffer;
    var step := if LOGSIZE < c.nbuf then ListOverrun(2, more) else NoBuffers;
    assert s.ops[2].left == Left(c, j, 2) > 0;
    var s' := s.(phase := Panicked(why));
    Extend(c, run0, s', step);
    run := run0 + [s'];
  }

  /** The first size blocks are listed, and the commit has written pc of them. */
  lemma {:induction false} CommitSome(c: Config, v: Block, pc: nat) returns (run: seq<State>)
    requires Sized(c) && pc < c.size <= LOGSIZE && c.size < c.nbuf
    ensures IsRun(c, run)
    ensures var s := run[|run| - 1]; s.phase == Committing(pc) && s.lh == FirstBlocks()[..c.size] && s.held == 0
  {
    if pc == 0 {
      run := FillLog(c, v, FirstBlocks(), c.size);
      run := EndThree(c, run, FirstBlocks(), c.size);
    } else {
      run := CommitSome(c, v, pc - 1);
      var s := run[|run| - 1];
      RunInv(c, run, |run| - 1);
      var s' := s.(disk := CommitWrite(s.disk, c.start, s.cache, s.lh, pc - 1), phase := Committing(pc));
      Extend(c, run, s', CommitBlock);
      run := run + [s'];
    }
  }

  /** A transaction as long as the log area is written over its end, if the cache lets it come to that. */
  lemma SmallLogFails(c: Config, v: Block) returns (run: seq<State>)
    requires Sized(c) && c.size <= LOGSIZE && c.size < c.nbuf
    ensures IsRun(c, run) && run[|run| - 1].phase == Panicked(BadBlock)
  {
    run := CommitSome(c, v, c.size - 1);
    RunInv(c, run, |run| - 1);
    run := Fail(c, run, BadBlock, DiskPanic);
  }

  /** For each of the three failures, exactly the sizes at which some run ends in it. */
  lemma FailsIff(c: Config, v: Block, why: Failure)
    requires Sized(c)
    ensures FailsWith(c, why) <==> CanFail(c, why)
  {
    if CanFail(c, why) {
      var run;
      match why {
        case NoBuffer => run := FewBuffersFail(c, v);
        case BadBlock => run := SmallLogFails(c, v);
        case Overrun => run := ListsFail(c, v, FirstBlocks(), LOGSIZE);
      }
      assert FailsWith(c, why);
    } else {
      forall run: seq<State> | IsRun(c, run) ensures run[|run| - 1].phase != Panicked(why) {
        NeverFails(c, run, |run| - 1, why);
      }
    }
  }

  /** What the sizes must be for no run to fail. */
  predicate Roomy(c: Config) {
    c.budget == MAXOPBLOCKS && LOGSIZE < c.size && LOGSIZE + c.holders < c.nbuf
  }

  /** No run fails if and only if operations keep to what is reserved, the log area exceeds LOGSIZE blocks, and the
      cache has more than LOGSIZE buffers beside those held. */
  lemma NoFailureIff(c: Config, v: Block)
    requires Sized(c)
    ensures (forall run: seq<State> :: IsRun(c, run) ==> !run[|run| - 1].phase.Panicked?) <==> Roomy(c)
  {
    FailsIff(c, v, NoBuffer);
    FailsIff(c, v, BadBlock);
    FailsIff(c, v, Overrun);
    if Roomy(c) {
      forall run: seq<State> | IsRun(c, run) ensures !run[|run| - 1].phase.Panicked? {
        NeverFails(c, run, |run| - 1, NoBuffer);
        NeverFails(c, run, |run| - 1, BadBlock);
        NeverFails(c, run, |run| - 1, Overrun);
      }
    }
  }

  /** The sizes of param.h and mkfs, LOGSIZE buffers and a log area of LOGSIZE blocks: whatever operations log, it is
      `bget` that fails, never the device and never the list. */
  lemma ShippedSizesFail(c: Config, v: Block)
    requires Sized(c) && c.nbuf == LOGSIZE && c.size == LOGSIZE
    ensures FailsWith(c, NoBuffer) && !FailsWith(c, BadBlock) && !FailsWith(c, Overrun)
  {
    FailsIff(c, v, NoBuffer);
    FailsIff(c, v, BadBlock);
    FailsIff(c, v, Overrun);
  }
}
