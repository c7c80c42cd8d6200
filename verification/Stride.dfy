/**
 What the pass and limit counters of the stride scheduler amount to over whole
 runs: exact counters and their overflow point, fairness of timer-preempted
 runs, and freedom from starvation.
 */
module Stride {
  import opened Process
  import PT = ProcTree

  // ----- One process, quantum after quantum -----

  function Tri(n: nat): (t: nat)
    ensures t >= n
  {
    if n == 0 then 0 else n + Tri(n - 1)
  }

  lemma {:induction false} TriClosed(n: nat)
    ensures 2 * Tri(n) == n * (n + 1)
  {
    if n > 0 {
      TriClosed(n - 1);
    }
  }

  /** A freshly allocated record with the given stride. */
  predicate Fresh(p: Proc) {
    p.pass == 0 && p.limit == p.stride && p.stride >= 1
  }

  /** A dispatch followed by the timer interrupt that ends it. */
  function Quantum(p: Proc): (p': Proc) {
    Trapped(Charged(p), true)
  }

  function Quanta(p: Proc, k: nat): (p': Proc) {
    if k == 0 then p else Quantum(Quanta(p, k - 1))
  }

  lemma Distribute(s: int, a: int, b: int)
    ensures s * (a + b) == s * a + s * b
  {
  }

  lemma MulMono(s: nat, a: int, b: int)
    requires a <= b
    ensures s * a <= s * b
  {
  }

  /** Counters in closed form: k quanta were charged. */
  ghost predicate AfterQuanta(p: Proc, k: nat) {
    p.stride >= 0 && p.pass == p.stride * k && p.limit == p.stride * Tri(k + 1)
  }

  /** One more quantum is charged, and the counters stay in closed form, as long as the limit fits an int. */
  lemma QuantumStep(p: Proc, k: nat)
    requires AfterQuanta(p, k) && p.stride >= 1 && p.stride * Tri(k + 2) <= MAXINT
    ensures AfterQuanta(Quantum(p), k + 1) && Quantum(p).stride == p.stride && Quantum(p).tickets == p.tickets
  {
    TriMul(p.stride, k);
    MulMono(p.stride, 0, k);
    MulMono(p.stride, k + 1, Tri(k + 1));
    var c := Charged(p);
    assert c.pass == p.pass + p.stride && c.limit == p.limit && c.state.RUNNING?;
  }

  /** The counters after k quanta from allocation, for every k the int limit allows. */
  lemma {:induction false} QuantaExact(p: Proc, k: nat)
    requires Fresh(p) && p.stride * Tri(k + 1) <= MAXINT
    ensures AfterQuanta(Quanta(p, k), k) && Quanta(p, k).stride == p.stride
  {
    if k > 0 {
      MulMono(p.stride, Tri(k), Tri(k + 1));
      QuantaExact(p, k - 1);
      QuantumStep(Quanta(p, k - 1), k - 1);
    } else {
      assert Tri(1) == 1;
    }
  }

  lemma WrapLimit(q: Proc)
    requires 0 <= q.pass < q.limit <= MAXINT && q.stride >= 1 && q.pass + 2 * q.stride <= MAXINT
    requires MAXINT < q.limit + q.pass + 2 * q.stride
    ensures Quantum(q).limit == q.limit + q.pass + 2 * q.stride - 2 * (MAXINT + 1) < 0
    ensures Quantum(q).pass == q.pass + q.stride == Charged(Quantum(q)).pass
  {
    var c := Charged(q);
    assert c.pass == q.pass + q.stride && c.limit == q.limit && c.state.RUNNING?;
    assert Quantum(q).pass >= 0 > Quantum(q).limit;
  }

  lemma TriMul(s: nat, k: nat)
    ensures s * Tri(k + 2) == s * Tri(k + 1) + s * k + 2 * s
    ensures s * (k + 1) == s * k + s
    ensures k >= 1 ==> s * k + 2 * s <= s * Tri(k + 1)
  {
    Distribute(s, k + 2, Tri(k + 1));
    Distribute(s, k, 2);
    Distribute(s, k, 1);
    if k >= 1 {
      assert Tri(k + 1) == k + 1 + Tri(k);
      MulMono(s, k + 2, Tri(k + 1));
    }
  }

  /** The first quantum whose limit does not fit wraps it below zero, and from
      then on the process is not charged for its next dispatch. */
  lemma OverflowPoint(p: Proc, k: nat)
    requires Fresh(p) && p.stride <= 10000 && p.stride * Tri(k + 1) <= MAXINT < p.stride * Tri(k + 2)
    ensures Quanta(p, k + 1).limit == p.stride * Tri(k + 2) - 2 * (MAXINT + 1) < 0
    ensures Quanta(p, k + 1).pass == p.stride * (k + 1) == Charged(Quanta(p, k + 1)).pass
  {
    QuantaExact(p, k);
    var q := Quanta(p, k);
    TriMul(p.stride, k);
    assert Tri(2) == 3;
    MulMono(p.stride, 0, k);
    WrapLimit(q);
    assert Quanta(p, k + 1) == Quantum(q);
  }

  /** For the default 500 tickets of fork() that is after 14652 quanta. */
  lemma DefaultForkOverflow()
    ensures Quotient(10000, 500) == 20
    ensures 20 * Tri(14653) <= MAXINT < 20 * Tri(14654)
  {
    TriClosed(14653);
    TriClosed(14654);
  }

  // ----- Fairness of timer-preempted runs -----

  /** One turn: the table at the moment of the dispatch, and the slot picked. */
  datatype Turn = Turn(table: seq<Proc>, pick: int)

  /** The state may have changed in any way; the scheduling counters have not. */
  predicate SameCounter(p: Proc, p': Proc) {
    p'.tickets == p.tickets && p'.stride == p.stride && p'.pass == p.pass && p'.limit == p.limit
  }

  ghost predicate SameCounters(ps: seq<Proc>, ps': seq<Proc>) {
    |ps'| == |ps| && forall i :: 0 <= i < |ps| ==> SameCounter(ps[i], ps'[i])
  }

  /** Slot i when the turn is over, at the timer interrupt. */
  function AfterTurn(t: Turn, i: nat): (p: Proc)
    requires i < |t.table|
  {
    if t.pick == i then Quantum(t.table[i]) else t.table[i]
  }

  ghost predicate TurnAt(start: seq<Proc>, turns: seq<Turn>, i: nat, k: nat) {
    && k < |turns| && i < |start| == |turns[k].table| && IsPick(turns[k].table, turns[k].pick)
    && if k == 0 then SameCounter(start[i], turns[0].table[i])
       else i < |turns[k - 1].table| && SameCounter(AfterTurn(turns[k - 1], i), turns[k].table[i])
  }

  /** A run in which the timer ends every dispatch of slot i, and the slot is not recycled. What the other processes do
      is left open: they block, trap, exit and fork as they please. */
  ghost predicate TimerRun(start: seq<Proc>, turns: seq<Turn>, i: nat) {
    i < |start| && forall k :: 0 <= k < |turns| ==> TurnAt(start, turns, i, k)
  }

  /** Slot i after the first n turns. */
  ghost function After(start: seq<Proc>, turns: seq<Turn>, i: nat, n: nat): (p: Proc)
    requires TimerRun(start, turns, i) && n <= |turns|
  {
    if n == 0 then start[i] else assert TurnAt(start, turns, i, n - 1); AfterTurn(turns[n - 1], i)
  }

  /** How often slot i was dispatched in the first n turns. */
  ghost function Count(turns: seq<Turn>, i: nat, n: nat): (c: nat)
    requires n <= |turns|
    ensures c <= n
  {
    if n == 0 then 0 else Count(turns, i, n - 1) + if turns[n - 1].pick == i then 1 else 0
  }

  /** Counters that have not wrapped. */
  predicate Sound(p: Proc) {
    p.pass >= 0 && p.limit >= 0 && p.stride >= 1
  }

  /** How many of n timer-ended dispatches raise the pass: all of them, but for the first if the pass has reached the
      limit, which then only raises the limit. */
  function Charges(p: Proc, n: nat): (c: nat) {
    if p.pass >= p.limit && n > 0 then n - 1 else n
  }

  function PassAfter(p: Proc, n: nat): (x: int) {
    p.pass + p.stride * Charges(p, n)
  }

  function LimitAfter(p: Proc, n: nat): (x: int) {
    LimitSum(p, Charges(p, n), 2 * n - Charges(p, n))
  }

  /** What m additions of pass and stride come to while the pass rises c times. */
  function LimitSum(p: Proc, c: nat, m: nat): (x: int) {
    p.limit + p.pass * m + p.stride * (Tri(c) + m)
  }

  /** n dispatches, each up to the timer, leave the limit within an int. */
  predicate NoOverflow(p: Proc, n: nat) {
    LimitAfter(p, n) <= MAXINT
  }

  /** q is p after n such dispatches. */
  ghost predicate Ran(p: Proc, q: Proc, n: nat) {
    q.tickets == p.tickets && q.stride == p.stride && q.pass == PassAfter(p, n) && q.limit == LimitAfter(p, n)
  }

  lemma LimitSumStep(p: Proc, c: nat, m: nat)
    requires Sound(p) && c <= m
    ensures LimitSum(p, c + 1, m + 1) == LimitSum(p, c, m) + p.pass + p.stride * c + 2 * p.stride
    ensures LimitSum(p, c, m) >= p.stride * c + (if m > c + 1 then p.pass + 2 * p.stride else p.limit)
  {
    var s, x := p.stride, p.pass;
    Distribute(x, m, 1);
    Distribute(s, Tri(c) + m, c + 2);
    Distribute(s, c, 2);
    assert Tri(c + 1) + m + 1 == Tri(c) + m + (c + 2);
    MulMono(x, if m > c + 1 then 1 else 0, m);
    MulMono(s, if m > c + 1 then c + 2 else c, Tri(c) + m);
  }

  lemma LimitStep(p: Proc, n: nat)
    requires Sound(p)
    ensures p.pass < p.limit || n > 0 ==>
              && PassAfter(p, n + 1) == PassAfter(p, n) + p.stride
              && LimitAfter(p, n + 1) == LimitAfter(p, n) + PassAfter(p, n) + 2 * p.stride
              && 0 <= PassAfter(p, n) < LimitAfter(p, n)
    ensures p.limit <= p.pass ==> PassAfter(p, 1) == p.pass && LimitAfter(p, 1) == p.limit + 2 * p.pass + 2 * p.stride
    ensures LimitAfter(p, n) <= LimitAfter(p, n + 1)
  {
    var c := Charges(p, n);
    if p.pass < p.limit || n > 0 {
      assert Charges(p, n + 1) == c + 1;
      LimitSumStep(p, c, 2 * n - c);
      Distribute(p.stride, c, 1);
      MulMono(p.stride, 0, c);
    }
  }

  /** A dispatch up to the timer, on unbounded integers. */
  lemma QuantumAdds(q: Proc)
    requires Sound(q)
    ensures q.pass < q.limit && q.limit + q.pass + 2 * q.stride <= MAXINT ==>
              Quantum(q) == q.(state := RUNNABLE, pass := q.pass + q.stride, limit := q.limit + q.pass + 2 * q.stride)
    ensures q.limit <= q.pass && q.limit + 2 * q.pass + 2 * q.stride <= MAXINT ==>
              Quantum(q) == q.(state := RUNNABLE, limit := q.limit + 2 * q.pass + 2 * q.stride)
  {
    var c := Charged(q);
    if q.pass < q.limit && q.limit + q.pass + 2 * q.stride <= MAXINT {
      assert c == q.(state := RUNNING, pass := q.pass + q.stride);
    } else if q.limit <= q.pass && q.limit + 2 * q.pass + 2 * q.stride <= MAXINT {
      assert c == q.(state := RUNNING, limit := q.limit + q.pass + q.stride);
    }
  }

  /** One dispatch more, up to the timer. */
  lemma RanStep(p: Proc, q: Proc, n: nat)
    requires Sound(p) && Ran(p, q, n) && NoOverflow(p, n + 1)
    ensures Ran(p, Quantum(q), n + 1)
  {
    LimitStep(p, n);
    var x, y := PassAfter(p, n + 1), LimitAfter(p, n + 1);
    assert Quantum(q) == q.(state := RUNNABLE, pass := x, limit := y) by {
      if p.pass < p.limit || n > 0 {
        assert 0 <= q.pass < q.limit && x == q.pass + q.stride && y == q.limit + q.pass + 2 * q.stride <= MAXINT;
      } else {
        assert 0 <= q.limit <= q.pass == x && y == q.limit + 2 * q.pass + 2 * q.stride <= MAXINT;
      }
      QuantumAdds(q);
    }
  }

  lemma {:induction false} LimitMono(p: Proc, m: nat, n: nat)
    requires Sound(p) && m <= n
    ensures LimitAfter(p, m) <= LimitAfter(p, n)
  {
    if m < n {
      LimitMono(p, m, n - 1);
      LimitStep(p, n - 1);
    }
  }

  /** From any counters, pass and limit are exact functions of the number of dispatches: every one is charged, but for
      the first of a process that has reached its limit. */
  lemma {:induction false} EveryDispatchCharged(start: seq<Proc>, turns: seq<Turn>, i: nat, n: nat)
    requires TimerRun(start, turns, i) && n <= |turns| && Sound(start[i]) && NoOverflow(start[i], Count(turns, i, n))
    ensures Ran(start[i], After(start, turns, i, n), Count(turns, i, n))
  {
    if n > 0 {
      LimitMono(start[i], Count(turns, i, n - 1), Count(turns, i, n));
      EveryDispatchCharged(start, turns, i, n - 1);
      assert TurnAt(start, turns, i, n - 1);
      if turns[n - 1].pick == i {
        RanStep(start[i], turns[n - 1].table[i], Count(turns, i, n - 1));
      }
    }
  }

  /** Slot j can be picked whenever slot i is. */
  ghost predicate Contends(turns: seq<Turn>, i: nat, j: nat, n: nat) {
    forall k :: 0 <= k < n <= |turns| && turns[k].pick == i ==> j < |turns[k].table| && Eligible(turns[k].table[j])
  }

  lemma PassMono(p: Proc, m: nat, n: nat)
    requires Sound(p) && m <= n <= m + 1
    ensures PassAfter(p, m) <= PassAfter(p, n) <= PassAfter(p, m) + p.stride
  {
    MulMono(p.stride, Charges(p, m), Charges(p, n));
    MulMono(p.stride, Charges(p, n), Charges(p, m) + 1);
    Distribute(p.stride, Charges(p, m), 1);
  }

  /** From any counters, a process that is dispatched at all is then at most one of its strides ahead of one that
      could have been picked instead. */
  lemma {:induction false} PassGap(start: seq<Proc>, turns: seq<Turn>, i: nat, j: nat, n: nat)
    requires TimerRun(start, turns, i) && TimerRun(start, turns, j) && n <= |turns| && Contends(turns, i, j, n)
    requires Sound(start[i]) && Sound(start[j])
    requires NoOverflow(start[i], Count(turns, i, n)) && NoOverflow(start[j], Count(turns, j, n))
    ensures var p, q := After(start, turns, i, n), After(start, turns, j, n);
            if Count(turns, i, n) == 0 then p.pass == start[i].pass else p.pass <= q.pass + start[i].stride
  {
    EveryDispatchCharged(start, turns, i, n);
    EveryDispatchCharged(start, turns, j, n);
    if n > 0 {
      LimitMono(start[i], Count(turns, i, n - 1), Count(turns, i, n));
      LimitMono(start[j], Count(turns, j, n - 1), Count(turns, j, n));
      EveryDispatchCharged(start, turns, i, n - 1);
      EveryDispatchCharged(start, turns, j, n - 1);
      PassGap(start, turns, i, j, n - 1);
      assert TurnAt(start, turns, i, n - 1) && TurnAt(start, turns, j, n - 1);
      PassMono(start[i], Count(turns, i, n - 1), Count(turns, i, n));
      PassMono(start[j], Count(turns, j, n - 1), Count(turns, j, n));
    }
  }

  /** Fresh counters, those of a process just forked, are charged every time, and overflow as in QuantaExact. */
  lemma FreshRan(p: Proc, n: nat)
    requires Fresh(p)
    ensures Sound(p) && PassAfter(p, n) == p.stride * n && LimitAfter(p, n) == p.stride * Tri(n + 1)
  {
    Distribute(p.stride, 1, Tri(n) + n);
    assert Tri(n + 1) == 1 + (Tri(n) + n) && p.pass * n == 0;
  }

  /** Stride fairness: of two processes forked with fresh counters, i never gets ahead of j by more than one of its own
      strides, counted in dispatches times stride, if j could be picked whenever i was. The other processes do as they
      please, and only the counters of these two must not have wrapped. */
  lemma {:induction false} Fairness(start: seq<Proc>, turns: seq<Turn>, i: nat, j: nat)
    requires TimerRun(start, turns, i) && TimerRun(start, turns, j) && Contends(turns, i, j, |turns|)
    requires Fresh(start[i]) && Fresh(start[j])
    requires start[i].stride * Tri(Count(turns, i, |turns|) + 1) <= MAXINT
    requires start[j].stride * Tri(Count(turns, j, |turns|) + 1) <= MAXINT
    ensures start[i].stride * Count(turns, i, |turns|) - start[j].stride * Count(turns, j, |turns|) <= start[i].stride
  {
    var n := |turns|;
    FreshRan(start[i], Count(turns, i, n));
    FreshRan(start[j], Count(turns, j, n));
    PassGap(start, turns, i, j, n);
    EveryDispatchCharged(start, turns, i, n);
    EveryDispatchCharged(start, turns, j, n);
  }

  // ----- No starvation -----

  datatype Snap = Snap(ps: seq<Proc>, cur: int)

  datatype Event =
    | Dispatch(m: int)
    | Trap(timer: bool)
    | Other                    // sleep, wakeup, exit, wait, kill: states change, counters do not
    | Fork(np: int)            // allocproc resets the counters of one slot

  /** The additions of a dispatch or a trap on this record do not wrap. */
  predicate NoWrap(p: Proc) {
    p.pass + p.stride <= MAXINT && p.limit + p.pass + p.stride <= MAXINT
  }

  ghost predicate EventStep(s: Snap, s': Snap, e: Event) {
    match e
    case Dispatch(m) =>
      && s.cur == NONE && IsPick(s.ps, m) && NoWrap(s.ps[m])
      && s' == Snap(s.ps[m := Charged(s.ps[m])], m)
    case Trap(timer) =>
      && 0 <= s.cur < |s.ps| && NoWrap(s.ps[s.cur])
      && var q := Trapped(s.ps[s.cur], timer);
         s' == Snap(s.ps[s.cur := q], if q.state.RUNNING? then s.cur else NONE)
    case Other =>
      SameCounters(s.ps, s'.ps) && (s'.cur == s.cur || s'.cur == NONE)
    case Fork(np) =>
      && 0 < np < |s.ps| && np != s.cur && s'.cur == s.cur
      && |s'.ps| == |s.ps| && s'.ps == s.ps[np := s'.ps[np]]
      && Fresh(s'.ps[np])
  }

  ghost predicate EventRun(snaps: seq<Snap>, events: seq<Event>) {
    && |snaps| == |events| + 1
    && forall k :: 0 <= k < |events| ==> EventStep(snaps[k], snaps[k + 1], events[k])
  }

  /** Slot j could have been picked all along, but was not, and is not being recycled. */
  ghost predicate Waits(snaps: seq<Snap>, events: seq<Event>, j: int) {
    && (forall k :: 0 <= k < |snaps| ==> 0 <= j < |snaps[k].ps| && Eligible(snaps[k].ps[j]) && snaps[k].cur != j)
    && (forall k :: 0 <= k < |events| ==> events[k] != Dispatch(j) && events[k] != Fork(j))
  }

  ghost predicate CountersOk(ps: seq<Proc>) {
    forall i :: 0 <= i < |ps| ==>
      ps[i].pass >= 0 && ps[i].limit >= 0 && ps[i].stride >= 0 && (i == 0 || ps[i].tickets > 0 ==> ps[i].stride >= 1)
  }

  /** How often a process may still be dispatched before its pass exceeds P: a
      dispatch either raises the pass by a stride or makes the next one do so. */
  function Weight(p: Proc, P: nat): (w: nat) {
    if p.pass > P || p.stride <= 0 then 0
    else 2 * ((P - p.pass) / p.stride) + (if p.pass >= p.limit then 2 else 1)
  }

  /** The quotient is the largest number of times the divisor goes in. */
  lemma DivLargest(d: nat, s: int, n: nat)
    requires s >= 1
    ensures s * n <= d <==> n <= d / s
  {
    var q := d / s;
    assert d == s * q + d % s;
    Distribute(s, q, 1);
    if n <= q {
      MulMono(s, n, q);
    } else {
      MulMono(s, q + 1, n);
    }
  }

  /** One stride further leaves room for one stride less. */
  lemma DivStep(d: nat, s: int)
    requires 1 <= s <= d
    ensures (d - s) / s == d / s - 1
  {
    var q, r := d / s, (d - s) / s;
    DivLargest(d, s, 1);
    DivLargest(d, s, q);
    DivLargest(d, s, r + 1);
    DivLargest(d - s, s, r);
    DivLargest(d - s, s, q - 1);
    Distribute(s, q, -1);
    Distribute(s, r, 1);
  }

  lemma DivMono(a: nat, b: nat, s: int, t: int)
    requires a <= b && 1 <= t <= s
    ensures a / s <= b / t
  {
    DivLargest(a, s, a / s);
    MulMono(a / s, t, s);
    DivLargest(b, t, a / s);
  }

  lemma WeightBound(p: Proc, P: nat, S: nat)
    requires p.pass >= 0 && S >= 1 && (p.stride >= 1 ==> p.stride >= S)
    ensures Weight(p, P) <= 2 * (P / S) + 2
  {
    if p.pass <= P && p.stride >= 1 {
      DivMono(P - p.pass, P, p.stride, S);
    }
  }

  function Potential(ps: seq<Proc>, P: nat): (w: nat) {
    if ps == [] then 0 else Weight(ps[0], P) + Potential(ps[1..], P)
  }

  lemma {:induction false} PotentialUpdate(ps: seq<Proc>, i: nat, p: Proc, P: nat)
    requires i < |ps|
    ensures Potential(ps[i := p], P) == Potential(ps, P) - Weight(ps[i], P) + Weight(p, P)
  {
    if i == 0 {
      assert ps[0 := p][1..] == ps[1..];
    } else {
      assert ps[i := p][1..] == ps[1..][i - 1 := p];
      PotentialUpdate(ps[1..], i - 1, p, P);
    }
  }

  lemma {:induction false} PotentialSame(ps: seq<Proc>, ps': seq<Proc>, P: nat)
    requires SameCounters(ps, ps')
    ensures Potential(ps', P) == Potential(ps, P)
  {
    if ps != [] {
      assert SameCounters(ps[1..], ps'[1..]) by {
        assert forall i :: 0 <= i < |ps| - 1 ==> ps[1..][i] == ps[i + 1] && ps'[1..][i] == ps'[i + 1];
      }
      PotentialSame(ps[1..], ps'[1..], P);
    }
  }

  lemma {:induction false} PotentialBound(ps: seq<Proc>, P: nat, S: nat)
    requires S >= 1 && AllPass(ps) && StridesFrom(ps, S)
    ensures Potential(ps, P) <= (2 * (P / S) + 2) * |ps|
  {
    if ps != [] {
      assert AllPass(ps[1..]) && StridesFrom(ps[1..], S) by {
        assert forall i :: 0 <= i < |ps| - 1 ==> ps[1..][i] == ps[i + 1];
      }
      WeightBound(ps[0], P, S);
      PotentialBound(ps[1..], P, S);
      Distribute(2 * (P / S) + 2, |ps| - 1, 1);
    }
  }

  ghost predicate AllPass(ps: seq<Proc>) {
    forall i :: 0 <= i < |ps| ==> ps[i].pass >= 0
  }

  /** Every process that can be dispatched has a stride of at least S. */
  ghost predicate StridesFrom(ps: seq<Proc>, S: nat) {
    forall i :: 0 <= i < |ps| && ps[i].stride >= 1 ==> ps[i].stride >= S
  }

  function Dispatches(events: seq<Event>): (n: nat) {
    if events == [] then 0 else (if events[0].Dispatch? then 1 else 0) + Dispatches(events[1..])
  }

  function Forks(events: seq<Event>): (n: nat) {
    if events == [] then 0 else (if events[0].Fork? then 1 else 0) + Forks(events[1..])
  }

  /** The weight a fork gives the slot it resets. */
  function ForkWeight(s: Snap, e: Event, P: nat): (n: nat) {
    if e.Fork? && 0 <= e.np < |s.ps| then Weight(s.ps[e.np], P) else 0
  }

  /** The potential all forks of a run together add. */
  function ForkBudget(snaps: seq<Snap>, events: seq<Event>, P: nat): (n: nat)
    requires |snaps| == |events| + 1
  {
    if events == [] then 0 else ForkWeight(snaps[1], events[0], P) + ForkBudget(snaps[1..], events[1..], P)
  }

  ghost predicate AllStridesFrom(snaps: seq<Snap>, S: nat) {
    forall k :: 0 <= k < |snaps| ==> StridesFrom(snaps[k].ps, S)
  }

  lemma {:induction false} ForkBudgetBound(snaps: seq<Snap>, events: seq<Event>, P: nat, S: nat)
    requires EventRun(snaps, events) && S >= 1 && AllStridesFrom(snaps, S)
    ensures ForkBudget(snaps, events, P) <= (2 * (P / S) + 2) * Forks(events)
    decreases |events|
  {
    if events != [] {
      assert EventStep(snaps[0], snaps[0 + 1], events[0]);
      if events[0].Fork? {
        WeightBound(snaps[1].ps[events[0].np], P, S);
      }
      RestRun(snaps, events);
      assert AllStridesFrom(snaps[1..], S);
      ForkBudgetBound(snaps[1..], events[1..], P, S);
      Distribute(2 * (P / S) + 2, Forks(events[1..]), 1);
    }
  }

  lemma RestRun(snaps: seq<Snap>, events: seq<Event>)
    requires EventRun(snaps, events) && events != []
    ensures EventRun(snaps[1..], events[1..])
  {
    forall k | 0 <= k < |events| - 1 ensures EventStep(snaps[1..][k], snaps[1..][k + 1], events[1..][k]) {
      assert EventStep(snaps[k + 1], snaps[k + 1 + 1], events[k + 1]);
    }
  }

  /** Raising the pass by one stride costs a process two units of weight. */
  lemma WeightStep(p: Proc, p': Proc, P: nat)
    requires p.stride >= 1 && p'.stride == p.stride && 0 <= p.pass && p'.pass == p.pass + p.stride
    ensures p.pass < p.limit ==> Weight(p', P) <= Weight(p, P)
    ensures p.pass < p.limit && p.pass <= P ==> Weight(p', P) < Weight(p, P)
  {
    if p'.pass <= P {
      DivStep(P - p.pass, p.stride);
    }
  }

  lemma DispatchWeight(s: Snap, s': Snap, m: int, j: int, P: nat)
    requires EventStep(s, s', Dispatch(m)) && CountersOk(s.ps)
    requires 0 <= j < |s.ps| && Eligible(s.ps[j]) && s.ps[j].pass == P && m != j
    ensures |s'.ps| == |s.ps| && CountersOk(s'.ps) && s'.ps[j].pass == P
    ensures Potential(s'.ps, P) + 1 <= Potential(s.ps, P)
  {
    PotentialUpdate(s.ps, m, s'.ps[m], P);
    if s.ps[m].pass < s.ps[m].limit {
      WeightStep(s.ps[m], s'.ps[m], P);
    }
  }

  lemma TrapWeight(s: Snap, s': Snap, timer: bool, P: nat)
    requires EventStep(s, s', Trap(timer)) && CountersOk(s.ps)
    ensures |s'.ps| == |s.ps| && CountersOk(s'.ps)
    ensures Potential(s'.ps, P) <= Potential(s.ps, P)
  {
    var p := s.ps[s.cur];
    PotentialUpdate(s.ps, s.cur, s'.ps[s.cur], P);
    if p.state.RUNNING? && p.pass < p.limit && !timer && p.stride >= 1 {
      WeightStep(p, s'.ps[s.cur], P);
    }
  }

  /** Each dispatch of another process uses up potential; only a fork adds any. */
  lemma EventWeight(s: Snap, s': Snap, e: Event, j: int, P: nat)
    requires EventStep(s, s', e) && CountersOk(s.ps)
    requires 0 <= j < |s.ps| && Eligible(s.ps[j]) && s.cur != j && s.ps[j].pass == P
    requires e != Dispatch(j) && e != Fork(j)
    ensures |s'.ps| == |s.ps| && CountersOk(s'.ps) && s'.ps[j].pass == P
    ensures Potential(s'.ps, P) + (if e.Dispatch? then 1 else 0)
            <= Potential(s.ps, P) + ForkWeight(s', e, P)
  {
    match e
    case Dispatch(m) =>
      DispatchWeight(s, s', m, j, P);
    case Trap(timer) =>
      TrapWeight(s, s', timer, P);
    case Other =>
      PotentialSame(s.ps, s'.ps, P);
    case Fork(np) =>
      PotentialUpdate(s.ps, np, s'.ps[np], P);
  }

  lemma {:induction false} PotentialSpent(snaps: seq<Snap>, events: seq<Event>, j: int, P: nat)
    requires EventRun(snaps, events) && Waits(snaps, events, j)
    requires CountersOk(snaps[0].ps) && snaps[0].ps[j].pass == P
    ensures Dispatches(events) <= Potential(snaps[0].ps, P) + ForkBudget(snaps, events, P)
    decreases |events|
  {
    if events != [] {
      assert EventStep(snaps[0], snaps[0 + 1], events[0]);
      EventWeight(snaps[0], snaps[1], events[0], j, P);
      LaterRun(snaps, events, j);
      PotentialSpent(snaps[1..], events[1..], j, P);
    }
  }

  lemma LaterRun(snaps: seq<Snap>, events: seq<Event>, j: int)
    requires EventRun(snaps, events) && Waits(snaps, events, j) && events != []
    ensures EventRun(snaps[1..], events[1..]) && Waits(snaps[1..], events[1..], j)
  {
    RestRun(snaps, events);
  }

  /** No starvation: while a process stays eligible, each of the others is dispatched
      at most twice for every stride its pass lies below the waiting one's, and twice
      more, however the others block, trap and fork. */
  lemma NoStarvation(snaps: seq<Snap>, events: seq<Event>, j: int)
    requires EventRun(snaps, events) && Waits(snaps, events, j) && CountersOk(snaps[0].ps)
    ensures var P := snaps[0].ps[j].pass;
            Dispatches(events) <= Potential(snaps[0].ps, P) + ForkBudget(snaps, events, P)
  {
    PotentialSpent(snaps, events, j, snaps[0].ps[j].pass);
  }

  /** So with strides of at least S the wait ends within (2 * (pass / S) + 2) * (NPROC + forks)
      dispatches; S may always be 1. */
  lemma WaitBound(snaps: seq<Snap>, events: seq<Event>, j: int, S: nat)
    requires EventRun(snaps, events) && Waits(snaps, events, j)
    requires CountersOk(snaps[0].ps) && |snaps[0].ps| == NPROC && S >= 1 && AllStridesFrom(snaps, S)
    ensures Dispatches(events) <= (2 * (snaps[0].ps[j].pass / S) + 2) * (NPROC + Forks(events))
  {
    var P := snaps[0].ps[j].pass;
    PotentialSpent(snaps, events, j, P);
    PotentialBound(snaps[0].ps, P, S);
    ForkBudgetBound(snaps, events, P, S);
    Distribute(2 * (P / S) + 2, NPROC, Forks(events));
  }

  // ----- Shares of two processes in any run -----

  function DispatchesOf(events: seq<Event>, i: int): (n: nat) {
    if events == [] then 0 else (if events[0] == Dispatch(i) then 1 else 0) + DispatchesOf(events[1..], i)
  }

  /** Slots i and j are not recycled, and j could be picked whenever i was. */
  ghost predicate Compete(snaps: seq<Snap>, events: seq<Event>, i: nat, j: nat) {
    && |snaps| == |events| + 1 && i < |snaps[0].ps| && j < |snaps[0].ps|
    && forall k :: 0 <= k < |events| ==> CompeteAt(snaps[k], events[k], i, j)
  }

  predicate CompeteAt(s: Snap, e: Event, i: nat, j: nat) {
    e != Fork(i) && e != Fork(j) && (e == Dispatch(i) ==> j < |s.ps| && Eligible(s.ps[j]))
  }

  /** Without wrapping, the pass of a process that is not recycled never falls. */
  lemma PassRises(s: Snap, s': Snap, e: Event, j: nat)
    requires EventStep(s, s', e) && CountersOk(s.ps) && j < |s.ps| && e != Fork(j)
    ensures |s'.ps| == |s.ps| && CountersOk(s'.ps) && s.ps[j].pass <= s'.ps[j].pass
  {
  }

  lemma ShareStep(s: Snap, s': Snap, e: Event, i: nat, P: nat)
    requires EventStep(s, s', e) && CountersOk(s.ps) && i < |s.ps| && e != Fork(i)
    requires e == Dispatch(i) ==> s.ps[i].pass <= P
    ensures |s'.ps| == |s.ps|
    ensures Weight(s'.ps[i], P) + (if e == Dispatch(i) then 1 else 0) <= Weight(s.ps[i], P)
  {
    var p, p' := s.ps[i], s'.ps[i];
    if p'.pass != p.pass && p.stride >= 1 {
      WeightStep(p, p', P);
    }
  }

  lemma RestCompetes(snaps: seq<Snap>, events: seq<Event>, i: nat, j: nat)
    requires EventRun(snaps, events) && Compete(snaps, events, i, j) && CountersOk(snaps[0].ps) && events != []
    ensures EventRun(snaps[1..], events[1..]) && Compete(snaps[1..], events[1..], i, j) && CountersOk(snaps[1].ps)
    ensures EventStep(snaps[0], snaps[1], events[0]) && CompeteAt(snaps[0], events[0], i, j)
    ensures |snaps[1].ps| == |snaps[0].ps| && snaps[0].ps[j].pass <= snaps[1].ps[j].pass
  {
    assert EventStep(snaps[0], snaps[0 + 1], events[0]) && CompeteAt(snaps[0], events[0], i, j);
    PassRises(snaps[0], snaps[1], events[0], j);
    RestRun(snaps, events);
    forall k | 0 <= k < |events| - 1 ensures CompeteAt(snaps[1..][k], events[1..][k], i, j) {
      assert CompeteAt(snaps[k + 1], events[k + 1], i, j);
    }
  }

  lemma {:induction false} PassesRise(snaps: seq<Snap>, events: seq<Event>, i: nat, j: nat)
    requires EventRun(snaps, events) && CountersOk(snaps[0].ps) && Compete(snaps, events, i, j)
    ensures |snaps[|events|].ps| == |snaps[0].ps| && 0 <= snaps[0].ps[j].pass <= snaps[|events|].ps[j].pass
    decreases |events|
  {
    if events != [] {
      RestCompetes(snaps, events, i, j);
      PassesRise(snaps[1..], events[1..], i, j);
    }
  }

  lemma {:induction false} ShareSpent(snaps: seq<Snap>, events: seq<Event>, i: nat, j: nat, P: nat)
    requires EventRun(snaps, events) && CountersOk(snaps[0].ps) && Compete(snaps, events, i, j)
    requires |snaps[|events|].ps| == |snaps[0].ps| && snaps[|events|].ps[j].pass <= P
    ensures DispatchesOf(events, i) <= Weight(snaps[0].ps[i], P)
    decreases |events|
  {
    if events != [] {
      PassesRise(snaps, events, i, j);
      RestCompetes(snaps, events, i, j);
      ShareStep(snaps[0], snaps[1], events[0], i, P);
      ShareSpent(snaps[1..], events[1..], i, j, P);
    }
  }

  /** Fairness with blocking, system calls and forks of others in any order: if j could be picked whenever i was, then
      i was dispatched at most twice for every one of its strides between its pass at the beginning and that of j at
      the end, and twice more. */
  lemma {:induction false} ShareBound(snaps: seq<Snap>, events: seq<Event>, i: nat, j: nat)
    requires EventRun(snaps, events) && CountersOk(snaps[0].ps) && Compete(snaps, events, i, j)
    ensures |snaps[|events|].ps| == |snaps[0].ps| && 0 <= snaps[0].ps[j].pass <= snaps[|events|].ps[j].pass
    ensures DispatchesOf(events, i) <= Weight(snaps[0].ps[i], snaps[|events|].ps[j].pass)
  {
    PassesRise(snaps, events, i, j);
    ShareSpent(snaps, events, i, j, snaps[|events|].ps[j].pass);
  }

  /** Traps taken by one process between two of its dispatches. */
  function AfterTraps(p: Proc, timers: seq<bool>): (p': Proc)
    decreases |timers|
  {
    if timers == [] then p else AfterTraps(Trapped(p, timers[0]), timers[1..])
  }

  ghost predicate NoWraps(p: Proc, timers: seq<bool>)
    decreases |timers|
  {
    NoWrap(p) && (timers == [] || NoWraps(Trapped(p, timers[0]), timers[1..]))
  }

  ghost predicate Progressing(p: Proc, base: int) {
    p.limit >= 0 && p.stride >= 1 && p.pass >= 0 && (p.pass >= base + p.stride || base <= p.pass < p.limit)
  }

  lemma {:induction false} TrapsProgress(p: Proc, timers: seq<bool>, base: int)
    requires Progressing(p, base) && NoWraps(p, timers)
    ensures Progressing(AfterTraps(p, timers), base) && NoWrap(AfterTraps(p, timers))
    ensures AfterTraps(p, timers).stride == p.stride
    decreases |timers|
  {
    if timers != [] {
      assert Progressing(Trapped(p, timers[0]), base);
      TrapsProgress(Trapped(p, timers[0]), timers[1..], base);
    }
  }

  /** Two consecutive dispatches of a process, with any traps in between, raise its pass by at least one stride. */
  lemma TwoDispatches(p: Proc, timers: seq<bool>)
    requires p.pass >= 0 && p.limit >= 0 && p.stride >= 1 && NoWrap(p) && NoWraps(Charged(p), timers)
    ensures Charged(AfterTraps(Charged(p), timers)).pass >= p.pass + p.stride
  {
    assert Progressing(Charged(p), p.pass);
    TrapsProgress(Charged(p), timers, p.pass);
  }

  // ----- How long a process keeps the CPU -----

  function Traps(events: seq<Event>): (n: nat) {
    if events == [] then 0 else (if events[0].Trap? then 1 else 0) + Traps(events[1..])
  }

  ghost predicate Holds(s: Snap, m: int) {
    0 <= m < |s.ps| && s.cur == m && s.ps[m].state.RUNNING?
  }

  /** Slot m has the CPU from beginning to end. */
  ghost predicate HoldsAll(snaps: seq<Snap>, m: int) {
    forall k :: 0 <= k < |snaps| ==> Holds(snaps[k], m)
  }

  /** An event that leaves slot m the CPU is no timer interrupt, and if it is a trap the slot was below its limit. */
  lemma HoldStep(s: Snap, s': Snap, e: Event, m: int)
    requires EventStep(s, s', e) && Holds(s, m) && Holds(s', m) && s.ps[m].pass >= 0 && s.ps[m].stride >= 0
    ensures s'.ps[m].stride == s.ps[m].stride && s'.ps[m].limit == s.ps[m].limit
    ensures e.Trap? ==> !e.timer && s.ps[m].pass < s.ps[m].limit && s'.ps[m].pass == s.ps[m].pass + s.ps[m].stride
    ensures !e.Trap? ==> s'.ps[m].pass == s.ps[m].pass
  {
  }

  lemma TrapsMul(stride: int, traps: nat)
    ensures (traps + 1) * stride == stride + traps * stride
  {
  }

  /** While a process keeps the CPU every trap costs it a stride, and the traps fit below its limit. */
  lemma {:induction false} TrapsPaid(snaps: seq<Snap>, events: seq<Event>, m: int)
    requires EventRun(snaps, events) && HoldsAll(snaps, m)
    requires snaps[0].ps[m].pass >= 0 && snaps[0].ps[m].stride >= 0
    ensures var p, q := snaps[0].ps[m], snaps[|events|].ps[m];
            && q.stride == p.stride && q.limit == p.limit && q.pass == p.pass + Traps(events) * p.stride
            && (Traps(events) > 0 ==> p.pass + (Traps(events) - 1) * p.stride < p.limit)
    decreases |events|
  {
    if events != [] {
      assert Holds(snaps[0], m) && Holds(snaps[0 + 1], m) && EventStep(snaps[0], snaps[0 + 1], events[0]);
      HoldStep(snaps[0], snaps[1], events[0], m);
      RestRun(snaps, events);
      assert HoldsAll(snaps[1..], m);
      TrapsPaid(snaps[1..], events[1..], m);
      var n := Traps(events[1..]);
      TrapsMul(snaps[0].ps[m].stride, n);
      if n > 0 {
        TrapsMul(snaps[0].ps[m].stride, n - 1);
      }
    }
  }

  /** A process keeps the CPU for at most (limit - pass) / stride traps, rounded up. */
  lemma TrapBudget(snaps: seq<Snap>, events: seq<Event>, m: int)
    requires EventRun(snaps, events) && HoldsAll(snaps, m)
    requires snaps[0].ps[m].pass >= 0 && snaps[0].ps[m].stride >= 1
    ensures var p := snaps[0].ps[m];
            Traps(events) <= if p.pass >= p.limit then 0 else (p.limit - p.pass + p.stride - 1) / p.stride
  {
    TrapsPaid(snaps, events, m);
    var p, n := snaps[0].ps[m], Traps(events);
    if n > 0 {
      MulMono(p.stride, 0, n - 1);
      DivLargest(p.limit - p.pass + p.stride - 1, p.stride, n);
    }
  }

  /** And it loses the CPU at the first trap that is the timer's or finds it at its limit, to be runnable again. */
  lemma TrapEnds(snaps: seq<Snap>, events: seq<Event>, m: int, timer: bool, s': Snap)
    requires EventRun(snaps, events) && HoldsAll(snaps, m) && snaps[0].ps[m].pass >= 0 && snaps[0].ps[m].stride >= 0
    requires EventStep(snaps[|events|], s', Trap(timer))
    ensures var p := snaps[0].ps[m];
            && m < |s'.ps| && s'.cur in {m, NONE}
            && (s'.cur == NONE <==> timer || p.pass + Traps(events) * p.stride >= p.limit)
            && (s'.cur == NONE ==> s'.ps[m].state.RUNNABLE?)
  {
    assert Holds(snaps[|events|], m);
    TrapsPaid(snaps, events, m);
  }

  /** So a process fresh from fork is off the CPU at its first trap, whatever it is. */
  lemma FreshLosesCpu(p: Proc, timer: bool)
    requires Fresh(p) && 2 * p.stride <= MAXINT
    ensures Charged(p).state.RUNNING? && Trapped(Charged(p), timer).state.RUNNABLE?
  {
  }

  /** Whatever the counters were, a dispatched process has a pass that is not negative; one whose pass has wrapped
      begins again with fresh counters. */
  lemma DispatchSound(p: Proc)
    ensures Charged(p).state.RUNNING? && Charged(p).pass >= 0
    ensures p.stride >= 1 && p.pass >= 0 && p.pass < p.limit && MAXINT < p.pass + p.stride <= 2 * MAXINT ==>
              Fresh(Charged(p))
    ensures p.pass < 0 && p.pass >= p.limit && p.stride >= 1 ==> Fresh(Charged(p))
  {
  }

  // ----- Every step of the process system is an event -----

  ghost function EventOf(s: PT.Sys, step: PT.Step): (e: Event)
    requires PT.Shape(s)
  {
    match step
    case Dispatch(m) => Dispatch(m)
    case Trap(timer) => Trap(timer)
    case Alloc(np, _) => Fork(np)
    case Publish(_) => if s.cur == NONE then Event.Other else Fork(s.making[s.cur])
    case _ => Event.Other
  }

  /** No addition of the step wraps, and a fork asks for a sensible number of tickets. */
  ghost predicate InRange(s: PT.Sys, step: PT.Step)
    requires PT.Shape(s)
  {
    match step
    case Dispatch(m) => 0 <= m < NPROC ==> NoWrap(s.ps[m])
    case Trap(_) => s.cur != NONE ==> NoWrap(s.ps[s.cur])
    case Alloc(_, tickets) => 1 <= tickets <= 10000
    case Publish(tickets) => 1 <= tickets <= 10000
    case _ => true
  }

  lemma StrideOfTickets(tickets: int)
    requires 1 <= tickets <= 10000
    ensures Quotient(10000, tickets) >= 1
  {
  }

  /** Every operation on the process table is one of the events that the results above are about. */
  lemma StepIsEvent(s: PT.Sys, s': PT.Sys, step: PT.Step)
    requires PT.Inv(s) && PT.NextStep(s, s', step) && InRange(s, step)
    ensures EventStep(Snap(s.ps, s.cur), Snap(s'.ps, s'.cur), EventOf(s, step))
  {
    match step
    case Alloc(np, tickets) => StrideOfTickets(tickets);
    case Publish(tickets) => StrideOfTickets(tickets);
    case Exit =>
      forall i | 0 <= i < NPROC ensures SameCounter(s.ps[i], s'.ps[i]) {
        PT.ExitedAt(s.ps, s.cur, i);
      }
    case _ =>
  }
}
