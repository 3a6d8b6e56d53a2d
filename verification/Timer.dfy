/** Ticks, the reschedule flag, one scheduling step per tick, and how long `sleep` really takes. */
module Timer {
  import opened Words
  import opened RunQueue

  /** Unsigned 32-bit subtraction. */
  function Sub32(a: Word, b: Word): Word {
    if a >= b then a - b else a + WORD_RANGE - b
  }

  /** The tick counter `k` ticks after it stood at `start`. */
  function TicksAfter(start: Word, k: nat): Word {
    (start + k) % WORD_RANGE
  }

  lemma OneMoreTick(start: Word, k: nat)
    ensures TicksAfter(TicksAfter(start, k), 1) == TicksAfter(start, k + 1)
  {
  }

  // ---- Turns of one task in a queue of n -----------------------------------------------------

  /** In a queue of `n` tasks, a task that ran at tick 0 runs again after `k` ticks. */
  predicate IsTurn(n: nat, k: int)
    requires n > 0
    decreases k
  {
    k == 0 || (k >= n && IsTurn(n, k - n))
  }

  /** The first turn that is at least `w` ticks away. */
  function RoundUp(w: int, n: nat): int
    requires n > 0
    decreases w
  {
    if w <= 0 then 0 else n + RoundUp(w - n, n)
  }

  lemma {:induction false} RoundUpIsFirst(w: int, n: nat, k: int)
    requires n > 0 && w >= 0
    ensures w <= RoundUp(w, n) < w + n && IsTurn(n, RoundUp(w, n))
    ensures IsTurn(n, k) && k < RoundUp(w, n) ==> k < w
    decreases w
  {
    if w > 0 {
      if w < n {
        assert RoundUp(w - n, n) == 0;
      } else {
        RoundUpIsFirst(w - n, n, k - n);
      }
    }
  }

  lemma {:induction false} AdvanceAdd(n: nat, cur: nat, a: nat, b: nat)
    ensures Advance(n, Advance(n, cur, a), b) == Advance(n, cur, a + b)
  {
    if b > 0 {
      AdvanceAdd(n, cur, a, b - 1);
    }
  }

  /** One schedule per tick brings a task back exactly at its turns. */
  lemma {:induction false} BackAtTurns(n: nat, cur: nat, k: nat)
    requires cur < n
    ensures Advance(n, cur, k) == cur <==> IsTurn(n, k)
    decreases k
  {
    if k < n {
      AdvanceOnce(n, cur, k);
    } else {
      AdvanceOnce(n, cur, n);
      AdvanceAdd(n, cur, n, k - n);
      BackAtTurns(n, cur, k - n);
    }
  }

  // ---- When a sleeper leaves its loop --------------------------------------------------------

  /** The sleeper checks at its turns; it leaves at the first one where the unsigned difference suffices. */
  ghost predicate LeavesAt(n: nat, w: Word, start: Word, k: nat)
    requires n > 0
  {
    && IsTurn(n, k) && Sub32(TicksAfter(start, k), start) >= w
    && forall j: nat :: j < k && IsTurn(n, j) ==> Sub32(TicksAfter(start, j), start) < w
  }

  lemma ElapsedMod(start: Word, k: nat)
    ensures Sub32(TicksAfter(start, k), start) == k % WORD_RANGE
  {
    var q := k / WORD_RANGE;
    var r := k % WORD_RANGE;
    assert start + k == q * WORD_RANGE + (start + r);
    if start + r < WORD_RANGE {
      assert TicksAfter(start, k) == start + r;
    } else {
      assert start + k == (q + 1) * WORD_RANGE + (start + r - WORD_RANGE);
      assert TicksAfter(start, k) == start + r - WORD_RANGE;
    }
  }

  /**
    A sleeper that needs `w` ticks leaves within fewer than `w + n` ticks exactly when its first turn
    at or past `w` comes before the counter has gone round; then it leaves at that turn, never early,
    for every starting value of the counter.
  */
  lemma SleepLatency(n: nat, w: Word, start: Word, k: nat)
    requires 0 < n < WORD_RANGE && w > 0
    ensures LeavesAt(n, w, start, k) && k < w + n ==> RoundUp(w, n) < WORD_RANGE && k == RoundUp(w, n)
    ensures RoundUp(w, n) < WORD_RANGE && k == RoundUp(w, n) ==> LeavesAt(n, w, start, k) && w <= k < w + n
  {
    RoundUpIsFirst(w, n, k);
    ElapsedMod(start, k);
    forall j: nat | j < RoundUp(w, n) && IsTurn(n, j) ensures j < w && Sub32(TicksAfter(start, j), start) < w {
      RoundUpIsFirst(w, n, j);
      ElapsedMod(start, j);
    }
    WrapsOnce(k);
    if LeavesAt(n, w, start, k) && k < w + n {
      NoTurnBetween(n, w, k);
    }
  }

  lemma WrapsOnce(k: nat)
    ensures k % WORD_RANGE <= k
    ensures WORD_RANGE <= k < 2 * WORD_RANGE ==> k % WORD_RANGE == k - WORD_RANGE
  {
  }

  /** There is only one turn in any `n` consecutive ticks. */
  lemma {:induction false} NoTurnBetween(n: nat, w: int, k: nat)
    requires n > 0 && w >= 0 && IsTurn(n, k) && k < w + n
    ensures k >= w ==> k == RoundUp(w, n)
    decreases k
  {
    if w > 0 && k >= n {
      if w >= n { NoTurnBetween(n, w - n, k - n); } else { TurnBelow(n, k - n); }
    }
  }

  lemma TurnBelow(n: nat, k: int)
    requires n > 0 && k < n && IsTurn(n, k)
    ensures k == 0
  {
  }

  lemma {:induction false} RoundUpMultiple(w: int, n: nat)
    requires 1 <= n <= 4
    ensures RoundUp(w, n) % n == 0
    decreases w
  {
    if w > 0 {
      RoundUpMultiple(w - n, n);
    }
  }

  /** For the queues this kernel can have, the condition in closed form. */
  lemma LatencyCondition(n: nat, w: Word)
    requires 1 <= n <= 4 && w > 0
    ensures RoundUp(w, n) < WORD_RANGE <==> n == 3 || w <= WORD_RANGE - n
  {
    RoundUpIsFirst(w, n, 0);
    RoundUpMultiple(w, n);
  }

  /** Past that condition, with 2 or 4 tasks, the sleeper never leaves at all. */
  lemma NeverLeaves(n: nat, w: Word, start: Word, k: nat)
    requires n == 2 || n == 4
    requires w > WORD_RANGE - n
    ensures !LeavesAt(n, w, start, k)
  {
    ElapsedMod(start, k);
    if IsTurn(n, k) {
      TurnMultiple(n, k);
      WrappedMultiple(n, k);
    }
  }

  lemma WrappedMultiple(n: nat, k: nat)
    requires (n == 2 || n == 4) && k % n == 0
    ensures k % WORD_RANGE <= WORD_RANGE - n
  {
    var q, r := k / WORD_RANGE, k % WORD_RANGE;
    assert k == q * WORD_RANGE + r;
    if n == 2 {
      assert k == 2 * (q * 0x8000_0000) + r;
    } else {
      assert k == 4 * (q * 0x4000_0000) + r;
    }
  }

  lemma {:induction false} TurnMultiple(n: nat, k: nat)
    requires 1 <= n <= 4 && IsTurn(n, k)
    ensures k % n == 0
    decreases k
  {
    if k > 0 {
      TurnMultiple(n, k - n);
      OneRoundMore(n, k);
    }
  }

  lemma OneRoundMore(n: nat, k: nat)
    requires 1 <= n <= 4 && k >= n && (k - n) % n == 0
    ensures k % n == 0
  {
    if n == 1 {} else if n == 2 {} else if n == 3 {} else {}
  }

  // ---- In the run queue ----------------------------------------------------------------------

  /** The task that runs now runs again exactly at its turns, whatever the tasks do in between. */
  lemma TurnsInRun(q: Queue, es: seq<Event>, t: Word)
    requires q.Ok() && CanRun(q, es) && Fixed(es) && q.Running(t)
    ensures Run(q, es).Running(t) <==> IsTurn(|q.ring|, Schedules(es))
  {
    RunsAfter(q, es, q.cur);
    BackAtTurns(|q.ring|, q.cur, Schedules(es));
  }

  /** One event more. */
  lemma {:induction false} RunOneMore(q: Queue, es: seq<Event>, i: nat)
    requires q.Ok() && CanRun(q, es) && i < |es|
    ensures CanRun(q, es[..i]) && CanRun(q, es[..i + 1])
    ensures var q' := Run(q, es[..i]);
      q'.Ok() && Possible(q', es[i]) && Run(q, es[..i + 1]) == Step(q', es[i])
    ensures Schedules(es[..i + 1]) == Schedules(es[..i]) + if es[i].Schedule? then 1 else 0
    decreases i
  {
    StepOk(q, es[0]);
    assert es[..i + 1][0] == es[0] && es[..i + 1][1..] == es[1..][..i];
    if i > 0 {
      RunOneMore(Step(q, es[0]), es[1..], i - 1);
      assert es[..i][0] == es[0] && es[..i][1..] == es[1..][..i - 1];
    }
  }

  /** The number of schedules passes every value on its way. */
  lemma {:induction false} SomePrefix(es: seq<Event>, k: nat) returns (i: nat)
    requires k <= Schedules(es)
    ensures i <= |es| && Schedules(es[..i]) == k
  {
    if k == 0 {
      i := 0;
    } else if es[0].Schedule? {
      i := SomePrefix(es[1..], k - 1);
      assert es[..i + 1][0] == es[0] && es[..i + 1][1..] == es[1..][..i];
      i := i + 1;
    } else {
      i := SomePrefix(es[1..], k);
      assert es[..i + 1][0] == es[0] && es[..i + 1][1..] == es[1..][..i];
      i := i + 1;
    }
  }

  /** `t` runs after the events, `w` ticks have gone by as far as it can see, and so it was not at any earlier tick. */
  ghost predicate LeavesAfter(q: Queue, es: seq<Event>, t: Word, w: Word, start: Word)
    requires q.Ok() && CanRun(q, es)
  {
    && Run(q, es).Running(t) && Sub32(TicksAfter(start, Schedules(es)), start) >= w
    && forall j :: 0 <= j <= |es| && CanRun(q, es[..j]) && Schedules(es[..j]) < Schedules(es) && Run(q, es[..j]).Running(t) ==>
      Sub32(TicksAfter(start, Schedules(es[..j])), start) < w
  }

  lemma LeavesAtItsTurn(q: Queue, es: seq<Event>, t: Word, w: Word, start: Word)
    requires q.Ok() && CanRun(q, es) && Fixed(es) && q.Running(t)
    ensures LeavesAfter(q, es, t, w, start) <==> LeavesAt(|q.ring|, w, start, Schedules(es))
  {
    var n := |q.ring|;
    TurnsInRun(q, es, t);
    forall j | 0 <= j <= |es| && CanRun(q, es[..j])
      ensures Run(q, es[..j]).Running(t) <==> IsTurn(n, Schedules(es[..j]))
    {
      assert forall e :: e in es[..j] ==> e in es;
      TurnsInRun(q, es[..j], t);
    }
    if LeavesAfter(q, es, t, w, start) {
      forall k: nat | k < Schedules(es) && IsTurn(n, k) ensures Sub32(TicksAfter(start, k), start) < w {
        var j := SomePrefix(es, k);
        PrefixRuns(q, es, j);
      }
    }
  }

  /**
    In every run of the queue without creations: a task that starts to wait for `w` ticks leaves within
    fewer than `w + n` of them if and only if its first turn at or past `w` comes before the counter
    has gone round, and then it leaves at that turn.
  */
  lemma LatencyInRun(q: Queue, es: seq<Event>, t: Word, w: Word, start: Word)
    requires q.Ok() && CanRun(q, es) && Fixed(es) && q.Running(t) && w > 0 && |q.ring| < WORD_RANGE
    ensures LeavesAfter(q, es, t, w, start) && Schedules(es) < w + |q.ring| <==>
      RoundUp(w, |q.ring|) < WORD_RANGE && Schedules(es) == RoundUp(w, |q.ring|)
  {
    LeavesAtItsTurn(q, es, t, w, start);
    SleepLatency(|q.ring|, w, start, Schedules(es));
  }

  /** The task runs after the first `i` events and finds that it has waited for `w` ticks. */
  ghost predicate MayLeave(q: Queue, es: seq<Event>, t: Word, w: Word, start: Word, i: nat)
    requires q.Ok() && CanRun(q, es)
  {
    && i <= |es| && CanRun(q, es[..i]) && Run(q, es[..i]).Running(t)
    && Sub32(TicksAfter(start, Schedules(es[..i])), start) >= w
  }

  /** Without creations a run of so many ticks gives the sleeper its turn past `w`. */
  lemma MayLeaveInTurn(q: Queue, es: seq<Event>, t: Word, w: Word, start: Word) returns (i: nat)
    requires q.Ok() && CanRun(q, es) && Fixed(es) && q.Running(t) && w > 0
    requires RoundUp(w, |q.ring|) < WORD_RANGE && RoundUp(w, |q.ring|) <= Schedules(es)
    ensures MayLeave(q, es, t, w, start, i) && Schedules(es[..i]) == RoundUp(w, |q.ring|)
  {
    RoundUpIsFirst(w, |q.ring|, 0);
    i := SomePrefix(es, RoundUp(w, |q.ring|));
    PrefixRuns(q, es, i);
    assert forall e :: e in es[..i] ==> e in es;
    TurnsInRun(q, es[..i], t);
    ElapsedMod(start, Schedules(es[..i]));
  }

  /** The ticks seen so far, while the counter has not gone round. */
  lemma ElapsedSmall(start: Word, k: nat)
    requires k < WORD_RANGE
    ensures Sub32(TicksAfter(start, k), start) == k
  {
    ElapsedMod(start, k);
  }

  /**
    Creations included: as long as there are at most four tasks, a sleeper can leave after at least `w`
    and fewer than `w + 4` ticks.
  */
  lemma MayLeaveAmongFour(q: Queue, es: seq<Event>, t: Word, w: Word, start: Word) returns (i: nat)
    requires q.Ok() && CanRun(q, es) && q.Running(t) && |Run(q, es).ring| <= 4
    requires 0 < w <= WORD_RANGE - 4 && Schedules(es) >= w + 3
    ensures MayLeave(q, es, t, w, start, i) && w <= Schedules(es[..i]) < w + 4
  {
    var a := SomePrefix(es, w);
    RunSplits(q, es, a);
    StaysInQueue(q, es[..a], t);
    var q1, rest := Run(q, es[..a]), es[a..];
    if q1.Running(t) {
      i := a;
    } else {
      var b := TurnWithinThree(q1, rest, t);
      i := a + b;
      assert es[..i] == es[..a] + rest[..b];
      RunsInTurn(q, es[..a], rest[..b]);
    }
    ElapsedSmall(start, Schedules(es[..i]));
  }

  lemma TurnWithinThree(q: Queue, es: seq<Event>, t: Word) returns (i: nat)
    requires q.Ok() && CanRun(q, es) && q.Parked(t) && |Run(q, es).ring| <= 4 && Schedules(es) >= 3
    ensures i <= |es| && CanRun(q, es[..i]) && Run(q, es[..i]).Running(t) && Schedules(es[..i]) <= 3
  {
    var c := SomePrefix(es, 3);
    RunSplits(q, es, c);
    RingGrows(Run(q, es[..c]), es[c..]);
    ThreeSchedulesSuffice(q, es[..c], t);
    i := TurnAt(q, es[..c], t);
    assert es[..c][..i] == es[..i];
    PrefixRuns(q, es[..c], i);
  }

  // ---- The driver ----------------------------------------------------------------------------

  class Clock {
    var ticks: Word
    var needReschedule: bool
    var targetFreq: Word

    constructor ()
      ensures ticks == 0 && !needReschedule && targetFreq == 100
    {
      ticks, needReschedule, targetFreq := 0, false, 100;
    }

    method Init(frequency: Word)
      modifies `targetFreq
      ensures targetFreq == frequency
    {
      targetFreq := frequency;
    }

    method Handler()
      modifies `ticks, `needReschedule
      ensures ticks == TicksAfter(old(ticks), 1) && needReschedule
      ensures ticks == if old(ticks) == 0xFFFF_FFFF then 0 else old(ticks) + 1
    {
      ticks := (ticks + 1) % WORD_RANGE;
      needReschedule := true;
    }

    method NeedsReschedule() returns (r: bool)
      ensures r == needReschedule
    {
      r := needReschedule;
    }

    method ClearReschedule()
      modifies `needReschedule
      ensures !needReschedule
    {
      needReschedule := false;
    }

    /** The conversion in `sleep`. */
    method TicksToWait(ms: Word) returns (w: Word)
      requires 1 <= targetFreq <= 1000
      ensures w == DelayTicks(ms, targetFreq)
    {
      w := ms / (1000 / targetFreq);
      if w == 0 { w := 1; }
    }
  }

  /** Whole ticks in `ms` milliseconds, at least one. */
  function DelayTicks(ms: Word, freq: Word): (w: Word)
    requires 1 <= freq <= 1000
    ensures w >= 1
  {
    var whole := ms / (1000 / freq);
    if whole == 0 then 1 else whole
  }

  /** At 100 Hz the delay is rounded down past the first tick: it covers `ms` only in these cases. */
  lemma DelayCovers(ms: Word)
    ensures 10 * DelayTicks(ms, 100) >= ms <==> ms % 10 == 0 || ms < 10
  {
  }

  lemma WholeTicks(ms: nat, tick: nat)
    requires tick > 0
    ensures ms / tick * tick <= ms < ms / tick * tick + tick && (ms / tick == 0 <==> ms < tick)
  {
    var whole, part := ms / tick, ms % tick;
    assert ms == tick * whole + part;
    assert whole >= 1 ==> tick * whole >= tick;
  }

  /** The conversion keeps the whole ticks in the delay, and waits for one when there are none. */
  lemma DelayExact(ms: Word, freq: Word)
    requires 1 <= freq <= 1000
    ensures var w, tick := DelayTicks(ms, freq), 1000 / freq;
      if ms < tick then w == 1 else w * tick <= ms < w * tick + tick
    ensures ms < 10 ==> DelayTicks(ms, 100) == 1
    ensures ms >= 10 ==> 10 * DelayTicks(ms, 100) <= ms < 10 * DelayTicks(ms, 100) + 10
  {
    WholeTicks(ms, 1000 / freq);
    assert 1000 / 100 == 10;
  }

  /** At this kernel's 100 Hz the condition always holds: every sleep ends, at its turn. */
  lemma HundredHertzSuffices(n: nat, ms: Word)
    requires 1 <= n <= 4
    ensures RoundUp(DelayTicks(ms, 100), n) < WORD_RANGE
  {
    RoundUpIsFirst(DelayTicks(ms, 100), n, 0);
  }

  /** At 1000 Hz it fails for the longest delay with two or four tasks. */
  lemma ThousandHertzFails(n: nat)
    requires n == 2 || n == 4
    ensures RoundUp(DelayTicks(0xFFFF_FFFF, 1000), n) >= WORD_RANGE
  {
    LatencyCondition(n, DelayTicks(0xFFFF_FFFF, 1000));
  }

  /** The timer together with the run queue. */
  class TickingQueue {
    const clock: Clock
    var q: Queue

    constructor (clock: Clock, q: Queue)
      ensures this.clock == clock && this.q == q
    {
      this.clock, this.q := clock, q;
    }

    /** A task computes or is created, or the timer interrupts: count the tick, then reschedule if the flag says so. */
    method Happens(e: Event)
      requires q.Ok() && Possible(q, e)
      modifies `q, clock`ticks, clock`needReschedule
      ensures q == Step(old(q), e)
      ensures clock.ticks == if e.Schedule? then TicksAfter(old(clock.ticks), 1) else old(clock.ticks)
    {
      if e.Schedule? {
        clock.Handler();
        var needed := clock.NeedsReschedule();
        if needed {
          clock.ClearReschedule();
          q := Step(q, e);
        }
      } else {
        q := Step(q, e);
      }
    }

    /** The first `i` of the events have happened since the queue was `q0` and the counter stood at `start`. */
    ghost predicate Reached(q0: Queue, start: Word, events: seq<Event>, i: nat)
      reads this, clock
    {
      && q.Ok() && i <= |events| && CanRun(q0, events[..i]) && q == Run(q0, events[..i])
      && clock.ticks == TicksAfter(start, Schedules(events[..i]))
    }

    method HappensNext(ghost q0: Queue, ghost start: Word, events: seq<Event>, i: nat)
      requires q0.Ok() && CanRun(q0, events) && i < |events| && Reached(q0, start, events, i)
      modifies `q, clock`ticks, clock`needReschedule
      ensures Reached(q0, start, events, i + 1)
    {
      RunOneMore(q0, events, i);
      OneMoreTick(start, Schedules(events[..i]));
      StepOk(q, events[i]);
      Happens(events[i]);
    }

    /** `hlt` in the running task: it continues after the first interrupt that makes it run again, which comes before `stop`. */
    method Hlt(ghost q0: Queue, ghost start: Word, me: Word, events: seq<Event>, i: nat, ghost stop: nat) returns (j: nat)
      requires q0.Ok() && CanRun(q0, events) && Reached(q0, start, events, i)
      requires i < stop && RunsAt(q0, events, stop, me) && Schedules(events[..i]) < Schedules(events[..stop])
      modifies `q, clock`ticks, clock`needReschedule
      ensures Reached(q0, start, events, j) && i < j <= stop && RunsAt(q0, events, j, me)
      ensures Schedules(events[..i]) < Schedules(events[..j]) && OthersRun(q0, events, me, i, j)
    {
      var resumed := false;
      j := i;
      while !resumed
        invariant i <= j <= stop && Reached(q0, start, events, j)
        invariant !resumed ==> OthersRun(q0, events, me, i, j + 1)
        invariant resumed ==> i < j && Schedules(events[..i]) < Schedules(events[..j]) && RunsAt(q0, events, j, me)
        invariant resumed ==> OthersRun(q0, events, me, i, j)
        decreases stop - j, !resumed
      {
        HappensNext(q0, start, events, j);
        resumed := events[j].Schedule? && q.ring[q.cur].tcb == me;
        OneEventMore(q0, events, me, i, j);
        j := j + 1;
      }
    }

    /**
      `sleep` by the running task. Whatever happens meanwhile, creations included: if it will ever run
      again having waited long enough, its loop ends at the first tick where it does.
    */
    method Sleep(ms: Word, events: seq<Event>) returns (slept: nat)
      requires 1 <= clock.targetFreq <= 1000 && q.Ok() && CanRun(q, events)
      requires var w := DelayTicks(ms, clock.targetFreq);
        exists i :: MayLeave(q, events, q.ring[q.cur].tcb, w, clock.ticks, i)
      modifies `q, clock`ticks, clock`needReschedule
      ensures Reached(old(q), old(clock.ticks), events, slept)
      ensures LeavesAfter(old(q), events[..slept], old(q).ring[old(q).cur].tcb, DelayTicks(ms, clock.targetFreq), old(clock.ticks))
    {
      var wait := clock.TicksToWait(ms);
      var start := clock.ticks;
      var me := q.ring[q.cur].tcb;
      ghost var q0 := q;
      ghost var stop :| MayLeave(q0, events, me, wait, start, stop);
      slept := 0;
      while Sub32(clock.ticks, start) < wait
        invariant slept <= stop && Reached(q0, start, events, slept) && RunsAt(q0, events, slept, me)
        invariant Waited(q0, events, me, wait, start, slept)
        decreases |events| - slept
      {
        ghost var before := slept;
        StopIsLater(q0, events, me, wait, start, slept, stop);
        slept := Hlt(q0, start, me, events, slept, stop);
        WaitedLonger(q0, events, me, wait, start, before, slept);
      }
      WaitEnds(q0, events, me, wait, start, slept);
    }
  }

  /** Task `t` runs after the first `i` events. */
  ghost predicate RunsAt(q: Queue, es: seq<Event>, i: nat, t: Word) {
    i <= |es| && CanRun(q, es[..i]) && Run(q, es[..i]).Running(t)
  }

  /** From tick to tick after event `i` and before event `j`, task `t` does not run. */
  ghost predicate OthersRun(q: Queue, es: seq<Event>, t: Word, i: nat, j: nat)
    requires i <= |es|
  {
    forall k :: i < k < j && k <= |es| && Schedules(es[..k]) > Schedules(es[..i]) ==> !RunsAt(q, es, k, t)
  }

  lemma OneEventMore(q: Queue, es: seq<Event>, t: Word, i: nat, j: nat)
    requires q.Ok() && CanRun(q, es) && i <= j < |es| && OthersRun(q, es, t, i, j + 1)
    ensures CanRun(q, es[..j + 1])
    ensures es[j].Schedule? && Run(q, es[..j + 1]).Running(t) ==>
      RunsAt(q, es, j + 1, t) && Schedules(es[..i]) < Schedules(es[..j + 1])
    ensures !(es[j].Schedule? && Run(q, es[..j + 1]).Running(t)) ==> OthersRun(q, es, t, i, j + 2)
  {
    RunOneMore(q, es, j);
    FewerBefore(q, es, i, j);
    if !es[j].Schedule? {
      SameTaskRuns(Run(q, es[..j]), es[j], t);
      if i < j { assert Schedules(es[..j]) > Schedules(es[..i]) ==> !RunsAt(q, es, j, t); }
    }
  }

  lemma FewerBefore(q: Queue, es: seq<Event>, i: nat, j: nat)
    requires q.Ok() && CanRun(q, es) && i <= j <= |es|
    ensures Schedules(es[..i]) <= Schedules(es[..j])
  {
    PrefixRuns(q, es, j);
    PrefixRuns(q, es[..j], i);
    assert es[..j][..i] == es[..i];
  }

  lemma SameTaskRuns(q: Queue, e: Event, t: Word)
    requires q.Ok() && Possible(q, e) && !e.Schedule?
    ensures Step(q, e).Running(t) <==> q.Running(t)
  {
  }

  /** At every earlier tick where it ran, the sleeper had not waited long enough. */
  ghost predicate Waited(q: Queue, es: seq<Event>, t: Word, w: Word, start: Word, i: nat)
    requires i <= |es|
  {
    forall k :: 0 <= k < i && Schedules(es[..k]) < Schedules(es[..i]) && RunsAt(q, es, k, t) ==>
      Sub32(TicksAfter(start, Schedules(es[..k])), start) < w
  }

  lemma StopIsLater(q: Queue, es: seq<Event>, t: Word, w: Word, start: Word, i: nat, stop: nat)
    requires q.Ok() && CanRun(q, es) && i <= stop && MayLeave(q, es, t, w, start, stop)
    requires Sub32(TicksAfter(start, Schedules(es[..i])), start) < w
    ensures i < stop && Schedules(es[..i]) < Schedules(es[..stop]) && RunsAt(q, es, stop, t)
  {
    FewerBefore(q, es, i, stop);
  }

  lemma WaitedLonger(q: Queue, es: seq<Event>, t: Word, w: Word, start: Word, i: nat, j: nat)
    requires q.Ok() && CanRun(q, es) && i < j <= |es| && Waited(q, es, t, w, start, i) && OthersRun(q, es, t, i, j)
    requires Sub32(TicksAfter(start, Schedules(es[..i])), start) < w
    ensures Waited(q, es, t, w, start, j)
  {
    forall k | 0 <= k < j && Schedules(es[..k]) < Schedules(es[..j]) && RunsAt(q, es, k, t)
      ensures Sub32(TicksAfter(start, Schedules(es[..k])), start) < w
    {
      if k <= i { FewerBefore(q, es, k, i); } else { FewerBefore(q, es, i, k); }
    }
  }

  lemma WaitEnds(q: Queue, es: seq<Event>, t: Word, w: Word, start: Word, i: nat)
    requires q.Ok() && CanRun(q, es) && RunsAt(q, es, i, t) && Waited(q, es, t, w, start, i)
    requires Sub32(TicksAfter(start, Schedules(es[..i])), start) >= w
    ensures LeavesAfter(q, es[..i], t, w, start)
  {
    forall j | 0 <= j <= |es[..i]| && CanRun(q, es[..i][..j]) && Schedules(es[..i][..j]) < Schedules(es[..i])
               && Run(q, es[..i][..j]).Running(t)
      ensures Sub32(TicksAfter(start, Schedules(es[..i][..j])), start) < w
    {
      assert es[..i][..j] == es[..j];
      assert RunsAt(q, es, j, t);
    }
  }

  /** The first exit is no later than any other. */
  lemma FirstExit(q: Queue, es: seq<Event>, t: Word, w: Word, start: Word, i: nat, j: nat)
    requires q.Ok() && CanRun(q, es) && i <= |es| && CanRun(q, es[..i]) && LeavesAfter(q, es[..i], t, w, start)
    requires MayLeave(q, es, t, w, start, j)
    ensures Schedules(es[..i]) <= Schedules(es[..j])
  {
    if i <= j {
      FewerBefore(q, es, i, j);
    } else {
      assert es[..i][..j] == es[..j];
    }
  }

  /** How long that is without creations: exactly up to the first turn past `w`. */
  lemma SleepInTurn(q: Queue, es: seq<Event>, t: Word, w: Word, start: Word, i: nat)
    requires q.Ok() && CanRun(q, es) && Fixed(es) && q.Running(t) && w > 0 && |q.ring| < WORD_RANGE
    requires RoundUp(w, |q.ring|) < WORD_RANGE && RoundUp(w, |q.ring|) <= Schedules(es)
    requires i <= |es| && CanRun(q, es[..i]) && LeavesAfter(q, es[..i], t, w, start)
    ensures Schedules(es[..i]) == RoundUp(w, |q.ring|)
  {
    var j := MayLeaveInTurn(q, es, t, w, start);
    FirstExit(q, es, t, w, start, i, j);
    RoundUpIsFirst(w, |q.ring|, 0);
    assert forall e :: e in es[..i] ==> e in es;
    LatencyInRun(q, es[..i], t, w, start);
  }

  /** And with creations, as long as there are at most four tasks: at least `w` and fewer than `w + 4` ticks. */
  lemma SleepAmongFour(q: Queue, es: seq<Event>, t: Word, w: Word, start: Word, i: nat)
    requires q.Ok() && CanRun(q, es) && q.Running(t) && |Run(q, es).ring| <= 4
    requires 0 < w <= WORD_RANGE - 4 && Schedules(es) >= w + 3
    requires i <= |es| && CanRun(q, es[..i]) && LeavesAfter(q, es[..i], t, w, start)
    ensures w <= Schedules(es[..i]) < w + 4
  {
    var j := MayLeaveAmongFour(q, es, t, w, start);
    FirstExit(q, es, t, w, start, i, j);
    ElapsedSmall(start, Schedules(es[..i]));
  }

  /**
    In milliseconds, at 100 Hz and with at most four tasks: `sleep` waits for more than `ms - 10` and for
    less than `ms + 40`, or less than 50 when `ms` is below a tick.
  */
  lemma SleepMillis(q: Queue, es: seq<Event>, t: Word, ms: Word, start: Word, i: nat)
    requires q.Ok() && CanRun(q, es) && q.Running(t) && |Run(q, es).ring| <= 4 && 10 * Schedules(es) >= ms + 40
    requires i <= |es| && CanRun(q, es[..i]) && LeavesAfter(q, es[..i], t, DelayTicks(ms, 100), start)
    ensures ms - 10 < 10 * Schedules(es[..i]) < (if ms < 10 then 50 else ms + 40)
  {
    DelayExact(ms, 100);
    SleepAmongFour(q, es, t, DelayTicks(ms, 100), start, i);
  }
}
