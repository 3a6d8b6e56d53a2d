/**
  The scheduler on values: the circular run queue as a sequence that starts with the main task, the
  position of the running task, and the registers of the processor.
*/
module RunQueue {
  import opened Words

  datatype Regs = Regs(eax: Word, ebx: Word, ecx: Word, edx: Word, esi: Word, edi: Word, ebp: Word,
                       eflags: Word, esp: Word, eip: Word)

  /** A task: its control block, its stack region [lo, hi), and what it resumes with when parked. */
  datatype Task = Task(tcb: Word, id: Word, lo: Word, hi: Word, saved: Regs)

  datatype Queue = Queue(ring: seq<Task>, cur: nat, regs: Regs) {
    ghost predicate Ok() {
      && cur < |ring|
      && forall i, j :: 0 <= i < j < |ring| ==> ring[i].tcb != ring[j].tcb
    }

    /** `t` is in the queue but not running. */
    ghost predicate Parked(t: Word) {
      exists i :: 0 <= i < |ring| && i != cur && ring[i].tcb == t
    }

    ghost predicate Running(t: Word) {
      cur < |ring| && ring[cur].tcb == t
    }
  }

  datatype Event =
    | Execute(regs: Regs)      // the running task computes
    | Schedule(ret: Word)      // `task_schedule` calls `switch_to_task`, returning to `ret`
    | Create(task: Task)       // `create_task` succeeds

  function Next(n: nat, i: nat): nat {
    if i + 1 < n then i + 1 else 0
  }

  /** The registers a task is parked with: as at the call, with the return address and above it the arguments. */
  function AtCall(r: Regs, ret: Word): Regs
    requires r.esp >= 8
  {
    r.(eip := ret, esp := r.esp - 8)
  }

  predicate Possible(q: Queue, e: Event) {
    match e
    case Execute(_) => true
    case Schedule(_) => q.regs.esp >= 8
    case Create(task) => forall t :: t in q.ring ==> t.tcb != task.tcb
  }

  function Step(q: Queue, e: Event): Queue
    requires q.cur < |q.ring| && Possible(q, e)
  {
    match e
    case Execute(regs) => q.(regs := regs)
    case Schedule(ret) =>
      if |q.ring| == 1 then q else
      var next := Next(|q.ring|, q.cur);
      Queue(q.ring[q.cur := q.ring[q.cur].(saved := AtCall(q.regs, ret))], next, q.ring[next].saved)
    case Create(task) =>
      Queue([q.ring[0], task] + q.ring[1..], if q.cur == 0 then 0 else q.cur + 1, q.regs)
  }

  ghost predicate CanRun(q: Queue, es: seq<Event>)
    decreases |es|
  {
    es == [] || (q.Ok() && Possible(q, es[0]) && CanRun(Step(q, es[0]), es[1..]))
  }

  ghost function Run(q: Queue, es: seq<Event>): Queue
    requires CanRun(q, es)
    decreases |es|
  {
    if es == [] then q else Run(Step(q, es[0]), es[1..])
  }

  /** A run after a run is a run of the events of both. */
  lemma {:induction false} RunsInTurn(q: Queue, a: seq<Event>, b: seq<Event>)
    requires CanRun(q, a) && CanRun(Run(q, a), b)
    ensures CanRun(q, a + b) && Run(q, a + b) == Run(Run(q, a), b)
    ensures Schedules(a + b) == Schedules(a) + Schedules(b)
    decreases |a|
  {
    if a == [] {
      assert a + b == b;
    } else {
      var ab, rest := a + b, a[1..];
      assert ab[0] == a[0] && ab[1..] == rest + b;
      RunsInTurn(Step(q, a[0]), rest, b);
    }
  }

  lemma StepOk(q: Queue, e: Event)
    requires q.Ok() && Possible(q, e)
    ensures Step(q, e).Ok()
  {
    if e.Create? {
      var ring := Step(q, e).ring;
      forall i, j | 0 <= i < j < |ring| ensures ring[i].tcb != ring[j].tcb {
        assert q.ring[0] in q.ring;
        if j > 1 { assert ring[j] == q.ring[j - 1] && q.ring[j - 1] in q.ring; }
        if i > 1 { assert ring[i] == q.ring[i - 1]; }
      }
    }
  }

  lemma RunOne(q: Queue, e: Event)
    requires q.Ok() && Possible(q, e)
    ensures CanRun(q, [e]) && Run(q, [e]) == Step(q, e) && Step(q, e).Ok()
    ensures Schedules([e]) == if e.Schedule? then 1 else 0
  {
    StepOk(q, e);
    assert [e][1..] == [];
  }

  // ---- Switching away and back ---------------------------------------------------------------

  /** What task `t` will resume with. */
  ghost function SavedOf(q: Queue, t: Word): Regs
    requires q.Parked(t)
  {
    var i :| 0 <= i < |q.ring| && i != q.cur && q.ring[i].tcb == t;
    q.ring[i].saved
  }

  /** No event changes what a parked task resumes with; when it runs again it has exactly that. */
  lemma ParkedKept(q: Queue, e: Event, t: Word)
    requires q.Ok() && Possible(q, e) && q.Parked(t)
    ensures var q' := Step(q, e);
      if q'.Running(t) then e.Schedule? && q'.regs == SavedOf(q, t)
      else q'.Parked(t) && SavedOf(q', t) == SavedOf(q, t)
  {
    StepOk(q, e);
    var q' := Step(q, e);
    var i :| 0 <= i < |q.ring| && i != q.cur && q.ring[i].tcb == t;
    var i' := if e.Create? && i > 0 then i + 1 else i;
    assert q'.ring[i'].tcb == t && q'.ring[i'].saved == q.ring[i].saved;
  }

  /** `t` stays parked in every state before the last one. */
  ghost predicate ParkedUntil(q: Queue, es: seq<Event>, t: Word)
    requires CanRun(q, es)
    decreases |es|
  {
    es == [] || (q.Parked(t) && ParkedUntil(Step(q, es[0]), es[1..], t))
  }

  lemma {:induction false} ResumesWithSaved(q: Queue, es: seq<Event>, t: Word)
    requires q.Ok() && CanRun(q, es) && q.Parked(t) && ParkedUntil(q, es, t)
    ensures var q' := Run(q, es);
      if q'.Running(t) then q'.regs == SavedOf(q, t) else q'.Parked(t) && SavedOf(q', t) == SavedOf(q, t)
    decreases |es|
  {
    if es != [] {
      var q1 := Step(q, es[0]);
      StepOk(q, es[0]);
      ParkedKept(q, es[0], t);
      if q1.Running(t) {
        assert es[1..] == [] || q1.Parked(t);
      } else {
        ResumesWithSaved(q1, es[1..], t);
      }
    }
  }

  /**
    A task that calls `switch_to_task` and is later resumed, whatever ran in between, finds all its
    registers, flags, stack pointer and return address as at the call.
  */
  lemma AwayAndBack(q: Queue, ret: Word, es: seq<Event>, t: Word)
    requires q.Ok() && q.Running(t) && q.regs.esp >= 8 && |q.ring| > 1
    requires CanRun(Step(q, Schedule(ret)), es) && ParkedUntil(Step(q, Schedule(ret)), es, t)
    requires Run(Step(q, Schedule(ret)), es).Running(t)
    ensures Run(Step(q, Schedule(ret)), es).regs == AtCall(q.regs, ret)
    ensures var r, r' := q.regs, Run(Step(q, Schedule(ret)), es).regs;
      && r'.eip == ret && r'.esp == r.esp - 8 && r'.eflags == r.eflags && r'.eax == r.eax && r'.ebx == r.ebx
      && r'.ecx == r.ecx && r'.edx == r.edx && r'.esi == r.esi && r'.edi == r.edi && r'.ebp == r.ebp
  {
    var q1 := Step(q, Schedule(ret));
    StepOk(q, Schedule(ret));
    assert q1.ring[q.cur].tcb == t && q1.ring[q.cur].saved == AtCall(q.regs, ret);
    ResumesWithSaved(q1, es, t);
  }

  // ---- Fairness ------------------------------------------------------------------------------

  /** How many schedules it takes to get from position `cur` to position `i`. */
  function Ahead(n: nat, cur: nat, i: nat): int {
    if i >= cur then i - cur else i + n - cur
  }

  function Schedules(es: seq<Event>): nat {
    if es == [] then 0 else (if es[0].Schedule? then 1 else 0) + Schedules(es[1..])
  }

  /** `t` is running now or in some later state of the run. */
  ghost predicate GetsItsTurn(q: Queue, es: seq<Event>, t: Word)
    requires CanRun(q, es)
    decreases |es|
  {
    q.Running(t) || (es != [] && GetsItsTurn(Step(q, es[0]), es[1..], t))
  }

  lemma {:induction false} RingGrows(q: Queue, es: seq<Event>)
    requires CanRun(q, es)
    ensures |q.ring| <= |Run(q, es).ring|
    decreases |es|
  {
    if es != [] {
      RingGrows(Step(q, es[0]), es[1..]);
    }
  }

  lemma {:induction false} TurnAt(q: Queue, es: seq<Event>, t: Word) returns (i: nat)
    requires CanRun(q, es) && GetsItsTurn(q, es, t)
    ensures i <= |es| && CanRun(q, es[..i]) && Run(q, es[..i]).Running(t)
    decreases |es|
  {
    if q.Running(t) {
      i := 0;
    } else {
      var j := TurnAt(Step(q, es[0]), es[1..], t);
      i := j + 1;
      assert es[..i][0] == es[0] && es[..i][1..] == es[1..][..j];
    }
  }

  /** A run cut in two. */
  lemma {:induction false} RunSplits(q: Queue, es: seq<Event>, i: nat)
    requires q.Ok() && CanRun(q, es) && i <= |es|
    ensures CanRun(q, es[..i]) && Run(q, es[..i]).Ok() && CanRun(Run(q, es[..i]), es[i..])
    ensures Run(q, es) == Run(Run(q, es[..i]), es[i..]) && Schedules(es) == Schedules(es[..i]) + Schedules(es[i..])
    decreases i
  {
    if i == 0 {
      assert es[0..] == es;
    } else {
      StepOk(q, es[0]);
      RunSplits(Step(q, es[0]), es[1..], i - 1);
      assert es[..i][0] == es[0] && es[..i][1..] == es[1..][..i - 1] && es[1..][i - 1..] == es[i..];
    }
  }

  /** A task in the queue stays in it. */
  lemma {:induction false} StaysInQueue(q: Queue, es: seq<Event>, t: Word)
    requires q.Ok() && CanRun(q, es) && (q.Running(t) || q.Parked(t))
    ensures Run(q, es).Running(t) || Run(q, es).Parked(t)
    decreases |es|
  {
    if es != [] {
      var q1 := Step(q, es[0]);
      StepOk(q, es[0]);
      var i :| 0 <= i < |q.ring| && q.ring[i].tcb == t;
      var i1 := if es[0].Create? && i > 0 then i + 1 else i;
      assert q1.ring[i1].tcb == t;
      StaysInQueue(q1, es[1..], t);
    }
  }

  /** Every creation may put one more task ahead of a waiting one; `limit` bounds how many there can be. */
  lemma {:induction false} TurnComes(q: Queue, es: seq<Event>, i: nat, limit: nat)
    requires q.Ok() && CanRun(q, es) && i < |q.ring| && |Run(q, es).ring| <= limit
    requires Ahead(|q.ring|, q.cur, i) + limit - |q.ring| <= Schedules(es) || i == q.cur
    ensures GetsItsTurn(q, es, q.ring[i].tcb)
    decreases |es|
  {
    RingGrows(q, es);
    if i != q.cur {
      var q1 := Step(q, es[0]);
      StepOk(q, es[0]);
      var i1 := if es[0].Create? && i > 0 then i + 1 else i;
      assert q1.ring[i1].tcb == q.ring[i].tcb;
      TurnComes(q1, es[1..], i1, limit);
    }
  }

  /** With at most four tasks ever, any task runs within three schedules, creations in between or not. */
  lemma ThreeSchedulesSuffice(q: Queue, es: seq<Event>, t: Word)
    requires q.Ok() && CanRun(q, es) && q.Parked(t) && |Run(q, es).ring| <= 4 && Schedules(es) >= 3
    ensures GetsItsTurn(q, es, t)
  {
    var i :| 0 <= i < |q.ring| && i != q.cur && q.ring[i].tcb == t;
    TurnComes(q, es, i, 4);
  }

  /** The position `k` places round from `cur` in a queue of `n`. */
  function Advance(n: nat, cur: nat, k: nat): nat {
    if k == 0 then cur else Next(n, Advance(n, cur, k - 1))
  }

  lemma {:induction false} AdvanceShift(n: nat, cur: nat, k: nat)
    ensures Advance(n, Next(n, cur), k) == Advance(n, cur, k + 1)
  {
    if k > 0 {
      AdvanceShift(n, cur, k - 1);
    }
  }

  lemma {:induction false} AdvanceOnce(n: nat, cur: nat, k: nat)
    requires cur < n && k <= n
    ensures Advance(n, cur, k) == if cur + k < n then cur + k else cur + k - n
  {
    if k > 0 {
      AdvanceOnce(n, cur, k - 1);
    }
  }

  /** No task is created. */
  predicate Fixed(es: seq<Event>) {
    forall e :: e in es ==> !e.Create?
  }

  /** Without creations, each schedule moves the position one place round, whatever runs in between. */
  lemma {:induction false} Rotates(q: Queue, es: seq<Event>)
    requires q.Ok() && CanRun(q, es) && Fixed(es)
    ensures var q' := Run(q, es);
      && q'.Ok() && |q'.ring| == |q.ring| && q'.cur == Advance(|q.ring|, q.cur, Schedules(es))
      && forall i :: 0 <= i < |q.ring| ==> q'.ring[i].tcb == q.ring[i].tcb
    decreases |es|
  {
    if es != [] {
      var q1 := Step(q, es[0]);
      assert es[0] in es;
      StepOk(q, es[0]);
      Rotates(q1, es[1..]);
      if es[0].Schedule? {
        assert q1.cur == Next(|q.ring|, q.cur);
        AdvanceShift(|q.ring|, q.cur, Schedules(es[1..]));
      }
    }
  }

  lemma {:induction false} PrefixRuns(q: Queue, es: seq<Event>, k: nat)
    requires CanRun(q, es) && k <= |es|
    ensures CanRun(q, es[..k]) && Schedules(es[..k]) <= Schedules(es)
    decreases k
  {
    if k > 0 {
      PrefixRuns(Step(q, es[0]), es[1..], k - 1);
      assert es[..k][1..] == es[1..][..k - 1];
    }
  }

  /** The task in place `i` runs exactly when the number of schedules so far leads from `cur` to `i`. */
  lemma RunsAfter(q: Queue, es: seq<Event>, i: nat)
    requires q.Ok() && CanRun(q, es) && Fixed(es) && i < |q.ring|
    ensures Run(q, es).Running(q.ring[i].tcb) <==> Advance(|q.ring|, q.cur, Schedules(es)) == i
  {
    Rotates(q, es);
    var q' := Run(q, es);
    if q'.Running(q.ring[i].tcb) {
      assert q'.ring[q'.cur].tcb == q.ring[q'.cur].tcb;
    }
  }

  /**
    In any n consecutive schedules of a queue of n tasks each task gets exactly one turn: the one that
    the k-th schedule starts, during which it may execute anything.
  */
  lemma EachExactlyOnce(q: Queue, es: seq<Event>, i: nat) returns (k: nat)
    requires q.Ok() && CanRun(q, es) && Fixed(es)
    requires i < |q.ring| && Schedules(es) == |q.ring|
    ensures 1 <= k <= |q.ring|
    ensures forall j :: 0 <= j <= |es| && Schedules(es[..j]) >= 1 ==>
      CanRun(q, es[..j]) && (Run(q, es[..j]).Running(q.ring[i].tcb) <==> Schedules(es[..j]) == k)
  {
    var n := |q.ring|;
    k := if Ahead(n, q.cur, i) == 0 then n else Ahead(n, q.cur, i);
    forall j | 0 <= j <= |es| && Schedules(es[..j]) >= 1
      ensures CanRun(q, es[..j]) && (Run(q, es[..j]).Running(q.ring[i].tcb) <==> Schedules(es[..j]) == k)
    {
      var some := es[..j];
      PrefixRuns(q, es, j);
      assert forall e :: e in some ==> e in es;
      RunsAfter(q, some, i);
      AdvanceOnce(n, q.cur, Schedules(some));
    }
  }

  // ---- Counting creations --------------------------------------------------------------------

  function Creations(es: seq<Event>): nat {
    if es == [] then 0 else (if es[0].Create? then 1 else 0) + Creations(es[1..])
  }

  /** Nothing ever leaves the queue, so a queue of at most four tasks has seen at most three creations. */
  lemma {:induction false} QueueCountsCreations(q: Queue, es: seq<Event>)
    requires CanRun(q, es)
    ensures |Run(q, es).ring| == |q.ring| + Creations(es)
    ensures |q.ring| == 1 && |Run(q, es).ring| <= 4 ==> Creations(es) <= 3
    decreases |es|
  {
    if es != [] {
      QueueCountsCreations(Step(q, es[0]), es[1..]);
    }
  }
}
