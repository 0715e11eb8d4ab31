/** The script check queue (src/checkqueue.h) as a protocol: a master and its workers, each step being
    what one thread does between acquiring and releasing the mutex, or outside it. */
module CheckQueue {
  import opened Basics

  /** Where a thread is. A check is represented by the verdict its operator() will give. */
  datatype Phase =
    | Outside                                // not inside Loop
    | Inside                                 // holds the mutex
    | Start                                  // called Loop, has not taken the mutex yet
    | Waiting                                // blocked on its condition variable
    | Woken                                  // notified, has not got the mutex back yet
    | Busy(batch: seq<bool>, fOk: bool)      // took a batch, checks not run yet
    | Finished(nNow: nat, fOk: bool)         // ran its batch, has not reported yet

  /** threads[0] is the master. `added` is a history variable: the checks added since the last Wait. */
  datatype State = State(
    queue: seq<bool>, nIdle: int, nTotal: int, fAllOk: bool, nTodo: int, fQuit: bool, nBatchSize: nat,
    threads: seq<Phase>, added: seq<bool>)

  datatype Event =
    | Add(checks: seq<bool>, woken: nat)   // master; `woken` is whom notify_one picks
    | CallWait                             // master enters Loop
    | Lock(tid: nat)                       // a thread's whole critical section
    | Run(tid: nat)                        // a thread runs its batch outside the mutex
    | Spurious(tid: nat)                   // a wait returns without notification

  predicate All(s: seq<bool>) {
    forall i :: 0 <= i < |s| ==> s[i]
  }

  function Init(nWorkers: nat, nBatchSize: nat): State {
    State([], 0, 0, true, 0, false, nBatchSize, [Outside] + seq(nWorkers, _ => Start), [])
  }

  function Min(a: int, b: int): int { if a < b then a else b }

  /** The divisor is nTotal + nIdle + 1, which the invariant keeps positive. */
  function BatchSize(s: State): (n: nat)
    ensures 1 <= n && (s.queue != [] ==> n <= |s.queue|)
  {
    var d := Max(1, s.nTotal + s.nIdle + 1);
    QuotientBound(|s.queue|, d);
    Max(1, Min(s.nBatchSize, |s.queue| / d))
  }

  lemma QuotientBound(q: nat, d: nat)
    requires d >= 1
    ensures 0 <= q / d <= q
  {
  }

  /** A batch is the largest there may be: a check at least, else no more than the batch size nor than the queue leaves
      for every thread in the loop, the idle ones counted twice, and one more. */
  lemma BatchIs(s: State)
    requires s.nTotal + s.nIdle >= 0
    ensures var n, shares := BatchSize(s), s.nTotal + s.nIdle + 1;
      && (n == 1 || (n <= s.nBatchSize && shares * n <= |s.queue|))
      && (n >= s.nBatchSize || shares * (n + 1) > |s.queue|)
  {
    ShareIs(|s.queue|, s.nTotal + s.nIdle + 1, BatchSize(s));
  }

  lemma ShareIs(q: nat, d: nat, n: nat)
    requires d >= 1
    ensures n <= q / d ==> d * n <= q
    ensures n >= q / d ==> d * (n + 1) > q
  {
    var k := q / d;
    assert q == d * k + q % d;
    assert d * (k + 1) == d * k + d;
    ProductMonotone(d, n, k);
    ProductMonotone(d, k + 1, n + 1);
  }

  lemma ProductMonotone(d: nat, a: nat, b: nat)
    ensures a <= b ==> d * a <= d * b
  {
  }

  predicate Enabled(s: State, e: Event) {
    match e
    case Add(checks, woken) =>
      && |s.threads| > 0 && s.threads[0].Outside?
      && (|checks| == 1 && (exists w :: 1 <= w < |s.threads| && s.threads[w].Waiting?) ==>
            1 <= woken < |s.threads| && s.threads[woken].Waiting?)
    case CallWait => |s.threads| > 0 && s.threads[0].Outside?
    case Lock(tid) => tid < |s.threads| && (s.threads[tid].Start? || s.threads[tid].Woken? || s.threads[tid].Finished?)
    case Run(tid) => tid < |s.threads| && s.threads[tid].Busy?
    case Spurious(tid) => tid < |s.threads| && s.threads[tid].Waiting?
  }

  function WakeAll(threads: seq<Phase>): (r: seq<Phase>)
    ensures |r| == |threads|
    ensures forall i :: 0 <= i < |threads| ==> r[i] == if i > 0 && threads[i].Waiting? then Woken else threads[i]
  {
    seq(|threads|, i requires 0 <= i < |threads| => if i > 0 && threads[i].Waiting? then Woken else threads[i])
  }

  function Notify(threads: seq<Phase>, tid: nat): seq<Phase> {
    if tid < |threads| && threads[tid].Waiting? then threads[tid := Woken] else threads
  }

  /** Batch i is swapped from the back of the queue. */
  function Taken(queue: seq<bool>, n: nat): seq<bool>
    requires n <= |queue|
  {
    seq(n, i requires 0 <= i < n => queue[|queue| - 1 - i])
  }

  /** The clean-up at the top of the critical section, for the three ways of getting there. */
  function CleanUp(s: State, tid: nat): State
    requires Enabled(s, Lock(tid))
  {
    var s1 := s.(threads := s.threads[tid := Inside]);
    match s.threads[tid]
    case Finished(nNow, fOk) =>
      var s2 := s1.(fAllOk := s.fAllOk && fOk, nTodo := s.nTodo - nNow);
      if s2.nTodo == 0 && tid != 0 then s2.(threads := Notify(s2.threads, 0)) else s2
    case Woken => s1.(nIdle := s.nIdle - 1)
    case _ => s1.(nTotal := s.nTotal + 1)
  }

  /** The rest of the critical section: return, wait, or take a batch. The second result is what Loop
      returns, if it does. */
  function Proceed(s: State, tid: nat): (State, Option<bool>)
    requires tid < |s.threads|
  {
    if s.queue == [] then
      if (tid == 0 || s.fQuit) && s.nTodo == 0 then
        var s1 := s.(nTotal := s.nTotal - 1, threads := s.threads[tid := Outside]);
        if tid == 0 then (s1.(fAllOk := true, added := []), Some(s.fAllOk)) else (s1, Some(s.fAllOk))
      else (s.(nIdle := s.nIdle + 1, threads := s.threads[tid := Waiting]), None)
    else
      var n := BatchSize(s);
      (s.(queue := s.queue[..|s.queue| - n], threads := s.threads[tid := Busy(Taken(s.queue, n), s.fAllOk)]), None)
  }

  function LockStep(s: State, tid: nat): (State, Option<bool>)
    requires Enabled(s, Lock(tid))
  {
    Proceed(CleanUp(s, tid), tid)
  }

  function Next(s: State, e: Event): State
    requires Enabled(s, e)
  {
    match e
    case Add(checks, woken) =>
      s.(queue := s.queue + checks, nTodo := s.nTodo + |checks|, added := s.added + checks,
         threads := if |checks| == 1 then Notify(s.threads, woken)
                    else if |checks| > 1 then WakeAll(s.threads) else s.threads)
    case CallWait => s.(threads := s.threads[0 := Start])
    case Lock(tid) => LockStep(s, tid).0
    case Run(tid) =>
      var t := s.threads[tid];
      s.(threads := s.threads[tid := Finished(|t.batch|, t.fOk && All(t.batch))])
    case Spurious(tid) => s.(threads := s.threads[tid := Woken])
  }

  /** Adding checks wakes the workers: all that wait for several, one for one, and none for none. */
  lemma AddWakes(s: State, checks: seq<bool>, woken: nat)
    requires Enabled(s, Add(checks, woken))
    ensures var r := Next(s, Add(checks, woken)).threads;
      && |r| == |s.threads|
      && (checks == [] ==> r == s.threads)
      && (|checks| == 1 ==>
            if exists w :: 1 <= w < |r| && s.threads[w].Waiting?
            then 1 <= woken < |r| && s.threads[woken].Waiting? && r == s.threads[woken := Woken]
            else forall w :: 1 <= w < |r| ==> r[w] == s.threads[w])
      && (|checks| >= 2 ==>
            forall w :: 1 <= w < |r| ==> r[w] == if s.threads[w].Waiting? then Woken else s.threads[w])
  {
  }

  /** A worker wakes the waiting master when it reports the last check to be done, and only then. */
  lemma MasterWoken(s: State, tid: nat)
    requires Enabled(s, Lock(tid)) && tid != 0 && s.threads[0].Waiting?
    ensures var r := LockStep(s, tid).0;
      && |r.threads| == |s.threads|
      && r.threads[0] == if s.threads[tid].Finished? && s.nTodo == s.threads[tid].nNow then Woken else Waiting
  {
    hide BatchSize, Taken;
  }

  // ---- sums over threads ----------------------------------------------------------

  function Sum(f: Phase -> int, threads: seq<Phase>): int {
    if threads == [] then 0 else Sum(f, threads[..|threads| - 1]) + f(threads[|threads| - 1])
  }

  lemma {:induction false} SumUpdate(f: Phase -> int, threads: seq<Phase>, i: nat, p: Phase)
    requires i < |threads|
    ensures Sum(f, threads[i := p]) == Sum(f, threads) - f(threads[i]) + f(p)
  {
    var n := |threads| - 1;
    if i < n {
      SumUpdate(f, threads[..n], i, p);
      assert threads[i := p][..n] == threads[..n][i := p];
    } else {
      assert threads[i := p][..n] == threads[..n];
    }
  }

  lemma {:induction false} SumSame(f: Phase -> int, a: seq<Phase>, b: seq<Phase>)
    requires |a| == |b| && forall i :: 0 <= i < |a| ==> f(a[i]) == f(b[i])
    ensures Sum(f, a) == Sum(f, b)
  {
    if a != [] {
      SumSame(f, a[..|a| - 1], b[..|b| - 1]);
    }
  }

  lemma {:induction false} SumZero(f: Phase -> int, a: seq<Phase>, i: nat)
    requires i < |a| && forall j :: 0 <= j < |a| ==> f(a[j]) >= 0
    ensures Sum(f, a) >= f(a[i])
    decreases |a|
  {
    var n := |a| - 1;
    if i < n {
      SumZero(f, a[..n], i);
    } else {
      SumNonNegative(f, a[..n]);
    }
  }

  lemma {:induction false} SumNonNegative(f: Phase -> int, a: seq<Phase>)
    requires forall j :: 0 <= j < |a| ==> f(a[j]) >= 0
    ensures Sum(f, a) >= 0
  {
    if a != [] {
      SumNonNegative(f, a[..|a| - 1]);
    }
  }

  /** A positive sum has a positive term. */
  lemma {:induction false} SumWitness(f: Phase -> int, a: seq<Phase>) returns (i: nat)
    requires Sum(f, a) > 0
    ensures i < |a| && f(a[i]) > 0
  {
    var n := |a| - 1;
    if f(a[n]) > 0 {
      i := n;
    } else {
      i := SumWitness(f, a[..n]);
    }
  }

  function InFlight(p: Phase): int {
    match p case Busy(b, _) => |b| case Finished(n, _) => n case _ => 0
  }

  function Idle(p: Phase): int {
    if p.Waiting? || p.Woken? then 1 else 0
  }

  function InLoop(p: Phase): int {
    if p.Outside? || p.Start? then 0 else 1
  }

  function Pending(p: Phase): int {
    if p.Start? || p.Woken? then 1 else 0
  }

  function ToRun(p: Phase): int {
    if p.Busy? then 1 else 0
  }

  // ---- the invariant --------------------------------------------------------------------

  /** The verdict a thread will report, as far as it is settled. */
  predicate Good(p: Phase) {
    match p case Busy(b, fOk) => fOk && All(b) case Finished(_, fOk) => fOk case _ => true
  }

  ghost predicate AllGood(threads: seq<Phase>) {
    forall i :: 0 <= i < |threads| ==> Good(threads[i])
  }

  /** Everything that holds also inside a critical section. */
  ghost predicate Core(s: State) {
    && |s.threads| > 0 && !s.fQuit
    && s.nTodo == |s.queue| + Sum(InFlight, s.threads)
    && s.nIdle == Sum(Idle, s.threads)
    && s.nTotal == Sum(InLoop, s.threads)
    // nobody holds an empty batch, and workers never leave
    && (forall i :: 0 <= i < |s.threads| ==> HoldsSomething(s.threads[i]))
    && (forall i :: 1 <= i < |s.threads| ==> !s.threads[i].Outside?)
    // everything added is accounted for by the verdict so far, the queue and the batches
    && (All(s.added) <==> s.fAllOk && All(s.queue) && AllGood(s.threads))
    && s.nTodo <= |s.added|
    // the master blocks only while others are at work
    && (s.threads[0].Waiting? ==> s.queue == [] && s.nTodo > 0)
  }

  predicate HoldsSomething(p: Phase) {
    match p case Busy(b, _) => |b| > 0 case Finished(n, _) => n > 0 case _ => true
  }

  ghost predicate Inv(s: State) {
    Core(s) && forall i :: 0 <= i < |s.threads| ==> !s.threads[i].Inside?
  }

  lemma InitInv(nWorkers: nat, nBatchSize: nat)
    ensures Inv(Init(nWorkers, nBatchSize))
    ensures var t := Init(nWorkers, nBatchSize).threads;
      |t| == nWorkers + 1 && t[0].Outside? && forall i :: 1 <= i <= nWorkers ==> t[i].Start?
  {
    var t := Init(nWorkers, nBatchSize).threads;
    SumConst(InFlight, t);
    SumConst(Idle, t);
    SumConst(InLoop, t);
  }

  lemma {:induction false} SumConst(f: Phase -> int, a: seq<Phase>)
    requires forall j :: 0 <= j < |a| ==> f(a[j]) == 0
    ensures Sum(f, a) == 0
  {
    if a != [] {
      SumConst(f, a[..|a| - 1]);
    }
  }

  /** All counters follow when one thread changes phase. */
  lemma SetPhase(threads: seq<Phase>, i: nat, p: Phase)
    requires i < |threads|
    ensures var t := threads[i := p];
      && Sum(InFlight, t) == Sum(InFlight, threads) - InFlight(threads[i]) + InFlight(p)
      && Sum(Idle, t) == Sum(Idle, threads) - Idle(threads[i]) + Idle(p)
      && Sum(InLoop, t) == Sum(InLoop, threads) - InLoop(threads[i]) + InLoop(p)
      && Sum(Pending, t) == Sum(Pending, threads) - Pending(threads[i]) + Pending(p)
      && Sum(ToRun, t) == Sum(ToRun, threads) - ToRun(threads[i]) + ToRun(p)
      && (Good(p) ==> (AllGood(threads) <==> AllGood(t) && Good(threads[i])))
      && (Good(threads[i]) ==> (AllGood(t) <==> AllGood(threads) && Good(p)))
      && (Good(threads[i]) == Good(p) ==> (AllGood(t) <==> AllGood(threads)))
  {
    SumUpdate(InFlight, threads, i, p);
    SumUpdate(Idle, threads, i, p);
    SumUpdate(InLoop, threads, i, p);
    SumUpdate(Pending, threads, i, p);
    SumUpdate(ToRun, threads, i, p);
    if Good(p) && AllGood(threads[i := p]) && Good(threads[i]) {
      forall j | 0 <= j < |threads|
        ensures Good(threads[j])
      {
        assert j != i ==> threads[i := p][j] == threads[j];
      }
    }
    assert threads[i := p][i] == p;
    if Good(threads[i]) && AllGood(threads[i := p]) {
      forall j | 0 <= j < |threads|
        ensures Good(threads[j])
      {
        assert j != i ==> threads[i := p][j] == threads[j];
      }
    }
  }

  lemma InFlightNonNegative(threads: seq<Phase>)
    ensures Sum(InFlight, threads) >= 0
    ensures Sum(InFlight, threads) == 0 && (forall i :: 0 <= i < |threads| ==> HoldsSomething(threads[i])) ==>
      forall i :: 0 <= i < |threads| ==> !threads[i].Busy? && !threads[i].Finished?
  {
    SumNonNegative(InFlight, threads);
    forall i | 0 <= i < |threads|
      ensures Sum(InFlight, threads) >= InFlight(threads[i])
    {
      SumZero(InFlight, threads, i);
    }
  }

  lemma CleanUpCore(s: State, tid: nat)
    requires Inv(s) && Enabled(s, Lock(tid))
    ensures Core(CleanUp(s, tid)) && CleanUp(s, tid).threads[tid].Inside?
    ensures forall i :: 0 <= i < |s.threads| && i != tid ==> !CleanUp(s, tid).threads[i].Inside?
  {
    hide Sum, All;
    var t := s.threads[tid := Inside];
    SetPhase(s.threads, tid, Inside);
    if s.threads[tid].Finished? && t[0].Waiting? {
      SetPhase(t, 0, Woken);
    }
    InFlightNonNegative(t);
  }

  lemma AllTaken(queue: seq<bool>, n: nat)
    requires n <= |queue|
    ensures All(queue) <==> All(queue[..|queue| - n]) && All(Taken(queue, n))
  {
    if All(queue[..|queue| - n]) && All(Taken(queue, n)) {
      forall i | 0 <= i < |queue|
        ensures queue[i]
      {
        if i < |queue| - n {
          assert queue[..|queue| - n][i];
        } else {
          assert Taken(queue, n)[|queue| - 1 - i];
        }
      }
    }
  }

  lemma ProceedInv(s: State, tid: nat)
    requires Core(s) && tid < |s.threads| && s.threads[tid].Inside?
    requires forall i :: 0 <= i < |s.threads| && i != tid ==> !s.threads[i].Inside?
    ensures Inv(Proceed(s, tid).0)
  {
    hide Sum, All;
    InFlightNonNegative(s.threads);
    if s.queue == [] {
      SetPhase(s.threads, tid, if tid == 0 && s.nTodo == 0 then Outside else Waiting);
    } else {
      var n := BatchSize(s);
      AllTaken(s.queue, n);
      SetPhase(s.threads, tid, Busy(Taken(s.queue, n), s.fAllOk));
    }
  }

  lemma AddInv(s: State, checks: seq<bool>, woken: nat)
    requires Inv(s) && Enabled(s, Add(checks, woken))
    ensures Inv(Next(s, Add(checks, woken)))
  {
    hide Sum, All;
    AllConcat(s.added, checks);
    AllConcat(s.queue, checks);
    if |checks| == 1 {
      if woken < |s.threads| && s.threads[woken].Waiting? {
        SetPhase(s.threads, woken, Woken);
      }
    } else if |checks| > 1 {
      var t := WakeAll(s.threads);
      SumSame(InFlight, s.threads, t);
      SumSame(Idle, s.threads, t);
      SumSame(InLoop, s.threads, t);
      assert forall i :: 0 <= i < |t| ==> Good(t[i]) == Good(s.threads[i]);
    }
  }

  lemma AllConcat(a: seq<bool>, b: seq<bool>)
    ensures All(a + b) <==> All(a) && All(b)
  {
    if All(a + b) {
      assert forall i :: 0 <= i < |a| ==> (a + b)[i] == a[i];
      assert forall i :: 0 <= i < |b| ==> (a + b)[|a| + i] == b[i];
    }
  }

  /** Every step of every thread keeps the invariant. */
  lemma NextInv(s: State, e: Event)
    requires Inv(s) && Enabled(s, e)
    ensures Inv(Next(s, e))
  {
    hide Sum, All;
    match e
    case Add(checks, woken) => AddInv(s, checks, woken);
    case CallWait => SetPhase(s.threads, 0, Start);
    case Lock(tid) =>
      CleanUpCore(s, tid);
      ProceedInv(CleanUp(s, tid), tid);
    case Run(tid) =>
      var t := s.threads[tid];
      SetPhase(s.threads, tid, Finished(|t.batch|, t.fOk && All(t.batch)));
    case Spurious(tid) => SetPhase(s.threads, tid, Woken);
  }

  // ---- whole runs ---------------------------------------------------------------------------

  /** The state after a run, if every step of it was possible. */
  function Exec(s: State, run: seq<Event>): Option<State> {
    if run == [] then Some(s)
    else
      match Exec(s, run[..|run| - 1])
      case None => None
      case Some(s1) => if Enabled(s1, run[|run| - 1]) then Some(Next(s1, run[|run| - 1])) else None
  }

  lemma {:induction false} ExecInv(s: State, run: seq<Event>)
    requires Inv(s) && Exec(s, run).Some?
    ensures Inv(Exec(s, run).value)
  {
    if run != [] {
      ExecInv(s, run[..|run| - 1]);
      NextInv(Exec(s, run[..|run| - 1]).value, run[|run| - 1]);
    }
  }

  /** Main result: in every interleaving, when Wait returns it returns the conjunction of all checks
      added since the previous Wait, and leaves the queue as CCheckQueueControl asserts it: nothing
      to do, verdict reset, every thread in the loop idle, no batch left anywhere. */
  lemma WaitReturnsConjunction(nWorkers: nat, nBatchSize: nat, run: seq<Event>)
    requires Exec(Init(nWorkers, nBatchSize), run).Some?
    requires Enabled(Exec(Init(nWorkers, nBatchSize), run).value, Lock(0))
    ensures var s := Exec(Init(nWorkers, nBatchSize), run).value;
      var (s1, ret) := LockStep(s, 0);
      ret.Some? ==>
        && (ret.value <==> All(s.added))
        && s1.threads[0].Outside? && s1.queue == [] && s1.nTodo == 0 && s1.fAllOk && s1.nTotal == s1.nIdle
        && forall i :: 0 <= i < |s1.threads| ==> !s1.threads[i].Busy? && !s1.threads[i].Finished?
  {
    InitInv(nWorkers, nBatchSize);
    ExecInv(Init(nWorkers, nBatchSize), run);
    var s := Exec(Init(nWorkers, nBatchSize), run).value;
    CleanUpCore(s, 0);
    var mid := CleanUp(s, 0);
    if mid.queue == [] && mid.nTodo == 0 {
      InFlightNonNegative(mid.threads);
      NextInv(s, Lock(0));
      var s1 := LockStep(s, 0).0;
      SumSame(InLoop, s1.threads, s1.threads);
      AllIdle(s1.threads);
    }
  }

  /** At any moment in any run when the master is outside and has added nothing since its last Wait, whatever
      the workers are doing, the assertions of the next CCheckQueueControl hold. */
  lemma ControllerAsserts(nWorkers: nat, nBatchSize: nat, run: seq<Event>)
    requires Exec(Init(nWorkers, nBatchSize), run).Some?
    ensures var s := Exec(Init(nWorkers, nBatchSize), run).value;
      && |s.threads| > 0
      && (s.threads[0].Outside? && s.added == [] ==>
            && s.nTotal == s.nIdle && s.nTodo == 0 && s.fAllOk && s.queue == []
            && forall i :: 0 <= i < |s.threads| ==> !s.threads[i].Busy? && !s.threads[i].Finished?)
  {
    InitInv(nWorkers, nBatchSize);
    ExecInv(Init(nWorkers, nBatchSize), run);
    var s := Exec(Init(nWorkers, nBatchSize), run).value;
    InFlightNonNegative(s.threads);
    if s.threads[0].Outside? && s.added == [] {
      AllIdle(s.threads);
    }
  }

  lemma AllIdle(threads: seq<Phase>)
    requires forall i :: 0 <= i < |threads| ==>
      !threads[i].Busy? && !threads[i].Finished? && !threads[i].Inside?
    ensures Sum(InLoop, threads) == Sum(Idle, threads)
  {
    SumPointwise(InLoop, Idle, threads);
  }

  lemma {:induction false} SumPointwise(f: Phase -> int, g: Phase -> int, a: seq<Phase>)
    requires forall i :: 0 <= i < |a| ==> f(a[i]) == g(a[i])
    ensures Sum(f, a) == Sum(g, a)
  {
    if a != [] {
      SumPointwise(f, g, a[..|a| - 1]);
    }
  }

  // ---- no deadlock ------------------------------------------------------------------------------

  /** While the master is in Wait some thread can move without any spurious wake-up. */
  lemma SomeStepEnabled(s: State) returns (e: Event)
    requires Inv(s) && !s.threads[0].Outside?
    ensures Enabled(s, e) && (e.Lock? || e.Run?)
  {
    var i: nat := 0;
    if s.threads[0].Waiting? {
      i := SumWitness(InFlight, s.threads);
    }
    e := if s.threads[i].Busy? then Run(i) else Lock(i);
  }

  /** The measure of what is left to do while nothing is added. */
  ghost function Left(s: State): (int, int, int, int) {
    (s.nTodo, |s.queue|, Sum(Pending, s.threads), Sum(ToRun, s.threads))
  }

  ghost predicate Less(a: (int, int, int, int), b: (int, int, int, int)) {
    || a.0 < b.0
    || (a.0 == b.0 && a.1 < b.1)
    || (a.0 == b.0 && a.1 == b.1 && a.2 < b.2)
    || (a.0 == b.0 && a.1 == b.1 && a.2 == b.2 && a.3 < b.3)
  }

  /** Every step that is neither an Add, a call nor a spurious wake-up decreases the measure. */
  lemma StepDecreases(s: State, e: Event)
    requires Inv(s) && Enabled(s, e) && (e.Lock? || e.Run?)
    ensures Less(Left(Next(s, e)), Left(s))
  {
    match e
    case Run(tid) =>
      hide Sum, All;
      var t := s.threads[tid];
      SetPhase(s.threads, tid, Finished(|t.batch|, t.fOk && All(t.batch)));
    case Lock(tid) => LockDecreases(s, tid);
    case _ =>
  }

  lemma LockDecreases(s: State, tid: nat)
    requires Inv(s) && Enabled(s, Lock(tid))
    ensures Less(Left(LockStep(s, tid).0), Left(s))
  {
    hide Sum, All, AllGood, Good;
    CleanUpCore(s, tid);
    var mid := CleanUp(s, tid);
    SetPhase(s.threads, tid, Inside);
    if mid.queue == [] {
      SetPhase(mid.threads, tid, if tid == 0 && mid.nTodo == 0 then Outside else Waiting);
    } else {
      SetPhase(mid.threads, tid, Busy(Taken(mid.queue, BatchSize(mid)), mid.fAllOk));
    }
  }

  /** How many steps can still be taken: the measure as one number, for at most `k` checks to do. */
  ghost function Weight(s: State, k: nat): int {
    var (todo, queued, pending, toRun) := Left(s);
    var n := |s.threads|;
    ((todo * (k + 1) + queued) * (n + 1) + pending) * (n + 1) + toRun
  }

  lemma LexStep(x: int, y: int, x2: int, y2: int, m: nat)
    requires 0 <= y <= m && 0 <= y2 && (x < x2 || (x == x2 && y < y2))
    ensures x * (m + 1) + y < x2 * (m + 1) + y2
  {
    if x < x2 {
      MulStep(x, x2 - x, m + 1);
    }
  }

  lemma {:induction false} MulStep(x: int, d: nat, m: nat)
    requires d >= 1
    ensures (x + d) * m >= x * m + m
    decreases d
  {
    assert (x + 1) * m == x * m + m;
    if d > 1 {
      MulStep(x + 1, d - 1, m);
    }
  }

  lemma {:induction false} SumAtMost(f: Phase -> int, a: seq<Phase>)
    requires forall j :: 0 <= j < |a| ==> 0 <= f(a[j]) <= 1
    ensures 0 <= Sum(f, a) <= |a|
  {
    if a != [] {
      SumAtMost(f, a[..|a| - 1]);
    }
  }

  lemma LeftBounds(s: State)
    requires Inv(s)
    ensures var (todo, queued, pending, toRun) := Left(s);
      0 <= queued <= todo && 0 <= pending <= |s.threads| && 0 <= toRun <= |s.threads|
  {
    InFlightNonNegative(s.threads);
    SumAtMost(Pending, s.threads);
    SumAtMost(ToRun, s.threads);
  }

  lemma WeightDecreases(s: State, e: Event, k: nat)
    requires Inv(s) && Enabled(s, e) && (e.Lock? || e.Run?) && s.nTodo <= k
    ensures Weight(Next(s, e), k) < Weight(s, k) && Next(s, e).nTodo <= s.nTodo
  {
    hide Sum, Next, Inv, Enabled;
    NextInv(s, e);
    StepDecreases(s, e);
    var s1 := Next(s, e);
    LeftBounds(s);
    LeftBounds(s1);
    var (a, b, c, d) := Left(s);
    var (a1, b1, c1, d1) := Left(s1);
    SameThreads(s, e);
    var n := |s.threads|;
    hide Left;
    if a1 < a || b1 < b {
      LexStep(a1, b1, a, b, k);
    }
    LexStep3(a1 * (k + 1) + b1, c1, d1, a * (k + 1) + b, c, d, n);
  }

  lemma LexStep3(x: int, c: int, d: int, x2: int, c2: int, d2: int, n: nat)
    requires 0 <= c <= n && 0 <= d <= n && 0 <= c2 && 0 <= d2
    requires x < x2 || (x == x2 && (c < c2 || (c == c2 && d < d2)))
    ensures (x * (n + 1) + c) * (n + 1) + d < (x2 * (n + 1) + c2) * (n + 1) + d2
  {
    if x < x2 || c < c2 {
      LexStep(x, c, x2, c2, n);
    }
    LexStep(x * (n + 1) + c, d, x2 * (n + 1) + c2, d2, n);
  }

  lemma SameThreads(s: State, e: Event)
    requires Enabled(s, e)
    ensures |Next(s, e).threads| == |s.threads|
  {
  }

  /** Main result: Wait terminates. A run without Add, calls and spurious wake-ups is never longer than
      the weight of the state it starts from, and by SomeStepEnabled it can always be extended while the
      master is inside. */
  lemma {:induction false} WaitTerminates(s: State, run: seq<Event>, k: nat)
    requires Inv(s) && Exec(s, run).Some? && s.nTodo <= k
    requires forall i :: 0 <= i < |run| ==> run[i].Lock? || run[i].Run?
    ensures Inv(Exec(s, run).value) && Exec(s, run).value.nTodo <= s.nTodo
    ensures 0 <= Weight(Exec(s, run).value, k) && |run| + Weight(Exec(s, run).value, k) <= Weight(s, k)
  {
    hide Weight, Inv, Next, Enabled;
    WeightNonNegative(s, k);
    if run != [] {
      var n := |run| - 1;
      WaitTerminates(s, run[..n], k);
      var s1 := Exec(s, run[..n]).value;
      NextInv(s1, run[n]);
      WeightDecreases(s1, run[n], k);
      WeightNonNegative(Next(s1, run[n]), k);
    }
  }

  lemma WeightNonNegative(s: State, k: nat)
    requires Inv(s)
    ensures Weight(s, k) >= 0
  {
    LeftBounds(s);
    var (a, b, c, d) := Left(s);
    var n := |s.threads|;
    MulNonNegative(a, k + 1);
    MulNonNegative(a * (k + 1) + b, n + 1);
    MulNonNegative((a * (k + 1) + b) * (n + 1) + c, n + 1);
  }

  lemma MulNonNegative(x: int, y: int)
    requires x >= 0 && y >= 0
    ensures x * y >= 0
  {
  }

  lemma {:induction false} ExecPrepend(s: State, e: Event, run: seq<Event>)
    requires Enabled(s, e)
    ensures Exec(s, [e] + run) == Exec(Next(s, e), run)
  {
    hide Next, Enabled;
    if run == [] {
      assert [e] + run == [e] && [e][..0] == [];
    } else {
      var n := |run| - 1;
      ExecPrepend(s, e, run[..n]);
      assert ([e] + run)[..n + 1] == [e] + run[..n];
    }
  }

  /** From any state a run ends the Wait under way, without anything being added and without spurious wake-ups. */
  lemma {:induction false} WaitEnds(s: State, k: nat) returns (run: seq<Event>)
    requires Inv(s) && s.nTodo <= k
    ensures forall i :: 0 <= i < |run| ==> run[i].Lock? || run[i].Run?
    ensures Exec(s, run).Some? && |Exec(s, run).value.threads| > 0 && Exec(s, run).value.threads[0].Outside?
    decreases Weight(s, k)
  {
    hide Weight, Next, Enabled;
    if s.threads[0].Outside? {
      run := [];
    } else {
      var e := SomeStepEnabled(s);
      NextInv(s, e);
      WeightDecreases(s, e, k);
      WeightNonNegative(Next(s, e), k);
      WeightNonNegative(s, k);
      var more := WaitEnds(Next(s, e), k);
      ExecPrepend(s, e, more);
      run := [e] + more;
    }
  }
}
