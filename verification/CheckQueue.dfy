/**
CCheckQueue: one master and any number of workers share a stack of checks. Each
critical section of Loop, Add and IsIdle is one atomic step; checks run outside the
lock, one step each. Waiting threads may wake at any time, notified or not.
*/
module CheckQueue {
  import opened Common
  import opened Powers

  /** A check together with what calling it would return. */
  datatype Check = Check(id: nat, result: bool)

  /** Where a thread is: outside Loop, blocked on its condition variable, or with a batch. */
  datatype Phase =
    | Outside
    | Waiting(notified: bool)
    | Busy(batch: seq<Check>, ran: nat, ok: bool)

  const MASTER := 0

  /** added is a history variable: the checks added since Wait last returned. */
  datatype State = State(
    queue: seq<Check>, nIdle: int, nTotal: int, fAllOk: bool, nTodo: int, nBatchSize: nat,
    threads: seq<Phase>, added: seq<Check>)

  datatype Event =
    | Add(checks: seq<Check>, woken: nat)
    | Enter(thread: nat)
    | Wake(thread: nat)
    | RunCheck(thread: nat)
    | Finish(thread: nat)

  function Initial(nBatchSize: nat, workers: nat): State {
    State([], 0, 0, true, 0, nBatchSize, seq(workers + 1, _ => Outside), [])
  }

  // ------------------------------------------------------------------ steps

  /** How many checks a thread takes at once. The counters are never negative (see Counts). */
  function BatchSize(s: State): (n: int)
    requires s.queue != []
    ensures 1 <= n <= |s.queue| && (n <= s.nBatchSize || n == 1)
  {
    var threads := Max(1, s.nTotal + s.nIdle + 1);
    QuotientAtMost(|s.queue|, threads);
    Max(1, Min(s.nBatchSize, |s.queue| / threads))
  }

  /** A thread takes its share and no more, up to the batch size, but at least one check. */
  lemma BatchShare(s: State)
    requires s.queue != [] && s.nTotal >= 0 && s.nIdle >= 0
    ensures var n, threads := BatchSize(s), s.nTotal + s.nIdle + 1;
            && (n == 1 || (n <= s.nBatchSize && n * threads <= |s.queue|))
            && (n >= s.nBatchSize || (n + 1) * threads > |s.queue|)
  {
    ShareOf(|s.queue|, s.nTotal + s.nIdle + 1, BatchSize(s));
  }

  lemma ShareOf(len: nat, threads: nat, n: nat)
    requires threads >= 1
    ensures n <= len / threads ==> n * threads <= len
    ensures n >= len / threads ==> (n + 1) * threads > len
  {
    var q := len / threads;
    assert len == q * threads + len % threads;
    if n <= q {
      MulMonotone(n, q, threads);
    }
    if n >= q {
      MulMonotone(q + 1, n + 1, threads);
      assert (q + 1) * threads == q * threads + threads;
    }
  }

  lemma QuotientAtMost(a: nat, b: int)
    requires b >= 1
    ensures 0 <= a / b <= a
  {
  }

  function Reversed(s: seq<Check>): seq<Check> {
    seq(|s|, i requires 0 <= i < |s| => s[|s| - 1 - i])
  }

  /** The inner loop of the critical section, from "queue.empty()" on: return, wait or take a batch. */
  function Proceed(s: State, t: nat): State
    requires t < |s.threads|
  {
    if s.queue == [] then
      if Returns(s, t) then
        s.(nTotal := s.nTotal - 1, fAllOk := true, added := [], threads := s.threads[t := Outside])
      else
        s.(nIdle := s.nIdle + 1, threads := s.threads[t := Waiting(false)])
    else
      var rest := |s.queue| - BatchSize(s);
      s.(queue := s.queue[..rest], threads := s.threads[t := Busy(Reversed(s.queue[rest..]), 0, s.fAllOk)])
  }

  /** Only the master leaves Loop: nothing ever sets fQuit. */
  predicate Returns(s: State, t: nat) {
    s.queue == [] && t == MASTER && s.nTodo == 0
  }

  function NotifyMaster(s: State): State
    requires |s.threads| > 0
  {
    if s.threads[MASTER].Waiting? then s.(threads := s.threads[MASTER := Waiting(true)]) else s
  }

  function NotifyWorkers(threads: seq<Phase>, count: nat, woken: nat): seq<Phase> {
    seq(|threads|, i requires 0 <= i < |threads| =>
      if i != MASTER && threads[i].Waiting? && (count > 1 || (count == 1 && i == woken))
      then Waiting(true) else threads[i])
  }

  predicate Enabled(s: State, e: Event) {
    && |s.threads| > 0
    && match e
       case Add(_, _) => s.threads[MASTER].Outside?
       case Enter(t) => t < |s.threads| && s.threads[t].Outside?
       case Wake(t) => t < |s.threads| && s.threads[t].Waiting?
       case RunCheck(t) => t < |s.threads| && s.threads[t].Busy? && s.threads[t].ran < |s.threads[t].batch|
       case Finish(t) => t < |s.threads| && s.threads[t].Busy? && s.threads[t].ran == |s.threads[t].batch|
  }

  /** The state in which the thread evaluates "queue.empty()" for the first time in this step. */
  function Locked(s: State, e: Event): State
    requires Enabled(s, e) && (e.Enter? || e.Wake? || e.Finish?)
  {
    match e
    case Enter(_) => s.(nTotal := s.nTotal + 1)
    case Wake(_) => s.(nIdle := s.nIdle - 1)
    case Finish(t) =>
      var p := s.threads[t];
      var s1 := s.(fAllOk := s.fAllOk && p.ok, nTodo := s.nTodo - |p.batch|);
      if s1.nTodo == 0 && t != MASTER then NotifyMaster(s1) else s1
  }

  function Step(s: State, e: Event): State
    requires Enabled(s, e)
  {
    match e
    case Add(checks, woken) =>
      s.(queue := s.queue + checks, nTodo := s.nTodo + |checks|, added := s.added + checks,
         threads := NotifyWorkers(s.threads, |checks|, woken))
    case RunCheck(t) =>
      var p := s.threads[t];
      s.(threads := s.threads[t := Busy(p.batch, p.ran + 1, p.ok && p.batch[p.ran].result)])
    case _ =>
      Proceed(Locked(s, e), e.thread)
  }

  /** The value Wait hands back, when this step makes it return. */
  function Returned(s: State, e: Event): Option<bool>
    requires Enabled(s, e)
  {
    if (e.Enter? || e.Wake? || e.Finish?) && Returns(Locked(s, e), e.thread)
    then Some(Locked(s, e).fAllOk) else None
  }

  predicate IsIdle(s: State) {
    s.nTotal == s.nIdle && s.nTodo == 0 && s.fAllOk
  }

  // -------------------------------------------------------------- invariant

  function Sum(f: Phase -> nat, threads: seq<Phase>): nat {
    if threads == [] then 0 else f(threads[0]) + Sum(f, threads[1..])
  }

  function Held(p: Phase): nat { if p.Busy? then |p.batch| else 0 }

  function Idle(p: Phase): nat { if p.Waiting? then 1 else 0 }

  function Inside(p: Phase): nat { if p.Outside? then 0 else 1 }

  predicate AllTrue(checks: seq<Check>) {
    forall i :: 0 <= i < |checks| ==> checks[i].result
  }

  /** Nothing this thread has run or will run is false. */
  predicate Hopeful(p: Phase) {
    p.Busy? && p.ran <= |p.batch| ==> p.ok && AllTrue(p.batch[p.ran..])
  }

  /** What the queue will eventually report. */
  predicate Verdict(s: State) {
    s.fAllOk && AllTrue(s.queue) && forall t :: 0 <= t < |s.threads| ==> Hopeful(s.threads[t])
  }

  predicate BatchOk(p: Phase) {
    p.Busy? ==> 1 <= |p.batch| && p.ran <= |p.batch|
  }

  ghost predicate Counts(s: State) {
    && |s.threads| > 0
    && s.nTodo == |s.queue| + Sum(Held, s.threads)
    && s.nIdle == Sum(Idle, s.threads)
    && s.nTotal == Sum(Inside, s.threads)
    && forall t :: 0 <= t < |s.threads| ==> BatchOk(s.threads[t])
  }

  ghost predicate Inv(s: State) {
    && Counts(s)
    && (AllTrue(s.added) <==> Verdict(s))
    && (s.threads[MASTER] == Waiting(false) ==> s.queue == [] && s.nTodo > 0)
    && (s.threads[MASTER].Outside? && s.added == [] ==> s.nTodo == 0)
  }

  lemma {:induction false} SumUpdate(f: Phase -> nat, threads: seq<Phase>, t: nat, p: Phase)
    requires t < |threads|
    ensures Sum(f, threads[t := p]) == Sum(f, threads) - f(threads[t]) + f(p)
  {
    if t > 0 {
      SumUpdate(f, threads[1..], t - 1, p);
      assert threads[t := p][1..] == threads[1..][t - 1 := p];
    } else {
      assert threads[t := p][1..] == threads[1..];
    }
  }

  lemma {:induction false} SumAtLeast(f: Phase -> nat, threads: seq<Phase>, t: nat)
    requires t < |threads|
    ensures f(threads[t]) <= Sum(f, threads)
  {
    if t > 0 {
      SumAtLeast(f, threads[1..], t - 1);
    }
  }

  lemma {:induction false} SumPositive(f: Phase -> nat, threads: seq<Phase>) returns (t: nat)
    requires Sum(f, threads) > 0
    ensures t < |threads| && f(threads[t]) > 0
  {
    if f(threads[0]) > 0 {
      t := 0;
    } else {
      t := SumPositive(f, threads[1..]);
      t := t + 1;
    }
  }

  lemma {:induction false} SumSame(f: Phase -> nat, a: seq<Phase>, b: seq<Phase>)
    requires |a| == |b| && forall i :: 0 <= i < |a| ==> f(a[i]) == f(b[i])
    ensures Sum(f, a) == Sum(f, b)
  {
    if a != [] {
      SumSame(f, a[1..], b[1..]);
    }
  }

  lemma SumsUpdate(threads: seq<Phase>, t: nat, p: Phase)
    requires t < |threads|
    ensures Sum(Held, threads[t := p]) == Sum(Held, threads) - Held(threads[t]) + Held(p)
    ensures Sum(Idle, threads[t := p]) == Sum(Idle, threads) - Idle(threads[t]) + Idle(p)
    ensures Sum(Inside, threads[t := p]) == Sum(Inside, threads) - Inside(threads[t]) + Inside(p)
  {
    SumUpdate(Held, threads, t, p);
    SumUpdate(Idle, threads, t, p);
    SumUpdate(Inside, threads, t, p);
  }

  // --------------------------------------------------------- preservation

  /** Inv as seen by thread t inside its critical section, when it holds neither a batch nor a wait. */
  ghost predicate InvInside(s: State, t: nat) {
    && t < |s.threads|
    && s.nTodo == |s.queue| + Sum(Held, s.threads) - Held(s.threads[t])
    && s.nIdle == Sum(Idle, s.threads) - Idle(s.threads[t])
    && s.nTotal == Sum(Inside, s.threads) - Inside(s.threads[t]) + 1
    && (forall u :: 0 <= u < |s.threads| && u != t ==> BatchOk(s.threads[u]))
    && (AllTrue(s.added) <==>
          s.fAllOk && AllTrue(s.queue) && forall u :: 0 <= u < |s.threads| && u != t ==> Hopeful(s.threads[u]))
    && (t != MASTER && s.threads[MASTER] == Waiting(false) ==> s.queue == [] && s.nTodo > 0)
    && (t != MASTER && s.threads[MASTER].Outside? && s.added == [] ==> s.nTodo == 0)
  }

  /** A thread that has run its batch hopes exactly when all went well. */
  lemma VerdictWithout(s: State, t: nat)
    requires t < |s.threads| && s.threads[t].Busy? && s.threads[t].ran == |s.threads[t].batch|
    ensures Verdict(s) <==>
              s.fAllOk && AllTrue(s.queue) && s.threads[t].ok
              && forall u :: 0 <= u < |s.threads| && u != t ==> Hopeful(s.threads[u])
  {
    var p := s.threads[t];
    assert p.batch[p.ran..] == [];
    assert Hopeful(p) <==> p.ok;
  }

  /** Handing in a batch, before the master is told. */
  lemma FinishCounts(s: State, t: nat, threads: seq<Phase>)
    requires Inv(s) && Enabled(s, Finish(t)) && |threads| == |s.threads| && threads[t] == s.threads[t]
    requires forall u :: 0 <= u < |threads| && u != t ==>
               (Hopeful(threads[u]) <==> Hopeful(s.threads[u])) && (BatchOk(s.threads[u]) ==> BatchOk(threads[u]))
    requires Sum(Held, threads) == Sum(Held, s.threads) && Sum(Idle, threads) == Sum(Idle, s.threads)
    requires Sum(Inside, threads) == Sum(Inside, s.threads)
    requires t != MASTER ==>
               (threads[MASTER] == Waiting(false) ==>
                 s.threads[MASTER] == Waiting(false) && s.nTodo > |s.threads[t].batch|)
    requires t != MASTER ==> (threads[MASTER].Outside? ==> s.threads[MASTER].Outside?)
    ensures var p := s.threads[t];
            InvInside(s.(fAllOk := s.fAllOk && p.ok, nTodo := s.nTodo - |p.batch|, threads := threads), t)
  {
    hide Hopeful, AllTrue, Sum;
    VerdictWithout(s, t);
    SumAtLeast(Held, s.threads, t);
    assert BatchOk(s.threads[t]);
  }

  lemma FinishLocks(s: State, t: nat)
    requires Inv(s) && Enabled(s, Finish(t))
    ensures InvInside(Locked(s, Finish(t)), t)
  {
    hide InvInside, Inv, Sum, AllTrue;
    MasterWaits(s);
    var p := s.threads[t];
    if s.nTodo - |p.batch| == 0 && t != MASTER && s.threads[MASTER].Waiting? {
      SumsUpdate(s.threads, MASTER, Waiting(true));
      FinishCounts(s, t, s.threads[MASTER := Waiting(true)]);
    } else {
      TodoCovers(s, t);
      FinishCounts(s, t, s.threads);
    }
  }

  lemma MasterWaits(s: State)
    requires Inv(s)
    ensures |s.threads| > 0 && (s.threads[MASTER] == Waiting(false) ==> s.nTodo > 0)
  {
  }

  lemma TodoCovers(s: State, t: nat)
    requires Inv(s) && t < |s.threads| && s.threads[t].Busy?
    ensures s.nTodo >= |s.threads[t].batch|
  {
    SumAtLeast(Held, s.threads, t);
  }

  lemma EventLocks(s: State, e: Event)
    requires Inv(s) && Enabled(s, e) && (e.Enter? || e.Wake? || e.Finish?)
    ensures InvInside(Locked(s, e), e.thread)
  {
    if e.Finish? {
      FinishLocks(s, e.thread);
    }
  }

  lemma VerdictUpdate(s: State, t: nat, queue: seq<Check>, p: Phase)
    requires InvInside(s, t)
    requires AllTrue(queue) && Hopeful(p) && s.fAllOk <==> AllTrue(s.queue) && s.fAllOk
    ensures AllTrue(s.added) <==> Verdict(s.(queue := queue, threads := s.threads[t := p]))
  {
    var threads := s.threads[t := p];
    assert threads[t] == p && forall u :: 0 <= u < |threads| && u != t ==> threads[u] == s.threads[u];
    if forall u :: 0 <= u < |s.threads| && u != t ==> Hopeful(s.threads[u]) {
      assert Hopeful(p) ==> forall u :: 0 <= u < |threads| ==> Hopeful(threads[u]);
    } else {
      var u :| 0 <= u < |s.threads| && u != t && !Hopeful(s.threads[u]);
      assert !Hopeful(threads[u]);
    }
  }

  lemma ReversedTrue(a: seq<Check>, b: seq<Check>)
    ensures AllTrue(a + b) <==> AllTrue(a) && AllTrue(Reversed(b))
  {
    if AllTrue(a + b) {
      assert forall i :: 0 <= i < |a| ==> (a + b)[i] == a[i];
      assert forall i :: 0 <= i < |b| ==> (a + b)[|a| + |b| - 1 - i] == Reversed(b)[i];
    }
    if AllTrue(a) && AllTrue(Reversed(b)) {
      assert forall i :: 0 <= i < |b| ==> b[i] == Reversed(b)[|b| - 1 - i];
    }
  }

  lemma ProceedKeepsInv(s: State, t: nat)
    requires InvInside(s, t)
    ensures Inv(Proceed(s, t))
  {
    if s.queue != [] {
      TakeKeepsInv(s, t);
    } else if Returns(s, t) {
      ReturnKeepsInv(s);
    } else {
      WaitKeepsInv(s, t);
    }
  }

  lemma TakeKeepsInv(s: State, t: nat)
    requires InvInside(s, t) && s.queue != []
    ensures Inv(Proceed(s, t))
  {
    hide Sum, BatchSize, Hopeful, AllTrue;
    var s' := Proceed(s, t);
    SumsUpdate(s.threads, t, s'.threads[t]);
    var rest := |s.queue| - BatchSize(s);
    var taken := Reversed(s.queue[rest..]);
    ReversedTrue(s.queue[..rest], s.queue[rest..]);
    assert s.queue == s.queue[..rest] + s.queue[rest..];
    Fresh(taken, s.fAllOk);
    VerdictUpdate(s, t, s'.queue, s'.threads[t]);
  }

  lemma WaitKeepsInv(s: State, t: nat)
    requires InvInside(s, t) && s.queue == [] && !Returns(s, t)
    ensures Inv(Proceed(s, t))
  {
    hide Sum, Hopeful;
    SumsUpdate(s.threads, t, Waiting(false));
    Unburdened();
    VerdictUpdate(s, t, [], Waiting(false));
  }

  lemma ReturnKeepsInv(s: State)
    requires InvInside(s, MASTER) && Returns(s, MASTER)
    ensures Inv(Proceed(s, MASTER))
  {
    hide Sum, Hopeful;
    SumsUpdate(s.threads, MASTER, Outside);
    MasterSeesNoBatch(s);
    Unburdened();
  }

  /** A batch just taken is hopeful when all its checks are true; a thread without one always is. */
  lemma Fresh(batch: seq<Check>, ok: bool)
    ensures Hopeful(Busy(batch, 0, ok)) <==> ok && AllTrue(batch)
  {
    assert batch[0..] == batch;
  }

  lemma Unburdened()
    ensures forall p: Phase :: !p.Busy? ==> Hopeful(p)
  {
  }

  /** When the master finds nothing to do, no worker holds a batch. */
  lemma MasterSeesNoBatch(s: State)
    requires InvInside(s, MASTER) && s.queue == [] && s.nTodo == 0
    ensures forall u :: 0 <= u < |s.threads| && u != MASTER ==> !s.threads[u].Busy?
  {
    forall u | 0 <= u < |s.threads| && u != MASTER
      ensures !s.threads[u].Busy?
    {
      SumsUpdate(s.threads, MASTER, Outside);
      SumAtLeast(Held, s.threads[MASTER := Outside], u);
      assert BatchOk(s.threads[u]);
    }
  }

  lemma AddKeepsInv(s: State, checks: seq<Check>, woken: nat)
    requires Inv(s) && Enabled(s, Add(checks, woken))
    ensures Inv(Step(s, Add(checks, woken)))
  {
    var s' := Step(s, Add(checks, woken));
    SumSame(Held, s.threads, s'.threads);
    SumSame(Idle, s.threads, s'.threads);
    SumSame(Inside, s.threads, s'.threads);
    assert forall t :: 0 <= t < |s.threads| ==>
      (Hopeful(s.threads[t]) <==> Hopeful(s'.threads[t])) && (BatchOk(s.threads[t]) ==> BatchOk(s'.threads[t]));
    AllTrueConcat(s.queue, checks);
    AllTrueConcat(s.added, checks);
  }

  lemma AllTrueConcat(a: seq<Check>, b: seq<Check>)
    ensures AllTrue(a + b) <==> AllTrue(a) && AllTrue(b)
  {
    if AllTrue(a + b) {
      assert forall i :: 0 <= i < |a| ==> (a + b)[i] == a[i];
      assert forall i :: 0 <= i < |b| ==> (a + b)[|a| + i] == b[i];
    }
  }

  lemma RunKeepsInv(s: State, t: nat)
    requires Inv(s) && Enabled(s, RunCheck(t))
    ensures Inv(Step(s, RunCheck(t)))
  {
    var p := s.threads[t];
    var s' := Step(s, RunCheck(t));
    SumsUpdate(s.threads, t, s'.threads[t]);
    assert BatchOk(p);
    assert p.batch[p.ran..] == [p.batch[p.ran]] + p.batch[p.ran + 1..];
    AllTrueConcat([p.batch[p.ran]], p.batch[p.ran + 1..]);
    assert Hopeful(p) <==> Hopeful(s'.threads[t]);
    assert forall u :: 0 <= u < |s.threads| && u != t ==> s'.threads[u] == s.threads[u];
    hide Hopeful, Sum;
    assert (forall u :: 0 <= u < |s.threads| ==> Hopeful(s.threads[u]))
      <==> (forall u :: 0 <= u < |s'.threads| ==> Hopeful(s'.threads[u]));
  }

  lemma StepKeepsInv(s: State, e: Event)
    requires Inv(s) && Enabled(s, e)
    ensures Inv(Step(s, e))
  {
    match e
    case Add(checks, woken) => AddKeepsInv(s, checks, woken);
    case RunCheck(t) => RunKeepsInv(s, t);
    case _ =>
      EventLocks(s, e);
      ProceedKeepsInv(Locked(s, e), e.thread);
  }

  lemma InitialInv(nBatchSize: nat, workers: nat)
    ensures Inv(Initial(nBatchSize, workers))
  {
    var s := Initial(nBatchSize, workers);
    AllOutside(Held, s.threads);
    AllOutside(Idle, s.threads);
    AllOutside(Inside, s.threads);
  }

  lemma {:induction false} AllOutside(f: Phase -> nat, threads: seq<Phase>)
    requires f(Outside) == 0 && forall t :: 0 <= t < |threads| ==> threads[t] == Outside
    ensures Sum(f, threads) == 0
  {
    if threads != [] {
      AllOutside(f, threads[1..]);
    }
  }

  // --------------------------------------------------------- main results

  /** An interleaving of the master and the workers, from the constructed queue. */
  ghost predicate Execution(states: seq<State>, events: seq<Event>) {
    && |states| == |events| + 1
    && (exists nBatchSize: nat, workers: nat :: states[0] == Initial(nBatchSize, workers))
    && forall i :: 0 <= i < |events| ==> Follows(states[i], events[i], states[i + 1])
  }

  ghost predicate Follows(s: State, e: Event, s': State) {
    Enabled(s, e) && s' == Step(s, e)
  }

  lemma {:induction false} ExecutionKeepsInv(states: seq<State>, events: seq<Event>, i: nat)
    requires Execution(states, events) && i < |states|
    ensures Inv(states[i])
  {
    if i == 0 {
      var nBatchSize: nat, workers: nat :| states[0] == Initial(nBatchSize, workers);
      InitialInv(nBatchSize, workers);
    } else {
      ExecutionKeepsInv(states, events, i - 1);
      assert Follows(states[i - 1], events[i - 1], states[i]);
      StepKeepsInv(states[i - 1], events[i - 1]);
    }
  }

  /**
    In every interleaving: when Wait returns, it returns true exactly when every check
    added since the last return is true, although checks may have been skipped.
  */
  lemma WaitReturnsVerdict(states: seq<State>, events: seq<Event>, i: nat)
    requires Execution(states, events) && i < |events|
    ensures Enabled(states[i], events[i])
    ensures Returned(states[i], events[i]).Some? ==>
              && Returned(states[i], events[i]).value == AllTrue(states[i].added)
              && IsIdle(states[i + 1]) && states[i + 1].added == [] && states[i + 1].queue == []
  {
    ExecutionKeepsInv(states, events, i);
    ExecutionKeepsInv(states, events, i + 1);
    var s, e := states[i], events[i];
    assert Follows(s, e, states[i + 1]);
    if Returned(s, e).Some? {
      EventLocks(s, e);
      MasterSeesNoBatch(Locked(s, e));
      IdleOutsideWait(states, events, i + 1);
    }
  }

  /** Between a return of Wait and the next nonempty Add the queue reports itself idle. */
  lemma IdleOutsideWait(states: seq<State>, events: seq<Event>, i: nat)
    requires Execution(states, events) && i < |states|
    requires states[i].threads != [] && states[i].threads[MASTER].Outside? && states[i].added == []
    ensures IsIdle(states[i])
  {
    ExecutionKeepsInv(states, events, i);
    var s := states[i];
    forall t | 0 <= t < |s.threads|
      ensures Idle(s.threads[t]) == Inside(s.threads[t])
    {
      SumAtLeast(Held, s.threads, t);
      assert BatchOk(s.threads[t]);
    }
    SumIdleInside(s.threads);
  }

  lemma {:induction false} SumIdleInside(threads: seq<Phase>)
    requires forall t :: 0 <= t < |threads| ==> Idle(threads[t]) == Inside(threads[t])
    ensures Sum(Idle, threads) == Sum(Inside, threads)
  {
    if threads != [] {
      SumIdleInside(threads[1..]);
    }
  }

  /** Steps that need neither a spurious wakeup nor a call from outside. */
  predicate Proper(s: State, e: Event)
    requires Enabled(s, e)
  {
    e.RunCheck? || e.Finish? || (e.Wake? && s.threads[e.thread].notified)
  }

  /**
    No lost wakeup: while the master is inside Wait some proper step is enabled. In
    particular a master that waits without having been notified leaves a worker with a batch.
  */
  lemma NoLostWakeup(s: State) returns (e: Event)
    requires Inv(s) && !s.threads[MASTER].Outside?
    ensures Enabled(s, e) && Proper(s, e)
    ensures s.threads[MASTER] == Waiting(false) ==> !e.Wake? && e.thread != MASTER && s.threads[e.thread].Busy?
  {
    if s.threads[MASTER] == Waiting(true) {
      e := Wake(MASTER);
    } else {
      var t := MASTER;
      if s.threads[MASTER].Waiting? {
        t := SumPositive(Held, s.threads);
      }
      assert BatchOk(s.threads[t]);
      e := if s.threads[t].ran < |s.threads[t].batch| then RunCheck(t) else Finish(t);
    }
  }

  /** Work left: queued checks, checks in hand, batches to hand in, wakeups to deliver. */
  function Weight(p: Phase): nat {
    match p
    case Outside => 0
    case Waiting(notified) => if notified then 1 else 0
    case Busy(batch, ran, _) => if ran <= |batch| then |batch| - ran + 2 else 0
  }

  function Potential(s: State): nat {
    4 * |s.queue| + Sum(Weight, s.threads)
  }

  lemma ProperStepsRunOut(s: State, e: Event)
    requires Inv(s) && Enabled(s, e) && Proper(s, e)
    ensures Potential(Step(s, e)) < Potential(s)
  {
    hide Sum, Inv, AllTrue, BatchSize;
    if e.RunCheck? {
      SumUpdate(Weight, s.threads, e.thread, Step(s, e).threads[e.thread]);
    } else {
      LockedWeight(s, e);
      ProceedWeight(Locked(s, e), e.thread);
    }
  }

  /** Taking the lock adds at most one wakeup, and then nothing is queued. */
  lemma LockedWeight(s: State, e: Event)
    requires Inv(s) && Enabled(s, e) && (e.Wake? || e.Finish?)
    ensures var l := Locked(s, e);
            && l.queue == s.queue && e.thread < |l.threads| && l.threads[e.thread] == s.threads[e.thread]
            && Sum(Weight, l.threads) <= Sum(Weight, s.threads) + (if e.Finish? && s.queue == [] then 1 else 0)
  {
    hide Sum, AllTrue, Inv;
    EventLocks(s, e);
    InsideTodo(Locked(s, e), e.thread);
    if e.Finish? && Locked(s, e).nTodo == 0 && e.thread != MASTER && s.threads[MASTER].Waiting? {
      SumUpdate(Weight, s.threads, MASTER, Waiting(true));
    }
  }

  lemma InsideTodo(s: State, t: nat)
    requires InvInside(s, t)
    ensures s.nTodo >= |s.queue|
  {
    SumAtLeast(Held, s.threads, t);
  }

  /** What a thread that gives up its batch or its wakeup takes on weighs less. */
  lemma ProceedWeight(s: State, t: nat)
    requires t < |s.threads|
    ensures var s' := Proceed(s, t);
            4 * |s'.queue| + Sum(Weight, s'.threads) + Weight(s.threads[t]) <=
            4 * |s.queue| + Sum(Weight, s.threads) - (if s.queue != [] then 1 else 0)
  {
    hide Sum;
    SumUpdate(Weight, s.threads, t, Proceed(s, t).threads[t]);
  }

  ghost predicate ProperRun(s: State, events: seq<Event>)
    decreases |events|
  {
    events == [] ||
    (Enabled(s, events[0]) && Proper(s, events[0]) && ProperRun(Step(s, events[0]), events[1..]))
  }

  /** The state after a run. */
  function After(s: State, events: seq<Event>): State
    requires ProperRun(s, events)
    decreases |events|
  {
    if events == [] then s else After(Step(s, events[0]), events[1..])
  }

  /** Proper steps cannot go on forever. */
  lemma {:induction false} ProperRunsAreBounded(s: State, events: seq<Event>)
    requires Inv(s) && ProperRun(s, events)
    ensures |events| <= Potential(s)
    decreases |events|
  {
    if events != [] {
      ProperStepsRunOut(s, events[0]);
      StepKeepsInv(s, events[0]);
      ProperRunsAreBounded(Step(s, events[0]), events[1..]);
    }
  }

  lemma {:induction false} ProperRunKeepsInv(s: State, events: seq<Event>)
    requires Inv(s) && ProperRun(s, events)
    ensures Inv(After(s, events))
    decreases |events|
  {
    if events != [] {
      StepKeepsInv(s, events[0]);
      ProperRunKeepsInv(Step(s, events[0]), events[1..]);
    }
  }

  ghost predicate Stuck(s: State) {
    forall e :: Enabled(s, e) ==> !Proper(s, e)
  }

  /**
    Every Wait ends: from any reachable state, proper steps go on only for so long, and when none is left
    to take the master is outside Wait.
  */
  lemma EveryWaitEnds(states: seq<State>, past: seq<Event>, i: nat, events: seq<Event>)
    requires Execution(states, past) && i < |states| && ProperRun(states[i], events)
    ensures |events| <= Potential(states[i])
    ensures Stuck(After(states[i], events)) ==>
              After(states[i], events).threads != [] && After(states[i], events).threads[MASTER].Outside?
  {
    hide Inv, Enabled, Step, Potential, Proper;
    ExecutionKeepsInv(states, past, i);
    ProperRunsAreBounded(states[i], events);
    ProperRunKeepsInv(states[i], events);
    MasterStuckOutside(After(states[i], events));
  }

  lemma MasterStuckOutside(s: State)
    requires Inv(s)
    ensures s.threads != [] && (Stuck(s) ==> s.threads[MASTER].Outside?)
  {
    if !s.threads[MASTER].Outside? {
      var e := NoLostWakeup(s);
      assert !Stuck(s);
    }
  }
}
