/**
 The count down latch: threads inside wait, countDown and getCount, interleaved at every
 access to the mutex, the counter and the condition variable.
 */
module CountDownLatch {
  import opened Options

  /** Where a thread stands. Names ending in Lock wait for the mutex. */
  datatype Pc =
    | Idle
    // wait
    | WaitLock | WaitTest | Asleep | WaitRelock | WaitUnlock
    // countDown
    | DownLock | Decrement | DownTest | Notify | DownUnlock
    // getCount
    | GetLock | Read | GetUnlock(value: int)

  /** `initial`, `downs` and `returned` record the run: the count at the start, decrements, returned waits. */
  datatype State = State(
    count: int, holder: Option<nat>, threads: seq<Pc>, initial: int, downs: nat, returned: nat)

  datatype Operation = Wait | CountDown | GetCount

  /** A thread calls an operation, runs up to its next access, or wakes up for no reason. */
  datatype Step = Call(t: nat, op: Operation) | Run(t: nat) | Spurious(t: nat)

  function Start(count: int, threads: nat): State {
    State(count, None, seq(threads, _ => Idle), count, 0, 0)
  }

  predicate Locking(pc: Pc) { pc.WaitLock? || pc.WaitRelock? || pc.DownLock? || pc.GetLock? }

  predicate Inside(pc: Pc) { !Locking(pc) && !pc.Idle? && !pc.Asleep? }

  /** Whether a thread can go on by itself. */
  predicate Enabled(st: State, t: nat)
    requires t < |st.threads|
  {
    Inside(st.threads[t]) || (Locking(st.threads[t]) && st.holder.None?)
  }

  /** notify_all: whoever sleeps goes for the mutex. */
  function WakeAll(threads: seq<Pc>): (r: seq<Pc>)
    ensures |r| == |threads|
    ensures forall i :: 0 <= i < |r| ==> r[i] == if threads[i].Asleep? then WaitRelock else threads[i]
  {
    seq(|threads|, i requires 0 <= i < |threads| => if threads[i].Asleep? then WaitRelock else threads[i])
  }

  function GoTo(st: State, t: nat, pc: Pc): State
    requires t < |st.threads|
  {
    st.(threads := st.threads[t := pc])
  }

  function Lock(st: State, t: nat, pc: Pc): State
    requires t < |st.threads|
  {
    if st.holder.None? then GoTo(st, t, pc).(holder := Some(t)) else st
  }

  function Unlock(st: State, t: nat, pc: Pc): State
    requires t < |st.threads|
  {
    GoTo(st, t, pc).(holder := None)
  }

  function RunThread(st: State, t: nat): State
    requires t < |st.threads|
  {
    match st.threads[t]
    case Idle | Asleep => st
    case WaitLock | WaitRelock => Lock(st, t, WaitTest)
    case WaitTest => if st.count > 0 then Unlock(st, t, Asleep) else GoTo(st, t, WaitUnlock)
    case WaitUnlock => Unlock(st, t, Idle).(returned := st.returned + 1)
    case DownLock => Lock(st, t, Decrement)
    case Decrement => GoTo(st, t, DownTest).(count := st.count - 1, downs := st.downs + 1)
    case DownTest => GoTo(st, t, if st.count == 0 then Notify else DownUnlock)
    case Notify => GoTo(st.(threads := WakeAll(st.threads)), t, DownUnlock)
    case DownUnlock => Unlock(st, t, Idle)
    case GetLock => Lock(st, t, Read)
    case Read => GoTo(st, t, GetUnlock(st.count))
    case GetUnlock(_) => Unlock(st, t, Idle)
  }

  function Next(st: State, s: Step): State {
    if s.t >= |st.threads| then st
    else
      match s
      case Call(t, op) =>
        if !st.threads[t].Idle? then st
        else GoTo(st, t, match op case Wait => WaitLock case CountDown => DownLock case GetCount => GetLock)
      case Run(t) => RunThread(st, t)
      case Spurious(t) => if st.threads[t].Asleep? then GoTo(st, t, WaitRelock) else st
  }

  function After(st: State, run: seq<Step>): State
    decreases |run|
  {
    if run == [] then st else After(Next(st, run[0]), run[1..])
  }

  // ---------- what every interleaving keeps ----------

  /** The mutex: the one thread inside is its holder. */
  predicate Exclusive(st: State) {
    && (st.holder.Some? ==> st.holder.value < |st.threads| && Inside(st.threads[st.holder.value]))
    && (forall t :: 0 <= t < |st.threads| && Inside(st.threads[t]) ==> st.holder == Some(t))
  }

  /** Some thread has just made the count zero and is about to notify. */
  predicate AboutToNotify(st: State) {
    && st.holder.Some? && st.holder.value < |st.threads| && st.count == 0
    && (st.threads[st.holder.value].DownTest? || st.threads[st.holder.value].Notify?)
  }

  predicate NobodyAsleep(st: State) {
    forall t :: 0 <= t < |st.threads| ==> !st.threads[t].Asleep?
  }

  /** Nobody sleeps through a finished count. */
  predicate NoLostWakeup(st: State) {
    st.count > 0 || AboutToNotify(st) || NobodyAsleep(st)
  }

  predicate Counted(st: State) {
    && st.count == st.initial - st.downs
    && (st.returned > 0 ==> st.count <= 0)
    && (forall t :: 0 <= t < |st.threads| ==>
          (st.threads[t].WaitUnlock? ==> st.count <= 0)
          && (st.threads[t].GetUnlock? ==> st.threads[t].value == st.count)
          && (st.threads[t].Notify? ==> st.count == 0))
  }

  predicate Inv(st: State) { Exclusive(st) && NoLostWakeup(st) && Counted(st) }

  lemma RunKeepsExclusive(st: State, t: nat)
    requires Exclusive(st) && t < |st.threads|
    ensures Exclusive(RunThread(st, t))
  {
  }

  /** Only the thread inside can fall asleep or finish the count, and it cannot do both. */
  lemma RunKeepsWakeups(st: State, t: nat)
    requires Exclusive(st) && NoLostWakeup(st) && t < |st.threads|
    ensures NoLostWakeup(RunThread(st, t))
  {
  }

  lemma RunKeepsCounted(st: State, t: nat)
    requires Exclusive(st) && Counted(st) && t < |st.threads|
    ensures Counted(RunThread(st, t))
  {
  }

  lemma RunKeepsInv(st: State, t: nat)
    requires Inv(st) && t < |st.threads|
    ensures Inv(RunThread(st, t))
  {
    RunKeepsExclusive(st, t);
    RunKeepsWakeups(st, t);
    RunKeepsCounted(st, t);
    hide *;
  }

  lemma NextKeepsInv(st: State, s: Step)
    requires Inv(st)
    ensures Inv(Next(st, s))
  {
    if s.Run? && s.t < |st.threads| {
      RunKeepsInv(st, s.t);
    }
  }

  lemma {:induction false} RunsKeepInv(st: State, run: seq<Step>)
    requires Inv(st)
    ensures Inv(After(st, run))
    decreases |run|
  {
    if run != [] {
      NextKeepsInv(st, run[0]);
      RunsKeepInv(Next(st, run[0]), run[1..]);
    }
  }

  /**
   In every interleaving from a fresh latch: one thread at most is inside, a wait returns
   only after as many countDowns as the initial count, what getCount is about to return is
   the count, and a thread that sleeps on a finished count is about to be notified.
   */
  lemma LatchIsSafe(count: int, threads: nat, run: seq<Step>)
    ensures var st := After(Start(count, threads), run);
            && Exclusive(st) && NoLostWakeup(st)
            && (st.returned > 0 ==> st.downs >= count)
            && (forall t :: 0 <= t < |st.threads| && st.threads[t].GetUnlock? ==>
                  st.threads[t].value == count - st.downs)
  {
    RunsKeepInv(Start(count, threads), run);
    InitialStays(Start(count, threads), run);
  }

  lemma {:induction false} InitialStays(st: State, run: seq<Step>)
    ensures After(st, run).initial == st.initial && |After(st, run).threads| == |st.threads|
    decreases |run|
  {
    if run != [] {
      InitialStays(Next(st, run[0]), run[1..]);
    }
  }

  // ---------- everyone gets through ----------

  /** Steps that a thread has left once the count is finished. */
  function Left(pc: Pc): nat {
    match pc
    case Idle => 0
    case WaitUnlock | DownUnlock | GetUnlock(_) => 1
    case WaitTest | Notify | Read => 2
    case WaitLock | WaitRelock | DownTest | GetLock => 3
    case Asleep | Decrement => 4
    case DownLock => 5
  }

  function AllLeft(threads: seq<Pc>): nat {
    if threads == [] then 0 else Left(threads[0]) + AllLeft(threads[1..])
  }

  lemma {:induction false} AllLeftUpdate(threads: seq<Pc>, t: nat, pc: Pc)
    requires t < |threads|
    ensures AllLeft(threads[t := pc]) == AllLeft(threads) - Left(threads[t]) + Left(pc)
  {
    if t > 0 {
      assert threads[t := pc][1..] == threads[1..][t - 1 := pc];
      AllLeftUpdate(threads[1..], t - 1, pc);
    } else {
      assert threads[t := pc][1..] == threads[1..];
    }
  }

  lemma {:induction false} AllLeftWake(threads: seq<Pc>)
    ensures AllLeft(WakeAll(threads)) <= AllLeft(threads)
  {
    if threads != [] {
      assert WakeAll(threads)[1..] == WakeAll(threads[1..]);
      AllLeftWake(threads[1..]);
    }
  }

  /** Once the count is finished it stays so, and every step of a thread is one step less. */
  lemma FinishedRunShrinks(st: State, t: nat)
    requires t < |st.threads| && st.count <= 0 && Enabled(st, t)
    ensures var st' := RunThread(st, t);
            st'.count <= 0 && |st'.threads| == |st.threads| && AllLeft(st'.threads) < AllLeft(st.threads)
  {
    hide AllLeft, WakeAll;
    var st' := RunThread(st, t);
    if st.threads[t].Notify? {
      AllLeftWake(st.threads);
      AllLeftUpdate(WakeAll(st.threads), t, DownUnlock);
    } else {
      assert st'.threads == st.threads[t := st'.threads[t]];
      assert Left(st'.threads[t]) < Left(st.threads[t]);
      AllLeftUpdate(st.threads, t, st'.threads[t]);
    }
  }

  /** The step is one of a thread that can go on, or wakes up a sleeping thread for no reason. */
  predicate CanStep(st: State, s: Step) {
    && s.t < |st.threads|
    && ((s.Run? && Enabled(st, s.t)) || (s.Spurious? && st.threads[s.t].Asleep?))
  }

  /** A run without new calls. */
  predicate Schedule(st: State, run: seq<Step>)
    decreases |run|
  {
    run == [] || (CanStep(st, run[0]) && Schedule(Next(st, run[0]), run[1..]))
  }

  /** A spurious wakeup is one step less, too: whoever finds the count finished does not sleep again. */
  lemma FinishedStepShrinks(st: State, s: Step)
    requires st.count <= 0 && CanStep(st, s)
    ensures var st' := Next(st, s);
            st'.count <= 0 && |st'.threads| == |st.threads| && AllLeft(st'.threads) < AllLeft(st.threads)
  {
    hide AllLeft;
    if s.Run? {
      FinishedRunShrinks(st, s.t);
    } else {
      AllLeftUpdate(st.threads, s.t, WaitRelock);
    }
  }

  predicate Quiescent(st: State) {
    forall t :: 0 <= t < |st.threads| ==> !Enabled(st, t)
  }

  lemma HolderIsEnabled(st: State)
    requires Exclusive(st)
    ensures st.holder.Some? ==> st.holder.value < |st.threads| && Enabled(st, st.holder.value)
  {
  }

  /** No deadlock: when nobody can go on, everyone is idle or sleeps before the end of the count. */
  lemma QuiescentMeansDone(st: State)
    requires Inv(st) && Quiescent(st)
    ensures forall t :: 0 <= t < |st.threads| ==>
              st.threads[t].Idle? || (st.threads[t].Asleep? && st.count > 0)
  {
    HolderIsEnabled(st);
    forall t | 0 <= t < |st.threads|
      ensures st.threads[t].Idle? || (st.threads[t].Asleep? && st.count > 0)
    {
      assert !Enabled(st, t);
    }
  }

  /**
   Once the count is finished, every schedule without new calls is finite, spurious wakeups
   included, and where it ends every call has returned: no waiter is left behind.
   */
  lemma {:induction false} FinishedLatchLetsAllThrough(st: State, run: seq<Step>)
    requires Inv(st) && st.count <= 0 && Schedule(st, run)
    ensures |run| <= AllLeft(st.threads)
    ensures Quiescent(After(st, run)) ==>
              forall t :: 0 <= t < |After(st, run).threads| ==> After(st, run).threads[t].Idle?
    decreases |run|
  {
    if run == [] {
      if Quiescent(st) {
        QuiescentMeansDone(st);
      }
    } else {
      NextKeepsInv(st, run[0]);
      FinishedStepShrinks(st, run[0]);
      FinishedLatchLetsAllThrough(Next(st, run[0]), run[1..]);
    }
  }

  /** The latch opens exactly at its count: a thread that tests it goes on iff enough countDowns have happened. */
  lemma WaitPassesIff(count: int, threads: nat, run: seq<Step>, t: nat)
    requires var st := After(Start(count, threads), run); t < |st.threads| && st.threads[t].WaitTest?
    ensures var st := After(Start(count, threads), run);
            RunThread(st, t).threads[t] == if st.downs >= count then WaitUnlock else Asleep
  {
    RunsKeepInv(Start(count, threads), run);
    InitialStays(Start(count, threads), run);
  }

  // ---------- every call does its work once ----------

  /** The operation a thread is in. */
  function Doing(pc: Pc): Option<Operation> {
    match pc
    case Idle => None
    case WaitLock | WaitTest | Asleep | WaitRelock | WaitUnlock => Some(Wait)
    case DownLock | Decrement | DownTest | Notify | DownUnlock => Some(CountDown)
    case GetLock | Read | GetUnlock(_) => Some(GetCount)
  }

  /** Of the steps, those at which an idle thread `t` calls `op`. */
  function Calls(st: State, run: seq<Step>, t: nat, op: Operation): nat
    decreases |run|
  {
    if run == [] then 0
    else
      (if t < |st.threads| && st.threads[t].Idle? && run[0] == Call(t, op) then 1 else 0)
      + Calls(Next(st, run[0]), run[1..], t, op)
  }

  /** Those at which `t` comes back from `op` and is idle again. */
  function Returns(st: State, run: seq<Step>, t: nat, op: Operation): nat
    decreases |run|
  {
    if run == [] then 0
    else
      var next := Next(st, run[0]);
      (if t < |st.threads| && t < |next.threads| && Doing(st.threads[t]) == Some(op) && next.threads[t].Idle?
       then 1 else 0)
      + Returns(next, run[1..], t, op)
  }

  /** Those at which `t` makes the count one less. */
  function Decrements(st: State, run: seq<Step>, t: nat): nat
    decreases |run|
  {
    if run == [] then 0
    else
      var next := Next(st, run[0]);
      (if run[0].t == t && next.count == st.count - 1 then 1 else 0) + Decrements(next, run[1..], t)
  }

  /** In the middle of a call; in a countDown, before or behind its decrement. */
  function Busy(pc: Pc, op: Operation): nat { if Doing(pc) == Some(op) then 1 else 0 }
  function BeforeDecrement(pc: Pc): nat { if pc.DownLock? || pc.Decrement? then 1 else 0 }

  /** Whatever another thread does, it can only wake `t` up. */
  lemma OtherStep(st: State, s: Step, t: nat)
    requires t < |st.threads| && s.t != t
    ensures var next := Next(st, s);
            |next.threads| == |st.threads|
            && (next.threads[t] == st.threads[t] || (st.threads[t].Asleep? && next.threads[t].WaitRelock?))
  {
  }

  lemma StepCounts(st: State, s: Step)
    ensures Next(st, s).count == st.count || Next(st, s).count == st.count - 1
  {
  }

  lemma OwnStep(st: State, s: Step, t: nat, op: Operation)
    requires t < |st.threads| && s.t == t
    ensures var next := Next(st, s);
            && |next.threads| == |st.threads|
            && Busy(st.threads[t], op) + (if st.threads[t].Idle? && s == Call(t, op) then 1 else 0)
               == Busy(next.threads[t], op) + (if Doing(st.threads[t]) == Some(op) && next.threads[t].Idle? then 1 else 0)
            && BeforeDecrement(st.threads[t]) + (if st.threads[t].Idle? && s == Call(t, CountDown) then 1 else 0)
               == BeforeDecrement(next.threads[t]) + (if next.count == st.count - 1 then 1 else 0)
  {
  }

  lemma OneStep(st: State, s: Step, t: nat, op: Operation)
    requires t < |st.threads|
    ensures var next := Next(st, s);
            && |next.threads| == |st.threads| && (next.count == st.count || next.count == st.count - 1)
            && Busy(st.threads[t], op) + (if st.threads[t].Idle? && s == Call(t, op) then 1 else 0)
               == Busy(next.threads[t], op) + (if Doing(st.threads[t]) == Some(op) && next.threads[t].Idle? then 1 else 0)
            && BeforeDecrement(st.threads[t]) + (if st.threads[t].Idle? && s == Call(t, CountDown) then 1 else 0)
               == BeforeDecrement(next.threads[t]) + (if s.t == t && next.count == st.count - 1 then 1 else 0)
  {
    hide Next;
    StepCounts(st, s);
    if s.t == t {
      OwnStep(st, s, t, op);
    } else {
      OtherStep(st, s, t);
    }
  }

  /**
   Every call does its work exactly once, in any interleaving: a thread has come back from
   its calls of an operation except the one it is in, if any, and has decremented the count
   once for each countDown except one that it has not got so far in.
   */
  lemma {:induction false} CallsAreServedOnce(st: State, run: seq<Step>, t: nat, op: Operation)
    requires t < |st.threads|
    ensures var end := After(st, run);
            && |end.threads| == |st.threads|
            && Busy(st.threads[t], op) + Calls(st, run, t, op) == Returns(st, run, t, op) + Busy(end.threads[t], op)
            && BeforeDecrement(st.threads[t]) + Calls(st, run, t, CountDown)
               == Decrements(st, run, t) + BeforeDecrement(end.threads[t])
    decreases |run|
  {
    if run != [] {
      OneStep(st, run[0], t, op);
      hide Next, Busy, BeforeDecrement, Doing;
      CallsAreServedOnce(Next(st, run[0]), run[1..], t, op);
    }
  }

  /** The count goes down by one at a time, and by nothing but the decrements of the threads. */
  lemma {:induction false} DownsAreDecrements(st: State, run: seq<Step>)
    ensures After(st, run).count == st.count - AllDecrements(st, run, |st.threads|)
    decreases |run|
  {
    if run == [] {
      NoDecrements(st, |st.threads|);
    } else {
      var next := Next(st, run[0]);
      StepDecrements(st, run, |st.threads|);
      DownsAreDecrements(next, run[1..]);
    }
  }

  /** The decrements of the first `n` threads. */
  function AllDecrements(st: State, run: seq<Step>, n: nat): nat {
    if n == 0 then 0 else Decrements(st, run, n - 1) + AllDecrements(st, run, n - 1)
  }

  lemma {:induction false} NoDecrements(st: State, n: nat)
    ensures AllDecrements(st, [], n) == 0
  {
    if n > 0 {
      NoDecrements(st, n - 1);
    }
  }

  lemma {:induction false} StepDecrements(st: State, run: seq<Step>, n: nat)
    requires run != [] && n <= |st.threads|
    ensures var next := Next(st, run[0]);
            && |next.threads| == |st.threads| && (run[0].t >= |st.threads| ==> next.count == st.count)
            && AllDecrements(st, run, n)
               == AllDecrements(next, run[1..], n) + (if run[0].t < n && next.count == st.count - 1 then 1 else 0)
            && (next.count == st.count || next.count == st.count - 1)
  {
    if n > 0 {
      StepDecrements(st, run, n - 1);
    }
  }

  /** The calls of countDown by the first `n` threads. */
  function AllCalls(st: State, run: seq<Step>, n: nat): nat {
    if n == 0 then 0 else Calls(st, run, n - 1, CountDown) + AllCalls(st, run, n - 1)
  }

  /** Those still on the way to their decrement. */
  function AllBefore(threads: seq<Pc>, n: nat): nat
    requires n <= |threads|
  {
    if n == 0 then 0 else BeforeDecrement(threads[n - 1]) + AllBefore(threads, n - 1)
  }

  lemma {:induction false} CallsAreDecrements(st: State, run: seq<Step>, n: nat)
    requires n <= |st.threads| && forall t :: 0 <= t < n ==> st.threads[t].Idle?
    ensures |After(st, run).threads| == |st.threads|
    ensures AllCalls(st, run, n) == AllDecrements(st, run, n) + AllBefore(After(st, run).threads, n)
  {
    InitialStays(st, run);
    if n > 0 {
      CallsAreDecrements(st, run, n - 1);
      CallsAreServedOnce(st, run, n - 1, CountDown);
    }
  }

  /** After any run from a fresh latch the count is the initial one less the calls of countDown that got that far. */
  lemma CountIsCalls(count: int, threads: nat, run: seq<Step>)
    ensures var start := Start(count, threads); var end := After(start, run);
            |end.threads| == threads
            && end.count == count - AllCalls(start, run, threads) + AllBefore(end.threads, threads)
  {
    CallsAreDecrements(Start(count, threads), run, threads);
    DownsAreDecrements(Start(count, threads), run);
  }
}
