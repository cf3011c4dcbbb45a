/**
 * base/mutex.h and base/mutex.cc as a step relation over any number of threads. Each step is one atomic access, one
 * sleep or one wake. A wait on a value sleeps only if the word holds that value at that moment.
 */
module Mutexes {
  import opened Basics

  const UNLOCKED := 0
  const UNCONTENDED := 1
  const CONTENDED := 2
  const SPIN_LIMIT := 36

  /** What a thread does once its unlocking half is over. */
  datatype After = Leave | ThenWait | ThenTimedWait

  /** Why a thread waits on the contended word: inside LockSlow (spins so far), or inside WaitSlow. */
  datatype Purpose = Locking(spins: nat) | Awaiting

  datatype Pc =
    | Outside
    | AtTryLock                      // in Lock, before its compare-exchange
    | AtLoad(spins: nat)             // in LockSlow, before (re)loading the word
    | InSlow(c: int, spins: nat)     // in LockSlow, at the head of the loop
    | AtWait(purpose: Purpose)       // before state_.wait(kLockedContended)
    | Asleep(purpose: Purpose)
    | Holding
    | Marked                         // in WaitSlow, the word set to contended, still holding
    | OwesNotify(after: After)       // has exchanged kLockedContended for kUnlocked, has not notified yet
    | AtTimedWait
    | TimedAsleep
  {
    predicate Holds() { Holding? || Marked? }
  }

  /** owing is the set of threads that still owe a notify_all; holder is the abstract lock. */
  datatype State = State(word: int, threads: seq<Pc>, holder: Option<nat>, owing: set<nat>)

  datatype Step =
    | CallLock(i: nat)
    | CallTryLock(i: nat)
    | TryLock(i: nat)
    | Load(i: nat)
    | Slow(i: nat)
    | Wait(i: nat)
    | WakeSpuriously(i: nat)
    | Unlock(i: nat)
    | MarkContended(i: nat)
    | UnlockToWait(i: nat)
    | UnlockToTimedWait(i: nat)
    | NotifyAll(i: nat)
    | TimedWait(i: nat)
    | TimedWake(i: nat)

  predicate Enabled(s: State, step: Step) {
    step.i < |s.threads| &&
    var pc := s.threads[step.i];
    match step
    case CallLock(_) => pc.Outside?
    case CallTryLock(_) => pc.Outside?
    case TryLock(_) => pc.AtTryLock?
    case Load(_) => pc.AtLoad?
    case Slow(_) => pc.InSlow?
    case Wait(_) => pc.AtWait?
    case WakeSpuriously(_) => pc.Asleep?
    case Unlock(_) => pc.Holding?
    case MarkContended(_) => pc.Holding?
    case UnlockToWait(_) => pc.Marked?
    case UnlockToTimedWait(_) => pc.Holding?
    case NotifyAll(_) => pc.OwesNotify?
    case TimedWait(_) => pc.AtTimedWait?
    case TimedWake(_) => pc.TimedAsleep?
  }

  function To(s: State, i: nat, pc: Pc): State
    requires i < |s.threads|
  {
    s.(threads := s.threads[i := pc])
  }

  function Acquire(s: State, i: nat, word: int): State
    requires i < |s.threads|
  {
    To(s, i, Holding).(word := word, holder := Some(i))
  }

  /** Where a thread goes when its wait on the contended word returns. */
  function Returned(purpose: Purpose): Pc {
    match purpose
    case Locking(spins) => AtLoad(spins)
    case Awaiting => AtTryLock
  }

  function Continue(after: After): Pc {
    match after
    case Leave => Outside
    case ThenWait => AtWait(Awaiting)
    case ThenTimedWait => AtTimedWait
  }

  /** Unlock: exchange the word for kUnlocked; only a contended word obliges the caller to notify. */
  function Release(s: State, i: nat, after: After): State
    requires i < |s.threads|
  {
    if s.word == CONTENDED then
      To(s, i, OwesNotify(after)).(word := UNLOCKED, holder := None, owing := s.owing + {i})
    else To(s, i, Continue(after)).(word := UNLOCKED, holder := None)
  }

  function Woken(pc: Pc): Pc {
    match pc
    case Asleep(purpose) => Returned(purpose)
    case TimedAsleep => AtTryLock
    case _ => pc
  }

  function Apply(s: State, step: Step): State
    requires Enabled(s, step)
  {
    var i := step.i;
    match step
    case CallLock(_) => To(s, i, AtTryLock)
    case CallTryLock(_) => if s.word == UNLOCKED then Acquire(s, i, UNCONTENDED) else s
    case TryLock(_) => if s.word == UNLOCKED then Acquire(s, i, UNCONTENDED) else To(s, i, AtLoad(0))
    case Load(_) => To(s, i, InSlow(s.word, s.threads[i].spins))
    case Slow(_) =>
      var InSlow(c, spins) := s.threads[i];
      if c == UNCONTENDED && spins < SPIN_LIMIT then To(s, i, AtLoad(spins + 1))
      else if c == UNLOCKED || c == UNCONTENDED then
        if s.word == UNLOCKED then Acquire(s, i, CONTENDED)
        else To(s, i, AtWait(Locking(spins))).(word := CONTENDED)
      else To(s, i, AtWait(Locking(spins)))
    case Wait(_) =>
      var purpose := s.threads[i].purpose;
      To(s, i, if s.word == CONTENDED then Asleep(purpose) else Returned(purpose))
    case WakeSpuriously(_) => To(s, i, Returned(s.threads[i].purpose))
    case Unlock(_) => Release(s, i, Leave)
    case MarkContended(_) => To(s, i, Marked).(word := CONTENDED)
    case UnlockToWait(_) => Release(s, i, ThenWait)
    case UnlockToTimedWait(_) => Release(s, i, ThenTimedWait)
    case NotifyAll(_) =>
      var awake := seq(|s.threads|, j requires 0 <= j < |s.threads| => Woken(s.threads[j]));
      To(s.(threads := awake), i, Continue(s.threads[i].after)).(owing := s.owing - {i})
    case TimedWait(_) => To(s, i, if s.word == UNLOCKED then TimedAsleep else AtTryLock)
    case TimedWake(_) => To(s, i, AtTryLock)
  }

  ghost predicate Initial(s: State) {
    && s.word == UNLOCKED && s.holder == None && s.owing == {}
    && forall i :: 0 <= i < |s.threads| ==> s.threads[i].Outside?
  }

  ghost predicate ThreadOk(s: State, i: nat)
    requires i < |s.threads|
  {
    var pc := s.threads[i];
    && (pc.Holds() <==> s.holder == Some(i))
    && (pc.OwesNotify? <==> i in s.owing)
    && (pc.Marked? ==> s.word == CONTENDED)
    && (pc.Asleep? ==> s.word == CONTENDED || s.owing != {})
  }

  ghost predicate Inv(s: State) {
    && UNLOCKED <= s.word <= CONTENDED
    && (s.word != UNLOCKED <==> s.holder.Some?)
    && (s.holder.Some? ==> s.holder.value < |s.threads|)
    && (forall i :: i in s.owing ==> 0 <= i < |s.threads|)
    && forall i :: 0 <= i < |s.threads| ==> ThreadOk(s, i)
  }

  lemma Preserved(s: State, step: Step)
    requires Inv(s) && Enabled(s, step)
    ensures Inv(Apply(s, step))
  {
    var next := Apply(s, step);
    assert ThreadOk(s, step.i);
    forall j | 0 <= j < |next.threads| ensures ThreadOk(next, j) {
      assert ThreadOk(s, j);
      assert step.i in s.owing + {step.i};
    }
  }

  /** Every step acquires a free lock for its thread, releases that thread's lock, or leaves the abstract lock alone. */
  lemma StepsRefineLock(s: State, step: Step)
    requires Inv(s) && Enabled(s, step)
    ensures var next := Apply(s, step);
            || next.holder == s.holder
            || (s.holder == None && next.holder == Some(step.i) && next.threads[step.i].Holding?)
            || (s.holder == Some(step.i) && next.holder == None && s.threads[step.i].Holds())
  {
    assert ThreadOk(s, step.i);
  }

  ghost predicate Run(s: State, steps: seq<Step>, s': State)
    decreases |steps|
  {
    if steps == [] then s' == s else Enabled(s, steps[0]) && Run(Apply(s, steps[0]), steps[1..], s')
  }

  lemma {:induction false} RunKeepsInv(s: State, steps: seq<Step>, s': State)
    requires Inv(s) && Run(s, steps, s')
    ensures Inv(s')
    decreases |steps|
  {
    hide Inv, Apply, Enabled;
    if steps != [] {
      Preserved(s, steps[0]);
      RunKeepsInv(Apply(s, steps[0]), steps[1..], s');
    }
  }

  /** In every interleaving at most one thread holds the lock, and the word is nonzero exactly when one does. */
  lemma MutualExclusion(init: State, steps: seq<Step>, s: State)
    requires Initial(init) && Run(init, steps, s)
    ensures forall i, j :: 0 <= i < j < |s.threads| ==> !(s.threads[i].Holds() && s.threads[j].Holds())
    ensures s.word != UNLOCKED <==> exists i :: 0 <= i < |s.threads| && s.threads[i].Holds()
  {
    assert Inv(init);
    RunKeepsInv(init, steps, s);
    forall i, j | 0 <= i < j < |s.threads| ensures !(s.threads[i].Holds() && s.threads[j].Holds()) {
      assert ThreadOk(s, i) && ThreadOk(s, j);
    }
    forall i | 0 <= i < |s.threads| && s.threads[i].Holds() ensures s.word != UNLOCKED {
      assert ThreadOk(s, i);
    }
    if s.word != UNLOCKED {
      assert ThreadOk(s, s.holder.value);
    }
  }

  /**
   * No lost wake-up: while any thread sleeps in LockSlow or WaitSlow, either the lock is held with the word contended,
   * so that the holder's unlock will have to notify, or some unlocker still owes its notify_all.
   */
  lemma NoLostWakeup(init: State, steps: seq<Step>, s: State, i: nat)
    requires Initial(init) && Run(init, steps, s)
    requires i < |s.threads| && s.threads[i].Asleep?
    ensures (exists j :: 0 <= j < |s.threads| && s.threads[j].OwesNotify?)
         || (s.word == CONTENDED && exists j :: 0 <= j < |s.threads| && s.threads[j].Holds())
  {
    assert Inv(init);
    RunKeepsInv(init, steps, s);
    assert ThreadOk(s, i);
    if s.word == CONTENDED {
      assert ThreadOk(s, s.holder.value);
    } else {
      var j :| j in s.owing;
      assert ThreadOk(s, j);
    }
  }

  /** The holder's unlock of a contended word turns into an owed notification, and paying it wakes every sleeper. */
  lemma UnlockWakesEveryone(s: State, i: nat)
    requires Inv(s) && Enabled(s, Unlock(i)) && s.word == CONTENDED
    ensures var owed := Apply(s, Unlock(i));
            && Enabled(owed, NotifyAll(i))
            && var woken := Apply(owed, NotifyAll(i));
               forall j :: 0 <= j < |woken.threads| ==> !woken.threads[j].Asleep?
  {
  }

  // ---- What each operation brings about ----

  /** TryLock, and the fast path of Lock, acquire the lock exactly when it is free. */
  lemma TryLockExactly(s: State, i: nat)
    requires Inv(s)
    ensures Enabled(s, CallTryLock(i)) ==> var next := Apply(s, CallTryLock(i));
      if s.word == UNLOCKED then next.threads[i].Holding? && next.holder == Some(i) && next.word == UNCONTENDED else next == s
    ensures Enabled(s, TryLock(i)) ==> var next := Apply(s, TryLock(i));
      if s.word == UNLOCKED then next.threads[i].Holding? && next.holder == Some(i) && next.word == UNCONTENDED
      else next == To(s, i, AtLoad(0))
  {
  }

  /** Each of the three ways to unlock frees the lock, and owes a notification exactly when the word was contended. */
  lemma UnlockFrees(s: State, step: Step)
    requires Inv(s) && Enabled(s, step) && (step.Unlock? || step.UnlockToWait? || step.UnlockToTimedWait?)
    ensures var next := Apply(s, step);
      && next.word == UNLOCKED && next.holder == None
      && (forall j :: 0 <= j < |s.threads| ==> !next.threads[j].Holds())
      && (next.threads[step.i].OwesNotify? <==> s.word == CONTENDED)
      && (!next.threads[step.i].OwesNotify? ==>
            next.threads[step.i] == if step.Unlock? then Outside else if step.UnlockToWait? then AtWait(Awaiting) else AtTimedWait)
  {
    assert ThreadOk(s, step.i);
    forall j | 0 <= j < |s.threads| ensures j != step.i ==> !s.threads[j].Holds() {
      assert ThreadOk(s, j);
    }
  }

  /** A wait sleeps exactly when the word holds the value waited on at that moment. */
  lemma SleepExactly(s: State, i: nat)
    ensures Enabled(s, Wait(i)) ==>
      Apply(s, Wait(i)) == To(s, i, if s.word == CONTENDED then Asleep(s.threads[i].purpose) else Returned(s.threads[i].purpose))
    ensures Enabled(s, Wait(i)) ==> (Apply(s, Wait(i)).threads[i].Asleep? <==> s.word == CONTENDED)
    ensures Enabled(s, TimedWait(i)) ==> (Apply(s, TimedWait(i)).threads[i].TimedAsleep? <==> s.word == UNLOCKED)
  {
  }

  lemma OneStep(s: State, step: Step)
    requires Enabled(s, step)
    ensures Run(s, [step], Apply(s, step))
  {
    assert Run(Apply(s, step), [], Apply(s, step));
    assert [step][1..] == [];
  }

  lemma TwoSteps(s: State, first: Step, second: Step)
    requires Enabled(s, first) && Enabled(Apply(s, first), second)
    ensures Run(s, [first, second], Apply(Apply(s, first), second))
  {
    OneStep(Apply(s, first), second);
    assert [first, second][1..] == [second];
  }

  /** A notification moves every sleeper on to try again, and nobody else; it pays what the notifier owed. */
  lemma NotifyMovesSleepers(s: State, i: nat, j: nat)
    requires Inv(s) && Enabled(s, NotifyAll(i)) && j < |s.threads|
    ensures var next := Apply(s, NotifyAll(i));
      && i !in next.owing && next.word == s.word && next.holder == s.holder
      && (j != i ==>
            match s.threads[j]
            case Asleep(Locking(spins)) => next.threads[j] == AtLoad(spins)
            case Asleep(Awaiting) => next.threads[j] == AtTryLock
            case TimedAsleep => next.threads[j] == AtTryLock
            case pc => next.threads[j] == pc)
  {
  }

  /** Whoever has been woken gets a free lock by its own steps alone, and leaves the word contended if others may wait. */
  lemma WokenAcquires(s: State, i: nat)
    requires Inv(s) && i < |s.threads| && s.word == UNLOCKED
    ensures s.threads[i].AtLoad? ==> Run(s, [Load(i), Slow(i)], To(s, i, Holding).(word := CONTENDED, holder := Some(i)))
    ensures s.threads[i].AtTryLock? ==> Run(s, [TryLock(i)], To(s, i, Holding).(word := UNCONTENDED, holder := Some(i)))
  {
    if s.threads[i].AtLoad? {
      TwoSteps(s, Load(i), Slow(i));
      assert To(Apply(s, Load(i)), i, Holding) == To(s, i, Holding);
    }
    if s.threads[i].AtTryLock? {
      OneStep(s, TryLock(i));
    }
  }

  /** The loads of LockSlow while the word stays uncontended: one more each time, until the spin limit. */
  function Spinning(i: nat, spins: nat): seq<Step>
    decreases SPIN_LIMIT - spins
  {
    [Load(i), Slow(i)] + if spins < SPIN_LIMIT then Spinning(i, spins + 1) else []
  }

  /** Lock on a lock that another thread keeps: spins up to the limit, marks the word contended, and sleeps. */
  lemma {:induction false} LockSleeps(s: State, i: nat, spins: nat)
    requires i < |s.threads| && s.word == UNCONTENDED && s.threads[i] == AtLoad(spins) && spins <= SPIN_LIMIT
    ensures var t := To(s, i, AtWait(Locking(SPIN_LIMIT))).(word := CONTENDED);
      Run(s, Spinning(i, spins), t) && Enabled(t, Wait(i)) && Apply(t, Wait(i)).threads[i] == Asleep(Locking(36))
    decreases SPIN_LIMIT - spins
  {
    var t := To(s, i, AtWait(Locking(SPIN_LIMIT))).(word := CONTENDED);
    var s1 := Apply(s, Load(i));
    var s2 := Apply(s1, Slow(i));
    var steps := Spinning(i, spins);
    assert steps[0] == Load(i) && steps[1..][0] == Slow(i);
    if spins < SPIN_LIMIT {
      LockSleeps(s2, i, spins + 1);
      assert To(s2, i, AtWait(Locking(SPIN_LIMIT))).(word := CONTENDED) == t;
      assert steps[1..][1..] == Spinning(i, spins + 1);
      assert Run(s1, steps[1..], t);
    } else {
      assert s2 == t;
      assert steps[1..][1..] == [];
      assert Run(s1, steps[1..], t);
    }
  }

  /** A failed predicate gives up the lock, wakes everyone, and with nobody in the way comes back holding it. */
  lemma AwaitComesBack(s: State, i: nat) returns (s': State)
    requires Inv(s) && Enabled(s, MarkContended(i))
    ensures Apply(s, MarkContended(i)).word == CONTENDED && Apply(s, MarkContended(i)).holder == s.holder
    ensures Run(s, [MarkContended(i), UnlockToWait(i), NotifyAll(i), Wait(i), TryLock(i)], s')
    ensures i < |s'.threads| && s'.threads[i].Holding? && i !in s'.owing
  {
    var s1 := Apply(s, MarkContended(i));
    var s2 := Apply(s1, UnlockToWait(i));
    var s3 := Apply(s2, NotifyAll(i));
    var s4 := Apply(s3, Wait(i));
    s' := Apply(s4, TryLock(i));
    TwoSteps(s3, Wait(i), TryLock(i));
    assert Run(s2, [NotifyAll(i), Wait(i), TryLock(i)], s');
    assert Run(s1, [UnlockToWait(i), NotifyAll(i), Wait(i), TryLock(i)], s');
  }
}
