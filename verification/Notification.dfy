/**
 * base/notification.cc as a step relation over any number of waiters (timed or not) and notifiers. FUTEX_WAIT sleeps
 * only if the word holds the expected value at that moment; FUTEX_WAKE wakes every sleeper.
 */
module Notifications {
  const UNNOTIFIED := 0
  const NOTIFIED := 1
  const WAITING := 2

  datatype Pc =
    | Outside
    | AtNotify                               // before the exchange
    | OwesWake                               // exchanged kWaiting for kNotified, has not issued the wake yet
    | AtLoad(timed: bool)                    // before the first load
    | AtCas(timed: bool)                     // loaded kUnnotified, before the compare-exchange
    | AtLoop(timed: bool)                    // before the load that guards the futex call
    | AtFutex(timed: bool)                   // loaded kWaiting
    | Asleep(timed: bool)
    | AtFinalLoad                            // timed wait over, before the last look at the word
    | Done(notified: bool)                   // returned from a wait, reporting this

  datatype State = State(word: int, threads: seq<Pc>, owing: set<nat>)

  datatype Step =
    | CallNotify(i: nat)
    | Exchange(i: nat)
    | WakeAll(i: nat)
    | CallWait(i: nat, timed: bool)
    | Load(i: nat)
    | CompareExchange(i: nat)
    | LoopLoad(i: nat)
    | FutexWait(i: nat)
    | Interrupted(i: nat)
    | TimeOut(i: nat)
    | FinalLoad(i: nat)
    | Leave(i: nat)

  predicate Enabled(s: State, step: Step) {
    step.i < |s.threads| &&
    var pc := s.threads[step.i];
    match step
    case CallNotify(_) => pc.Outside?
    case Exchange(_) => pc.AtNotify?
    case WakeAll(_) => pc.OwesWake?
    case CallWait(_, _) => pc.Outside?
    case Load(_) => pc.AtLoad?
    case CompareExchange(_) => pc.AtCas?
    case LoopLoad(_) => pc.AtLoop?
    case FutexWait(_) => pc.AtFutex?
    case Interrupted(_) => pc.Asleep?
    case TimeOut(_) => (pc.Asleep? || pc.AtFutex?) && pc.timed
    case FinalLoad(_) => pc.AtFinalLoad?
    case Leave(_) => pc.Done?
  }

  function To(s: State, i: nat, pc: Pc): State
    requires i < |s.threads|
  {
    s.(threads := s.threads[i := pc])
  }

  /** A woken timed waiter stops looping; an untimed one looks at the word again. */
  function Woken(pc: Pc): Pc {
    match pc
    case Asleep(timed) => if timed then AtFinalLoad else AtLoop(false)
    case _ => pc
  }

  function Apply(s: State, step: Step): State
    requires Enabled(s, step)
  {
    var i, pc := step.i, s.threads[step.i];
    match step
    case CallNotify(_) => To(s, i, AtNotify)
    case Exchange(_) =>
      if s.word == WAITING then To(s, i, OwesWake).(word := NOTIFIED, owing := s.owing + {i})
      else To(s, i, Outside).(word := NOTIFIED)
    case WakeAll(_) =>
      var awake := seq(|s.threads|, j requires 0 <= j < |s.threads| => Woken(s.threads[j]));
      To(s.(threads := awake), i, Outside).(owing := s.owing - {i})
    case CallWait(_, timed) => To(s, i, AtLoad(timed))
    case Load(_) =>
      To(s, i, if s.word == NOTIFIED then Done(true)
               else if s.word == UNNOTIFIED then AtCas(pc.timed) else AtLoop(pc.timed))
    case CompareExchange(_) =>
      if s.word == UNNOTIFIED then To(s, i, AtLoop(pc.timed)).(word := WAITING)
      else To(s, i, if s.word == NOTIFIED then Done(true) else AtLoop(pc.timed))
    case LoopLoad(_) =>
      To(s, i, if s.word == WAITING then AtFutex(pc.timed) else if pc.timed then AtFinalLoad else Done(true))
    case FutexWait(_) => To(s, i, if s.word == WAITING then Asleep(pc.timed) else AtLoop(pc.timed))
    case Interrupted(_) => To(s, i, AtLoop(pc.timed))
    case TimeOut(_) => To(s, i, AtFinalLoad)
    case FinalLoad(_) => To(s, i, Done(s.word == NOTIFIED))
    case Leave(_) => To(s, i, Outside)
  }

  ghost predicate Initial(s: State) {
    s.word == UNNOTIFIED && s.owing == {} && forall i :: 0 <= i < |s.threads| ==> s.threads[i].Outside?
  }

  ghost predicate ThreadOk(s: State, i: nat)
    requires i < |s.threads|
  {
    var pc := s.threads[i];
    && (pc.OwesWake? <==> i in s.owing)
    && (pc.AtLoop? || pc.AtFutex? || pc.Asleep? || pc.AtFinalLoad? ==> s.word != UNNOTIFIED)
    && (pc.Asleep? ==> s.word == WAITING || s.owing != {})
    && (pc.Done? && pc.notified ==> s.word == NOTIFIED)
  }

  ghost predicate Inv(s: State) {
    && UNNOTIFIED <= s.word <= WAITING
    && (s.word != NOTIFIED ==> s.owing == {})
    && (forall i, j :: i in s.owing && j in s.owing ==> i == j)
    && (forall i :: i in s.owing ==> 0 <= i < |s.threads|)
    && forall i :: 0 <= i < |s.threads| ==> ThreadOk(s, i)
  }

  lemma Preserved(s: State, step: Step)
    requires Inv(s) && Enabled(s, step)
    ensures Inv(Apply(s, step))
  {
    var next := Apply(s, step);
    assert ThreadOk(s, step.i);
    forall j | 0 <= j < |next.threads| ensures ThreadOk(next, j) {
      assert ThreadOk(s, j);
      assert step.i in s.owing + {step.i};
    }
  }

  ghost predicate Run(s: State, steps: seq<Step>, s': State)
    decreases |steps|
  {
    if steps == [] then s' == s else Enabled(s, steps[0]) && Run(Apply(s, steps[0]), steps[1..], s')
  }

  lemma {:induction false} RunKeepsInv(s: State, steps: seq<Step>, s': State)
    requires Inv(s) && Run(s, steps, s')
    ensures Inv(s')
    ensures s.word == NOTIFIED ==> s'.word == NOTIFIED
    decreases |steps|
  {
    hide Inv;
    if steps != [] {
      Preserved(s, steps[0]);
      RunKeepsInv(Apply(s, steps[0]), steps[1..], s');
    }
  }

  /** Once notified, always notified; and a wait reports a notification only after there was one. */
  lemma ReturnsOnlyNotified(init: State, before: seq<Step>, s: State, after: seq<Step>, s': State)
    requires Initial(init) && Run(init, before, s) && Run(s, after, s')
    ensures forall i :: 0 <= i < |s.threads| && s.threads[i] == Done(true) ==> s'.word == NOTIFIED
  {
    assert Inv(init);
    RunKeepsInv(init, before, s);
    RunKeepsInv(s, after, s');
    forall i | 0 <= i < |s.threads| && s.threads[i] == Done(true) ensures s.word == NOTIFIED {
      assert ThreadOk(s, i);
    }
  }

  /** An untimed wait never reports failure: it returns only through a notification. */
  lemma {:induction false} UntimedReturns(s: State, step: Step)
    requires Inv(s) && Enabled(s, step)
    requires var pc := s.threads[step.i];
             (pc.AtLoad? || pc.AtCas? || pc.AtLoop? || pc.AtFutex? || pc.Asleep?) && !pc.timed
    ensures var pc := Apply(s, step).threads[step.i];
            (pc.Done? ==> pc.notified && s.word == NOTIFIED) && !pc.AtFinalLoad?
  {
    assert ThreadOk(s, step.i);
  }

  /** No lost wake-up: a sleeper implies the word still says waiting, or the one notifier that saw it owes its wake. */
  lemma NoLostWakeup(init: State, steps: seq<Step>, s: State, i: nat)
    requires Initial(init) && Run(init, steps, s)
    requires i < |s.threads| && s.threads[i].Asleep?
    ensures s.word == WAITING
         || (s.word == NOTIFIED && exists j :: 0 <= j < |s.threads| && s.threads[j].OwesWake?)
    ensures forall j, k :: 0 <= j < k < |s.threads| ==> !(s.threads[j].OwesWake? && s.threads[k].OwesWake?)
  {
    assert Inv(init);
    RunKeepsInv(init, steps, s);
    assert ThreadOk(s, i);
    if s.word != WAITING {
      var j :| j in s.owing;
      assert ThreadOk(s, j);
    }
    forall j, k | 0 <= j < k < |s.threads| ensures !(s.threads[j].OwesWake? && s.threads[k].OwesWake?) {
      assert ThreadOk(s, j) && ThreadOk(s, k);
    }
  }

  /** Notify on a word that says waiting owes a wake, and paying it leaves nobody asleep, now or later. */
  lemma {:induction false} NobodySleepsAfterwards(s: State, steps: seq<Step>, s': State)
    requires Inv(s) && s.word == NOTIFIED && s.owing == {}
    requires Run(s, steps, s')
    ensures forall i :: 0 <= i < |s'.threads| ==> !s'.threads[i].Asleep?
    decreases |steps|
  {
    if steps == [] {
      forall i | 0 <= i < |s.threads| ensures !s.threads[i].Asleep? {
        assert ThreadOk(s, i);
      }
    } else {
      assert ThreadOk(s, steps[0].i);
      Preserved(s, steps[0]);
      NobodySleepsAfterwards(Apply(s, steps[0]), steps[1..], s');
    }
  }

  // ---- What each operation brings about ----

  /** Notify sets the word; if anyone waits it owes a wake, which leaves nobody asleep; if not, nobody is asleep. */
  lemma NotifyTakesEffect(s: State, i: nat)
    requires Inv(s) && Enabled(s, Exchange(i))
    ensures var next := Apply(s, Exchange(i));
      && next.word == NOTIFIED
      && (forall j :: 0 <= j < |s.threads| && j != i ==> next.threads[j] == s.threads[j])
      && if s.word == WAITING then
           && Enabled(next, WakeAll(i))
           && var woken := Apply(next, WakeAll(i));
              woken.word == NOTIFIED && woken.threads[i].Outside? && forall j :: 0 <= j < |s.threads| ==> !woken.threads[j].Asleep?
         else next.threads[i].Outside? && next.owing == s.owing
  {
  }

  /** On every run a notification lasts, and once no wake is owed for it nobody is asleep. */
  lemma OnceNotified(init: State, before: seq<Step>, s: State, i: nat, after: seq<Step>, s': State)
    requires Initial(init) && Run(init, before, s) && Enabled(s, Exchange(i)) && Run(Apply(s, Exchange(i)), after, s')
    ensures s'.word == NOTIFIED
    ensures (forall j :: 0 <= j < |s'.threads| ==> !s'.threads[j].OwesWake?) ==>
              forall j :: 0 <= j < |s'.threads| ==> !s'.threads[j].Asleep?
  {
    assert Inv(init);
    RunKeepsInv(init, before, s);
    NotifyTakesEffect(s, i);
    Preserved(s, Exchange(i));
    RunKeepsInv(Apply(s, Exchange(i)), after, s');
    if forall j :: 0 <= j < |s'.threads| ==> !s'.threads[j].OwesWake? {
      forall k: nat | k < |s'.threads| ensures k !in s'.owing {
        assert ThreadOk(s', k);
      }
      assert s'.owing == {};
      forall j | 0 <= j < |s'.threads| ensures !s'.threads[j].Asleep? {
        assert ThreadOk(s', j);
      }
    }
  }

  /** The steps of one thread that wakes up, or calls, on a notified word. */
  function Returning(pc: Pc, i: nat): seq<Step> {
    match pc
    case AtLoad(_) => [Load(i)]
    case AtCas(_) => [CompareExchange(i)]
    case AtLoop(timed) => if timed then [LoopLoad(i), FinalLoad(i)] else [LoopLoad(i)]
    case AtFutex(timed) => [FutexWait(i)] + if timed then [LoopLoad(i), FinalLoad(i)] else [LoopLoad(i)]
    case AtFinalLoad => [FinalLoad(i)]
    case _ => []
  }

  predicate InWait(pc: Pc) {
    pc.AtLoad? || pc.AtCas? || pc.AtLoop? || pc.AtFutex? || pc.AtFinalLoad?
  }

  /** Every waiter that is awake on a notified word returns true by its own steps alone, without sleeping again. */
  lemma NotifiedWaitReturns(s: State, i: nat)
    requires i < |s.threads| && s.word == NOTIFIED && InWait(s.threads[i])
    ensures Run(s, Returning(s.threads[i], i), To(s, i, Done(true)))
  {
    var pc := s.threads[i];
    match pc
    case AtLoad(_) => OneStep(s, Load(i));
    case AtCas(_) => OneStep(s, CompareExchange(i));
    case AtFinalLoad => OneStep(s, FinalLoad(i));
    case AtLoop(timed) => LoopReturns(s, i, timed);
    case AtFutex(timed) =>
      var t := Apply(s, FutexWait(i));
      LoopReturns(t, i, timed);
      assert To(t, i, Done(true)) == To(s, i, Done(true));
      var steps := Returning(pc, i);
      assert steps[1..] == Returning(t.threads[i], i);
  }

  lemma LoopReturns(s: State, i: nat, timed: bool)
    requires i < |s.threads| && s.word == NOTIFIED && s.threads[i] == AtLoop(timed)
    ensures Run(s, Returning(AtLoop(timed), i), To(s, i, Done(true)))
  {
    if timed {
      var t := Apply(s, LoopLoad(i));
      OneStep(t, FinalLoad(i));
      assert To(t, i, Done(true)) == To(s, i, Done(true));
      assert [LoopLoad(i), FinalLoad(i)][1..] == [FinalLoad(i)];
    } else {
      OneStep(s, LoopLoad(i));
    }
  }

  lemma OneStep(s: State, step: Step)
    requires Enabled(s, step)
    ensures Run(s, [step], Apply(s, step))
  {
    assert Run(Apply(s, step), [], Apply(s, step));
    assert [step][1..] == [];
  }

  /** A wake puts every sleeper where NotifiedWaitReturns finds it, and moves nobody else. */
  lemma WakeMovesSleepers(s: State, i: nat, j: nat)
    requires Enabled(s, WakeAll(i)) && j < |s.threads| && j != i
    ensures var pc := Apply(s, WakeAll(i)).threads[j];
      if s.threads[j].Asleep? then InWait(pc) else pc == s.threads[j]
  {
  }

  /** A wait on a word nobody notified announces itself in the word before it sleeps; and it does sleep. */
  lemma WaitSleeps(s: State, i: nat, timed: bool)
    requires i < |s.threads| && s.word == UNNOTIFIED && s.threads[i].Outside?
    ensures Run(s, [CallWait(i, timed), Load(i), CompareExchange(i), LoopLoad(i), FutexWait(i)],
                To(s, i, Asleep(timed)).(word := WAITING))
  {
    var s1 := Apply(s, CallWait(i, timed));
    var s2 := Apply(s1, Load(i));
    var s3 := Apply(s2, CompareExchange(i));
    var s4 := Apply(s3, LoopLoad(i));
    var s5 := Apply(s4, FutexWait(i));
    OneStep(s4, FutexWait(i));
    assert Run(s3, [LoopLoad(i), FutexWait(i)], s5);
    assert Run(s2, [CompareExchange(i), LoopLoad(i), FutexWait(i)], s5);
    assert Run(s1, [Load(i), CompareExchange(i), LoopLoad(i), FutexWait(i)], s5);
    assert s5 == To(s, i, Asleep(timed)).(word := WAITING);
  }

  /** A timed wait's last look decides its result: it reports a notification exactly when there has been one. */
  lemma LastLookDecides(s: State, i: nat)
    requires Enabled(s, FinalLoad(i))
    ensures Apply(s, FinalLoad(i)) == To(s, i, Done(s.word == NOTIFIED))
    ensures Apply(s, FinalLoad(i)).threads[i] == Done(true) <==> s.word == NOTIFIED
  {
  }
}
