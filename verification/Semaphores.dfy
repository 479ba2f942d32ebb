/**
 * The counting semaphore of client-lib/semaphores.c (pthread branch) as interleaved steps of any
 * number of threads: a mutex, a condition variable with waiting and signalled threads, and
 * `value`, which only the thread inside the mutex touches.
 */
module Semaphores {

  type Thread = nat

  /** Who holds the mutex, and the statement it executes next. */
  datatype Inside =
    | Nobody
    | TakeTest(t: Thread)
    | TakeDecrement(t: Thread)
    | GiveIncrement(t: Thread)
    | GiveSignal(t: Thread)
    | Leaving(t: Thread)

  /** `waiting`: blocked in `pthread_cond_wait`; `signalled`: woken, but still without the mutex. */
  datatype Sem = Sem(value: int, inside: Inside, waiting: set<Thread>, signalled: set<Thread>)

  /** `SemaphoreCreate`. */
  function Create(initVal: int): Sem {
    Sem(initVal, Nobody, {}, {})
  }

  datatype Step =
    | EnterTake(t: Thread)
    | Test
    | Resume(t: Thread)
    | Decrement
    | EnterGive(t: Thread)
    | Increment
    | Signal(t: Thread)
    | SignalNobody
    | Unlock
    | Spurious(t: Thread)

  predicate Outside(s: Sem, t: Thread) {
    t !in s.waiting && t !in s.signalled
  }

  predicate Enabled(s: Sem, step: Step) {
    match step
    case EnterTake(t) => s.inside.Nobody? && Outside(s, t)
    case EnterGive(t) => s.inside.Nobody? && Outside(s, t)
    case Resume(t) => s.inside.Nobody? && t in s.signalled
    case Test => s.inside.TakeTest?
    case Decrement => s.inside.TakeDecrement?
    case Increment => s.inside.GiveIncrement?
    case Signal(t) => s.inside.GiveSignal? && t in s.waiting
    case SignalNobody => s.inside.GiveSignal? && s.waiting == {}
    case Unlock => s.inside.Leaving?
    case Spurious(t) => t in s.waiting
  }

  /** One step. The test is an `if`: a thread woken from the wait goes straight to the decrement. */
  function Apply(s: Sem, step: Step): Sem
    requires Enabled(s, step)
  {
    match step
    case EnterTake(t) => s.(inside := TakeTest(t))
    case EnterGive(t) => s.(inside := GiveIncrement(t))
    case Resume(t) => s.(inside := TakeDecrement(t), signalled := s.signalled - {t})
    case Test =>
      if s.value == 0 then s.(inside := Nobody, waiting := s.waiting + {s.inside.t})
      else s.(inside := TakeDecrement(s.inside.t))
    case Decrement => s.(value := s.value - 1, inside := Leaving(s.inside.t))
    case Increment => s.(value := s.value + 1, inside := GiveSignal(s.inside.t))
    case Signal(t) =>
      s.(inside := Leaving(s.inside.t), waiting := s.waiting - {t}, signalled := s.signalled + {t})
    case SignalNobody => s.(inside := Leaving(s.inside.t))
    case Unlock => s.(inside := Nobody)
    case Spurious(t) => s.(waiting := s.waiting - {t}, signalled := s.signalled + {t})
  }

  predicate Possible(s: Sem, steps: seq<Step>)
    decreases |steps|
  {
    steps == [] || (Enabled(s, steps[0]) && Possible(Apply(s, steps[0]), steps[1..]))
  }

  function After(s: Sem, steps: seq<Step>): Sem
    requires Possible(s, steps)
    decreases |steps|
  {
    if steps == [] then s else After(Apply(s, steps[0]), steps[1..])
  }

  function Count(steps: seq<Step>, step: Step): nat {
    if steps == [] then 0 else (if steps[0] == step then 1 else 0) + Count(steps[1..], step)
  }

  // ---- conservation and wakeups, for every run ---------------------------------------------

  /** `value` is its initial value plus the gives minus the completed takes, in every run. */
  lemma {:induction false} Conservation(s: Sem, steps: seq<Step>)
    requires Possible(s, steps)
    ensures After(s, steps).value == s.value + Count(steps, Increment) - Count(steps, Decrement)
    decreases |steps|
  {
    if steps == [] {
    } else {
      Conservation(Apply(s, steps[0]), steps[1..]);
    }
  }

  /** A unit that is already on its way to a waiter, or about to be signalled. */
  function InTransit(s: Sem): nat {
    if s.inside.TakeDecrement? || s.inside.GiveSignal? then 1 else 0
  }

  /** While a thread waits unsignalled, every unit of `value` is spoken for by a woken thread. */
  predicate Awake(s: Sem) {
    && s.waiting !! s.signalled
    && (!s.inside.Nobody? ==> Outside(s, s.inside.t))
    && (s.waiting != {} ==> s.value <= |s.signalled| + InTransit(s))
  }

  lemma AwakeStep(s: Sem, step: Step)
    requires Awake(s) && Enabled(s, step)
    ensures Awake(Apply(s, step))
  {}

  lemma {:induction false} AwakeAfter(s: Sem, steps: seq<Step>)
    requires Awake(s) && Possible(s, steps)
    ensures Awake(After(s, steps))
    decreases |steps|
  {
    if steps == [] {
    } else {
      AwakeStep(s, steps[0]);
      AwakeAfter(Apply(s, steps[0]), steps[1..]);
    }
  }

  /**
   * No wakeup is lost, for any number of threads and any interleaving, spurious wakeups included:
   * whenever the mutex is free and a thread waits unsignalled, `value` is at most the number of
   * signalled threads; so a positive value means that a woken thread is on its way.
   */
  lemma NoLostWakeup(initVal: int, steps: seq<Step>)
    requires Possible(Create(initVal), steps)
    ensures var s := After(Create(initVal), steps);
            s.inside.Nobody? && s.waiting != {} ==>
              s.value <= |s.signalled| && (s.value > 0 ==> s.signalled != {})
  {
    AwakeAfter(Create(initVal), steps);
  }

  // ---- the mutex ---------------------------------------------------------------------------

  /** How many statements the thread inside still has before it, at most. */
  function Rank(inside: Inside): nat {
    match inside
    case Nobody => 0
    case Leaving(_) => 1
    case TakeDecrement(_) => 2
    case GiveSignal(_) => 2
    case TakeTest(_) => 3
    case GiveIncrement(_) => 3
  }

  /** A step of the thread that holds the mutex. */
  predicate OfHolder(step: Step) {
    step.Test? || step.Decrement? || step.Increment? || step.Signal? || step.SignalNobody? || step.Unlock?
  }

  /**
   * Nobody is stuck inside the mutex: in every state its holder has a step, and every step of the
   * holder brings it nearer to the end, where the mutex is free; other threads' steps keep it in.
   */
  lemma HolderGetsOut(s: Sem)
    ensures !s.inside.Nobody? ==> exists step :: OfHolder(step) && Enabled(s, step)
    ensures forall step :: Enabled(s, step) && OfHolder(step) ==>
              Rank(Apply(s, step).inside) < Rank(s.inside)
              && (Apply(s, step).inside.Nobody? || Apply(s, step).inside.t == s.inside.t)
    ensures forall step :: Enabled(s, step) && !OfHolder(step) && !s.inside.Nobody? ==> Apply(s, step).inside == s.inside
  {
    match s.inside {
      case Nobody =>
      case TakeTest(_) => assert Enabled(s, Test);
      case TakeDecrement(_) => assert Enabled(s, Decrement);
      case GiveIncrement(_) => assert Enabled(s, Increment);
      case GiveSignal(_) =>
        if s.waiting == {} {
          assert Enabled(s, SignalNobody);
        } else {
          var t :| t in s.waiting;
          assert Enabled(s, Signal(t));
        }
      case Leaving(_) => assert Enabled(s, Unlock);
    }
  }

  // ---- the bound ---------------------------------------------------------------------------

  /** Every signalled thread, and the one about to decrement, has a unit reserved. */
  predicate Reserved(s: Sem) {
    && s.waiting !! s.signalled
    && s.value >= |s.signalled| + if s.inside.TakeDecrement? then 1 else 0
  }

  /**
   * A run without spurious wakeups in which a taker passes the test only while some unit is not
   * reserved for a signalled thread.
   */
  predicate Admitting(s: Sem, steps: seq<Step>)
    requires Possible(s, steps)
    decreases |steps|
  {
    steps == [] ||
    (!steps[0].Spurious?
     && (steps[0].Test? && s.value != 0 ==> s.value > |s.signalled|)
     && Admitting(Apply(s, steps[0]), steps[1..]))
  }

  lemma ReservedStep(s: Sem, step: Step)
    requires Reserved(s) && Enabled(s, step) && !step.Spurious?
    requires step.Test? && s.value != 0 ==> s.value > |s.signalled|
    requires step.Signal? ==> s.value > |s.signalled|
    ensures Reserved(Apply(s, step))
  {}

  /** Between the increment and the signal there is one unit more than is reserved. */
  predicate Bounded(s: Sem) {
    Reserved(s) && (s.inside.GiveSignal? ==> s.value > |s.signalled|)
  }

  lemma {:induction false} AdmittingKeepsBound(s: Sem, steps: seq<Step>)
    requires Bounded(s) && Possible(s, steps) && Admitting(s, steps)
    ensures Bounded(After(s, steps))
    decreases |steps|
  {
    if steps == [] {
    } else {
      ReservedStep(s, steps[0]);
      AdmittingKeepsBound(Apply(s, steps[0]), steps[1..]);
    }
  }

  /** In the run no spurious wakeup happens, and a taker enters only when nobody is signalled. */
  predicate Handoff(s: Sem, steps: seq<Step>)
    requires Possible(s, steps)
    decreases |steps|
  {
    steps == [] ||
    (!steps[0].Spurious?
     && (steps[0].EnterTake? ==> s.signalled == {})
     && Handoff(Apply(s, steps[0]), steps[1..]))
  }

  lemma {:induction false} HandoffAdmits(s: Sem, steps: seq<Step>)
    requires Bounded(s) && (s.inside.TakeTest? ==> s.signalled == {})
    requires Possible(s, steps) && Handoff(s, steps)
    ensures Admitting(s, steps)
    decreases |steps|
  {
    if steps == [] {
    } else {
      ReservedStep(s, steps[0]);
      HandoffAdmits(Apply(s, steps[0]), steps[1..]);
    }
  }

  /**
   * Started at n, with signalled threads served before new takers and no spurious wakeups, the
   * value never goes below zero, and the takes never exceed the gives by more than n.
   */
  lemma HandoffIsSafe(initVal: nat, steps: seq<Step>)
    requires Possible(Create(initVal), steps) && Handoff(Create(initVal), steps)
    ensures After(Create(initVal), steps).value >= 0
    ensures Count(steps, Decrement) - Count(steps, Increment) <= initVal
  {
    HandoffAdmits(Create(initVal), steps);
    AdmittingKeepsBound(Create(initVal), steps);
    Conservation(Create(initVal), steps);
  }

  // ---- what the missing loop costs ---------------------------------------------------------

  lemma {:induction false} Join(s: Sem, a: seq<Step>, b: seq<Step>)
    requires Possible(s, a) && Possible(After(s, a), b)
    ensures Possible(s, a + b) && After(s, a + b) == After(After(s, a), b)
    decreases |a|
  {
    if a == [] {
      assert a + b == b;
    } else {
      assert (a + b)[0] == a[0] && (a + b)[1..] == a[1..] + b;
      Join(Apply(s, a[0]), a[1..], b);
    }
  }

  lemma Three(s: Sem, x: Step, y: Step, z: Step)
    requires Enabled(s, x) && Enabled(Apply(s, x), y) && Enabled(Apply(Apply(s, x), y), z)
    ensures Possible(s, [x, y, z]) && After(s, [x, y, z]) == Apply(Apply(Apply(s, x), y), z)
  {
    var s1 := Apply(s, x);
    var s2 := Apply(s1, y);
    assert [x, y, z][1..] == [y, z] && [y, z][1..] == [z] && [z][1..] == [];
    assert Possible(Apply(s2, z), []);
    assert Possible(s2, [z]) && After(s2, [z]) == After(Apply(s2, z), []) == Apply(s2, z);
    assert Possible(s1, [y, z]) && After(s1, [y, z]) == After(s2, [z]);
  }

  /**
   * A take that nobody disturbs: at zero the thread waits, at any other value, a negative one
   * included, it takes a unit and leaves. A give adds a unit, and wakes one waiter if there is one.
   */
  lemma {:induction false} Undisturbed(s: Sem, t: Thread)
    requires s.inside.Nobody? && Outside(s, t)
    ensures s.value == 0 ==>
              Possible(s, [EnterTake(t), Test]) && After(s, [EnterTake(t), Test]) == s.(waiting := s.waiting + {t})
    ensures s.value != 0 ==>
              var take := [EnterTake(t)] + [Test, Decrement, Unlock];
              Possible(s, take) && After(s, take) == s.(value := s.value - 1)
    ensures s.waiting == {} ==>
              var give := [EnterGive(t)] + [Increment, SignalNobody, Unlock];
              Possible(s, give) && After(s, give) == s.(value := s.value + 1)
    ensures forall w :: w in s.waiting ==>
              var give := [EnterGive(t)] + [Increment, Signal(w), Unlock];
              Possible(s, give) && After(s, give) ==
                s.(value := s.value + 1, waiting := s.waiting - {w}, signalled := s.signalled + {w})
  {
    var s1, s2 := Apply(s, EnterTake(t)), Apply(s, EnterGive(t));
    if s.value == 0 {
      Two(s, EnterTake(t), Test);
    } else {
      Three(s1, Test, Decrement, Unlock);
      First(s, EnterTake(t), [Test, Decrement, Unlock]);
    }
    if s.waiting == {} {
      Three(s2, Increment, SignalNobody, Unlock);
      First(s, EnterGive(t), [Increment, SignalNobody, Unlock]);
    }
    forall w | w in s.waiting
      ensures var give := [EnterGive(t)] + [Increment, Signal(w), Unlock];
              Possible(s, give) && After(s, give) ==
                s.(value := s.value + 1, waiting := s.waiting - {w}, signalled := s.signalled + {w})
    {
      Three(s2, Increment, Signal(w), Unlock);
      First(s, EnterGive(t), [Increment, Signal(w), Unlock]);
    }
  }

  lemma {:induction false} First(s: Sem, x: Step, rest: seq<Step>)
    requires Enabled(s, x) && Possible(Apply(s, x), rest)
    ensures Possible(s, [x] + rest) && After(s, [x] + rest) == After(Apply(s, x), rest)
  {
    assert ([x] + rest)[1..] == rest;
  }

  lemma {:induction false} Two(s: Sem, x: Step, y: Step)
    requires Enabled(s, x) && Enabled(Apply(s, x), y)
    ensures Possible(s, [x, y]) && After(s, [x, y]) == Apply(Apply(s, x), y)
  {
    var s1 := Apply(s, x);
    assert [x, y][1..] == [y] && [y][1..] == [];
    assert Possible(Apply(s1, y), []);
    assert Possible(s1, [y]) && After(s1, [y]) == After(Apply(s1, y), []) == Apply(s1, y);
  }

  /** Whatever the value, each signalled thread can resume and decrement it. */
  lemma {:induction false} DrainSignalled(s: Sem) returns (steps: seq<Step>)
    requires s.inside.Nobody?
    ensures Possible(s, steps) && forall i :: 0 <= i < |steps| ==> !steps[i].Spurious? && !steps[i].Test?
    ensures After(s, steps) == s.(value := s.value - |s.signalled|, signalled := {})
    decreases |s.signalled|
  {
    if s.signalled == {} {
      steps := [];
    } else {
      var t :| t in s.signalled;
      Three(s, Resume(t), Decrement, Unlock);
      var s1 := s.(value := s.value - 1, signalled := s.signalled - {t});
      var rest := DrainSignalled(s1);
      Join(s, [Resume(t), Decrement, Unlock], rest);
      steps := [Resume(t), Decrement, Unlock] + rest;
    }
  }

  /** Without tests and spurious wakeups a run admits nobody. */
  lemma {:induction false} NoTestAdmits(s: Sem, steps: seq<Step>)
    requires Possible(s, steps) && forall i :: 0 <= i < |steps| ==> !steps[i].Spurious? && !steps[i].Test?
    ensures Admitting(s, steps)
    decreases |steps|
  {
    if steps == [] {
    } else {
      NoTestAdmits(Apply(s, steps[0]), steps[1..]);
    }
  }

  /** A taker that has passed the test decrements and leaves; then the signalled threads resume. */
  lemma TakeThenDrain(s: Sem, t: Thread) returns (steps: seq<Step>)
    requires s.inside == TakeDecrement(t)
    ensures Possible(s, steps) && forall i :: 0 <= i < |steps| ==> !steps[i].Spurious? && !steps[i].Test?
    ensures After(s, steps).value == s.value - 1 - |s.signalled|
  {
    var s1 := Apply(s, Decrement);
    var s2 := Apply(s1, Unlock);
    var rest := DrainSignalled(s2);
    assert ([Unlock] + rest)[1..] == rest;
    assert Possible(s1, [Unlock] + rest) && After(s1, [Unlock] + rest) == After(s2, rest);
    steps := [Decrement] + ([Unlock] + rest);
    assert steps[1..] == [Unlock] + rest;
  }

  /**
   * The exact condition for letting one more taker in. With the mutex free and a unit reserved
   * for every signalled thread, the taker tests; from there on every run that admits properly
   * keeps the value at zero or above if and only if the value was zero (the taker waits) or
   * exceeded the number of signalled threads.
   */
  lemma AdmissionIsExact(s: Sem, t: Thread)
    requires s.inside.Nobody? && Reserved(s) && Outside(s, t)
    ensures var s1 := Apply(Apply(s, EnterTake(t)), Test);
            (forall steps :: Possible(s1, steps) && Admitting(s1, steps) ==> After(s1, steps).value >= 0)
            <==> s.value == 0 || s.value > |s.signalled|
  {
    var s1 := Apply(Apply(s, EnterTake(t)), Test);
    if s.value == 0 || s.value > |s.signalled| {
      forall steps | Possible(s1, steps) && Admitting(s1, steps)
        ensures After(s1, steps).value >= 0
      {
        AdmittingKeepsBound(s1, steps);
      }
    } else {
      var steps := TakeThenDrain(s1, t);
      NoTestAdmits(s1, steps);
      assert After(s1, steps).value < 0;
    }
  }

  /**
   * Whenever a taker is let in although every unit is reserved, some run without a spurious
   * wakeup ends with a negative value: the woken threads do not test again.
   */
  lemma BargingGoesNegative(s: Sem, t: Thread) returns (steps: seq<Step>)
    requires s.inside.Nobody? && Outside(s, t)
    requires 0 < s.value <= |s.signalled|
    ensures Possible(s, steps) && forall i :: 0 <= i < |steps| ==> !steps[i].Spurious?
    ensures steps != [] && steps[0] == EnterTake(t)
    ensures After(s, steps).value == s.value - 1 - |s.signalled| < 0
  {
    var s1 := Apply(s, EnterTake(t));
    var s2 := Apply(s1, Test);
    var rest := TakeThenDrain(s2, t);
    assert ([Test] + rest)[1..] == rest;
    assert Possible(s1, [Test] + rest) && After(s1, [Test] + rest) == After(s2, rest);
    steps := [EnterTake(t)] + ([Test] + rest);
    assert steps[1..] == [Test] + rest;
  }

  /** Three threads and a semaphore at zero: a taker waits, a giver wakes it, another taker is first. */
  lemma ThreeThreadsReachMinusOne() returns (steps: seq<Step>)
    ensures Possible(Create(0), steps) && forall i :: 0 <= i < |steps| ==> !steps[i].Spurious?
    ensures After(Create(0), steps).value == -1
  {
    var s0 := Create(0);
    var s1 := Sem(0, GiveIncrement(2), {1}, {});
    Three(s0, EnterTake(1), Test, EnterGive(2));
    Three(s1, Increment, Signal(1), Unlock);
    var s2 := Sem(1, Nobody, {}, {1});
    var rest := BargingGoesNegative(s2, 3);
    Join(s1, [Increment, Signal(1), Unlock], rest);
    Join(s0, [EnterTake(1), Test, EnterGive(2)], [Increment, Signal(1), Unlock] + rest);
    steps := [EnterTake(1), Test, EnterGive(2)] + ([Increment, Signal(1), Unlock] + rest);
  }
}
