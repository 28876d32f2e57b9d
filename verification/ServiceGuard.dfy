// The reference-counted service guard (service_guard.h) under any interleaving of any number of
// threads that initialise and exit the service.

module ServiceGuard {
  import opened Bytes

  const COUNT_LIMIT: nat := 0x1_0000_0000 // refCount is a u32

  // What happens to the guarded service.
  datatype Event = Attempt(ok: bool) | Cleanup

  // What the thread that holds the mutex is about to do.
  datatype Phase = Begun(first: bool) | Tried(failed: bool) | Leaving

  datatype Mutex = Free | Held(owner: nat, phase: Phase)

  datatype State = State(mutex: Mutex, refCount: nat, log: seq<Event>)

  const START := State(Free, 0, [])

  // A step of one thread; a thread that finds the mutex taken has none.
  datatype Step =
    | BeginInit(thread: nat)             // serviceGuardBeginInit
    | Initialise(thread: nat, ok: bool)  // the service's own initialisation, for the first user only
    | EndInit(thread: nat)               // serviceGuardEndInit
    | BeginExit(thread: nat)             // mutexLock in serviceGuardExit
    | EndExit(thread: nat)               // the rest of serviceGuardExit

  function Decrement(n: nat): nat { if n == 0 then COUNT_LIMIT - 1 else n - 1 }

  function Apply(s: State, step: Step): Option<State> {
    match step
    case BeginInit(t) =>
      if !s.mutex.Free? then None
      else Some(State(Held(t, Begun(s.refCount == 0)), (s.refCount + 1) % COUNT_LIMIT, s.log))
    case Initialise(t, ok) =>
      if s.mutex != Held(t, Begun(true)) then None
      else Some(s.(mutex := Held(t, Tried(!ok)), log := s.log + [Attempt(ok)]))
    case EndInit(t) =>
      if s.mutex == Held(t, Begun(false)) || s.mutex == Held(t, Tried(false)) then Some(s.(mutex := Free))
      else if s.mutex == Held(t, Tried(true)) then Some(State(Free, Decrement(s.refCount), s.log + [Cleanup]))
      else None
    case BeginExit(t) =>
      if !s.mutex.Free? then None else Some(s.(mutex := Held(t, Leaving)))
    case EndExit(t) =>
      if s.mutex != Held(t, Leaving) then None
      else if s.refCount == 0 then Some(s.(mutex := Free))
      else if s.refCount == 1 then Some(State(Free, 0, s.log + [Cleanup]))
      else Some(s.(mutex := Free, refCount := s.refCount - 1))
  }

  // The guard as the source has it: one object, updated in place.
  class Guard {
    var mutex: Mutex
    var refCount: nat
    ghost var log: seq<Event>

    constructor ()
      ensures Now() == START
    {
      mutex, refCount, log := Free, 0, [];
    }

    ghost function Now(): State
      reads this
    {
      State(mutex, refCount, log)
    }

    method BeginInitBy(thread: nat) returns (first: bool)
      requires mutex.Free?
      modifies this
      ensures Apply(old(Now()), BeginInit(thread)) == Some(Now()) && first == (old(refCount) == 0)
    {
      first := refCount == 0;
      refCount := (refCount + 1) % COUNT_LIMIT;
      mutex := Held(thread, Begun(first));
    }

    // `failed` is the result of the initialisation, or false if there was none.
    method EndInitBy(thread: nat, failed: bool)
      requires mutex == Held(thread, Tried(failed)) || (mutex == Held(thread, Begun(false)) && !failed)
      modifies this
      ensures Apply(old(Now()), EndInit(thread)) == Some(Now())
    {
      if failed {
        log := log + [Cleanup];
        refCount := if refCount == 0 then COUNT_LIMIT - 1 else refCount - 1;
      }
      mutex := Free;
    }

    method ExitBy(thread: nat)
      requires mutex.Free?
      modifies this
      ensures var mid := Apply(old(Now()), BeginExit(thread));
              mid.Some? && Apply(mid.value, EndExit(thread)) == Some(Now())
    {
      if refCount != 0 {
        refCount := refCount - 1;
        if refCount == 0 { log := log + [Cleanup]; }
      }
    }
  }

  function Run(s: State, steps: seq<Step>): Option<State> {
    if steps == [] then Some(s)
    else
      match Run(s, steps[..|steps| - 1])
      case None => None
      case Some(t) => Apply(t, steps[|steps| - 1])
  }

  // No initialisation begins while the counter is at its maximum.
  ghost predicate NoOverflow(steps: seq<Step>) {
    steps != [] ==>
      var init := steps[..|steps| - 1];
      && NoOverflow(init)
      && (steps[|steps| - 1].BeginInit? && Run(START, init).Some? ==> Run(START, init).value.refCount + 1 < COUNT_LIMIT)
  }

  // Attempts and cleanups take turns, so that every attempt is followed by exactly one cleanup
  // before the next attempt.
  ghost predicate Alternates(log: seq<Event>) {
    forall i :: 0 <= i < |log| ==> (log[i].Attempt? <==> i % 2 == 0)
  }

  // The service is live after a successful attempt that has not been cleaned up.
  predicate Live(log: seq<Event>) { log != [] && log[|log| - 1] == Attempt(true) }

  predicate Clean(log: seq<Event>) { log == [] || log[|log| - 1].Cleanup? }

  ghost predicate Inv(s: State) {
    && Alternates(s.log) && s.refCount < COUNT_LIMIT
    && match s.mutex
       case Held(_, Begun(true)) => s.refCount == 1 && Clean(s.log)
       case Held(_, Tried(failed)) => s.refCount == 1 && s.log != [] && s.log[|s.log| - 1] == Attempt(!failed)
       case Held(_, Begun(false)) => s.refCount > 1 && Live(s.log)
       case _ => if s.refCount > 0 then Live(s.log) else Clean(s.log)
  }

  lemma LogGrows(log: seq<Event>, e: Event)
    requires Alternates(log) && (if e.Attempt? then Clean(log) else !Clean(log))
    ensures Alternates(log + [e])
  {
    if log != [] { assert log[|log| - 1].Attempt? <==> (|log| - 1) % 2 == 0; }
  }

  // Every step keeps the invariant, an initialisation exactly when the counter does not overflow.
  lemma StepInv(s: State, step: Step)
    requires Inv(s) && Apply(s, step).Some?
    ensures Inv(Apply(s, step).value) <==> !(step.BeginInit? && s.refCount + 1 == 0x1_0000_0000)
  {
    match step
    case Initialise(_, ok) => LogGrows(s.log, Attempt(ok));
    case EndInit(_) => if s.mutex.phase == Tried(true) { LogGrows(s.log, Cleanup); }
    case EndExit(_) => if s.refCount == 1 { LogGrows(s.log, Cleanup); }
    case _ =>
  }

  // In every run of any threads, when the mutex is free, the service is live exactly when the
  // counter is positive, and attempts and cleanups have taken turns.
  lemma {:induction false} EveryRunIsGuarded(steps: seq<Step>)
    requires Run(START, steps).Some? && NoOverflow(steps)
    ensures var s := Run(START, steps).value;
            && Inv(s) && Alternates(s.log)
            && (s.mutex.Free? ==> (Live(s.log) <==> s.refCount > 0))
            && (s.mutex.Free? && s.refCount == 0 ==> Clean(s.log))
    decreases |steps|
  {
    if steps != [] {
      var n := |steps| - 1;
      EveryRunIsGuarded(steps[..n]);
      StepInv(Run(START, steps[..n]).value, steps[n]);
    }
  }

  // Surplus exits change nothing.
  lemma SurplusExit(s: State, t: nat)
    requires s.mutex.Free? && s.refCount == 0
    ensures var mid := Apply(s, BeginExit(t)); mid.Some? && Apply(mid.value, EndExit(t)) == Some(s)
  {
  }

  // How a step changes the number of users: a successful initialisation adds one, and an exit that
  // meets a live service takes one off.
  function Change(s: State, step: Step): int {
    match step
    case EndInit(_) => if s.mutex.Held? && s.mutex.phase == Tried(true) then 0 else 1
    case EndExit(_) => if s.refCount > 0 then -1 else 0
    case _ => 0
  }

  function Users(steps: seq<Step>): int {
    if steps == [] then 0
    else
      var init := steps[..|steps| - 1];
      Users(init) + match Run(START, init) case None => 0 case Some(s) => Change(s, steps[|steps| - 1])
  }

  // The counter, without the thread that is initialising, which is counted in advance.
  function Counted(s: State): int {
    s.refCount - if s.mutex.Held? && !s.mutex.phase.Leaving? then 1 else 0
  }

  lemma CountStep(s: State, step: Step)
    requires Inv(s) && Apply(s, step).Some? && !(step.BeginInit? && s.refCount + 1 == COUNT_LIMIT)
    ensures Counted(Apply(s, step).value) == Counted(s) + Change(s, step)
  {
  }

  // The counter counts the users.
  lemma {:induction false} CountsUsers(steps: seq<Step>)
    requires Run(START, steps).Some? && NoOverflow(steps)
    ensures Counted(Run(START, steps).value) == Users(steps)
    decreases |steps|
  {
    if steps != [] {
      var n := |steps| - 1;
      CountsUsers(steps[..n]);
      EveryRunIsGuarded(steps[..n]);
      CountStep(Run(START, steps[..n]).value, steps[n]);
    }
  }
}
