/** The counting semaphore built from a mutex and a condition variable, driven by any number of
    threads. Waiters may wake without being signalled, and a thread that has just arrived may
    take what a signalled one was woken for. */
module Semaphore {
  import opened Options

  const MAX := 32767

  type Thread = nat

  datatype Pc =
    | Idle
    // repsem_post, holding the mutex
    | PostTest | PostSignal | PostUnlock
    // repsem_wait, holding the mutex
    | WaitTest | WaitTake | WaitUnlock
    // repsem_wait, inside pthread_cond_wait without the mutex
    | Sleeping | Signalled
    // repsem_trywait, holding the mutex
    | TryTest | TryTake | TryUnlock | TryFail

  datatype Sem = Sem(
    value: int,
    mutex: Option<Thread>,
    pcs: map<Thread, Pc>)

  datatype Action =
    | Post(t: Thread)
    | Wait(t: Thread)
    | TryWait(t: Thread)
    // a step of the call t is in, other than waking up
    | Step(t: Thread)
    // pthread_cond_signal by t reaches who
    | Signal(t: Thread, who: set<Thread>)
    // a signalled waiter gets the mutex back
    | Resume(t: Thread)
    // a waiter gets the mutex back without a signal
    | Spurious(t: Thread)

  /** repsem_init: None when it refuses. */
  function Create(value: int, pshared: bool): Option<Sem> {
    if value > MAX || pshared then None else Some(Sem(value, None, map[]))
  }

  function PcOf(s: Sem, t: Thread): Pc {
    if t in s.pcs then s.pcs[t] else Idle
  }

  function At(s: Sem, pc: Pc): set<Thread> {
    set t | t in s.pcs && s.pcs[t] == pc
  }

  predicate Inside(pc: Pc) {
    !pc.Idle? && !pc.Sleeping? && !pc.Signalled?
  }

  predicate Enabled(s: Sem, a: Action) {
    match a
    case Post(t) => PcOf(s, t).Idle? && s.mutex.None?
    case Wait(t) => PcOf(s, t).Idle? && s.mutex.None?
    case TryWait(t) => PcOf(s, t).Idle? && s.mutex.None?
    case Step(t) => Inside(PcOf(s, t)) && !PcOf(s, t).PostSignal?
    case Signal(t, who) =>
      PcOf(s, t).PostSignal? && who <= At(s, Sleeping) && (who == {} ==> At(s, Sleeping) == {})
    case Resume(t) => PcOf(s, t).Signalled? && s.mutex.None?
    case Spurious(t) => PcOf(s, t).Sleeping? && s.mutex.None?
  }

  function Go(s: Sem, t: Thread, pc: Pc): Sem {
    s.(pcs := s.pcs[t := pc])
  }

  /** Take the mutex and go on at pc. */
  function Lock(s: Sem, t: Thread, pc: Pc): Sem {
    Go(s.(mutex := Some(t)), t, pc)
  }

  function Unlock(s: Sem, t: Thread, pc: Pc): Sem {
    Go(s.(mutex := None), t, pc)
  }

  function Apply(s: Sem, a: Action): Sem
    requires Enabled(s, a)
  {
    match a
    case Post(t) => Lock(s, t, PostTest)
    case Wait(t) => Lock(s, t, WaitTest)
    case TryWait(t) => Lock(s, t, TryTest)
    case Resume(t) => Lock(s, t, WaitTest)
    case Spurious(t) => Lock(s, t, WaitTest)
    case Signal(t, who) =>
      s.(pcs := map u | u in s.pcs :: if u in who then Signalled else if u == t then PostUnlock else s.pcs[u])
    case Step(t) =>
      match PcOf(s, t)
      case PostTest =>
        // at the maximum the call returns at once, mutex and all
        if s.value == MAX then Go(s, t, Idle)
        else Go(s.(value := s.value + 1), t, PostSignal)
      case PostUnlock => Unlock(s, t, Idle)
      case WaitTest => if s.value == 0 then Unlock(s, t, Sleeping) else Go(s, t, WaitTake)
      case WaitTake => Go(s.(value := s.value - 1), t, WaitUnlock)
      case WaitUnlock => Unlock(s, t, Idle)
      case TryTest => Go(s, t, if s.value == 0 then TryFail else TryTake)
      case TryTake => Go(s.(value := s.value - 1), t, TryUnlock)
      case TryUnlock => Unlock(s, t, Idle)
      case TryFail => Unlock(s, t, Idle)
      case _ => s
  }

  ghost predicate IsRun(s: Sem, run: seq<Action>)
    decreases |run|
  {
    run != [] ==> Enabled(s, run[0]) && IsRun(Apply(s, run[0]), run[1..])
  }

  ghost function After(s: Sem, run: seq<Action>): Sem
    requires IsRun(s, run)
    decreases |run|
  {
    if run == [] then s else After(Apply(s, run[0]), run[1..])
  }

  // ----- the invariant -----

  /** Only the holder of the mutex is inside a call. */
  ghost predicate Exclusive(s: Sem) {
    forall t: Thread :: Inside(PcOf(s, t)) ==> s.mutex == Some(t)
  }

  ghost predicate InRange(s: Sem) {
    && 0 <= s.value <= MAX
    && (forall t :: PcOf(s, t).WaitTake? || PcOf(s, t).TryTake? ==> s.value > 0)
  }

  /** One unit may be spoken for by the holder of the mutex: it is about to signal for it, or has
      just woken up and not yet looked. */
  ghost predicate Spoken(s: Sem) {
    exists t :: PcOf(s, t).PostSignal? || PcOf(s, t).WaitTest? || PcOf(s, t).WaitTake?
  }

  /** No lost wakeup: while some waiter sleeps unsignalled, every unit has a signalled waiter
      coming for it. */
  ghost predicate NoLostWakeup(s: Sem) {
    At(s, Sleeping) != {} ==> s.value <= |At(s, Signalled)| + if Spoken(s) then 1 else 0
  }

  ghost predicate Inv(s: Sem) {
    Exclusive(s) && InRange(s) && NoLostWakeup(s)
  }

  lemma StepKeepsExclusive(s: Sem, a: Action)
    requires Exclusive(s) && Enabled(s, a)
    ensures Exclusive(Apply(s, a))
  {
    var s' := Apply(s, a);
    forall t: Thread | Inside(PcOf(s', t))
      ensures s'.mutex == Some(t)
    {
      if t != a.t {
        assert PcOf(s', t) == PcOf(s, t) || PcOf(s', t).Signalled?;
      }
    }
  }

  lemma StepKeepsRange(s: Sem, a: Action)
    requires Exclusive(s) && InRange(s) && Enabled(s, a)
    ensures InRange(Apply(s, a))
  {
    var s' := Apply(s, a);
    forall t | PcOf(s', t).WaitTake? || PcOf(s', t).TryTake?
      ensures s'.value > 0
    {
      if t != a.t {
        assert PcOf(s, t) == PcOf(s', t);
      }
    }
  }

  /** Moving one thread moves it between the sets of threads at each point. */
  lemma Moved(s: Sem, s': Sem, t: Thread, pc: Pc)
    requires s'.pcs == s.pcs[t := pc]
    ensures forall p: Pc :: !p.Idle? && p != pc ==> At(s', p) == At(s, p) - {t}
    ensures At(s', pc) == At(s, pc) + {t}
  {
    forall p: Pc | !p.Idle? && p != pc
      ensures At(s', p) == At(s, p) - {t}
    {
      forall u
        ensures u in At(s', p) <==> u in At(s, p) - {t}
      {}
    }
  }

  lemma AtPc(s: Sem, t: Thread, pc: Pc)
    requires !pc.Idle?
    ensures t in At(s, pc) <==> PcOf(s, t) == pc
  {}

  /** The steps that leave the two sets of waiters alone. */
  lemma WaitersStay(s: Sem, s': Sem, t: Thread, pc: Pc)
    requires s'.pcs == s.pcs[t := pc]
    requires !pc.Sleeping? && !pc.Signalled? && !PcOf(s, t).Sleeping? && !PcOf(s, t).Signalled?
    ensures At(s', Sleeping) == At(s, Sleeping) && At(s', Signalled) == At(s, Signalled)
  {
    Moved(s, s', t, pc);
    AtPc(s, t, Sleeping);
    AtPc(s, t, Signalled);
  }

  lemma NotSpoken(s: Sem, t: Thread)
    requires Exclusive(s) && (s.mutex.None? || s.mutex == Some(t))
    requires !PcOf(s, t).PostSignal? && !PcOf(s, t).WaitTest? && !PcOf(s, t).WaitTake?
    ensures !Spoken(s)
  {
    if u: Thread :| PcOf(s, u).PostSignal? || PcOf(s, u).WaitTest? || PcOf(s, u).WaitTake? {
      assert Inside(PcOf(s, u));
    }
  }

  lemma CallKeepsWakeups(s: Sem, a: Action)
    requires Inv(s) && Enabled(s, a) && (a.Post? || a.Wait? || a.TryWait? || a.Resume? || a.Spurious?)
    ensures NoLostWakeup(Apply(s, a))
  {
    var s', t := Apply(s, a), a.t;
    var pc := PcOf(s', t);
    NotSpoken(s, t);
    Moved(s, s', t, pc);
    AtPc(s, t, Sleeping);
    AtPc(s, t, Signalled);
    if pc.WaitTest? {
      assert Spoken(s');
    }
    if a.Resume? {
      assert |At(s', Signalled)| == |At(s, Signalled)| - 1;
    }
  }

  lemma SignalKeepsWakeups(s: Sem, a: Action)
    requires Inv(s) && Enabled(s, a) && a.Signal?
    ensures NoLostWakeup(Apply(s, a))
  {
    var s' := Apply(s, a);
    assert a.t in s.pcs;
    assert At(s', Sleeping) == At(s, Sleeping) - a.who;
    assert At(s', Signalled) == At(s, Signalled) + a.who;
    assert At(s, Signalled) !! a.who;
    if At(s', Sleeping) != {} {
      assert |a.who| >= 1;
    }
  }

  lemma StepKeepsWakeups(s: Sem, a: Action)
    requires Inv(s) && Enabled(s, a) && a.Step?
    ensures NoLostWakeup(Apply(s, a))
  {
    var s', t := Apply(s, a), a.t;
    var pc, pc' := PcOf(s, t), PcOf(s', t);
    assert Inside(pc);
    if pc'.Sleeping? {
      Moved(s, s', t, pc');
    } else {
      WaitersStay(s, s', t, pc');
      if pc'.PostSignal? || pc'.WaitTake? {
        assert Spoken(s');
      }
      if !pc.WaitTest? && !pc.WaitTake? {
        NotSpoken(s, t);
      }
    }
  }

  lemma {:induction false} RunKeepsInv(s: Sem, run: seq<Action>)
    requires Inv(s) && IsRun(s, run)
    ensures Inv(After(s, run))
    decreases |run|
  {
    if run != [] {
      var a := run[0];
      StepKeepsExclusive(s, a);
      StepKeepsRange(s, a);
      if a.Step? {
        StepKeepsWakeups(s, a);
      } else if a.Signal? {
        SignalKeepsWakeups(s, a);
      } else {
        CallKeepsWakeups(s, a);
      }
      RunKeepsInv(Apply(s, a), run[1..]);
    }
  }

  // ----- what every run keeps -----

  /** A semaphore created with a count that is not negative never leaves its range. */
  lemma StaysInRange(init: int, run: seq<Action>)
    requires init >= 0 && Create(init, false).Some? && IsRun(Create(init, false).value, run)
    ensures 0 <= After(Create(init, false).value, run).value <= 32767
  {
    RunKeepsInv(Create(init, false).value, run);
  }

  /** repsem_init refuses counts above the maximum and semaphores shared between processes, and stores any
      other count. */
  lemma CreateIff(value: int, pshared: bool)
    ensures Create(value, pshared).Some? <==> value <= 32767 && !pshared
    ensures Create(value, pshared).Some? ==>
      var s := Create(value, pshared).value; s.value == value && s.mutex.None? && forall t :: PcOf(s, t).Idle?
  {}

  /** repsem_init also accepts negative counts; the range is kept over all runs just when the count
      is not negative. */
  lemma RangeIffNotNegative(init: int)
    requires Create(init, false).Some?
    ensures (forall run :: IsRun(Create(init, false).value, run) ==>
               0 <= After(Create(init, false).value, run).value <= 32767) <==> init >= 0
  {
    var s := Create(init, false).value;
    if init >= 0 {
      forall run | IsRun(s, run)
        ensures 0 <= After(s, run).value <= 32767
      {
        StaysInRange(init, run);
      }
    } else {
      assert IsRun(s, []) && After(s, []) == s;
    }
  }

  /** Whenever the mutex is free and some waiter sleeps unsignalled, there are at least as many
      signalled waiters on their way as units to take; with none on the way the count is zero. */
  lemma NoWakeupIsLost(init: int, run: seq<Action>)
    requires init >= 0 && Create(init, false).Some? && IsRun(Create(init, false).value, run)
    ensures var s := After(Create(init, false).value, run);
      && (s.mutex.None? && At(s, Sleeping) != {} ==> s.value <= |At(s, Signalled)|)
      && (s.mutex.None? && At(s, Sleeping) != {} && At(s, Signalled) == {} ==> s.value == 0)
  {
    RunKeepsInv(Create(init, false).value, run);
    var s := After(Create(init, false).value, run);
    if s.mutex.None? {
      assert forall t: Thread :: !Inside(PcOf(s, t));
      assert !Spoken(s);
    }
  }

  // ----- a post at the maximum -----

  /** The mutex is held by a thread that is no longer inside a call. */
  ghost predicate Leaked(s: Sem) {
    s.mutex.Some? && Exclusive(s) && !Inside(PcOf(s, s.mutex.value))
  }

  lemma LeakedBlocks(s: Sem, a: Action)
    requires Leaked(s)
    ensures !Enabled(s, a)
  {
    assert Inside(PcOf(s, a.t)) ==> s.mutex == Some(a.t);
  }

  /** A call that ends gives the mutex back, unless it is a post that finds the count at its
      maximum; then no thread ever takes another step on the semaphore. */
  lemma LeaksIffPostAtMax(s: Sem, a: Action)
    requires Exclusive(s) && !Leaked(s) && Enabled(s, a)
    ensures Leaked(Apply(s, a)) <==> a.Step? && PcOf(s, a.t).PostTest? && s.value == 32767
    ensures Leaked(Apply(s, a)) ==> forall b :: !Enabled(Apply(s, a), b)
  {
    StepKeepsExclusive(s, a);
    var s' := Apply(s, a);
    if Leaked(s') {
      forall b
        ensures !Enabled(s', b)
      {
        LeakedBlocks(s', b);
      }
    }
  }

  lemma PostAtMaxIsReachable()
    ensures exists run :: IsRun(Create(MAX, false).value, run) && Leaked(After(Create(MAX, false).value, run))
  {
    var s := Create(MAX, false).value;
    var run := [Post(1), Step(1)];
    var s1 := Apply(s, Post(1));
    assert run[1..] == [Step(1)] && run[1..][1..] == [];
    assert IsRun(s, run);
    var s2 := Apply(s1, Step(1));
    assert After(s, run) == s2;
    assert PcOf(s2, 1).Idle? && s2.mutex == Some(1);
    assert Leaked(s2);
  }

  // ----- counting by the calls that return -----

  /** How many steps of a run are taken by a thread that stands at a point of a kind. */
  ghost function Passings(s: Sem, run: seq<Action>, p: (Thread, Pc) -> bool): nat
    requires IsRun(s, run)
    decreases |run|
  {
    if run == [] then 0
    else Passing(s, run[0], p) + Passings(Apply(s, run[0]), run[1..], p)
  }

  function Passing(s: Sem, a: Action, p: (Thread, Pc) -> bool): nat {
    if a.Step? && p(a.t, PcOf(s, a.t)) then 1 else 0
  }

  /** Returns from posts, and from waits and trywaits that took a unit, of all threads. */
  function EndsPost(): (Thread, Pc) -> bool {
    (_: Thread, pc: Pc) => pc.PostUnlock?
  }

  function EndsTake(): (Thread, Pc) -> bool {
    (_: Thread, pc: Pc) => pc.WaitUnlock? || pc.TryUnlock?
  }

  /** What the holder of the mutex has done to the value and not yet returned from. */
  function Ahead(s: Sem): int {
    match s.mutex
    case None => 0
    case Some(t) =>
      var pc := PcOf(s, t);
      if pc.PostSignal? || pc.PostUnlock? then 1 else if pc.WaitUnlock? || pc.TryUnlock? then -1 else 0
  }

  lemma CountStep(s: Sem, a: Action)
    requires Exclusive(s) && Enabled(s, a)
    ensures var s' := Apply(s, a);
      s'.value - Ahead(s') == s.value - Ahead(s) + Passing(s, a, EndsPost()) - Passing(s, a, EndsTake())
  {
    assert Inside(PcOf(s, a.t)) ==> s.mutex == Some(a.t);
  }

  lemma {:induction false} CountRun(s: Sem, run: seq<Action>)
    requires Exclusive(s) && IsRun(s, run)
    ensures var s' := After(s, run);
      s'.value - Ahead(s') == s.value - Ahead(s) + Passings(s, run, EndsPost()) - Passings(s, run, EndsTake())
    decreases |run|
  {
    if run != [] {
      CountStep(s, run[0]);
      StepKeepsExclusive(s, run[0]);
      CountRun(Apply(s, run[0]), run[1..]);
    }
  }

  /** Whatever the initial count, whenever the mutex is free the value is that count, plus the posts that
      have returned, less the waits and trywaits that have returned with a unit. */
  lemma CountIsExact(init: int, run: seq<Action>)
    requires Create(init, false).Some? && IsRun(Create(init, false).value, run)
    ensures var s0 := Create(init, false).value;
      var s := After(s0, run);
      s.mutex.None? ==> s.value == init + Passings(s0, run, EndsPost()) - Passings(s0, run, EndsTake())
  {
    CountRun(Create(init, false).value, run);
  }

  // ----- every call ends in its own way -----

  /** Inside a wait, a trywait or a post. */
  predicate InWait(pc: Pc) {
    pc.WaitTest? || pc.WaitTake? || pc.WaitUnlock? || pc.Sleeping? || pc.Signalled?
  }

  predicate InTry(pc: Pc) {
    pc.TryTest? || pc.TryTake? || pc.TryUnlock? || pc.TryFail?
  }

  predicate InPost(pc: Pc) {
    pc.PostTest? || pc.PostSignal? || pc.PostUnlock?
  }

  function One(b: bool): nat {
    if b then 1 else 0
  }

  /** How often t calls a, over a run. */
  function Calls(run: seq<Action>, a: Action): nat {
    if run == [] then 0 else One(run[0] == a) + Calls(run[1..], a)
  }

  function WaitsTaken(t: Thread): (Thread, Pc) -> bool {
    (u: Thread, pc: Pc) => u == t && pc.WaitUnlock?
  }

  function TriesTaken(t: Thread): (Thread, Pc) -> bool {
    (u: Thread, pc: Pc) => u == t && pc.TryUnlock?
  }

  function TriesFailed(t: Thread): (Thread, Pc) -> bool {
    (u: Thread, pc: Pc) => u == t && pc.TryFail?
  }

  function PostsDone(t: Thread): (Thread, Pc) -> bool {
    (u: Thread, pc: Pc) => u == t && pc.PostUnlock?
  }

  lemma EndStep(s: Sem, a: Action, t: Thread)
    requires Exclusive(s) && Enabled(s, a)
    ensures var s' := Apply(s, a);
      && One(InWait(PcOf(s, t))) + One(a == Wait(t)) == One(InWait(PcOf(s', t))) + Passing(s, a, WaitsTaken(t))
      && One(InTry(PcOf(s, t))) + One(a == TryWait(t)) ==
         One(InTry(PcOf(s', t))) + Passing(s, a, TriesTaken(t)) + Passing(s, a, TriesFailed(t))
      && (!Leaked(s') ==>
            One(InPost(PcOf(s, t))) + One(a == Post(t)) == One(InPost(PcOf(s', t))) + Passing(s, a, PostsDone(t)))
  {
    StepKeepsExclusive(s, a);
  }

  lemma {:induction false} EndRun(s: Sem, run: seq<Action>, t: Thread)
    requires Exclusive(s) && IsRun(s, run)
    ensures var s' := After(s, run);
      && One(InWait(PcOf(s, t))) + Calls(run, Wait(t)) ==
         One(InWait(PcOf(s', t))) + Passings(s, run, WaitsTaken(t))
      && One(InTry(PcOf(s, t))) + Calls(run, TryWait(t)) ==
         One(InTry(PcOf(s', t))) + Passings(s, run, TriesTaken(t)) + Passings(s, run, TriesFailed(t))
      && (!Leaked(s') ==> One(InPost(PcOf(s, t))) + Calls(run, Post(t)) ==
                          One(InPost(PcOf(s', t))) + Passings(s, run, PostsDone(t)))
    decreases |run|
  {
    if run != [] {
      EndStep(s, run[0], t);
      StepKeepsExclusive(s, run[0]);
      if Leaked(Apply(s, run[0])) && run[1..] != [] {
        LeakedBlocks(Apply(s, run[0]), run[1]);
      }
      EndRun(Apply(s, run[0]), run[1..], t);
    }
  }

  /** A thread that is back from all its calls has taken a unit with every wait, has taken one or failed
      with every trywait, and has put one in with every post, unless a post at the maximum has kept the
      mutex. */
  lemma CallsEndAsTheyShould(init: int, run: seq<Action>, t: Thread)
    requires Create(init, false).Some? && IsRun(Create(init, false).value, run)
    requires PcOf(After(Create(init, false).value, run), t).Idle?
    ensures var s0 := Create(init, false).value;
      && Calls(run, Wait(t)) == Passings(s0, run, WaitsTaken(t))
      && Calls(run, TryWait(t)) == Passings(s0, run, TriesTaken(t)) + Passings(s0, run, TriesFailed(t))
      && (!Leaked(After(s0, run)) ==> Calls(run, Post(t)) == Passings(s0, run, PostsDone(t)))
  {
    EndRun(Create(init, false).value, run, t);
  }

  /** A trywait about to fail, the value being its own to read, sees none. */
  ghost predicate FailsEmpty(s: Sem) {
    forall t :: PcOf(s, t).TryFail? ==> s.value == 0
  }

  lemma {:induction false} FailsEmptyRun(s: Sem, run: seq<Action>)
    requires Exclusive(s) && FailsEmpty(s) && IsRun(s, run)
    ensures FailsEmpty(After(s, run))
    decreases |run|
  {
    if run != [] {
      FailsEmptyStep(s, run[0]);
      StepKeepsExclusive(s, run[0]);
      FailsEmptyRun(Apply(s, run[0]), run[1..]);
    }
  }

  lemma FailsEmptyStep(s: Sem, a: Action)
    requires Exclusive(s) && FailsEmpty(s) && Enabled(s, a)
    ensures FailsEmpty(Apply(s, a))
  {
    var s' := Apply(s, a);
    forall t | PcOf(s', t).TryFail? ensures s'.value == 0 {
      if t != a.t {
        assert PcOf(s, t) == PcOf(s', t) && Inside(PcOf(s, t));
      }
    }
  }

  /** A trywait fails only when there is nothing to take, and a wait goes to sleep only then. */
  lemma RefusedOnlyWhenEmpty(init: int, run: seq<Action>, t: Thread)
    requires Create(init, false).Some? && IsRun(Create(init, false).value, run)
    ensures var s := After(Create(init, false).value, run);
      && (PcOf(s, t).TryFail? ==> s.value == 0)
      && (Enabled(s, Step(t)) && PcOf(Apply(s, Step(t)), t).Sleeping? ==> s.value == 0)
  {
    FailsEmptyRun(Create(init, false).value, run);
  }
}
