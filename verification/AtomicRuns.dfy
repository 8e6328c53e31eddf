/** Whole runs of the atomic operations over hashed locks: each is a run of the operations in
    one step, and what follows for the words they leave and the values they return. */
module AtomicRuns {
  import opened AtomicOps
  import RetryLoops
  import opened HashedLocks

  ghost function AbsAll(c: Cfg, s: Machine): Atomic {
    RetryLoops.Abs(c.w, HashedLocks.Abs(s))
  }

  ghost predicate InvAll(c: Cfg, s: Machine) {
    HashedLocks.Inv(c, s) && RetryLoops.Inv(c.w, HashedLocks.Abs(s))
  }

  /** Steps of the machine that no step of the atomic operations corresponds to. */
  ghost predicate Silent(s: Machine, a: Action) {
    LockStep(s, a) || (a.Tau? && !RetryLoops.TakesEffect(HashedLocks.Abs(s), a.t))
  }

  /** The run of the atomic operations behind a run of the machine. */
  ghost function Lower(c: Cfg, s: Machine, run: seq<Action>): seq<Action>
    requires HashedLocks.IsRun(c, s, run)
    decreases |run|
  {
    if run == [] then []
    else
      var rest := Lower(c, HashedLocks.Apply(c, s, run[0]), run[1..]);
      if Silent(s, run[0]) then rest else [run[0]] + rest
  }

  lemma StepRefinesAll(c: Cfg, s: Machine, a: Action)
    requires InvAll(c, s) && HashedLocks.Enabled(s, a)
    ensures var s' := HashedLocks.Apply(c, s, a);
      && InvAll(c, s')
      && if Silent(s, a) then AbsAll(c, s') == AbsAll(c, s)
         else AtomicOps.Enabled(AbsAll(c, s), a) && AtomicOps.Apply(c.w, AbsAll(c, s), a) == AbsAll(c, s')
  {
    StepKeepsExclusion(c, s, a);
    StepKeepsFresh(c, s, a);
    HashedLocks.StepRefines(c, s, a);
    if !LockStep(s, a) {
      RetryLoops.StepKeepsInv(c.w, HashedLocks.Abs(s), a);
      RetryLoops.StepRefines(c.w, HashedLocks.Abs(s), a);
    }
  }

  /** Every interleaving of spinning, reading, comparing, writing, unlocking and retrying is, with
      the same calls and the same results, a run of operations that happen in one step. */
  lemma {:induction false} RunRefines(c: Cfg, s: Machine, run: seq<Action>)
    requires InvAll(c, s) && HashedLocks.IsRun(c, s, run)
    ensures var low, s' := Lower(c, s, run), HashedLocks.After(c, s, run);
      && InvAll(c, s')
      && AtomicOps.IsRun(c.w, AbsAll(c, s), low)
      && AtomicOps.After(c.w, AbsAll(c, s), low) == AbsAll(c, s')
      && Visible(low) == Visible(run)
    decreases |run|
  {
    if run != [] {
      StepRefinesAll(c, s, run[0]);
      RunRefines(c, HashedLocks.Apply(c, s, run[0]), run[1..]);
      var rest := Lower(c, HashedLocks.Apply(c, s, run[0]), run[1..]);
      assert ([run[0]] + rest)[1..] == rest;
    }
  }

  /** Nothing is running yet. */
  function Rest(mem: Mem): Machine {
    Machine(mem, {}, map[])
  }

  lemma RestOk(c: Cfg, mem: Mem)
    ensures InvAll(c, Rest(mem)) && AbsAll(c, Rest(mem)) == Atomic(mem, map[])
  {
    assert HashedLocks.Abs(Rest(mem)).pcs == map[];
  }

  /** No thread is inside an operation. */
  ghost predicate Quiescent(s: Machine) {
    forall t :: HashedLocks.PcOf(s, t).Idle?
  }

  // ----- one order for all -----

  /** An operation that has taken effect, with its result. */
  datatype Event = Event(t: Thread, op: Op, ret: Word)

  /** The operations in the order in which they took effect. */
  ghost function Log(w: nat, s: Atomic, run: seq<Action>): seq<Event>
    requires w > 0 && AtomicOps.IsRun(w, s, run)
    decreases |run|
  {
    if run == [] then []
    else
      var rest := Log(w, AtomicOps.Apply(w, s, run[0]), run[1..]);
      if run[0].Tau? then
        var op := CallOf(s, run[0].t).op;
        [Event(run[0].t, op, Returns(w, op, Read(s.mem, op.a)))] + rest
      else rest
  }

  /** The results callers got, in the order in which they returned. */
  function Answers(run: seq<Action>): seq<Event> {
    if run == [] then []
    else (if run[0].Return? then [Event(run[0].t, run[0].op, run[0].ret)] else []) + Answers(run[1..])
  }

  /** The events could have happened one after the other, leaving m'. */
  ghost predicate Sequential(w: nat, m: Mem, log: seq<Event>, m': Mem)
    requires w > 0
    decreases |log|
  {
    if log == [] then m' == m
    else
      var e, cur := log[0], Read(m, log[0].op.a);
      e.ret == Returns(w, e.op, cur) && Sequential(w, Write(m, e.op.a, Stores(w, e.op, cur)), log[1..], m')
  }

  lemma {:induction false} LogIsSequential(w: nat, s: Atomic, run: seq<Action>)
    requires w > 0 && AtomicOps.IsRun(w, s, run)
    ensures Sequential(w, s.mem, Log(w, s, run), AtomicOps.After(w, s, run).mem)
    decreases |run|
  {
    if run != [] {
      LogIsSequential(w, AtomicOps.Apply(w, s, run[0]), run[1..]);
      if run[0].Tau? {
        assert Log(w, s, run)[1..] == Log(w, AtomicOps.Apply(w, s, run[0]), run[1..]);
      }
    }
  }

  /** Operations that have taken effect and not yet returned. */
  ghost function Pending(s: Atomic): set<Event> {
    set t | t in s.calls && s.calls[t].Answered? :: Event(t, s.calls[t].op, s.calls[t].ret)
  }

  lemma PendingHas(s: Atomic, e: Event)
    ensures e in Pending(s) <==> CallOf(s, e.t) == Answered(e.op, e.ret)
  {}

  /** A step answers one pending operation, adds one, or leaves them alone. */
  lemma PendingStep(w: nat, s: Atomic, a: Action)
    requires w > 0 && AtomicOps.Enabled(s, a)
    ensures var s' := AtomicOps.Apply(w, s, a);
      match a
      case Invoke(_, _) => Pending(s') == Pending(s)
      case Return(t, op, ret) => Event(t, op, ret) in Pending(s) && Pending(s') == Pending(s) - {Event(t, op, ret)}
      case Tau(t) =>
        var e := Event(t, CallOf(s, t).op, CallOf(s', t).ret);
        e !in Pending(s) && Pending(s') == Pending(s) + {e}
  {
    var s' := AtomicOps.Apply(w, s, a);
    forall e: Event
      ensures e in Pending(s) <==> CallOf(s, e.t) == Answered(e.op, e.ret)
      ensures e in Pending(s') <==> CallOf(s', e.t) == Answered(e.op, e.ret)
    {
      PendingHas(s, e);
      PendingHas(s', e);
    }
    assert forall t :: t != a.t ==> CallOf(s', t) == CallOf(s, t);
  }

  lemma {:induction false} LogMatchesAnswers(w: nat, s: Atomic, run: seq<Action>)
    requires w > 0 && AtomicOps.IsRun(w, s, run)
    ensures multiset(Pending(s)) + multiset(Log(w, s, run))
         == multiset(Answers(run)) + multiset(Pending(AtomicOps.After(w, s, run)))
    decreases |run|
  {
    if run != [] {
      var a := run[0];
      var s' := AtomicOps.Apply(w, s, a);
      LogMatchesAnswers(w, s', run[1..]);
      PendingStep(w, s, a);
      match a {
        case Invoke(_, _) =>
        case Return(t, op, ret) =>
          assert Answers(run) == [Event(t, op, ret)] + Answers(run[1..]);
        case Tau(t) =>
          var e := Event(t, CallOf(s, t).op, CallOf(s', t).ret);
          assert Log(w, s, run) == [e] + Log(w, s', run[1..]);
      }
    }
  }

  lemma RestToRest(w: nat, s: Atomic, run: seq<Action>)
    requires w > 0 && AtomicOps.IsRun(w, s, run)
    requires Pending(s) == {} && Pending(AtomicOps.After(w, s, run)) == {}
    ensures multiset(Log(w, s, run)) == multiset(Answers(run))
  {
    LogMatchesAnswers(w, s, run);
    var log, answers := multiset(Log(w, s, run)), multiset(Answers(run));
    assert multiset(Pending(s)) + log == log;
    assert answers + multiset(Pending(AtomicOps.After(w, s, run))) == answers;
  }

  // ----- and it respects which call ended before which began -----

  lemma {:induction false} MachineSplit(c: Cfg, s: Machine, run: seq<Action>, k: nat)
    requires HashedLocks.IsRun(c, s, run) && k <= |run|
    ensures HashedLocks.IsRun(c, s, run[..k])
    ensures Lower(c, s, run[..k]) <= Lower(c, s, run)
    decreases k
  {
    if k > 0 {
      assert run[..k][0] == run[0] && run[..k][1..] == run[1..][..k - 1];
      MachineSplit(c, HashedLocks.Apply(c, s, run[0]), run[1..], k - 1);
    }
  }

  lemma {:induction false} LogPrefix(w: nat, s: Atomic, run: seq<Action>, k: nat)
    requires w > 0 && AtomicOps.IsRun(w, s, run) && k <= |run|
    ensures AtomicOps.IsRun(w, s, run[..k])
    ensures Log(w, s, run[..k]) <= Log(w, s, run)
    decreases k
  {
    if k > 0 {
      assert run[..k][0] == run[0] && run[..k][1..] == run[1..][..k - 1];
      LogPrefix(w, AtomicOps.Apply(w, s, run[0]), run[1..], k - 1);
    }
  }

  /** The operations of log[..j] are those that have returned by the k-th step of the run, and some that
      have been called and have not returned. So what returned before is in log[..j], and what is called
      later is not. */
  ghost predicate CutAt(c: Cfg, mem: Mem, run: seq<Action>, log: seq<Event>, k: nat, j: nat)
    requires k <= |run| && HashedLocks.IsRun(c, Rest(mem), run)
  {
    && j <= |log|
    && HashedLocks.IsRun(c, Rest(mem), run[..k])
    && var s := HashedLocks.After(c, Rest(mem), run[..k]);
       && (forall e :: e in Pending(AbsAll(c, s)) ==> !HashedLocks.PcOf(s, e.t).Idle?)
       && multiset(log[..j]) == multiset(Answers(run[..k])) + multiset(Pending(AbsAll(c, s)))
  }

  /** The order of effects of a run. */
  ghost function Effects(c: Cfg, mem: Mem, run: seq<Action>): seq<Event>
    requires HashedLocks.IsRun(c, Rest(mem), run)
    requires AtomicOps.IsRun(c.w, AbsAll(c, Rest(mem)), Lower(c, Rest(mem), run))
  {
    Log(c.w, AbsAll(c, Rest(mem)), Lower(c, Rest(mem), run))
  }

  /** What has taken effect in a run: what has returned, and what is pending. */
  lemma EffectsCount(c: Cfg, mem: Mem, run: seq<Action>)
    requires HashedLocks.IsRun(c, Rest(mem), run)
    ensures AtomicOps.IsRun(c.w, AbsAll(c, Rest(mem)), Lower(c, Rest(mem), run))
    ensures multiset(Effects(c, mem, run)) ==
            multiset(Answers(run)) + multiset(Pending(AbsAll(c, HashedLocks.After(c, Rest(mem), run))))
  {
    var x, low := AbsAll(c, Rest(mem)), Lower(c, Rest(mem), run);
    RestOk(c, mem);
    RunRefines(c, Rest(mem), run);
    LogMatchesAnswers(c.w, x, low);
    NothingPending(c, Rest(mem));
    SameAnswers(low, run);
    assert multiset(Pending(x)) + multiset(Log(c.w, x, low)) == multiset(Log(c.w, x, low));
  }

  lemma EffectsPrefix(c: Cfg, mem: Mem, run: seq<Action>, k: nat)
    requires k <= |run| && HashedLocks.IsRun(c, Rest(mem), run)
    requires AtomicOps.IsRun(c.w, AbsAll(c, Rest(mem)), Lower(c, Rest(mem), run))
    ensures HashedLocks.IsRun(c, Rest(mem), run[..k])
    ensures AtomicOps.IsRun(c.w, AbsAll(c, Rest(mem)), Lower(c, Rest(mem), run[..k]))
    ensures Effects(c, mem, run[..k]) <= Effects(c, mem, run)
  {
    MachineSplit(c, Rest(mem), run, k);
    var low, n := Lower(c, Rest(mem), run), |Lower(c, Rest(mem), run[..k])|;
    LogPrefix(c.w, AbsAll(c, Rest(mem)), low, n);
    assert low[..n] == Lower(c, Rest(mem), run[..k]);
  }

  lemma CutExists(c: Cfg, mem: Mem, run: seq<Action>, k: nat)
    requires k <= |run| && HashedLocks.IsRun(c, Rest(mem), run)
    requires AtomicOps.IsRun(c.w, AbsAll(c, Rest(mem)), Lower(c, Rest(mem), run))
    ensures HasCut(c, mem, run, Effects(c, mem, run), k)
  {
    EffectsPrefix(c, mem, run, k);
    EffectsCount(c, mem, run[..k]);
    PendingIsOpen(c, HashedLocks.After(c, Rest(mem), run[..k]));
    var j := |Effects(c, mem, run[..k])|;
    assert Effects(c, mem, run)[..j] == Effects(c, mem, run[..k]);
    assert CutAt(c, mem, run, Effects(c, mem, run), k, j);
  }

  ghost predicate HasCut(c: Cfg, mem: Mem, run: seq<Action>, log: seq<Event>, k: nat)
    requires k <= |run| && HashedLocks.IsRun(c, Rest(mem), run)
  {
    exists j :: CutAt(c, mem, run, log, k, j)
  }

  lemma PendingIsOpen(c: Cfg, s: Machine)
    ensures forall e :: e in Pending(AbsAll(c, s)) ==> !HashedLocks.PcOf(s, e.t).Idle?
  {
    forall e | e in Pending(AbsAll(c, s)) ensures !HashedLocks.PcOf(s, e.t).Idle? {
      PendingHas(AbsAll(c, s), e);
    }
  }

  /** From rest to rest, the results all callers got are those of some one-after-the-other
      execution that also explains the memory, and in which every operation that returned before
      another was called comes before it. */
  lemma Linearizable(c: Cfg, mem: Mem, run: seq<Action>) returns (log: seq<Event>)
    requires HashedLocks.IsRun(c, Rest(mem), run) && Quiescent(HashedLocks.After(c, Rest(mem), run))
    ensures multiset(log) == multiset(Answers(run))
    ensures Sequential(c.w, mem, log, HashedLocks.After(c, Rest(mem), run).mem)
    ensures forall k :: 0 <= k <= |run| ==> HasCut(c, mem, run, log, k)
  {
    RestOk(c, mem);
    RunRefines(c, Rest(mem), run);
    var x, low := AbsAll(c, Rest(mem)), Lower(c, Rest(mem), run);
    log := Effects(c, mem, run);
    LogIsSequential(c.w, x, low);
    NothingPending(c, Rest(mem));
    NothingPending(c, HashedLocks.After(c, Rest(mem), run));
    RestToRest(c.w, x, low);
    SameAnswers(low, run);
    forall k | 0 <= k <= |run| ensures HasCut(c, mem, run, log, k) {
      CutExists(c, mem, run, k);
    }
  }

  /** The memory a run leaves. */
  ghost function Left(c: Cfg, mem: Mem, run: seq<Action>): Mem
    requires HashedLocks.IsRun(c, Rest(mem), run)
  {
    HashedLocks.After(c, Rest(mem), run).mem
  }

  /** A run from rest to rest. */
  ghost predicate FullRun(c: Cfg, mem: Mem, run: seq<Action>) {
    HashedLocks.IsRun(c, Rest(mem), run) && Quiescent(HashedLocks.After(c, Rest(mem), run))
  }

  /** The same without the cuts. */
  lemma OneOrder(c: Cfg, mem: Mem, run: seq<Action>) returns (log: seq<Event>)
    requires FullRun(c, mem, run)
    ensures multiset(log) == multiset(Answers(run)) && Sequential(c.w, mem, log, Left(c, mem, run))
  {
    log := Linearizable(c, mem, run);
  }

  lemma NothingPending(c: Cfg, s: Machine)
    requires Quiescent(s)
    ensures Pending(AbsAll(c, s)) == {}
  {
    forall e: Event
      ensures e !in Pending(AbsAll(c, s))
    {
      PendingHas(AbsAll(c, s), e);
      assert HashedLocks.PcOf(s, e.t).Idle?;
    }
  }

  lemma {:induction false} VisibleAnswers(run: seq<Action>)
    ensures Answers(run) == Answers(Visible(run))
  {
    if run != [] {
      VisibleAnswers(run[1..]);
      if !run[0].Tau? {
        assert Visible(run)[1..] == Visible(run[1..]);
      }
    }
  }

  lemma SameAnswers(low: seq<Action>, run: seq<Action>)
    requires Visible(low) == Visible(run)
    ensures Answers(low) == Answers(run)
  {
    VisibleAnswers(low);
    VisibleAnswers(run);
  }
}
