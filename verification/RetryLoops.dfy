/** The retry loops over an atomic compare-and-exchange, and their refinement of the operations
    in one step each. */
module RetryLoops {
  import opened WordArith
  import opened AtomicOps

  datatype Pc =
    | Idle
    // about to read the word into __oldval
    | Reread(op: Op)
    // about to compare-and-exchange old_ for new_
    | Cas(op: Op, old_: Word, new_: Word)
    // the compare-and-exchange found seen
    | Back(op: Op, old_: Word, seen: Word)
    | Done(op: Op, ret: Word)

  datatype Loops = Loops(mem: Mem, pcs: map<Thread, Pc>)

  function PcOf(s: Loops, t: Thread): Pc {
    if t in s.pcs then s.pcs[t] else Idle
  }

  function Entry(op: Op): Pc {
    if op.Cas?() then Cas(op, op.old_, op.new_) else Reread(op)
  }

  /** The value a loop asks to store in place of the one it read. */
  function Proposal(w: nat, op: Op, old_: Word): Word
    requires w > 0
  {
    match op
    case CasVal(_, n, _) => n
    case CasBool(_, n, _) => n
    case Exchange(_, v) => v
    case Add(_, v) => Wrap(w, old_ + v)
    case DecIfPositive(_) => old_ - 1
    case BitTestSet(_, b) => SetBit(w, old_, b)
  }

  /** Where control goes after reading __oldval. */
  function AfterRead(w: nat, op: Op, old_: Word): Pc
    requires w > 0
  {
    if op.DecIfPositive? && old_ <= 0 then Done(op, old_) else Cas(op, old_, Proposal(w, op, old_))
  }

  /** Where control goes after the compare-and-exchange. */
  function AfterCas(w: nat, op: Op, old_: Word, seen: Word): Pc
    requires w > 0
  {
    match op
    case CasVal(_, _, _) => Done(op, seen)
    case CasBool(_, _, _) => Done(op, if seen == old_ then 0 else 1)
    case BitTestSet(_, b) =>
      if seen != old_ then Reread(op) else Done(op, if BitIsSet(old_, b) then Wrap(w, Pow2(b)) else 0)
    case _ => if seen != old_ then Reread(op) else Done(op, old_)
  }

  predicate Enabled(s: Loops, a: Action) {
    match a
    case Invoke(t, _) => PcOf(s, t).Idle?
    case Return(t, op, ret) => PcOf(s, t) == Done(op, ret)
    case Tau(t) => !PcOf(s, t).Idle? && !PcOf(s, t).Done?
  }

  function Apply(w: nat, s: Loops, a: Action): Loops
    requires w > 0 && Enabled(s, a)
  {
    match a
    case Invoke(t, op) => s.(pcs := s.pcs[t := Entry(op)])
    case Return(t, _, _) => s.(pcs := s.pcs[t := Idle])
    case Tau(t) =>
      match PcOf(s, t)
      case Reread(op) => s.(pcs := s.pcs[t := AfterRead(w, op, Read(s.mem, op.a))])
      case Cas(op, o, n) =>
        var seen := Read(s.mem, op.a);
        Loops(if seen == o then Write(s.mem, op.a, n) else s.mem, s.pcs[t := Back(op, o, seen)])
      case Back(op, o, seen) => s.(pcs := s.pcs[t := AfterCas(w, op, o, seen)])
      case _ => s
  }

  ghost predicate IsRun(w: nat, s: Loops, run: seq<Action>)
    requires w > 0
    decreases |run|
  {
    run != [] ==> Enabled(s, run[0]) && IsRun(w, Apply(w, s, run[0]), run[1..])
  }

  ghost function After(w: nat, s: Loops, run: seq<Action>): Loops
    requires w > 0 && IsRun(w, s, run)
    decreases |run|
  {
    if run == [] then s else After(w, Apply(w, s, run[0]), run[1..])
  }

  // ----- refinement -----

  /** A compare-and-exchange that was asked for, or that found the value its loop had read, is
      what takes effect; anything before it is still only called. */
  ghost function AbsPc(w: nat, pc: Pc): Call
    requires w > 0
  {
    match pc
    case Idle => Quiet
    case Reread(op) => Called(op)
    case Cas(op, _, _) => Called(op)
    case Back(op, o, seen) => if op.Cas?() || seen == o then Answered(op, Returns(w, op, seen)) else Called(op)
    case Done(op, ret) => Answered(op, ret)
  }

  ghost function Abs(w: nat, s: Loops): Atomic
    requires w > 0
  {
    Atomic(s.mem, map t | t in s.pcs :: AbsPc(w, s.pcs[t]))
  }

  /** A compare-and-exchange in progress proposes what its operation stores, and for a plain one
      the values are those asked for. */
  ghost predicate PcOk(w: nat, pc: Pc)
    requires w > 0
  {
    match pc
    case Reread(op) => !op.Cas?()
    case Cas(op, o, n) =>
      && n == Proposal(w, op, o)
      && (op.Cas?() ==> o == op.old_)
      && (op.DecIfPositive? ==> o > 0)
    case Back(op, o, _) => op.Cas?() ==> o == op.old_
    case _ => true
  }

  ghost predicate Inv(w: nat, s: Loops)
    requires w > 0
  {
    forall t :: t in s.pcs ==> PcOk(w, s.pcs[t])
  }

  /** The internal steps at which an operation takes effect. */
  ghost predicate TakesEffect(s: Loops, t: Thread) {
    match PcOf(s, t)
    case Reread(op) => op.DecIfPositive? && Read(s.mem, op.a) <= 0
    case Cas(op, o, _) => op.Cas?() || Read(s.mem, op.a) == o
    case _ => false
  }

  lemma AbsCall(w: nat, s: Loops, t: Thread)
    requires w > 0
    ensures CallOf(Abs(w, s), t) == AbsPc(w, PcOf(s, t))
  {}

  lemma StepKeepsInv(w: nat, s: Loops, a: Action)
    requires w > 0 && Inv(w, s) && Enabled(s, a)
    ensures Inv(w, Apply(w, s, a))
  {}

  /** A step of the loops is the same step of the atomic machine, or invisible to it. */
  lemma StepRefines(w: nat, s: Loops, a: Action)
    requires w > 0 && Inv(w, s) && Enabled(s, a)
    ensures var x, x' := Abs(w, s), Abs(w, Apply(w, s, a));
      if a.Tau? && !TakesEffect(s, a.t) then x' == x
      else AtomicOps.Enabled(x, a) && AtomicOps.Apply(w, x, a) == x'
  {
    var x, s' := Abs(w, s), Apply(w, s, a);
    var x' := Abs(w, s');
    AbsCall(w, s, a.t);
    match a {
      case Invoke(t, op) =>
        assert x'.calls == x.calls[t := Called(op)];
      case Return(t, _, _) =>
        assert x'.calls == x.calls[t := Quiet];
      case Tau(t) =>
        assert x'.calls == x.calls[t := AbsPc(w, PcOf(s', t))];
        if !TakesEffect(s, t) {
          assert x.calls[t] == AbsPc(w, PcOf(s', t));
        }
    }
  }
}
