/** Compare-and-exchange built from 64 test-and-set locks shared by all addresses, under the
    retry loops, and its refinement of a compare-and-exchange in one step. */
module HashedLocks {
  import opened WordArith
  import opened AtomicOps
  import RetryLoops

  /** The width of words and the lock byte each address is guarded by. The proofs hold for any
      assignment of locks to addresses; that of the code is LockIndex. */
  datatype Config = Config(w: nat, lockOf: Addr -> nat)

  type Cfg = c: Config | c.w > 0 witness Config(1, a => 0)

  /** The exclusive or of the n low bits of x and y. */
  function XorBits(x: nat, y: nat, n: nat): (r: nat)
    ensures r < Pow2(n)
  {
    if n == 0 then 0 else (x + y) % 2 + 2 * XorBits(x / 2, y / 2, n - 1)
  }

  /** The lock byte used for an address: six of its bits exclusive-or six others. */
  function LockIndex(a: Addr): (i: nat)
    ensures i < 64
  {
    assert Pow2(6) == 64;
    XorBits(a / 4, a / 4096, 6)
  }

  lemma {:induction false} XorNothing(x: nat, n: nat)
    requires x < Pow2(n)
    ensures XorBits(x, 0, n) == x
  {
    if n > 0 { XorNothing(x / 2, n - 1); }
  }

  lemma {:induction false} XorHighBits(k: nat, y: nat, n: nat)
    requires y < Pow2(n)
    ensures XorBits(k * Pow2(n), y, n) == y
  {
    if n > 0 {
      HalfOf(k, Pow2(n - 1));
      XorHighBits(k, y / 2, n - 1);
      XorHalves(k * Pow2(n), y, n);
    }
  }

  lemma {:induction false} XorHalves(x: nat, y: nat, n: nat)
    requires n > 0 && x % 2 == 0 && XorBits(x / 2, y / 2, n - 1) == y / 2
    ensures XorBits(x, y, n) == y
  {
    EvenPlus(x, y);
    DivMod(y, 2);
  }

  lemma EvenPlus(x: nat, y: nat)
    requires x % 2 == 0
    ensures (x + y) % 2 == y % 2
  {}

  lemma HalfOf(k: nat, p: nat)
    ensures k * (2 * p) % 2 == 0 && k * (2 * p) / 2 == k * p
  {
    assert k * (2 * p) == 2 * (k * p);
  }

  lemma LockBits(a: Addr, n: nat)
    requires n == 6
    ensures Pow2(n) == 64 && LockIndex(a) == XorBits(a / 4, a / 4096, n)
  {
    assert Pow2(6) == 64;
  }

  lemma WordBits(a: Addr, i: nat, n: nat)
    requires Pow2(n) == 64 && i < 64 && a == 4 * i
    ensures XorBits(a / 4, a / 4096, n) == i
  {
    assert a / 4 == i && a / 4096 == 0;
    XorNothing(i, n);
  }

  lemma PageBits(a: Addr, i: nat, n: nat)
    requires Pow2(n) == 64 && i < 64 && a == 4096 * i
    ensures XorBits(a / 4, a / 4096, n) == i
  {
    assert a / 4 == 16 * i * Pow2(n) && a / 4096 == i;
    XorHighBits(16 * i, i, n);
  }

  /** The first 64 words have a lock each, in order, and so have the first 64 pages. */
  lemma LocksInOrder(a: Addr, i: nat)
    requires i < 64 && (a == 4 * i || a == 4096 * i)
    ensures LockIndex(a) == i
  {
    var n: nat :| n == 6;
    LockBits(a, n);
    if a == 4 * i { WordBits(a, i, n); } else { PageBits(a, i, n); }
  }

  /** Distinct words may share a lock. */
  lemma AddressesShareALock()
    ensures LockIndex(0) == LockIndex(4100)
  {
    assert XorBits(0, 0, 6) == 0;
    assert XorBits(1025, 1, 6) == 2 * XorBits(512, 0, 5);
    assert XorBits(512, 0, 5) == 2 * XorBits(256, 0, 4);
    assert XorBits(256, 0, 4) == 2 * XorBits(128, 0, 3);
    assert XorBits(128, 0, 3) == 2 * XorBits(64, 0, 2);
    assert XorBits(64, 0, 2) == 0;
  }

  datatype Pc =
    | Idle
    | Reread(op: Op)
    // spinning on the lock byte
    | Spin(op: Op, old_: Word, new_: Word)
    // lock held: about to read the word
    | Fetch(op: Op, old_: Word, new_: Word)
    // lock held: about to compare and, if equal, write
    | Store(op: Op, old_: Word, new_: Word, seen: Word)
    // lock held: about to clear the lock byte
    | Unlock(op: Op, old_: Word, seen: Word)
    // the compare-and-exchange has returned
    | Back(op: Op, old_: Word, seen: Word)
    | Done(op: Op, ret: Word)

  datatype Machine = Machine(mem: Mem, locks: set<nat>, pcs: map<Thread, Pc>)

  function PcOf(s: Machine, t: Thread): Pc {
    if t in s.pcs then s.pcs[t] else Idle
  }

  /** Control points of the loops, with the compare-and-exchange about to be called. */
  function Lift(pc: RetryLoops.Pc): Pc {
    match pc
    case Idle => Idle
    case Reread(op) => Reread(op)
    case Cas(op, o, n) => Spin(op, o, n)
    case Back(op, o, seen) => Back(op, o, seen)
    case Done(op, ret) => Done(op, ret)
  }

  predicate Enabled(s: Machine, a: Action) {
    match a
    case Invoke(t, _) => PcOf(s, t).Idle?
    case Return(t, op, ret) => PcOf(s, t) == Done(op, ret)
    case Tau(t) => !PcOf(s, t).Idle? && !PcOf(s, t).Done?
  }

  function Go(s: Machine, t: Thread, pc: Pc): Machine {
    s.(pcs := s.pcs[t := pc])
  }

  function Apply(c: Cfg, s: Machine, a: Action): Machine
    requires Enabled(s, a)
  {
    match a
    case Invoke(t, op) => Go(s, t, Lift(RetryLoops.Entry(op)))
    case Return(t, _, _) => Go(s, t, Idle)
    case Tau(t) =>
      match PcOf(s, t)
      case Reread(op) => Go(s, t, Lift(RetryLoops.AfterRead(c.w, op, Read(s.mem, op.a))))
      case Spin(op, o, n) =>
        // the byte is set whatever it was; only the thread that found it clear goes on
        var s' := s.(locks := s.locks + {c.lockOf(op.a)});
        if c.lockOf(op.a) in s.locks then s' else Go(s', t, Fetch(op, o, n))
      case Fetch(op, o, n) => Go(s, t, Store(op, o, n, Read(s.mem, op.a)))
      case Store(op, o, n, seen) =>
        Go(s.(mem := if seen == o then Write(s.mem, op.a, n) else s.mem), t, Unlock(op, o, seen))
      case Unlock(op, o, seen) => Go(s.(locks := s.locks - {c.lockOf(op.a)}), t, Back(op, o, seen))
      case Back(op, o, seen) => Go(s, t, Lift(RetryLoops.AfterCas(c.w, op, o, seen)))
      case _ => s
  }

  ghost predicate IsRun(c: Cfg, s: Machine, run: seq<Action>)
    decreases |run|
  {
    run != [] ==> Enabled(s, run[0]) && IsRun(c, Apply(c, s, run[0]), run[1..])
  }

  ghost function After(c: Cfg, s: Machine, run: seq<Action>): Machine
    requires IsRun(c, s, run)
    decreases |run|
  {
    if run == [] then s else After(c, Apply(c, s, run[0]), run[1..])
  }

  // ----- mutual exclusion -----

  predicate Holds(pc: Pc) {
    pc.Fetch? || pc.Store? || pc.Unlock?
  }

  predicate Holder(c: Cfg, s: Machine, t: Thread, i: nat) {
    var pc := PcOf(s, t);
    Holds(pc) && c.lockOf(pc.op.a) == i
  }

  /** A lock byte is set exactly while one thread is between its two ends. */
  ghost predicate Exclusion(c: Cfg, s: Machine) {
    && (forall t, i :: Holder(c, s, t, i) ==> i in s.locks)
    && (forall t, u, i :: Holder(c, s, t, i) && Holder(c, s, u, i) ==> t == u)
    && (forall i :: i in s.locks ==> exists t :: Holder(c, s, t, i))
  }

  /** What a thread has read under its lock is still there. */
  ghost predicate Fresh(s: Machine) {
    forall t :: t in s.pcs && s.pcs[t].Store? ==> Read(s.mem, s.pcs[t].op.a) == s.pcs[t].seen
  }

  ghost predicate Inv(c: Cfg, s: Machine) {
    Exclusion(c, s) && Fresh(s)
  }

  // ----- refinement -----

  ghost function AbsPc(pc: Pc): RetryLoops.Pc {
    match pc
    case Idle => RetryLoops.Idle
    case Reread(op) => RetryLoops.Reread(op)
    case Spin(op, o, n) => RetryLoops.Cas(op, o, n)
    case Fetch(op, o, n) => RetryLoops.Cas(op, o, n)
    case Store(op, o, n, _) => RetryLoops.Cas(op, o, n)
    case Unlock(op, o, seen) => RetryLoops.Back(op, o, seen)
    case Back(op, o, seen) => RetryLoops.Back(op, o, seen)
    case Done(op, ret) => RetryLoops.Done(op, ret)
  }

  ghost function Abs(s: Machine): RetryLoops.Loops {
    RetryLoops.Loops(s.mem, map t | t in s.pcs :: AbsPc(s.pcs[t]))
  }

  /** The steps that only handle a lock. */
  ghost predicate LockStep(s: Machine, a: Action) {
    a.Tau? && (PcOf(s, a.t).Spin? || PcOf(s, a.t).Fetch? || PcOf(s, a.t).Unlock?)
  }

  /** The three ways a step can touch the locks: not at all, taking one, giving one back. */
  lemma LockEffect(c: Cfg, s: Machine, a: Action)
    requires Enabled(s, a)
    ensures var s' := Apply(c, s, a);
      || (s'.locks == s.locks && forall i :: Holder(c, s', a.t, i) == Holder(c, s, a.t, i))
      || (exists i :: i !in s.locks && s'.locks == s.locks + {i}
            && forall j :: !Holder(c, s, a.t, j) && (Holder(c, s', a.t, j) <==> j == i))
      || (exists i :: s'.locks == s.locks - {i}
            && forall j :: !Holder(c, s', a.t, j) && (Holder(c, s, a.t, j) <==> j == i))
  {
    var s' := Apply(c, s, a);
    var pc := PcOf(s, a.t);
    if a.Tau? && pc.Spin? && c.lockOf(pc.op.a) !in s.locks {
      var i := c.lockOf(pc.op.a);
      assert i !in s.locks && s'.locks == s.locks + {i};
    } else if a.Tau? && pc.Unlock? {
      var i := c.lockOf(pc.op.a);
      assert s'.locks == s.locks - {i};
    } else {
      assert s'.locks == s.locks;
    }
  }

  lemma StepKeepsExclusion(c: Cfg, s: Machine, a: Action)
    requires Exclusion(c, s) && Enabled(s, a)
    ensures Exclusion(c, Apply(c, s, a))
  {
    var s' := Apply(c, s, a);
    LockEffect(c, s, a);
    assert forall u, i :: u != a.t ==> Holder(c, s', u, i) == Holder(c, s, u, i);
    forall u, i | Holder(c, s', u, i)
      ensures i in s'.locks
    {
      if u != a.t {
        assert !Holder(c, s, a.t, i);
      }
    }
    forall i | i in s'.locks
      ensures exists t :: Holder(c, s', t, i)
    {
      if i in s.locks {
        var t :| Holder(c, s, t, i);
        assert Holder(c, s', t, i);
      } else {
        assert Holder(c, s', a.t, i);
      }
    }
  }

  lemma StepKeepsFresh(c: Cfg, s: Machine, a: Action)
    requires Inv(c, s) && Enabled(s, a)
    ensures Fresh(Apply(c, s, a))
  {
    var s', t := Apply(c, s, a), a.t;
    forall u | u in s'.pcs && s'.pcs[u].Store?
      ensures Read(s'.mem, s'.pcs[u].op.a) == s'.pcs[u].seen
    {
      if u != t {
        assert Holder(c, s, u, c.lockOf(s.pcs[u].op.a));
        assert Holds(PcOf(s, t)) ==> Holder(c, s, t, c.lockOf(PcOf(s, t).op.a));
      }
    }
  }

  lemma AbsGo(s: Machine, s': Machine, t: Thread)
    requires s'.pcs == s.pcs[t := PcOf(s', t)]
    ensures Abs(s').pcs == Abs(s).pcs[t := AbsPc(PcOf(s', t))]
    ensures RetryLoops.PcOf(Abs(s), t) == AbsPc(PcOf(s, t))
  {}

  /** The steps that handle the lock change nothing the loops can see. */
  lemma LockStepIsInvisible(c: Cfg, s: Machine, a: Action)
    requires Enabled(s, a) && LockStep(s, a)
    ensures Abs(Apply(c, s, a)) == Abs(s)
  {
    var x, s' := Abs(s), Apply(c, s, a);
    assert a.t in x.pcs;
    if s'.pcs != s.pcs {
      AbsGo(s, s', a.t);
      assert x.pcs[a.t] == AbsPc(PcOf(s', a.t));
    }
  }

  /** The step that compares and writes finds in memory what it read under the lock. */
  lemma StoreIsCas(c: Cfg, s: Machine, t: Thread)
    requires Fresh(s) && PcOf(s, t).Store?
    ensures var x := Abs(s);
      RetryLoops.Enabled(x, Tau(t)) && RetryLoops.Apply(c.w, x, Tau(t)) == Abs(Apply(c, s, Tau(t)))
  {
    AbsGo(s, Apply(c, s, Tau(t)), t);
  }

  /** All others are steps of the loops. */
  lemma LoopStepIsSame(c: Cfg, s: Machine, a: Action)
    requires Enabled(s, a) && !LockStep(s, a) && !(a.Tau? && PcOf(s, a.t).Store?)
    ensures RetryLoops.Enabled(Abs(s), a) && RetryLoops.Apply(c.w, Abs(s), a) == Abs(Apply(c, s, a))
  {
    AbsGo(s, Apply(c, s, a), a.t);
  }

  /** Only the step that compares and writes is a compare-and-exchange; the steps that handle the
      lock are invisible. */
  lemma StepRefines(c: Cfg, s: Machine, a: Action)
    requires Inv(c, s) && Enabled(s, a)
    ensures var x, x' := Abs(s), Abs(Apply(c, s, a));
      if LockStep(s, a) then x' == x else RetryLoops.Enabled(x, a) && RetryLoops.Apply(c.w, x, a) == x'
  {
    if LockStep(s, a) {
      LockStepIsInvisible(c, s, a);
    } else if a.Tau? && PcOf(s, a.t).Store? {
      StoreIsCas(c, s, a.t);
    } else {
      LoopStepIsSame(c, s, a);
    }
  }
}
