/** The atomic operations, and what each of them means when it happens all at once.
    Words are w bits wide and signed. */
module AtomicOps {
  import opened WordArith

  type Thread = nat
  type Addr = a: nat | a < 0x1_0000_0000
  type Word = int
  type Mem = map<Addr, Word>

  datatype Op =
    | CasVal(a: Addr, new_: Word, old_: Word)
    | CasBool(a: Addr, new_: Word, old_: Word)
    | Exchange(a: Addr, v: Word)
    | Add(a: Addr, v: Word)
    | DecIfPositive(a: Addr)
    | BitTestSet(a: Addr, bit: nat)
  {
    predicate Cas?() {
      CasVal? || CasBool?
    }
  }

  function Read(m: Mem, a: Addr): Word {
    if a in m then m[a] else 0
  }

  /** Memory with v at a; storing the value already there leaves it as it is. */
  function Write(m: Mem, a: Addr, v: Word): (r: Mem)
    ensures forall b :: Read(r, b) == if b == a then v else Read(m, b)
  {
    if Read(m, a) == v then m else m[a := v]
  }

  /** What the operation makes of a word. */
  function Stores(w: nat, op: Op, cur: Word): Word
    requires w > 0
  {
    match op
    case CasVal(_, n, o) => if cur == o then n else cur
    case CasBool(_, n, o) => if cur == o then n else cur
    case Exchange(_, v) => v
    case Add(_, v) => Wrap(w, cur + v)
    case DecIfPositive(_) => if cur > 0 then cur - 1 else cur
    case BitTestSet(_, b) => SetBit(w, cur, b)
  }

  /** What the operation returns, given the word it found. */
  function Returns(w: nat, op: Op, cur: Word): Word
    requires w > 0
  {
    match op
    case CasBool(_, _, o) => if cur == o then 0 else 1
    case BitTestSet(_, b) => if BitIsSet(cur, b) then Wrap(w, Pow2(b)) else 0
    case _ => cur
  }

  /** What threads do: call, return with a result, or take an internal step. */
  datatype Action =
    | Invoke(t: Thread, op: Op)
    | Return(t: Thread, op: Op, ret: Word)
    | Tau(t: Thread)

  function Visible(run: seq<Action>): seq<Action> {
    if run == [] then []
    else if run[0].Tau? then Visible(run[1..])
    else [run[0]] + Visible(run[1..])
  }

  // ----- every operation in one step -----

  datatype Call = Quiet | Called(op: Op) | Answered(op: Op, ret: Word)

  datatype Atomic = Atomic(mem: Mem, calls: map<Thread, Call>)

  function CallOf(s: Atomic, t: Thread): Call {
    if t in s.calls then s.calls[t] else Quiet
  }

  predicate Enabled(s: Atomic, a: Action) {
    match a
    case Invoke(t, _) => CallOf(s, t).Quiet?
    case Return(t, op, ret) => CallOf(s, t) == Answered(op, ret)
    case Tau(t) => CallOf(s, t).Called?
  }

  function Apply(w: nat, s: Atomic, a: Action): Atomic
    requires w > 0 && Enabled(s, a)
  {
    match a
    case Invoke(t, op) => s.(calls := s.calls[t := Called(op)])
    case Return(t, _, _) => s.(calls := s.calls[t := Quiet])
    case Tau(t) =>
      var op := CallOf(s, t).op;
      var cur := Read(s.mem, op.a);
      Atomic(Write(s.mem, op.a, Stores(w, op, cur)), s.calls[t := Answered(op, Returns(w, op, cur))])
  }

  ghost predicate IsRun(w: nat, s: Atomic, run: seq<Action>)
    requires w > 0
    decreases |run|
  {
    run != [] ==> Enabled(s, run[0]) && IsRun(w, Apply(w, s, run[0]), run[1..])
  }

  ghost function After(w: nat, s: Atomic, run: seq<Action>): Atomic
    requires w > 0 && IsRun(w, s, run)
    decreases |run|
  {
    if run == [] then s else After(w, Apply(w, s, run[0]), run[1..])
  }
}
