/** What the atomic operations leave and return, over every interleaving from rest to rest. */
module AtomicResults {
  import opened WordArith
  import opened AtomicOps
  import opened HashedLocks
  import opened AtomicRuns

  // ----- sums over events do not depend on their order -----

  function Sum(f: Event -> int, log: seq<Event>): int {
    if log == [] then 0 else f(log[0]) + Sum(f, log[1..])
  }

  lemma {:induction false} SumConcat(f: Event -> int, xs: seq<Event>, ys: seq<Event>)
    ensures Sum(f, xs + ys) == Sum(f, xs) + Sum(f, ys)
  {
    if xs == [] {
      assert xs + ys == ys;
    } else {
      assert (xs + ys)[1..] == xs[1..] + ys;
      SumConcat(f, xs[1..], ys);
    }
  }

  /** Taking one event out. */
  lemma WithoutOne(f: Event -> int, ys: seq<Event>, i: nat)
    requires i < |ys|
    ensures var r := ys[..i] + ys[i + 1..];
      multiset(ys) == multiset{ys[i]} + multiset(r) && Sum(f, ys) == f(ys[i]) + Sum(f, r)
  {
    var a, b := ys[..i], ys[i + 1..];
    assert ys == a + ([ys[i]] + b);
    SumConcat(f, a, [ys[i]] + b);
    SumConcat(f, a, b);
    assert ([ys[i]] + b)[1..] == b;
  }

  lemma CancelOne(e: Event, x: multiset<Event>, y: multiset<Event>)
    requires multiset{e} + x == multiset{e} + y
    ensures x == y
  {
    assert x == multiset{e} + x - multiset{e};
    assert y == multiset{e} + y - multiset{e};
  }

  lemma FindIn(e: Event, ys: seq<Event>) returns (i: nat)
    requires e in multiset(ys)
    ensures i < |ys| && ys[i] == e
  {
    assert e in ys;
    i :| 0 <= i < |ys| && ys[i] == e;
  }

  /** The first event of one order, where it stands in the other, and what is left of both. */
  lemma MatchFirst(f: Event -> int, xs: seq<Event>, ys: seq<Event>) returns (i: nat)
    requires multiset(xs) == multiset(ys) && xs != []
    ensures i < |ys| && ys[i] == xs[0]
    ensures multiset(xs[1..]) == multiset(ys[..i] + ys[i + 1..])
    ensures Sum(f, ys) == f(xs[0]) + Sum(f, ys[..i] + ys[i + 1..])
  {
    assert xs[0] in multiset(xs);
    i := FindIn(xs[0], ys);
    WithoutOne(f, xs, 0);
    WithoutOne(f, ys, i);
    assert xs[..0] + xs[1..] == xs[1..];
    CancelOne(xs[0], multiset(xs[1..]), multiset(ys[..i] + ys[i + 1..]));
  }

  lemma {:induction false} SumPermuted(f: Event -> int, xs: seq<Event>, ys: seq<Event>)
    requires multiset(xs) == multiset(ys)
    ensures Sum(f, xs) == Sum(f, ys)
  {
    if xs == [] {
      assert |multiset(ys)| == 0;
    } else {
      var i := MatchFirst(f, xs, ys);
      SumPermuted(f, xs[1..], ys[..i] + ys[i + 1..]);
    }
  }

  /** What an event adds to the word at a. */
  function Added(a: Addr): Event -> int {
    (e: Event) => if e.op.Add? && e.op.a == a then e.op.v else 0
  }

  /** Whether an event on a returned x. */
  function Returned(a: Addr, x: Word): Event -> int {
    (e: Event) => if e.op.a == a && e.ret == x then 1 else 0
  }

  /** Whether an event put x into the word at a. */
  function Put(a: Addr, x: Word): Event -> int {
    (e: Event) => if e.op.Exchange? && e.op.a == a && e.op.v == x then 1 else 0
  }

  /** Whether an event on a returned a positive value. */
  function Granted(a: Addr): Event -> int {
    (e: Event) => if e.op.a == a && e.ret > 0 then 1 else 0
  }

  function On(a: Addr): Event -> int {
    (e: Event) => if e.op.a == a then 1 else 0
  }

  predicate IsAdd(op: Op) {
    op.Add?
  }

  predicate IsDecrement(op: Op) {
    op.DecIfPositive?
  }

  predicate IsExchange(op: Op) {
    op.Exchange?
  }

  function IsOp(x: Op): Op -> bool {
    (op: Op) => op == x
  }

  /** Every event on a satisfies p. */
  predicate AllOn(log: seq<Event>, a: Addr, p: Op -> bool) {
    forall e :: e in log && e.op.a == a ==> p(e.op)
  }

  lemma AllOnPermuted(xs: seq<Event>, ys: seq<Event>, a: Addr, p: Op -> bool)
    requires multiset(xs) == multiset(ys) && AllOn(ys, a, p)
    ensures AllOn(xs, a, p)
  {
    forall e | e in xs && e.op.a == a
      ensures p(e.op)
    {
      assert e in multiset(xs);
    }
  }

  // ----- additions -----

  ghost predicate IsWord(w: nat, x: int)
    requires w > 0
  {
    Wrap(w, x) == x
  }

  lemma {:induction false} SequentialAdds(w: nat, m: Mem, log: seq<Event>, m': Mem, a: Addr)
    requires w > 0 && Sequential(w, m, log, m')
    requires IsWord(w, Read(m, a)) && AllOn(log, a, IsAdd)
    ensures Read(m', a) == Wrap(w, Read(m, a) + Sum(Added(a), log))
    decreases |log|
  {
    if log != [] {
      var e := log[0];
      var m1 := Write(m, e.op.a, Stores(w, e.op, Read(m, e.op.a)));
      assert forall f :: f in log[1..] ==> f in log;
      if e.op.a == a {
        WrapAdd(w, Read(m, a) + e.op.v, 0);
        WrapAdd(w, Read(m, a) + e.op.v, Sum(Added(a), log[1..]));
      }
      SequentialAdds(w, m1, log[1..], m', a);
    }
  }

  lemma AddsInAnyOrder(w: nat, m: Mem, log: seq<Event>, m': Mem, a: Addr, answers: seq<Event>)
    requires w > 0 && Sequential(w, m, log, m') && multiset(log) == multiset(answers)
    requires IsWord(w, Read(m, a)) && AllOn(answers, a, IsAdd)
    ensures Read(m', a) == Wrap(w, Read(m, a) + Sum(Added(a), answers))
  {
    AllOnPermuted(log, answers, a, IsAdd);
    SequentialAdds(w, m, log, m', a);
    SumPermuted(Added(a), log, answers);
  }

  /** Any interleaving of additions leaves the word equal to what it held plus everything added,
      modulo its width. */
  lemma AdditionsAreConserved(c: Cfg, mem: Mem, run: seq<Action>, a: Addr)
    requires FullRun(c, mem, run)
    requires IsWord(c.w, Read(mem, a)) && AllOn(Answers(run), a, IsAdd)
    ensures Read(Left(c, mem, run), a)
         == Wrap(c.w, Read(mem, a) + Sum(Added(a), Answers(run)))
  {
    var log := OneOrder(c, mem, run);
    AddsInAnyOrder(c.w, mem, log, Left(c, mem, run), a, Answers(run));
  }

  // ----- unit increments hand out distinct values -----

  predicate Kth(w: nat, x: Word, from: Word, k: int)
    requires w > 0
  {
    x == Wrap(w, from + k)
  }

  /** One if x is among the n words from `from` on, else zero. */
  function Among(w: nat, x: Word, from: Word, n: nat): int
    requires w > 0
  {
    if exists k :: 0 <= k < n && Kth(w, x, from, k) then 1 else 0
  }

  lemma AmongNext(w: nat, x: Word, from: Word, n: nat)
    requires w > 0 && n < Pow2(w) && IsWord(w, from)
    ensures Among(w, x, from, n + 1) == (if x == from then 1 else 0) + Among(w, x, Wrap(w, from + 1), n)
  {
    var next := Wrap(w, from + 1);
    forall k | 0 <= k < n && Kth(w, x, next, k)
      ensures Kth(w, x, from, k + 1) && x != from
    {
      WrapAdd(w, from + 1, k);
      if x == from {
        WrapInjective(w, from, 0, k + 1);
      }
    }
    forall k | 0 <= k < n + 1 && Kth(w, x, from, k)
      ensures if k == 0 then x == from else Kth(w, x, next, k - 1)
    {
      WrapAdd(w, from + 1, k - 1);
    }
    if x == from {
      assert Kth(w, x, from, 0);
    }
  }

  lemma {:induction false} SequentialTickets(w: nat, m: Mem, log: seq<Event>, m': Mem, a: Addr, x: Word)
    requires w > 0 && Sequential(w, m, log, m')
    requires IsWord(w, Read(m, a)) && AllOn(log, a, IsOp(Add(a, 1)))
    requires Sum(On(a), log) <= Pow2(w)
    ensures Sum(On(a), log) >= 0
    ensures Sum(Returned(a, x), log) == Among(w, x, Read(m, a), Sum(On(a), log))
    decreases |log|
  {
    CountNonNegative(a, log);
    if log != [] {
      var e := log[0];
      var m1 := Write(m, e.op.a, Stores(w, e.op, Read(m, e.op.a)));
      assert forall f :: f in log[1..] ==> f in log;
      CountNonNegative(a, log[1..]);
      if e.op.a == a {
        WrapAdd(w, Read(m, a) + 1, 0);
        AmongNext(w, x, Read(m, a), Sum(On(a), log[1..]));
      }
      SequentialTickets(w, m1, log[1..], m', a, x);
    }
  }

  lemma {:induction false} CountNonNegative(a: Addr, log: seq<Event>)
    ensures Sum(On(a), log) >= 0
  {
    if log != [] {
      CountNonNegative(a, log[1..]);
    }
  }

  /** Concurrent unit increments, as long as they are no more than there are words, return each of
      the values from the first one on exactly once. */
  lemma IncrementsReturnDistinctValues(c: Cfg, mem: Mem, run: seq<Action>, a: Addr, x: Word)
    requires FullRun(c, mem, run)
    requires IsWord(c.w, Read(mem, a)) && AllOn(Answers(run), a, IsOp(Add(a, 1)))
    requires Sum(On(a), Answers(run)) <= Pow2(c.w)
    ensures Sum(On(a), Answers(run)) >= 0
    ensures Sum(Returned(a, x), Answers(run)) == Among(c.w, x, Read(mem, a), Sum(On(a), Answers(run)))
  {
    var log := OneOrder(c, mem, run);
    AllOnPermuted(log, Answers(run), a, IsOp(Add(a, 1)));
    SumPermuted(On(a), log, Answers(run));
    SumPermuted(Returned(a, x), log, Answers(run));
    SequentialTickets(c.w, mem, log, Left(c, mem, run), a, x);
  }

  // ----- decrement if positive -----

  lemma {:induction false} SequentialDecrements(w: nat, m: Mem, log: seq<Event>, m': Mem, a: Addr)
    requires w > 0 && Sequential(w, m, log, m')
    requires Read(m, a) >= 0 && AllOn(log, a, IsDecrement)
    ensures 0 <= Read(m', a) <= Read(m, a)
    ensures Sum(Granted(a), log) == Read(m, a) - Read(m', a)
    ensures Read(m', a) > 0 ==> Sum(Granted(a), log) == Sum(On(a), log)
    ensures Sum(Granted(a), log) <= Sum(On(a), log)
    decreases |log|
  {
    if log != [] {
      var e := log[0];
      var m1 := Write(m, e.op.a, Stores(w, e.op, Read(m, e.op.a)));
      assert forall f :: f in log[1..] ==> f in log;
      SequentialDecrements(w, m1, log[1..], m', a);
    }
  }

  /** Of any number of concurrent decrements, exactly as many succeed as the word allowed, and the
      word goes down by that many. */
  lemma DecrementsGrantWhatIsThere(c: Cfg, mem: Mem, run: seq<Action>, a: Addr)
    requires FullRun(c, mem, run)
    requires Read(mem, a) >= 0 && AllOn(Answers(run), a, IsDecrement)
    ensures
      var left, tries := Read(Left(c, mem, run), a), Sum(On(a), Answers(run));
      var granted := Sum(Granted(a), Answers(run));
      && granted == (if tries <= Read(mem, a) then tries else Read(mem, a))
      && left == Read(mem, a) - granted
  {
    var log := OneOrder(c, mem, run);
    AllOnPermuted(log, Answers(run), a, IsDecrement);
    SumPermuted(On(a), log, Answers(run));
    SumPermuted(Granted(a), log, Answers(run));
    SequentialDecrements(c.w, mem, log, Left(c, mem, run), a);
  }

  lemma {:induction false} SequentialCountdown(w: nat, m: Mem, log: seq<Event>, m': Mem, a: Addr, x: Word)
    requires w > 0 && Sequential(w, m, log, m') && AllOn(log, a, IsDecrement)
    ensures Read(m, a) > 0 ==> 0 <= Read(m', a) <= Read(m, a)
    ensures Read(m, a) <= 0 ==> Read(m', a) == Read(m, a)
    ensures x > 0 ==> Sum(Returned(a, x), log) == if Read(m', a) < x <= Read(m, a) then 1 else 0
    ensures x <= 0 && x != Read(m', a) ==> Sum(Returned(a, x), log) == 0
    decreases |log|
  {
    if log != [] {
      var e := log[0];
      var m1 := Write(m, e.op.a, Stores(w, e.op, Read(m, e.op.a)));
      assert forall f :: f in log[1..] ==> f in log;
      SequentialCountdown(w, m1, log[1..], m', a, x);
    }
  }

  /** The successful ones return the values from the one there before down to the one left, each once;
      the others return what is left. A word that is not positive stays. */
  lemma DecrementsCountDown(c: Cfg, mem: Mem, run: seq<Action>, a: Addr, x: Word)
    requires FullRun(c, mem, run)
    requires AllOn(Answers(run), a, IsDecrement)
    ensures var was, left := Read(mem, a), Read(Left(c, mem, run), a);
      && (was <= 0 ==> left == was)
      && (x > 0 ==> Sum(Returned(a, x), Answers(run)) == if left < x <= was then 1 else 0)
      && (x <= 0 && x != left ==> Sum(Returned(a, x), Answers(run)) == 0)
  {
    var log := OneOrder(c, mem, run);
    AllOnPermuted(log, Answers(run), a, IsDecrement);
    SumPermuted(Returned(a, x), log, Answers(run));
    SequentialCountdown(c.w, mem, log, Left(c, mem, run), a, x);
  }

  ghost predicate Invokes(run: seq<Action>, a: Addr, p: Op -> bool) {
    forall x :: x in run && x.Invoke? && x.op.a == a ==> p(x.op)
  }

  ghost predicate CalledOk(s: Atomic, a: Addr, p: Op -> bool) {
    forall t :: CallOf(s, t).Called? && CallOf(s, t).op.a == a ==> p(CallOf(s, t).op)
  }

  lemma {:induction false} LogFromCalls(w: nat, s: Atomic, run: seq<Action>, a: Addr, p: Op -> bool)
    requires w > 0 && AtomicOps.IsRun(w, s, run) && Invokes(run, a, p) && CalledOk(s, a, p)
    ensures AllOn(Log(w, s, run), a, p)
    decreases |run|
  {
    if run != [] {
      assert run[0] in run;
      assert forall x :: x in run[1..] ==> x in run;
      var s' := AtomicOps.Apply(w, s, run[0]);
      forall t | CallOf(s', t).Called? && CallOf(s', t).op.a == a
        ensures p(CallOf(s', t).op)
      {
        assert t != run[0].t ==> CallOf(s', t) == CallOf(s, t);
      }
      LogFromCalls(w, s', run[1..], a, p);
    }
  }

  lemma {:induction false} LowerWithin(c: Cfg, s: Machine, run: seq<Action>)
    requires HashedLocks.IsRun(c, s, run)
    ensures forall x :: x in Lower(c, s, run) ==> x in run
    decreases |run|
  {
    if run != [] {
      LowerWithin(c, HashedLocks.Apply(c, s, run[0]), run[1..]);
      assert run[0] in run;
      assert forall x :: x in run[1..] ==> x in run;
    }
  }

  /** At no point of any run, finished or not, have decrements taken the word below zero. */
  lemma NeverBelowZero(c: Cfg, mem: Mem, run: seq<Action>, a: Addr)
    requires HashedLocks.IsRun(c, Rest(mem), run)
    requires Read(mem, a) >= 0 && Invokes(run, a, IsDecrement)
    ensures 0 <= Read(Left(c, mem, run), a) <= Read(mem, a)
  {
    RestOk(c, mem);
    RunRefines(c, Rest(mem), run);
    LowerWithin(c, Rest(mem), run);
    var x, low := AbsAll(c, Rest(mem)), Lower(c, Rest(mem), run);
    LogFromCalls(c.w, x, low, a, IsDecrement);
    LogIsSequential(c.w, x, low);
    SequentialDecrements(c.w, mem, Log(c.w, x, low), Left(c, mem, run), a);
  }

  // ----- exchanges -----

  function Is(x: Word, y: Word): int {
    if x == y then 1 else 0
  }

  lemma {:induction false} SequentialExchanges(w: nat, m: Mem, log: seq<Event>, m': Mem, a: Addr, x: Word)
    requires w > 0 && Sequential(w, m, log, m') && AllOn(log, a, IsExchange)
    ensures Is(Read(m, a), x) + Sum(Put(a, x), log) == Sum(Returned(a, x), log) + Is(Read(m', a), x)
    decreases |log|
  {
    if log != [] {
      var e := log[0];
      var m1 := Write(m, e.op.a, Stores(w, e.op, Read(m, e.op.a)));
      assert forall f :: f in log[1..] ==> f in log;
      SequentialExchanges(w, m1, log[1..], m', a, x);
    }
  }

  /** Concurrent exchanges lose and duplicate nothing: the values put in, with the one that was
      there, are the values returned, with the one left. */
  lemma ExchangesLoseNothing(c: Cfg, mem: Mem, run: seq<Action>, a: Addr, x: Word)
    requires FullRun(c, mem, run)
    requires AllOn(Answers(run), a, IsExchange)
    ensures Is(Read(mem, a), x) + Sum(Put(a, x), Answers(run))
         == Sum(Returned(a, x), Answers(run)) + Is(Read(Left(c, mem, run), a), x)
  {
    var log := OneOrder(c, mem, run);
    AllOnPermuted(log, Answers(run), a, IsExchange);
    SumPermuted(Put(a, x), log, Answers(run));
    SumPermuted(Returned(a, x), log, Answers(run));
    SequentialExchanges(c.w, mem, log, Left(c, mem, run), a, x);
  }

  /** Additions on a that answer that they found x, and those that left it there. */
  function AddLeft(w: nat, a: Addr, x: Word): Event -> int
    requires w > 0
  {
    (e: Event) => if e.op.Add? && e.op.a == a && Wrap(w, e.ret + e.op.v) == x then 1 else 0
  }

  lemma {:induction false} SequentialSums(w: nat, m: Mem, log: seq<Event>, m': Mem, a: Addr, x: Word)
    requires w > 0 && Sequential(w, m, log, m') && AllOn(log, a, IsAdd)
    ensures Is(Read(m, a), x) + Sum(AddLeft(w, a, x), log) == Sum(Returned(a, x), log) + Is(Read(m', a), x)
    decreases |log|
  {
    if log != [] {
      var e := log[0];
      var m1 := Write(m, e.op.a, Stores(w, e.op, Read(m, e.op.a)));
      assert forall f :: f in log[1..] ==> f in log;
      SequentialSums(w, m1, log[1..], m', a, x);
    }
  }

  /** The answers of concurrent additions form a chain: what one found and its own sum is what the next
      found, from the value there before to the one left. */
  lemma AdditionsAreChained(c: Cfg, mem: Mem, run: seq<Action>, a: Addr, x: Word)
    requires FullRun(c, mem, run)
    requires AllOn(Answers(run), a, IsAdd)
    ensures Is(Read(mem, a), x) + Sum(AddLeft(c.w, a, x), Answers(run))
         == Sum(Returned(a, x), Answers(run)) + Is(Read(Left(c, mem, run), a), x)
  {
    var log := OneOrder(c, mem, run);
    AllOnPermuted(log, Answers(run), a, IsAdd);
    SumPermuted(AddLeft(c.w, a, x), log, Answers(run));
    SumPermuted(Returned(a, x), log, Answers(run));
    SequentialSums(c.w, mem, log, Left(c, mem, run), a, x);
  }

  // ----- compare-and-exchange -----

  /** What the caller of a compare-and-exchange takes for success: the value expected came back, or
      the flag is zero. */
  predicate Succeeded(e: Event) {
    (e.op.CasVal? && e.ret == e.op.old_) || (e.op.CasBool? && e.ret == 0)
  }

  predicate IsCas(op: Op) {
    op.CasVal? || op.CasBool?
  }

  /** Successes on a that ask for x, and those that put it there. */
  function TookOut(a: Addr, x: Word): Event -> int {
    (e: Event) => if e.op.a == a && IsCas(e.op) && Succeeded(e) && e.op.old_ == x then 1 else 0
  }

  function PutIn(a: Addr, x: Word): Event -> int {
    (e: Event) => if e.op.a == a && IsCas(e.op) && Succeeded(e) && e.op.new_ == x then 1 else 0
  }

  /** What one compare-and-exchange does, told from what it answers. */
  lemma CasAnswer(w: nat, op: Op, cur: Word)
    requires w > 0 && IsCas(op)
    ensures var ret := Returns(w, op, cur);
      && (Succeeded(Event(0, op, ret)) <==> cur == op.old_)
      && Stores(w, op, cur) == (if cur == op.old_ then op.new_ else cur)
      && (op.CasVal? ==> ret == cur)
      && (op.CasBool? ==> ret == 0 || ret == 1)
  {}

  lemma {:induction false} SequentialCas(w: nat, m: Mem, log: seq<Event>, m': Mem, a: Addr, x: Word)
    requires w > 0 && Sequential(w, m, log, m') && AllOn(log, a, IsCas)
    ensures Is(Read(m, a), x) + Sum(PutIn(a, x), log) == Sum(TookOut(a, x), log) + Is(Read(m', a), x)
    decreases |log|
  {
    if log != [] {
      var e := log[0];
      var m1 := Write(m, e.op.a, Stores(w, e.op, Read(m, e.op.a)));
      assert forall f :: f in log[1..] ==> f in log;
      if e.op.a == a { CasAnswer(w, e.op, Read(m, a)); }
      SequentialCas(w, m1, log[1..], m', a, x);
    }
  }

  /** However compare-and-exchanges interleave, the values that successful ones put in, with the one
      there before, are the values that successful ones found, with the one left. */
  lemma SuccessesAreChained(c: Cfg, mem: Mem, run: seq<Action>, a: Addr, x: Word)
    requires FullRun(c, mem, run) && AllOn(Answers(run), a, IsCas)
    ensures Is(Read(mem, a), x) + Sum(PutIn(a, x), Answers(run))
         == Sum(TookOut(a, x), Answers(run)) + Is(Read(Left(c, mem, run), a), x)
  {
    var log := OneOrder(c, mem, run);
    AllOnPermuted(log, Answers(run), a, IsCas);
    SumPermuted(PutIn(a, x), log, Answers(run));
    SumPermuted(TookOut(a, x), log, Answers(run));
    SequentialCas(c.w, mem, log, Left(c, mem, run), a, x);
  }

  /** A compare-and-exchange of o for something else. */
  function Claims(o: Word): Op -> bool {
    (op: Op) => IsCas(op) && op.old_ == o && op.new_ != o
  }

  /** A call that answers that it found v: it returns v itself, or the flag one. */
  function Missed(a: Addr, v: Word): Event -> int {
    (e: Event) =>
      if e.op.a == a && ((e.op.CasVal? && e.ret == v) || (e.op.CasBool? && e.ret == 1)) then 1 else 0
  }

  function Won(a: Addr): Event -> int {
    (e: Event) => if e.op.a == a && Succeeded(e) then 1 else 0
  }

  /** Nobody gets what is not there. */
  lemma {:induction false} SequentialMisses(w: nat, m: Mem, log: seq<Event>, m': Mem, a: Addr, o: Word)
    requires w > 0 && Sequential(w, m, log, m') && AllOn(log, a, Claims(o)) && Read(m, a) != o
    ensures Read(m', a) == Read(m, a) && Sum(Won(a), log) == 0
    ensures Sum(Missed(a, Read(m, a)), log) == Sum(On(a), log)
    decreases |log|
  {
    if log != [] {
      var e := log[0];
      var m1 := Write(m, e.op.a, Stores(w, e.op, Read(m, e.op.a)));
      assert forall f :: f in log[1..] ==> f in log;
      if e.op.a == a { CasAnswer(w, e.op, Read(m, a)); }
      SequentialMisses(w, m1, log[1..], m', a, o);
    }
  }

  /** The first call gets it, and its value is what the others find. */
  lemma {:induction false} SequentialClaims(w: nat, m: Mem, log: seq<Event>, m': Mem, a: Addr, o: Word)
    returns (k: nat)
    requires w > 0 && Sequential(w, m, log, m') && AllOn(log, a, Claims(o)) && Read(m, a) == o
    requires Sum(On(a), log) > 0
    ensures k < |log| && log[k].op.a == a && Succeeded(log[k]) && log[k].op.new_ == Read(m', a) != o
    ensures Sum(Won(a), log) == 1 && Sum(Missed(a, Read(m', a)), log) == Sum(On(a), log) - 1
    decreases |log|
  {
    var e := log[0];
    var m1 := Write(m, e.op.a, Stores(w, e.op, Read(m, e.op.a)));
    assert forall f :: f in log[1..] ==> f in log;
    if e.op.a == a {
      CasAnswer(w, e.op, Read(m, a));
      SequentialMisses(w, m1, log[1..], m', a, o);
      k := 0;
    } else {
      var j := SequentialClaims(w, m1, log[1..], m', a, o);
      k := j + 1;
    }
  }

  /** Of any number of concurrent compare-and-exchanges of o for other values, exactly one succeeds if
      the word holds o: the word ends as that call's value, which all others report to have found.
      If it does not hold o none succeeds, the word stays, and all report to have found what it holds. */
  lemma OneClaimWins(c: Cfg, mem: Mem, run: seq<Action>, a: Addr, o: Word)
    requires FullRun(c, mem, run) && AllOn(Answers(run), a, Claims(o))
    ensures var left, answers := Read(Left(c, mem, run), a), Answers(run);
      if Read(mem, a) == o && Sum(On(a), answers) > 0 then
        && Sum(Won(a), answers) == 1 && Sum(Missed(a, left), answers) == Sum(On(a), answers) - 1
        && exists e :: e in answers && e.op.a == a && Succeeded(e) && e.op.new_ == left
      else
        left == Read(mem, a) && Sum(Won(a), answers) == 0 && Sum(Missed(a, left), answers) == Sum(On(a), answers)
  {
    var log := OneOrder(c, mem, run);
    var left := Read(Left(c, mem, run), a);
    AllOnPermuted(log, Answers(run), a, Claims(o));
    SumPermuted(On(a), log, Answers(run));
    SumPermuted(Won(a), log, Answers(run));
    SumPermuted(Missed(a, left), log, Answers(run));
    CountNonNegative(a, log);
    if Sum(On(a), log) == 0 {
      NobodyCalls(c.w, mem, log, Left(c, mem, run), a);
    } else if Read(mem, a) == o {
      var k := SequentialClaims(c.w, mem, log, Left(c, mem, run), a, o);
      assert log[k] in multiset(log);
    } else {
      SequentialMisses(c.w, mem, log, Left(c, mem, run), a, o);
    }
  }

  lemma {:induction false} NobodyCalls(w: nat, m: Mem, log: seq<Event>, m': Mem, a: Addr)
    requires w > 0 && Sequential(w, m, log, m') && Sum(On(a), log) == 0
    ensures Read(m', a) == Read(m, a) && Sum(Won(a), log) == 0 && forall v :: Sum(Missed(a, v), log) == 0
    decreases |log|
  {
    if log != [] {
      CountNonNegative(a, log[1..]);
      var e := log[0];
      NobodyCalls(w, Write(m, e.op.a, Stores(w, e.op, Read(m, e.op.a))), log[1..], m', a);
      forall v ensures Sum(Missed(a, v), log) == 0 {
        assert Sum(Missed(a, v), log[1..]) == 0;
      }
    }
  }

  // ----- test and set -----

  /** Whether an event is a test-and-set of bit b of the word at a. */
  function OnBit(a: Addr, b: nat): Event -> int {
    (e: Event) => if e.op.BitTestSet? && e.op.a == a && e.op.bit == b then 1 else 0
  }

  /** Whether it found the bit clear. */
  function FoundClear(a: Addr, b: nat): Event -> int {
    (e: Event) => if e.op.BitTestSet? && e.op.a == a && e.op.bit == b && e.ret == 0 then 1 else 0
  }

  /** Whether it answered with the bit alone. */
  function FoundMask(w: nat, a: Addr, b: nat): Event -> int
    requires w > 0
  {
    (e: Event) =>
      if e.op.BitTestSet? && e.op.a == a && e.op.bit == b && e.ret != 0 && e.ret == Wrap(w, Pow2(b)) then 1 else 0
  }

  /** A test-and-set of a bit that words of w bits have. */
  function IsTestAndSet(w: nat): Op -> bool {
    (op: Op) => op.BitTestSet? && op.bit < w
  }

  lemma {:induction false} BitCountNonNegative(a: Addr, b: nat, log: seq<Event>)
    ensures Sum(OnBit(a, b), log) >= 0
  {
    if log != [] { BitCountNonNegative(a, b, log[1..]); }
  }

  /** A test-and-set of any bit, as seen by bit b. */
  lemma TestAndSetBit(w: nat, x: Word, op: Op, b: nat)
    requires IsTestAndSet(w)(op) && b < w
    ensures BitIsSet(Stores(w, op, x), b) <==> BitIsSet(x, b) || op.bit == b
    ensures Returns(w, op, x) == 0 <==> !BitIsSet(x, op.bit)
    ensures Returns(w, op, x) == 0 || Returns(w, op, x) == Wrap(w, Pow2(op.bit)) != 0
  {
    MaskIsNonZero(w, op.bit);
    if !BitIsSet(x, op.bit) {
      if op.bit == b { SetBitSets(w, x, b); } else { SetBitKeepsOthers(w, x, op.bit, b); }
    }
  }

  lemma {:induction false} SequentialTestAndSet(w: nat, m: Mem, log: seq<Event>, m': Mem, a: Addr, b: nat)
    requires b < w && Sequential(w, m, log, m') && AllOn(log, a, IsTestAndSet(w))
    ensures Sum(FoundClear(a, b), log) == if BitIsSet(Read(m, a), b) || Sum(OnBit(a, b), log) == 0 then 0 else 1
    ensures Sum(FoundClear(a, b), log) + Sum(FoundMask(w, a, b), log) == Sum(OnBit(a, b), log)
    ensures BitIsSet(Read(m', a), b) <==> BitIsSet(Read(m, a), b) || Sum(OnBit(a, b), log) > 0
    decreases |log|
  {
    if log != [] {
      var e := log[0];
      var m1 := Write(m, e.op.a, Stores(w, e.op, Read(m, e.op.a)));
      assert forall f :: f in log[1..] ==> f in log;
      BitCountNonNegative(a, b, log[1..]);
      if e.op.a == a { TestAndSetBit(w, Read(m, a), e.op, b); }
      SequentialTestAndSet(w, m1, log[1..], m', a, b);
    }
  }

  /** Of any number of concurrent test-and-sets of any bits of a word, exactly one of those of a clear
      bit finds it clear, and none of those of a bit that was set; all others answer with the bit. In
      the end the bits are set that were set or called for. */
  lemma OneTestAndSetWins(c: Cfg, mem: Mem, run: seq<Action>, a: Addr, b: nat)
    requires FullRun(c, mem, run)
    requires b < c.w && AllOn(Answers(run), a, IsTestAndSet(c.w))
    ensures Sum(FoundClear(a, b), Answers(run))
         == if BitIsSet(Read(mem, a), b) || Sum(OnBit(a, b), Answers(run)) == 0 then 0 else 1
    ensures Sum(FoundClear(a, b), Answers(run)) + Sum(FoundMask(c.w, a, b), Answers(run))
         == Sum(OnBit(a, b), Answers(run))
    ensures BitIsSet(Read(Left(c, mem, run), a), b) <==>
      BitIsSet(Read(mem, a), b) || Sum(OnBit(a, b), Answers(run)) > 0
  {
    var log := OneOrder(c, mem, run);
    AllOnPermuted(log, Answers(run), a, IsTestAndSet(c.w));
    SumPermuted(FoundMask(c.w, a, b), log, Answers(run));
    SumPermuted(OnBit(a, b), log, Answers(run));
    SumPermuted(FoundClear(a, b), log, Answers(run));
    SequentialTestAndSet(c.w, mem, log, Left(c, mem, run), a, b);
  }
}
