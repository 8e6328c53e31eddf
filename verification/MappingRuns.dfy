/** Theorems about whole runs of the class-mapping protocol. */
module MappingRuns {
  import opened WaitGraph
  import opened ClassMapping

  // ----- the wait-for graph -----

  lemma {:induction false} TidyRunKeepsInv(s: State, run: seq<Action>)
    requires Inv(s) && TidyRun(s, run)
    ensures IsRun(s, run) && Inv(After(s, run))
    decreases |run|
  {
    if run != [] {
      StepKeepsInv(s, run[0]);
      TidyRunKeepsInv(Apply(s, run[0]), run[1..]);
    }
  }

  /** In every tidy run the accepted registrations form an acyclic graph with at most one edge
      per thread; once no walk and no refused registration is listed, that is the graph of the
      whole list. */
  lemma WaitGraphStaysAcyclic(s: State, run: seq<Action>)
    requires Init(s) && TidyRun(s, run)
    ensures IsRun(s, run)
    ensures var s' := After(s, run);
      && OncePerThread(s'.deps)
      && Acyclic(Accepted(s'))
      && (MappingUnlocked(s') && NoneRefused(s') ==> Acyclic(Edges(s'.deps, s'.maps)))
  {
    assert Accepted(s) == map[];
    assert Inv(s);
    TidyRunKeepsInv(s, run);
    var s' := After(s, run);
    if MappingUnlocked(s') && NoneRefused(s') {
      assert forall e :: e in s'.deps ==> Blocked(PcOf(s', e.thread));
      assert Edges(s'.deps, s'.maps) == Accepted(s');
    }
  }

  // ----- what a withdrawal removes -----

  /** The place of the first registration on m, or the length. */
  ghost function FirstOn(deps: seq<Dep>, m: Entry): (k: nat)
    ensures k <= |deps| && (k < |deps| ==> deps[k].mapping == m)
    ensures forall i :: 0 <= i < k ==> deps[i].mapping != m
  {
    if deps == [] || deps[0].mapping == m then 0 else 1 + FirstOn(deps[1..], m)
  }

  lemma WithoutThreads(deps: seq<Dep>, k: nat, x: Thread)
    requires OncePerThread(deps) && k < |deps|
    ensures x in Threads(deps[..k] + deps[k + 1..]) <==> x in Threads(deps) && x != deps[k].thread
  {
    var r := deps[..k] + deps[k + 1..];
    forall i | 0 <= i < |r| ensures r[i] == deps[if i < k then i else i + 1] {
      if i >= k { assert r[i] == deps[k + 1..][i - k]; }
    }
    if x in Threads(r) {
      var i :| 0 <= i < |r| && r[i].thread == x;
      assert deps[if i < k then i else i + 1] in deps;
    }
    if x in Threads(deps) && x != deps[k].thread {
      var i :| 0 <= i < |deps| && deps[i].thread == x;
      assert r[if i < k then i else i - 1] in r;
    }
  }

  /** Which thread loses its registration. */
  lemma RemoveThreads(deps: seq<Dep>, m: Entry, x: Thread)
    requires OncePerThread(deps)
    ensures var k := FirstOn(deps, m);
      x in Threads(Remove(deps, m)) <==> x in Threads(deps) && (k < |deps| ==> x != deps[k].thread)
  {
    var k := FirstOn(deps, m);
    RemovesFirst(deps, m, k);
    if k < |deps| { WithoutThreads(deps, k, x); }
  }

  /** remNameDependency removes by mapping: the caller's own registration survives exactly when
      a registration on the same mapping stands before it. */
  lemma OwnSurvivesIff(deps: seq<Dep>, t: Thread, m: Entry)
    requires OncePerThread(deps)
    requires forall e :: e in deps && e.thread == t ==> e.mapping == m
    ensures t in Threads(Remove(deps, m)) <==>
            exists i, j :: 0 <= i < j < |deps| && deps[i].mapping == m && deps[j] == Dep(t, m)
  {
    var k := FirstOn(deps, m);
    RemoveThreads(deps, m, t);
    if t in Threads(Remove(deps, m)) {
      var j :| 0 <= j < |deps| && deps[j].thread == t;
      assert deps[j] in deps && deps[j] == Dep(t, m);
      assert deps[k].mapping == m && k < j;
    }
    if i, j :| 0 <= i < j < |deps| && deps[i].mapping == m && deps[j] == Dep(t, m) {
      assert deps[j] in deps && k < j && deps[k].thread != deps[j].thread;
    }
  }

  /** With at most one registration per mapping, every withdrawal is tidy. */
  lemma OncePerMappingIsTidy(s: State, t: Thread)
    requires Registrations(s) && OncePerMapping(s.deps) && Enabled(s, Withdraw(t))
    ensures Tidy(s, Withdraw(t))
  {
    var m := PcOf(s, t).mapping;
    OwnSurvivesIff(s.deps, t, m);
  }

  // ----- no circular wait -----

  /** A withdrawal removes the caller's registration and no other. */
  ghost predicate Exact(s: State, a: Action)
    requires Enabled(s, a)
  {
    && Tidy(s, a)
    && (a.Withdraw? ==> Threads(Remove(s.deps, PcOf(s, a.t).mapping)) == Threads(s.deps) - {a.t})
  }

  ghost predicate ExactRun(s: State, run: seq<Action>)
    decreases |run|
  {
    run != [] ==> Enabled(s, run[0]) && Exact(s, run[0]) && ExactRun(Apply(s, run[0]), run[1..])
  }

  ghost predicate OnList(pc: Pc) {
    pc.Walk? || pc.Refused? || pc.Wait? || pc.Woken?
  }

  ghost predicate AllListed(s: State) {
    forall t :: OnList(PcOf(s, t)) ==> Dep(t, PcOf(s, t).mapping) in s.deps
  }

  /** From a thread asleep on an entry being loaded to the thread loading it. */
  ghost function WaitsFor(s: State): Graph {
    map t | t in s.pcs && s.pcs[t].Wait? && At(s.maps, s.pcs[t].mapping).state == LOADING
            && At(s.maps, s.pcs[t].mapping).data.Thr?
        :: At(s.maps, s.pcs[t].mapping).data.thread
  }

  lemma OthersStay(s: State, a: Action, u: Thread)
    requires Enabled(s, a) && u != a.t
    ensures PcOf(Apply(s, a), u) == PcOf(s, u)
  {}

  lemma OnlyTurnsRegister(s: State, a: Action)
    requires Enabled(s, a) && !a.Withdraw?
    ensures var s' := Apply(s, a);
      || (s'.deps == s.deps && (OnList(PcOf(s', a.t)) ==>
            OnList(PcOf(s, a.t)) && PcOf(s', a.t).mapping == PcOf(s, a.t).mapping))
      || (OnList(PcOf(s', a.t)) && s'.deps == [Dep(a.t, PcOf(s', a.t).mapping)] + s.deps)
  {}

  lemma ExactKeepsListed(s: State, a: Action)
    requires Inv(s) && AllListed(s) && Enabled(s, a) && Exact(s, a)
    ensures AllListed(Apply(s, a))
  {
    var s' := Apply(s, a);
    if !a.Withdraw? {
      OnlyTurnsRegister(s, a);
    }
    forall u | OnList(PcOf(s', u))
      ensures Dep(u, PcOf(s', u).mapping) in s'.deps
    {
      if u != a.t {
        OthersStay(s, a, u);
        assert Dep(u, PcOf(s, u).mapping) in s.deps;
        if a.Withdraw? {
          assert u in Threads(s.deps);
          assert u in Threads(s'.deps);
          var e :| e in s'.deps && e.thread == u;
          assert e in s.deps;
        }
      }
    }
  }

  lemma {:induction false} ExactRunKeepsListed(s: State, run: seq<Action>)
    requires Inv(s) && AllListed(s) && ExactRun(s, run)
    ensures IsRun(s, run) && Inv(After(s, run)) && AllListed(After(s, run))
    decreases |run|
  {
    if run != [] {
      StepKeepsInv(s, run[0]);
      ExactKeepsListed(s, run[0]);
      ExactRunKeepsListed(Apply(s, run[0]), run[1..]);
    }
  }

  /** When every withdrawal removes just its caller's registration, no threads ever wait in a
      circle for entries the others are loading. */
  lemma NoCircularWait(s: State, run: seq<Action>)
    requires Init(s) && ExactRun(s, run)
    ensures IsRun(s, run) && Acyclic(WaitsFor(After(s, run)))
  {
    assert Accepted(s) == map[];
    assert Inv(s);
    ExactRunKeepsListed(s, run);
    var s' := After(s, run);
    forall t | t in WaitsFor(s')
      ensures t in Accepted(s') && Accepted(s')[t] == WaitsFor(s')[t]
    {
      FindUnique(s'.deps, Dep(t, PcOf(s', t).mapping));
    }
    AcyclicSubgraph(Accepted(s'), WaitsFor(s'));
  }

  /** A withdrawal removes its caller's registration and no other exactly when the caller's stands
      first among those on the mapping; from a caller that is not registered, as one that asked for
      an entry it loads itself, exactly when there is none on the mapping. */
  lemma ExactIffNothingStolen(s: State, t: Thread)
    requires Registrations(s) && Enabled(s, Withdraw(t))
    ensures var k := FirstOn(s.deps, PcOf(s, t).mapping);
      Exact(s, Withdraw(t)) <==>
      if t in Threads(s.deps) then k < |s.deps| && s.deps[k].thread == t else k == |s.deps|
  {
    var m := PcOf(s, t).mapping;
    var k := FirstOn(s.deps, m);
    forall x
      ensures x in Threads(Remove(s.deps, m)) <==> x in Threads(s.deps) && (k < |s.deps| ==> x != s.deps[k].thread)
    {
      RemoveThreads(s.deps, m, x);
    }
    if k < |s.deps| {
      assert s.deps[k] in s.deps && s.deps[k].thread in Threads(s.deps);
    }
  }

  /** Who is registered, where withdrawals have been exact: all but those about to report that they
      asked for their own entry. */
  lemma RegisteredIff(s: State, t: Thread)
    requires Registrations(s) && AllListed(s) && Enabled(s, Withdraw(t))
    ensures t in Threads(s.deps) <==> !PcOf(s, t).SelfCircular?
  {}

  // ----- the walk ends -----

  ghost function Advances(run: seq<Action>, t: Thread): nat {
    if run == [] then 0 else (if run[0] == Advance(t) then 1 else 0) + Advances(run[1..], t)
  }

  /** While t walks from s0, edges to registered threads are those s0 had, and the cursor has
      come n of them. */
  ghost predicate WalkedFrom(s0: State, s: State, t: Thread, n: nat)
    requires PcOf(s0, t).Walk? && PcOf(s, t).Walk?
  {
    var pc, g0 := PcOf(s, t), Accepted(s0);
    var d := At(s0.maps, pc.mapping).data;
    && s.deps == s0.deps
    && pc.mapping == PcOf(s0, t).mapping
    && KeepsOldEdges(g0, Accepted(s), Threads(s.deps))
    && (pc.cur.Some? && !pc.hit ==> d.Thr? && Path(g0, d.thread, n, pc.cur.value.thread))
    && (pc.hit && pc.checked ==> n <= |g0|)
    && (pc.hit ==> d.Thr? && Reaches(g0, d.thread, t))
    && n <= |g0| + 1
  }

  ghost predicate KeepsOldEdges(g0: Graph, g: Graph, who: set<Thread>) {
    forall x :: x in g && g[x] in who ==> x in g0 && g0[x] == g[x]
  }

  lemma WakeKeepsGraph(s: State, t: Thread)
    requires Enabled(s, Wake(t)) && PcOf(s, t).Wait?
    ensures Accepted(Apply(s, Wake(t))) == Accepted(s)
  {
    GoSameGraph(s, t, Woken(PcOf(s, t).mapping));
  }

  /** While t holds the mapping lock, nobody else touches the list, and edges only change to
      lead to unregistered threads. */
  lemma OthersDuringWalk(s: State, a: Action, t: Thread)
    requires Inv(s) && Enabled(s, a) && PcOf(s, t).Walk? && a.t != t
    ensures var s' := Apply(s, a);
      && s'.deps == s.deps && PcOf(s', t) == PcOf(s, t)
      && KeepsOldEdges(Accepted(s), Accepted(s'), Threads(s.deps))
  {
    var s' := Apply(s, a);
    assert t in s.pcs && !MappingUnlocked(s);
    OthersStay(s, a, t);
    if a.Wake? && PcOf(s, a.t).Wait? {
      WakeKeepsGraph(s, a.t);
    } else {
      assert !PcOf(s, a.t).Walk?;
      assert a.t !in Threads(s.deps);
      EntryStepRedirects(s, s', a.t, if a.Wake? then 0 else a.m);
    }
  }

  /** The edge an unrefused walk is about to follow is one the walk's start already had. */
  lemma CursorEdge(s0: State, s: State, t: Thread, n: nat)
    requires Inv(s) && PcOf(s0, t).Walk? && PcOf(s, t).Walk? && WalkedFrom(s0, s, t, n)
    requires Enabled(s, Advance(t)) && !PcOf(s, t).hit && PcOf(Apply(s, Advance(t)), t).cur.Some?
    ensures var c, y := PcOf(s, t).cur.value.thread, PcOf(Apply(s, Advance(t)), t).cur.value.thread;
      c in Accepted(s0) && Accepted(s0)[c] == y
  {
    assert WalkSound(s, t);
    var c := PcOf(s, t).cur.value;
    var e := PcOf(Apply(s, Advance(t)), t).cur.value;
    FindUnique(s.deps, c);
    assert c.thread in Threads(s.deps) && e.thread in Threads(s.deps);
    assert Blocked(PcOf(s, c.thread));
    assert c.thread in Accepted(s) && Accepted(s)[c.thread] == e.thread;
  }

  lemma OneFurther(g: Graph, o: Thread, n: nat, c: Thread)
    requires Acyclic(g) && Path(g, o, n, c)
    ensures n <= |g|
    ensures c in g ==> Path(g, o, n + 1, g[c])
  {
    AcyclicNeverLoops(g, o);
    PathBound(g, o, n, c);
    if c in g {
      assert Path(g, c, 1, g[c]);
      PathConcat(g, o, n, c, 1, g[c]);
    }
  }

  lemma CheckStep(s0: State, s: State, t: Thread, n: nat)
    requires Acyclic(Accepted(s0)) && Inv(s)
    requires PcOf(s0, t).Walk? && PcOf(s, t).Walk? && WalkedFrom(s0, s, t, n)
    requires Enabled(s, Check(t))
    ensures WalkedFrom(s0, Apply(s, Check(t)), t, n)
  {
    var pc := PcOf(s, t);
    WalkerMoves(s, t, PcOf(Apply(s, Check(t)), t));
    OneFurther(Accepted(s0), At(s0.maps, pc.mapping).data.thread, n, pc.cur.value.thread);
    if PcOf(Apply(s, Check(t)), t).hit {
      HitIsReal(s0, s, t, n);
    }
  }

  /** What the walk takes for a way back to t was one when t registered. */
  lemma HitIsReal(s0: State, s: State, t: Thread, n: nat)
    requires Inv(s) && PcOf(s0, t).Walk? && PcOf(s, t).Walk? && WalkedFrom(s0, s, t, n)
    requires Enabled(s, Check(t)) && PcOf(Apply(s, Check(t)), t).hit
    ensures Reaches(Accepted(s0), At(s0.maps, PcOf(s, t).mapping).data.thread, t)
  {
    assert WalkSound(s, t);
    var c, g0 := PcOf(s, t).cur.value, Accepted(s0);
    FindUnique(s.deps, c);
    assert c.thread in Threads(s.deps) && t in Threads(s.deps);
    assert c.thread in Accepted(s) && Accepted(s)[c.thread] == t;
    assert Path(g0, c.thread, 1, t) by { assert Path(g0, t, 0, t); }
    PathConcat(g0, At(s0.maps, PcOf(s, t).mapping).data.thread, n, c.thread, 1, t);
  }

  lemma AdvanceStep(s0: State, s: State, t: Thread, n: nat)
    requires Acyclic(Accepted(s0)) && Inv(s)
    requires PcOf(s0, t).Walk? && PcOf(s, t).Walk? && WalkedFrom(s0, s, t, n)
    requires Enabled(s, Advance(t))
    ensures WalkedFrom(s0, Apply(s, Advance(t)), t, n + 1)
  {
    var s' := Apply(s, Advance(t));
    var pc := PcOf(s, t);
    WalkerMoves(s, t, PcOf(s', t));
    if !pc.hit {
      OneFurther(Accepted(s0), At(s0.maps, pc.mapping).data.thread, n, pc.cur.value.thread);
      if PcOf(s', t).cur.Some? {
        CursorEdge(s0, s, t, n);
      }
    }
  }

  /** While a thread walks, nobody else can register or withdraw. */
  lemma WalkingIsTidy(s: State, a: Action, t: Thread)
    requires Enabled(s, a) && PcOf(s, t).Walk?
    ensures Tidy(s, a)
  {
    assert t in s.pcs && !MappingUnlocked(s);
  }

  /** How many steps the walk has taken after an action. */
  function Advanced(a: Action, t: Thread, n: nat): nat {
    if a == Advance(t) then n + 1 else n
  }

  lemma WalkAction(s0: State, s: State, a: Action, t: Thread, n: nat)
    requires Inv(s0) && Inv(s) && PcOf(s0, t).Walk? && PcOf(s, t).Walk? && WalkedFrom(s0, s, t, n)
    requires Enabled(s, a) && a != Decide(t)
    ensures var s' := Apply(s, a); Inv(s') && PcOf(s', t).Walk? && WalkedFrom(s0, s', t, Advanced(a, t, n))
  {
    WalkingIsTidy(s, a, t);
    StepKeepsInv(s, a);
    if a.t == t {
      if a.Check? {
        CheckStep(s0, s, t, n);
      } else {
        AdvanceStep(s0, s, t, n);
      }
    } else {
      OthersDuringWalk(s, a, t);
    }
  }

  /** What every step but t's decision keeps, with the steps of t's walk counted, holds after a run
      without that decision. */
  lemma {:induction false} CountedRun(p: (State, nat) -> bool, s: State, run: seq<Action>, t: Thread, n: nat)
    requires KeptBut(p, t) && p(s, n) && IsRun(s, run) && Decide(t) !in run
    ensures p(After(s, run), n + Advances(run, t))
    decreases |run|
  {
    if run != [] {
      var a := run[0];
      assert a != Decide(t) && Decide(t) !in run[1..];
      CountedRun(p, Apply(s, a), run[1..], t, Advanced(a, t, n));
    }
  }

  ghost predicate Walking(s0: State, s: State, t: Thread, n: nat) {
    Inv(s) && PcOf(s0, t).Walk? && PcOf(s, t).Walk? && WalkedFrom(s0, s, t, n)
  }

  ghost function WalkingOf(s0: State, t: Thread): (State, nat) -> bool {
    (x: State, k: nat) => Walking(s0, x, t, k)
  }

  lemma WalkKept(s0: State, t: Thread, x: State, a: Action, k: nat)
    requires Inv(s0) && WalkingOf(s0, t)(x, k) && Enabled(x, a) && a != Decide(t)
    ensures WalkingOf(s0, t)(Apply(x, a), Advanced(a, t, k))
  {
    WalkAction(s0, x, a, t, k);
  }

  /** Every step but t's decision keeps it. */
  ghost predicate KeptBut(p: (State, nat) -> bool, t: Thread) {
    forall x, a, k: nat {:trigger Enabled(x, a), Advanced(a, t, k)} ::
      p(x, k) && Enabled(x, a) && a != Decide(t) ==> p(Apply(x, a), Advanced(a, t, k))
  }

  lemma WalkIsKept(s0: State, t: Thread)
    requires Inv(s0)
    ensures KeptBut(WalkingOf(s0, t), t)
  {
    var p := WalkingOf(s0, t);
    forall x, a, k: nat | p(x, k) && Enabled(x, a) && a != Decide(t)
      ensures p(Apply(x, a), Advanced(a, t, k))
    {
      WalkKept(s0, t, x, a, k);
    }
  }

  /** t may register on m: it is outside the protocol, the locks are free, m is not its own, and no
      refused registration is listed. */
  ghost predicate MayRegister(s: State, t: Thread, m: Entry) {
    && PcOf(s, t) == Free && EntryUnlocked(s, m) && MappingUnlocked(s) && NoneRefused(s)
    && At(s.maps, m).data != Thr(t)
  }

  /** However other threads hand entries over meanwhile, a walk takes at most one step more than
      there are accepted registrations. */
  lemma WalkIsBounded(s: State, t: Thread, m: Entry, run: seq<Action>)
    requires Inv(s) && MayRegister(s, t, m) && IsRun(BeginWalk(s, t, m), run) && Decide(t) !in run
    ensures Advances(run, t) <= |Accepted(s)| + 1
  {
    var s0 := BeginWalk(s, t, m);
    BeginWalkKeepsInv(s, t, m);
    BeginWalkGraph(s, t, m);
    WalkIsKept(s0, t);
    CountedRun(WalkingOf(s0, t), s0, run, t, 0);
  }

  /** However other threads hand entries over meanwhile, a registration is refused only if the owner
      of its entry led to the caller when it registered. */
  lemma RefusalIsJustified(s: State, t: Thread, m: Entry, run: seq<Action>)
    requires Inv(s) && MayRegister(s, t, m) && IsRun(BeginWalk(s, t, m), run) && Decide(t) !in run
    ensures PcOf(After(BeginWalk(s, t, m), run), t).Walk?
    ensures PcOf(After(BeginWalk(s, t, m), run), t).hit ==>
      At(s.maps, m).data.Thr? && Reaches(Accepted(s), At(s.maps, m).data.thread, t)
  {
    var s0 := BeginWalk(s, t, m);
    BeginWalkKeepsInv(s, t, m);
    BeginWalkGraph(s, t, m);
    WalkIsKept(s0, t);
    CountedRun(WalkingOf(s0, t), s0, run, t, 0);
  }
}
