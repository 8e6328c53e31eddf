/** Runs on which the mapping protocol goes wrong when its discipline is not kept. */
module MappingFaults {
  import opened Options
  import opened WaitGraph
  import opened ClassMapping
  import opened MappingRuns

  ghost predicate Leads(s: State, run: seq<Action>, s': State) {
    IsRun(s, run) && After(s, run) == s'
  }

  lemma First(s: State, a: Action, s1: State, run: seq<Action>, s': State)
    requires Enabled(s, a) && Apply(s, a) == s1 && Leads(s1, run, s')
    ensures Leads(s, [a] + run, s')
  {
    assert ([a] + run)[1..] == run;
  }

  const Start := State(map[], [], map[], {})

  /** Threads 1 and 2 have become responsible for loading entries 1 and 2. */
  const BothLoad: Maps := map[1 := Mapping(LOADING, Thr(1)), 2 := Mapping(LOADING, Thr(2))]

  lemma BothLoadFirst(run: seq<Action>, s': State)
    requires Leads(State(BothLoad, [], map[], {}), run, s')
    ensures Leads(Start, [Load(1, 1), Load(2, 2)] + run, s')
  {
    var s1 := State(map[1 := Mapping(LOADING, Thr(1))], [], map[], {});
    First(s1, Load(2, 2), State(BothLoad, [], map[], {}), run, s');
    First(Start, Load(1, 1), s1, [Load(2, 2)] + run, s');
    assert [Load(1, 1)] + ([Load(2, 2)] + run) == [Load(1, 1), Load(2, 2)] + run;
  }

  // ----- a refused registration traps the next walk -----

  /** Threads 1 and 2 load entries 1 and 2 and ask for each other's; 2 is refused, and before it
      withdraws 3 asks for entry 2. */
  function TrapRun(): seq<Action> {
    [Load(1, 1), Load(2, 2)] + ([Search(1, 2)] + ([Decide(1)] + ([Search(2, 1)] +
      ([Check(2)] + ([Advance(2)] + ([Decide(2)] + ([Search(3, 2)] + [])))))))
  }

  /** Thread 3 walks round the circle of 1 and 2, holding the lock 2 needs to withdraw. */
  ghost predicate Trapped(s: State) {
    && s.deps == [Dep(3, 2), Dep(2, 1), Dep(1, 2)]
    && At(s.maps, 1) == Mapping(LOADING, Thr(1))
    && At(s.maps, 2) == Mapping(LOADING, Thr(2))
    && PcOf(s, 2) == Refused(1)
    && Circling(PcOf(s, 3))
  }

  /** Where thread 3 stands: on 2's registration or on 1's, having seen no way back to itself. */
  ghost predicate Circling(pc: Pc) {
    pc.Walk? && pc.mapping == 2 && !pc.hit && (pc.cur == Some(Dep(2, 1)) || pc.cur == Some(Dep(1, 2)))
  }

  lemma TrapFinds(deps: seq<Dep>)
    requires deps == [Dep(3, 2), Dep(2, 1), Dep(1, 2)]
    ensures Find(deps, Thr(1)) == Some(Dep(1, 2)) && Find(deps, Thr(2)) == Some(Dep(2, 1))
  {
    assert deps[1..] == [Dep(2, 1), Dep(1, 2)];
    assert deps[1..][1..] == [Dep(1, 2)];
  }

  /** Its own steps take it round. */
  lemma TrappedWalks(s: State, a: Action)
    requires Trapped(s) && Enabled(s, a) && a.t == 3
    ensures Trapped(Apply(s, a))
  {
    TrapFinds(s.deps);
  }

  /** What others can do leaves the circle: they can neither register nor withdraw, and both entries
      are locked. */
  lemma TrappedWaits(s: State, a: Action)
    requires Trapped(s) && Enabled(s, a) && a.t != 3
    ensures Trapped(Apply(s, a))
  {
    assert 2 in s.pcs && HoldsEntry(s.pcs[2], 1);
    assert 3 in s.pcs && HoldsEntry(s.pcs[3], 2) && s.pcs[3].Walk?;
  }

  lemma TrappedStep(s: State, a: Action)
    requires Trapped(s) && Enabled(s, a)
    ensures Trapped(Apply(s, a))
  {
    if a.t == 3 { TrappedWalks(s, a); } else { TrappedWaits(s, a); }
  }

  lemma {:induction false} TrappedForever(s: State, run: seq<Action>)
    requires Trapped(s) && IsRun(s, run)
    ensures Trapped(After(s, run))
    decreases |run|
  {
    if run != [] {
      TrappedStep(s, run[0]);
      TrappedForever(Apply(s, run[0]), run[1..]);
    }
  }

  lemma OneWaits(run: seq<Action>, s': State)
    requires Leads(State(BothLoad, [Dep(1, 2)], map[1 := Wait(2)], {}), run, s')
    ensures Leads(State(BothLoad, [], map[], {}), [Search(1, 2)] + ([Decide(1)] + run), s')
  {
    var s3 := State(BothLoad, [Dep(1, 2)], map[1 := Walk(2, None, false, false)], {});
    First(s3, Decide(1), State(BothLoad, [Dep(1, 2)], map[1 := Wait(2)], {}), run, s');
    First(State(BothLoad, [], map[], {}), Search(1, 2), s3, [Decide(1)] + run, s');
  }

  /** While 1 waits for 2, thread 2 asks for entry 1: where its walk stands. */
  function TwoAsks(pc: Pc): State {
    State(BothLoad, [Dep(2, 1), Dep(1, 2)], map[1 := Wait(2), 2 := pc], {})
  }

  lemma TwoWalks(run: seq<Action>, s': State)
    requires Leads(TwoAsks(Walk(1, Some(Dep(1, 2)), false, false)), run, s')
    ensures Leads(State(BothLoad, [Dep(1, 2)], map[1 := Wait(2)], {}), [Search(2, 1)] + run, s')
  {
    var s4, w := State(BothLoad, [Dep(1, 2)], map[1 := Wait(2)], {}), TwoAsks(Walk(1, Some(Dep(1, 2)), false, false));
    TwoStarts(s4, w);
    First(s4, Search(2, 1), w, run, s');
  }

  lemma TwoStarts(s: State, w: State)
    requires s == State(BothLoad, [Dep(1, 2)], map[1 := Wait(2)], {})
    requires w == TwoAsks(Walk(1, Some(Dep(1, 2)), false, false))
    ensures Enabled(s, Search(2, 1)) && Apply(s, Search(2, 1)) == w
  {
    assert w.deps[1..] == s.deps;
    assert Find(w.deps, Thr(1)) == Some(Dep(1, 2));
  }

  /** A step of thread 2's walk. */
  ghost predicate TwoMoves(pc: Pc, a: Action, pc': Pc) {
    Enabled(TwoAsks(pc), a) && Apply(TwoAsks(pc), a) == TwoAsks(pc')
  }

  lemma TwoChecks()
    ensures TwoMoves(Walk(1, Some(Dep(1, 2)), false, false), Check(2), Walk(1, Some(Dep(1, 2)), true, true))
  {
    var s := TwoAsks(Walk(1, Some(Dep(1, 2)), false, false));
    assert Apply(s, Check(2)).pcs == TwoAsks(Walk(1, Some(Dep(1, 2)), true, true)).pcs;
  }

  lemma TwoAdvances()
    ensures TwoMoves(Walk(1, Some(Dep(1, 2)), true, true), Advance(2), Walk(1, Some(Dep(2, 1)), false, true))
  {
    var s := TwoAsks(Walk(1, Some(Dep(1, 2)), true, true));
    assert Find(s.deps, Thr(2)) == Some(Dep(2, 1));
    assert Apply(s, Advance(2)).pcs == TwoAsks(Walk(1, Some(Dep(2, 1)), false, true)).pcs;
  }

  lemma TwoGivesUp()
    ensures TwoMoves(Walk(1, Some(Dep(2, 1)), false, true), Decide(2), Refused(1))
  {
    var s := TwoAsks(Walk(1, Some(Dep(2, 1)), false, true));
    assert Apply(s, Decide(2)).pcs == TwoAsks(Refused(1)).pcs;
  }

  lemma TwoFirst(pc: Pc, a: Action, pc': Pc, run: seq<Action>, s': State)
    requires TwoMoves(pc, a, pc') && Leads(TwoAsks(pc'), run, s')
    ensures Leads(TwoAsks(pc), [a] + run, s')
  {
    First(TwoAsks(pc), a, TwoAsks(pc'), run, s');
  }

  lemma TwoIsRefused(run: seq<Action>, s': State)
    requires Leads(TwoAsks(Refused(1)), run, s')
    ensures Leads(TwoAsks(Walk(1, Some(Dep(1, 2)), false, false)),
                  [Check(2)] + ([Advance(2)] + ([Decide(2)] + run)), s')
  {
    var start, seen, past := Walk(1, Some(Dep(1, 2)), false, false), Walk(1, Some(Dep(1, 2)), true, true),
                             Walk(1, Some(Dep(2, 1)), false, true);
    TwoGivesUp();
    TwoFirst(past, Decide(2), Refused(1), run, s');
    TwoAdvances();
    TwoFirst(seen, Advance(2), past, [Decide(2)] + run, s');
    TwoChecks();
    TwoFirst(start, Check(2), seen, [Advance(2)] + ([Decide(2)] + run), s');
  }

  lemma ThreeAsks()
    ensures Enabled(TwoAsks(Refused(1)), Search(3, 2)) && Trapped(Apply(TwoAsks(Refused(1)), Search(3, 2)))
  {
    var s := Apply(TwoAsks(Refused(1)), Search(3, 2));
    assert s.deps[1..] == [Dep(2, 1), Dep(1, 2)];
    assert PcOf(s, 3) == Walk(2, Some(Dep(2, 1)), false, false);
  }

  lemma TrapEnd(s': State)
    requires s' == Apply(TwoAsks(Refused(1)), Search(3, 2))
    ensures Leads(TwoAsks(Walk(1, Some(Dep(1, 2)), false, false)),
                  [Check(2)] + ([Advance(2)] + ([Decide(2)] + ([Search(3, 2)] + []))), s')
  {
    ThreeAsks();
    First(TwoAsks(Refused(1)), Search(3, 2), s', [], s');
    TwoIsRefused([Search(3, 2)] + [], s');
  }

  lemma TrapStart(r: seq<Action>, s': State)
    requires Leads(TwoAsks(Walk(1, Some(Dep(1, 2)), false, false)), r, s')
    ensures Leads(Start, [Load(1, 1), Load(2, 2)] + ([Search(1, 2)] + ([Decide(1)] + ([Search(2, 1)] + r))), s')
  {
    TwoWalks(r, s');
    OneWaits([Search(2, 1)] + r, s');
    BothLoadFirst([Search(1, 2)] + ([Decide(1)] + ([Search(2, 1)] + r)), s');
  }

  lemma TrapIsReached()
    ensures IsRun(Start, TrapRun()) && Trapped(After(Start, TrapRun()))
  {
    ThreeAsks();
    var s' := Apply(TwoAsks(Refused(1)), Search(3, 2));
    var r := [Check(2)] + ([Advance(2)] + ([Decide(2)] + ([Search(3, 2)] + [])));
    TrapEnd(s');
    TrapStart(r, s');
  }

  /** Without the rule that a refused registration is withdrawn first, a walk need not end:
      whatever any thread does next, thread 3 stays in addNameDependency and thread 2 stays
      unable to withdraw. */
  lemma RefusedRegistrationTraps(s: State, run: seq<Action>)
    requires Trapped(s) && IsRun(s, run)
    ensures var s' := After(s, run); PcOf(s', 3).Walk? && PcOf(s', 2).Refused?
  {
    TrappedForever(s, run);
  }

  // ----- a circular request for one's own entry loses another thread's registration -----

  /** Never more than one registration is listed, and every step is tidy. */
  ghost predicate Sparse(s: State, run: seq<Action>)
    decreases |run|
  {
    |s.deps| <= 1 && (run != [] ==> Enabled(s, run[0]) && Tidy(s, run[0]) && Sparse(Apply(s, run[0]), run[1..]))
  }

  ghost predicate SparselyLeads(s: State, run: seq<Action>, s': State) {
    Leads(s, run, s') && Sparse(s, run)
  }

  lemma SparseFirst(s: State, a: Action, s1: State, run: seq<Action>, s': State)
    requires Taken(s, a, s1) && SparselyLeads(s1, run, s')
    ensures SparselyLeads(s, [a] + run, s')
  {
    assert ([a] + run)[1..] == run;
  }

  /** 2 waits for 1; 1 asks for its own entry and withdraws; 1 asks for the entry of 2. */
  function LostRun(): seq<Action> {
    [Load(1, 1)] + ([Load(2, 2)] + ([Search(2, 1)] + ([Decide(2)] +
      ([Search(1, 1)] + ([Withdraw(1)] + ([Search(1, 2)] + ([Decide(1)] + [])))))))
  }

  function Both(deps: seq<Dep>, pcs: map<Thread, Pc>): State {
    State(BothLoad, deps, pcs, {})
  }

  /** A tidy step. */
  ghost predicate Taken(s: State, a: Action, s1: State) {
    |s.deps| <= 1 && Enabled(s, a) && Tidy(s, a) && Apply(s, a) == s1
  }

  lemma LostLastSearch(s: State, w: State)
    requires s == Both([], map[1 := Free, 2 := Wait(1)])
    requires w == Both([Dep(1, 2)], map[1 := Walk(2, None, false, false), 2 := Wait(1)])
    ensures Taken(s, Search(1, 2), w)
  {
    LostMaySearch(s);
    assert Find([Dep(1, 2)], Thr(2)) == None by { assert [Dep(1, 2)][1..] == []; }
  }

  lemma LostMaySearch(s: State)
    requires s == Both([], map[1 := Free, 2 := Wait(1)])
    ensures Registers(s, 1, 2) && Enabled(s, Search(1, 2)) && Tidy(s, Search(1, 2))
  {}

  lemma LostLastDecide(w: State, s': State)
    requires w == Both([Dep(1, 2)], map[1 := Walk(2, None, false, false), 2 := Wait(1)])
    requires s' == Both([Dep(1, 2)], map[1 := Wait(2), 2 := Wait(1)])
    ensures Taken(w, Decide(1), s')
  {
    assert Apply(w, Decide(1)).pcs == s'.pcs;
  }

  lemma LostEnd()
    ensures SparselyLeads(Both([], map[1 := Free, 2 := Wait(1)]), [Search(1, 2)] + ([Decide(1)] + []),
                          Both([Dep(1, 2)], map[1 := Wait(2), 2 := Wait(1)]))
  {
    var s, s' := Both([], map[1 := Free, 2 := Wait(1)]), Both([Dep(1, 2)], map[1 := Wait(2), 2 := Wait(1)]);
    var w := Both([Dep(1, 2)], map[1 := Walk(2, None, false, false), 2 := Wait(1)]);
    LostLastDecide(w, s');
    SparseFirst(w, Decide(1), s', [], s');
    LostLastSearch(s, w);
    SparseFirst(s, Search(1, 2), w, [Decide(1)] + [], s');
  }

  lemma LostWithdrawal(run: seq<Action>, s': State)
    requires SparselyLeads(Both([], map[1 := Free, 2 := Wait(1)]), run, s')
    ensures SparselyLeads(Both([Dep(2, 1)], map[1 := SelfCircular(1), 2 := Wait(1)]), [Withdraw(1)] + run, s')
  {
    var w, s1 := Both([Dep(2, 1)], map[1 := SelfCircular(1), 2 := Wait(1)]), Both([], map[1 := Free, 2 := Wait(1)]);
    LostWithdraws(w, s1);
    SparseFirst(w, Withdraw(1), s1, run, s');
  }

  lemma LostWithdraws(w: State, s1: State)
    requires w == Both([Dep(2, 1)], map[1 := SelfCircular(1), 2 := Wait(1)])
    requires s1 == Both([], map[1 := Free, 2 := Wait(1)])
    ensures Taken(w, Withdraw(1), s1)
  {
    assert Remove(w.deps, 1) == [];
    assert Apply(w, Withdraw(1)).pcs == s1.pcs;
  }

  lemma LostSearch(s: State, w: State)
    requires s == Both([Dep(2, 1)], map[2 := Wait(1)])
    requires w == Both([Dep(2, 1)], map[1 := SelfCircular(1), 2 := Wait(1)])
    ensures Enabled(s, Search(1, 1)) && Tidy(s, Search(1, 1)) && Apply(s, Search(1, 1)) == w
  {
    assert Apply(s, Search(1, 1)).pcs == w.pcs;
  }

  lemma LostMiddle(run: seq<Action>, s': State)
    requires SparselyLeads(Both([], map[1 := Free, 2 := Wait(1)]), run, s')
    ensures SparselyLeads(Both([Dep(2, 1)], map[2 := Wait(1)]), [Search(1, 1)] + ([Withdraw(1)] + run), s')
  {
    var s, w := Both([Dep(2, 1)], map[2 := Wait(1)]), Both([Dep(2, 1)], map[1 := SelfCircular(1), 2 := Wait(1)]);
    LostWithdrawal(run, s');
    LostSearch(s, w);
    SparseFirst(s, Search(1, 1), w, [Withdraw(1)] + run, s');
  }

  /** Thread 2 asks for entry 1. */
  lemma TwoSearches(s: State, w: State)
    requires s == Both([], map[]) && w == Both([Dep(2, 1)], map[2 := Walk(1, None, false, false)])
    ensures Taken(s, Search(2, 1), w)
  {}

  /** And is accepted. */
  lemma TwoDecides(w: State, s': State)
    requires w == Both([Dep(2, 1)], map[2 := Walk(1, None, false, false)])
    requires s' == Both([Dep(2, 1)], map[2 := Wait(1)])
    ensures Taken(w, Decide(2), s')
  {
    assert Apply(w, Decide(2)).pcs == s'.pcs;
  }

  lemma BothLoads(s1: State)
    requires s1 == State(map[1 := Mapping(LOADING, Thr(1))], [], map[], {})
    ensures Taken(Start, Load(1, 1), s1) && Taken(s1, Load(2, 2), Both([], map[]))
  {}

  lemma LostFirst(run: seq<Action>, s': State)
    requires SparselyLeads(Both([], map[]), run, s')
    ensures SparselyLeads(Start, [Load(1, 1)] + ([Load(2, 2)] + run), s')
  {
    var s1 := State(map[1 := Mapping(LOADING, Thr(1))], [], map[], {});
    BothLoads(s1);
    SparseFirst(s1, Load(2, 2), Both([], map[]), run, s');
    SparseFirst(Start, Load(1, 1), s1, [Load(2, 2)] + run, s');
  }

  lemma LostStart(run: seq<Action>, s': State)
    requires SparselyLeads(Both([Dep(2, 1)], map[2 := Wait(1)]), run, s')
    ensures SparselyLeads(Start, [Load(1, 1)] + ([Load(2, 2)] + ([Search(2, 1)] + ([Decide(2)] + run))), s')
  {
    var s, w := Both([Dep(2, 1)], map[2 := Wait(1)]), Both([Dep(2, 1)], map[2 := Walk(1, None, false, false)]);
    TwoDecides(w, s);
    SparseFirst(w, Decide(2), s, run, s');
    TwoSearches(Both([], map[]), w);
    SparseFirst(Both([], map[]), Search(2, 1), w, [Decide(2)] + run, s');
    LostFirst([Search(2, 1)] + ([Decide(2)] + run), s');
  }

  lemma LostRunLeads(s: State)
    requires s == Both([Dep(1, 2)], map[1 := Wait(2), 2 := Wait(1)])
    ensures SparselyLeads(Start, LostRun(), s)
  {
    LostEnd();
    var r := [Search(1, 2)] + ([Decide(1)] + []);
    LostMiddle(r, s);
    LostStart([Search(1, 1)] + ([Withdraw(1)] + r), s);
  }

  /** Even with never more than one registration listed, the withdrawal after a request for one's
      own entry may remove another thread's registration; 1 and 2 then wait for each other, both
      accepted. */
  lemma LostRegistrationDeadlocks()
    ensures Sparse(Start, LostRun()) && IsRun(Start, LostRun())
    ensures !Acyclic(WaitsFor(After(Start, LostRun())))
  {
    var s := Both([Dep(1, 2)], map[1 := Wait(2), 2 := Wait(1)]);
    LostRunLeads(s);
    EachWaitsForTheOther(s);
  }

  lemma EachWaitsForTheOther(s: State)
    requires s == Both([Dep(1, 2)], map[1 := Wait(2), 2 := Wait(1)])
    ensures !Acyclic(WaitsFor(s))
  {
    var g := WaitsFor(s);
    assert g[1] == 2 && g[2] == 1;
    assert Path(g, 1, 0, 1) && Path(g, 2, 1, 1);
    assert Path(g, 1, 2, 1);
  }

  // ----- two registrations on one mapping -----

  /** 2 and 3 wait for entry 1; 2 wakes and withdraws, which removes the registration of 3. */
  function StaleRun(): seq<Action> {
    [Load(1, 1), Load(2, 2)] + ([Search(2, 1)] + ([Decide(2)] +
      ([Search(3, 1)] + ([Decide(3)] + ([Wake(2)] + ([Withdraw(2)] + []))))))
  }

  const Stale := Both([Dep(2, 1)], map[2 := Free, 3 := Wait(1)])

  lemma StaleEnd()
    ensures Leads(Both([Dep(3, 1), Dep(2, 1)], map[2 := Wait(1), 3 := Wait(1)]),
                  [Wake(2)] + ([Withdraw(2)] + []), Stale)
  {
    var d := [Dep(3, 1), Dep(2, 1)];
    var s4 := Both(d, map[2 := Wait(1), 3 := Wait(1)]);
    var s5 := Both(d, map[2 := Woken(1), 3 := Wait(1)]);
    assert Remove(d, 1) == [Dep(2, 1)];
    assert Apply(s5, Withdraw(2)) == Stale;
    First(s5, Withdraw(2), Stale, [], Stale);
    assert Apply(s4, Wake(2)) == s5;
    First(s4, Wake(2), s5, [Withdraw(2)] + [], Stale);
  }

  lemma StaleSearch(s: State, w: State)
    requires s == Both([Dep(2, 1)], map[2 := Wait(1)])
    requires w == Both([Dep(3, 1), Dep(2, 1)], map[2 := Wait(1), 3 := Walk(1, None, false, false)])
    ensures Enabled(s, Search(3, 1)) && Apply(s, Search(3, 1)) == w
  {
    assert w.deps[1..] == [Dep(2, 1)];
  }

  lemma StaleDecide(w: State, s': State)
    requires w == Both([Dep(3, 1), Dep(2, 1)], map[2 := Wait(1), 3 := Walk(1, None, false, false)])
    requires s' == Both([Dep(3, 1), Dep(2, 1)], map[2 := Wait(1), 3 := Wait(1)])
    ensures Enabled(w, Decide(3)) && Apply(w, Decide(3)) == s'
  {}

  lemma StaleMiddle(run: seq<Action>, s': State)
    requires Leads(Both([Dep(3, 1), Dep(2, 1)], map[2 := Wait(1), 3 := Wait(1)]), run, s')
    ensures Leads(Both([Dep(2, 1)], map[2 := Wait(1)]), [Search(3, 1)] + ([Decide(3)] + run), s')
  {
    var d := [Dep(3, 1), Dep(2, 1)];
    var s, x := Both([Dep(2, 1)], map[2 := Wait(1)]), Both(d, map[2 := Wait(1), 3 := Wait(1)]);
    var w := Both(d, map[2 := Wait(1), 3 := Walk(1, None, false, false)]);
    StaleDecide(w, x);
    First(w, Decide(3), x, run, s');
    StaleSearch(s, w);
    First(s, Search(3, 1), w, [Decide(3)] + run, s');
  }

  lemma StaleStart(run: seq<Action>, s': State)
    requires Leads(Both([Dep(2, 1)], map[2 := Wait(1)]), run, s')
    ensures Leads(Both([], map[]), [Search(2, 1)] + ([Decide(2)] + run), s')
  {
    var s, w := Both([Dep(2, 1)], map[2 := Wait(1)]), Both([Dep(2, 1)], map[2 := Walk(1, None, false, false)]);
    TwoDecides(w, s);
    First(w, Decide(2), s, run, s');
    TwoSearches(Both([], map[]), w);
    First(Both([], map[]), Search(2, 1), w, [Decide(2)] + run, s');
  }

  /** A run from the start in which the registration of 2 outlives its wait. */
  lemma StaleRunLeads()
    ensures Leads(Start, StaleRun(), Stale)
  {
    StaleEnd();
    var r := [Wake(2)] + ([Withdraw(2)] + []);
    StaleMiddle(r, Stale);
    StaleStart([Search(3, 1)] + ([Decide(3)] + r), Stale);
    BothLoadFirst([Search(2, 1)] + ([Decide(2)] + ([Search(3, 1)] + ([Decide(3)] + r))), Stale);
  }

  /** Thread 1 is then refused entry 2 although 2, which loads it, waits for nothing. */
  lemma StaleRegistrationRefuses()
    ensures PcOf(Stale, 2) == Free && Enabled(Stale, Search(1, 2))
    ensures var s := Apply(Stale, Search(1, 2)); Enabled(s, Check(1)) && PcOf(Apply(s, Check(1)), 1).hit
  {
    var w := Apply(Stale, Search(1, 2));
    assert w.deps[1..] == [Dep(2, 1)];
    assert PcOf(w, 1) == Walk(2, Some(Dep(2, 1)), false, false);
  }
}
