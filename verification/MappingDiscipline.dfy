/** Rules callers can keep to, and what they are worth over whole runs. */
module MappingDiscipline {
  import opened WaitGraph
  import opened ClassMapping
  import opened MappingRuns

  /** Nobody is registered on m. */
  ghost predicate FreeOf(deps: seq<Dep>, m: Entry) {
    forall e :: e in deps ==> e.mapping != m
  }

  /** A thread registers only on an entry nobody is registered on, and not while a refused
      registration is listed. */
  ghost predicate Guarded(s: State, a: Action) {
    (a.Search? || a.Load?) && Registers(s, a.t, a.m) ==> NoneRefused(s) && FreeOf(s.deps, a.m)
  }

  ghost predicate GuardedRun(s: State, run: seq<Action>)
    decreases |run|
  {
    run != [] ==> Enabled(s, run[0]) && Guarded(s, run[0]) && GuardedRun(Apply(s, run[0]), run[1..])
  }

  /** Nor does it ask for an entry it is loading itself while somebody is registered on that entry. */
  ghost predicate Careful(s: State, a: Action) {
    && Guarded(s, a)
    && ((a.Search? || a.Load?) && At(s.maps, a.m) == Mapping(LOADING, Thr(a.t)) ==> FreeOf(s.deps, a.m))
  }

  ghost predicate CarefulRun(s: State, run: seq<Action>)
    decreases |run|
  {
    run != [] ==> Enabled(s, run[0]) && Careful(s, run[0]) && CarefulRun(Apply(s, run[0]), run[1..])
  }

  // ----- guarded runs -----

  lemma WithoutOncePerMapping(deps: seq<Dep>, k: nat)
    requires OncePerMapping(deps) && k < |deps|
    ensures OncePerMapping(deps[..k] + deps[k + 1..])
  {
    var r := deps[..k] + deps[k + 1..];
    forall i | 0 <= i < |r| ensures r[i] == deps[if i < k then i else i + 1] {
      if i >= k { assert r[i] == deps[k + 1..][i - k]; }
    }
  }

  lemma RemoveOncePerMapping(deps: seq<Dep>, m: Entry)
    requires OncePerMapping(deps)
    ensures OncePerMapping(Remove(deps, m))
  {
    var k := FirstOn(deps, m);
    RemovesFirst(deps, m, k);
    if k < |deps| { WithoutOncePerMapping(deps, k); }
  }

  lemma RegisterOncePerMapping(deps: seq<Dep>, t: Thread, m: Entry)
    requires OncePerMapping(deps) && FreeOf(deps, m)
    ensures OncePerMapping([Dep(t, m)] + deps)
  {
    forall i | 0 <= i < |deps| ensures deps[i].mapping != m {
      assert deps[i] in deps;
    }
  }

  /** What a step does to the list: a withdrawal removes, a registration is put in front. */
  lemma ListEffect(s: State, a: Action)
    requires Enabled(s, a)
    ensures var s' := Apply(s, a);
      if a.Withdraw? then s'.deps == Remove(s.deps, PcOf(s, a.t).mapping)
      else if (a.Search? || a.Load?) && Registers(s, a.t, a.m) then s'.deps == [Dep(a.t, a.m)] + s.deps
      else s'.deps == s.deps
  {}

  lemma GuardedStep(s: State, a: Action)
    requires Registrations(s) && OncePerMapping(s.deps) && Enabled(s, a) && Guarded(s, a)
    ensures Tidy(s, a) && OncePerMapping(Apply(s, a).deps)
  {
    ListEffect(s, a);
    if a.Withdraw? {
      OncePerMappingIsTidy(s, a.t);
      RemoveOncePerMapping(s.deps, PcOf(s, a.t).mapping);
    } else if (a.Search? || a.Load?) && Registers(s, a.t, a.m) {
      RegisterOncePerMapping(s.deps, a.t, a.m);
    }
  }

  lemma {:induction false} GuardedRunIsTidy(s: State, run: seq<Action>)
    requires Inv(s) && OncePerMapping(s.deps) && GuardedRun(s, run)
    ensures TidyRun(s, run)
    decreases |run|
  {
    if run != [] {
      GuardedStep(s, run[0]);
      StepKeepsInv(s, run[0]);
      GuardedRunIsTidy(Apply(s, run[0]), run[1..]);
    }
  }

  /** Where threads register one to an entry, and never while a refusal is listed, the accepted
      registrations never form a circle; between walks, with no refusal listed, that is all of them. */
  lemma GuardedRunsStayAcyclic(s: State, run: seq<Action>)
    requires Init(s) && GuardedRun(s, run)
    ensures IsRun(s, run) && OncePerThread(After(s, run).deps) && Acyclic(Accepted(After(s, run)))
    ensures var s' := After(s, run); MappingUnlocked(s') && NoneRefused(s') ==> Acyclic(Edges(s'.deps, s'.maps))
  {
    assert Accepted(s) == map[];
    assert Inv(s);
    GuardedRunIsTidy(s, run);
    WaitGraphStaysAcyclic(s, run);
  }

  // ----- careful runs -----

  /** Nobody is registered on an entry whose loader has just asked for it. */
  ghost predicate SelfAlone(s: State) {
    forall t :: PcOf(s, t).SelfCircular? ==> FreeOf(s.deps, PcOf(s, t).mapping)
  }

  lemma BecomesSelfCircular(s: State, a: Action, t: Thread)
    requires Enabled(s, a) && PcOf(Apply(s, a), t).SelfCircular? && !PcOf(s, t).SelfCircular?
    ensures (a.Search? || a.Load?) && a.t == t && At(s.maps, a.m) == Mapping(LOADING, Thr(t))
    ensures PcOf(Apply(s, a), t).mapping == a.m
  {}

  lemma CarefulKeepsSelfAlone(s: State, a: Action)
    requires SelfAlone(s) && Enabled(s, a) && Careful(s, a)
    ensures SelfAlone(Apply(s, a))
  {
    var s' := Apply(s, a);
    ListEffect(s, a);
    forall t | PcOf(s', t).SelfCircular?
      ensures FreeOf(s'.deps, PcOf(s', t).mapping)
    {
      if !PcOf(s, t).SelfCircular? {
        BecomesSelfCircular(s, a, t);
      } else {
        StaysSelfCircular(s, a, t);
        assert FreeOf(s.deps, PcOf(s, t).mapping);
      }
    }
  }

  /** It keeps the entry's lock until it withdraws, so nobody registers there meanwhile. */
  lemma StaysSelfCircular(s: State, a: Action, t: Thread)
    requires Enabled(s, a) && PcOf(s, t).SelfCircular? && PcOf(Apply(s, a), t).SelfCircular?
    ensures a.t != t && PcOf(Apply(s, a), t) == PcOf(s, t)
    ensures (a.Search? || a.Load?) && Registers(s, a.t, a.m) ==> a.m != PcOf(s, t).mapping
  {
    assert t in s.pcs && HoldsEntry(s.pcs[t], PcOf(s, t).mapping);
  }

  lemma CarefulIsExact(s: State, a: Action)
    requires Registrations(s) && AllListed(s) && OncePerMapping(s.deps) && SelfAlone(s)
    requires Enabled(s, a) && Careful(s, a)
    ensures Exact(s, a)
  {
    GuardedStep(s, a);
    if a.Withdraw? {
      var pc := PcOf(s, a.t);
      var k := FirstOn(s.deps, pc.mapping);
      ExactIffNothingStolen(s, a.t);
      RegisteredIff(s, a.t);
      if k < |s.deps| { assert s.deps[k] in s.deps; }
      if !pc.SelfCircular? {
        var j :| 0 <= j < |s.deps| && s.deps[j] == Dep(a.t, pc.mapping);
        assert k == j;
      }
    }
  }

  lemma {:induction false} CarefulRunIsExact(s: State, run: seq<Action>)
    requires Inv(s) && AllListed(s) && OncePerMapping(s.deps) && SelfAlone(s) && CarefulRun(s, run)
    ensures ExactRun(s, run)
    decreases |run|
  {
    if run != [] {
      CarefulIsExact(s, run[0]);
      GuardedStep(s, run[0]);
      StepKeepsInv(s, run[0]);
      ExactKeepsListed(s, run[0]);
      CarefulKeepsSelfAlone(s, run[0]);
      CarefulRunIsExact(Apply(s, run[0]), run[1..]);
    }
  }

  /** With the last rule as well, no threads ever wait for each other in a circle. */
  lemma CarefulRunsNeverCircle(s: State, run: seq<Action>)
    requires Init(s) && CarefulRun(s, run)
    ensures IsRun(s, run) && Acyclic(WaitsFor(After(s, run)))
  {
    assert Accepted(s) == map[];
    assert Inv(s);
    CarefulRunIsExact(s, run);
    NoCircularWait(s, run);
  }
}
