/** What a mapping goes through over a run. */
module MappingLife {
  import opened Options
  import opened ClassMapping

  // ----- done is done -----

  lemma DoneStep(s: State, a: Action, m: Entry)
    requires Enabled(s, a) && At(s.maps, m).state == DONE
    ensures At(Apply(s, a).maps, m) == At(s.maps, m)
  {}

  /** DONE is never left, and the word stored with it never changes. */
  lemma {:induction false} DoneForever(s: State, run: seq<Action>, m: Entry)
    requires IsRun(s, run) && At(s.maps, m).state == DONE
    ensures At(After(s, run).maps, m) == At(s.maps, m)
    decreases |run|
  {
    if run != [] {
      DoneStep(s, run[0], m);
      DoneForever(Apply(s, run[0]), run[1..], m);
    }
  }

  ghost predicate HandedOk(s: State) {
    forall m, d :: (m, d) in s.handed ==> At(s.maps, m) == Mapping(DONE, d)
  }

  lemma HandedStep(s: State, a: Action)
    requires HandedOk(s) && Enabled(s, a)
    ensures HandedOk(Apply(s, a))
  {
    var s' := Apply(s, a);
    forall m, d | (m, d) in s'.handed
      ensures At(s'.maps, m) == Mapping(DONE, d)
    {
      if (m, d) in s.handed {
        DoneStep(s, a, m);
      }
    }
  }

  lemma {:induction false} HandedRun(s: State, run: seq<Action>)
    requires HandedOk(s) && IsRun(s, run)
    ensures HandedOk(After(s, run))
    decreases |run|
  {
    if run != [] {
      HandedStep(s, run[0]);
      HandedRun(Apply(s, run[0]), run[1..]);
    }
  }

  /** Over any run, disciplined or not, all callers that are given a word through out_cl for one
      entry are given the same one. */
  lemma SameClassForAll(s: State, run: seq<Action>, m: Entry, d: Datum, d': Datum)
    requires Init(s) && IsRun(s, run)
    requires (m, d) in After(s, run).handed && (m, d') in After(s, run).handed
    ensures d == d'
  {
    HandedRun(s, run);
  }

  // ----- the union matches the state -----

  ghost predicate Typed(e: Mapping) {
    match e.state
    case EMPTY => true
    case SEARCHING => e.data.Thr?
    case LOADING => e.data.Thr?
    case LOADED => e.data.Cls?
    case DONE => e.data.Cls?
  }

  /** The forced states that suit what the union holds. */
  ghost predicate Suits(e: Mapping, phase: Phase) {
    match e.state
    case EMPTY => true
    case DONE => true
    case LOADED => phase in {EMPTY, LOADED, DONE}
    case SEARCHING => phase in {EMPTY, SEARCHING, LOADING}
    case LOADING => phase in {EMPTY, SEARCHING, LOADING}
  }

  ghost predicate AllTyped(s: State) {
    forall m :: Typed(At(s.maps, m))
  }

  /** A step leaves every union matching its state, unless it forces a state on an entry whose
      union does not suit it. */
  lemma TypedStepIff(s: State, a: Action)
    requires AllTyped(s) && Enabled(s, a)
    ensures AllTyped(Apply(s, a)) <==> (a.SetState? ==> Suits(At(s.maps, a.m), a.phase))
  {
    var s' := Apply(s, a);
    if a.SetState? {
      var e, e' := At(s.maps, a.m), At(s'.maps, a.m);
      assert Typed(e);
      assert Typed(e') <==> Suits(e, a.phase);
      assert forall m :: m != a.m ==> At(s'.maps, m) == At(s.maps, m);
    } else {
      forall m
        ensures Typed(At(s'.maps, m))
      {
        assert Typed(At(s.maps, m));
      }
    }
  }

  ghost predicate SuitedRun(s: State, run: seq<Action>)
    decreases |run|
  {
    run != [] ==>
      && Enabled(s, run[0])
      && (run[0].SetState? ==> Suits(At(s.maps, run[0].m), run[0].phase))
      && SuitedRun(Apply(s, run[0]), run[1..])
  }

  lemma {:induction false} SuitedRunKeepsTyped(s: State, run: seq<Action>)
    requires AllTyped(s) && SuitedRun(s, run)
    ensures IsRun(s, run) && AllTyped(After(s, run))
    decreases |run|
  {
    if run != [] {
      TypedStepIff(s, run[0]);
      SuitedRunKeepsTyped(Apply(s, run[0]), run[1..]);
    }
  }

  /** When states are only forced where they suit, an entry being searched for or loaded records
      a thread, a loaded one its class, and out_cl only ever receives classes. */
  lemma UnionMatchesState(s: State, run: seq<Action>)
    requires Init(s) && SuitedRun(s, run)
    ensures IsRun(s, run) && AllTyped(After(s, run))
    ensures forall m, d :: (m, d) in After(s, run).handed ==> d.Cls?
  {
    SuitedRunKeepsTyped(s, run);
    HandedRun(s, run);
    var s' := After(s, run);
    forall m, d | (m, d) in s'.handed
      ensures d.Cls?
    {
      assert Typed(At(s'.maps, m));
    }
  }

  /** Forcing LOADING on a loaded entry breaks the match: the class left in the union is then
      read as the thread that loads. */
  lemma ForcedLoadingMistypes()
    ensures exists s, run :: Init(s) && IsRun(s, run) && !AllTyped(After(s, run))
  {
    var s := State(map[], [], map[], {});
    var run := [Load(1, 7), Loaded(1, 7, 40, false), SetState(1, 7, LOADING)];
    assert run[1..] == [Loaded(1, 7, 40, false), SetState(1, 7, LOADING)];
    assert run[1..][1..] == [SetState(1, 7, LOADING)];
    assert run[1..][1..][1..] == [];
    assert IsRun(s, run);
    assert !Typed(At(After(s, run).maps, 7));
  }

  // ----- the class handed out is the one reported -----

  /** A report that is heeded: somebody is searching for the entry or loading it. */
  predicate Heeded(s: State, a: Action, m: Entry) {
    a.Loaded? && a.m == m && At(s.maps, m).state in {SEARCHING, LOADING}
  }

  /** The class last reported for m, `before` if none was. */
  ghost function LastReport(s: State, run: seq<Action>, m: Entry, before: Option<Class>): Option<Class>
    requires IsRun(s, run)
    decreases |run|
  {
    if run == [] then before
    else
      LastReport(Apply(s, run[0]), run[1..], m, if Heeded(s, run[0], m) then Some(run[0].cl) else before)
  }

  /** A loaded entry holds the class last reported. */
  ghost predicate HoldsReport(s: State, m: Entry, last: Option<Class>) {
    At(s.maps, m).state in {LOADED, DONE} ==> last.Some? && At(s.maps, m).data == Cls(last.value)
  }

  lemma ReportStep(s: State, a: Action, m: Entry, last: Option<Class>)
    requires HoldsReport(s, m, last) && Enabled(s, a) && (a.SetState? ==> Suits(At(s.maps, a.m), a.phase))
    ensures HoldsReport(Apply(s, a), m, if Heeded(s, a, m) then Some(a.cl) else last)
  {}

  lemma {:induction false} ReportRun(s: State, run: seq<Action>, m: Entry, last: Option<Class>)
    requires HoldsReport(s, m, last) && SuitedRun(s, run)
    ensures IsRun(s, run) && HoldsReport(After(s, run), m, LastReport(s, run, m, last))
    decreases |run|
  {
    if run != [] {
      ReportStep(s, run[0], m, last);
      ReportRun(Apply(s, run[0]), run[1..], m, if Heeded(s, run[0], m) then Some(run[0].cl) else last);
    }
  }

  /** Whoever is given a word for an entry is given the class last reported for it. */
  lemma HandedWhatWasReported(s: State, run: seq<Action>, m: Entry, d: Datum)
    requires Init(s) && SuitedRun(s, run)
    ensures IsRun(s, run)
    ensures (m, d) in After(s, run).handed ==>
      LastReport(s, run, m, None).Some? && d == Cls(LastReport(s, run, m, None).value)
  {
    ReportRun(s, run, m, None);
    HandedRun(s, run);
  }

  /** A reported class was reported: some heeded report names it. */
  lemma {:induction false} ReportIsInRun(s: State, run: seq<Action>, m: Entry, before: Option<Class>)
    requires IsRun(s, run)
    ensures var last := LastReport(s, run, m, before);
      last == before || exists a :: a in run && a.Loaded? && a.m == m && Some(a.cl) == last
    decreases |run|
  {
    if run != [] {
      var next := if Heeded(s, run[0], m) then Some(run[0].cl) else before;
      ReportIsInRun(Apply(s, run[0]), run[1..], m, next);
      assert run[0] in run && forall a :: a in run[1..] ==> a in run;
    }
  }

  /** Asks for m. */
  predicate Asks(a: Action, m: Entry) {
    (a.Search? || a.Load?) && a.m == m
  }

  lemma {:induction false} HandedStays(s: State, run: seq<Action>, x: (Entry, Datum))
    requires IsRun(s, run) && x in s.handed
    ensures x in After(s, run).handed
    decreases |run|
  {
    if run != [] {
      HandedStays(Apply(s, run[0]), run[1..], x);
    }
  }

  lemma {:induction false} DoneIsHanded(s: State, run: seq<Action>, m: Entry, c: Class)
    requires IsRun(s, run) && At(s.maps, m) == Mapping(DONE, Cls(c)) && exists a :: a in run && Asks(a, m)
    ensures (m, Cls(c)) in After(s, run).handed
    decreases |run|
  {
    var s' := Apply(s, run[0]);
    DoneStep(s, run[0], m);
    if Asks(run[0], m) {
      HandedStays(s', run[1..], (m, Cls(c)));
    } else {
      assert forall a :: a in run && a != run[0] ==> a in run[1..];
      DoneIsHanded(s', run[1..], m, c);
    }
  }

  /** Once a prepared class is reported for an entry somebody searches for or loads, everybody who asks
      for the entry is given it, whatever else happens. */
  lemma PreparedReportIsHandedOut(s: State, t: Thread, m: Entry, c: Class, run: seq<Action>)
    requires At(s.maps, m).state in {SEARCHING, LOADING} && Enabled(s, Loaded(t, m, c, true))
    requires IsRun(Apply(s, Loaded(t, m, c, true)), run) && exists a :: a in run && Asks(a, m)
    ensures (m, Cls(c)) in After(Apply(s, Loaded(t, m, c, true)), run).handed
  {
    DoneIsHanded(Apply(s, Loaded(t, m, c, true)), run, m, c);
  }

  lemma LoadedStep(s: State, a: Action, m: Entry, c: Class)
    requires Enabled(s, a) && !(a.SetState? && a.m == m) && At(s.maps, m) == Mapping(LOADED, Cls(c))
    ensures var s' := Apply(s, a);
      && At(s'.maps, m) == At(s.maps, m)
      && (forall d :: (m, d) in s'.handed ==> (m, d) in s.handed)
      && (Asks(a, m) ==> PcOf(s', a.t) == Asleep(m))
  {}

  /** While the class reported is not prepared nobody is given it, and all who ask for the entry go to
      sleep on it, until a state is forced. */
  lemma {:induction false} UnpreparedIsWithheld(s: State, m: Entry, c: Class, run: seq<Action>)
    requires At(s.maps, m) == Mapping(LOADED, Cls(c)) && IsRun(s, run)
    requires forall a :: a in run ==> !(a.SetState? && a.m == m)
    ensures At(After(s, run).maps, m) == Mapping(LOADED, Cls(c))
    ensures forall d :: (m, d) in After(s, run).handed ==> (m, d) in s.handed
    decreases |run|
  {
    if run != [] {
      assert run[0] in run && forall a :: a in run[1..] ==> a in run;
      LoadedStep(s, run[0], m, c);
      UnpreparedIsWithheld(Apply(s, run[0]), m, c, run[1..]);
    }
  }

  lemma UnpreparedReport(s: State, t: Thread, m: Entry, c: Class, run: seq<Action>)
    requires At(s.maps, m).state in {SEARCHING, LOADING} && Enabled(s, Loaded(t, m, c, false)) && HandedOk(s)
    requires IsRun(Apply(s, Loaded(t, m, c, false)), run)
    requires forall a :: a in run ==> !(a.SetState? && a.m == m)
    ensures forall d :: (m, d) !in After(Apply(s, Loaded(t, m, c, false)), run).handed
  {
    UnpreparedIsWithheld(Apply(s, Loaded(t, m, c, false)), m, c, run);
  }

  // ----- responsibility -----

  /** An action that may end the loading of m. */
  predicate Ends(a: Action, m: Entry) {
    (a.Loaded? || a.SetState?) && a.m == m
  }

  /** Once t is responsible for loading m, no other thread becomes responsible, however many
      search for it or try to load it, until the load is reported or the entry reset. */
  lemma {:induction false} LoadingIsExclusive(s: State, run: seq<Action>, t: Thread, m: Entry)
    requires IsRun(s, run) && At(s.maps, m) == Mapping(LOADING, Thr(t))
    requires forall a :: a in run ==> !Ends(a, m)
    ensures At(After(s, run).maps, m) == Mapping(LOADING, Thr(t))
    decreases |run|
  {
    if run != [] {
      assert !Ends(run[0], m);
      assert forall a :: a in run[1..] ==> a in run;
      LoadingIsExclusive(Apply(s, run[0]), run[1..], t, m);
    }
  }

  /** A turn by which its thread becomes responsible for loading m. */
  predicate Takes(s: State, a: Action, m: Entry) {
    a.Load? && a.m == m && At(s.maps, m).state in {EMPTY, SEARCHING}
  }

  ghost function Takers(s: State, run: seq<Action>, m: Entry): seq<Thread>
    requires IsRun(s, run)
    decreases |run|
  {
    if run == [] then []
    else (if Takes(s, run[0], m) then [run[0].t] else []) + Takers(Apply(s, run[0]), run[1..], m)
  }

  lemma OpenStep(s: State, a: Action, m: Entry)
    requires Enabled(s, a) && !Ends(a, m) && At(s.maps, m).state in {EMPTY, SEARCHING}
    ensures var e := At(Apply(s, a).maps, m);
      if Takes(s, a, m) then e == Mapping(LOADING, Thr(a.t)) else e.state in {EMPTY, SEARCHING}
  {}

  lemma {:induction false} NoTakers(s: State, run: seq<Action>, t: Thread, m: Entry)
    requires IsRun(s, run) && At(s.maps, m) == Mapping(LOADING, Thr(t)) && forall a :: a in run ==> !Ends(a, m)
    ensures Takers(s, run, m) == []
    decreases |run|
  {
    if run != [] {
      assert IsRun(s, [run[0]]) && After(s, [run[0]]) == Apply(s, run[0]);
      LoadingIsExclusive(s, [run[0]], t, m);
      NoTakers(Apply(s, run[0]), run[1..], t, m);
    }
  }

  /** However many threads search for an entry and try to load it, until the load is reported or the
      entry reset exactly one of those that try becomes responsible, and is the one recorded. */
  lemma {:induction false} OneLoader(s: State, run: seq<Action>, m: Entry)
    requires IsRun(s, run) && At(s.maps, m).state in {EMPTY, SEARCHING} && forall a :: a in run ==> !Ends(a, m)
    ensures if exists a :: a in run && a.Load? && a.m == m
            then |Takers(s, run, m)| == 1 && At(After(s, run).maps, m) == Mapping(LOADING, Thr(Takers(s, run, m)[0]))
            else Takers(s, run, m) == []
    decreases |run|
  {
    if run != [] {
      var a, s', rest := run[0], Apply(s, run[0]), run[1..];
      assert forall b :: b in run <==> b == a || b in rest;
      OpenStep(s, a, m);
      if Takes(s, a, m) {
        NoTakers(s', rest, a.t, m);
        LoadingIsExclusive(s', rest, a.t, m);
      } else {
        OneLoader(s', rest, m);
      }
    }
  }

  // ----- who gets past an entry -----

  /** In terms of the entry as it is left: whoever asks gets past it exactly when it is done, or when
      it records the asker, who was not loading it already. */
  lemma PassesIff(s: State, a: Action, m: Entry)
    requires Enabled(s, a) && Asks(a, m)
    ensures var s' := Apply(s, a);
      var e := At(s'.maps, m);
      PcOf(s', a.t).Free? <==>
        e.state == DONE || (e.state in {SEARCHING, LOADING} && e.data == Thr(a.t) && At(s.maps, m).state != LOADING)
  {}

  /** The first to search for an unused entry is recorded. Until it is taken over, reported or reset,
      all others that search for it go to sleep on it. */
  lemma {:induction false} OneSearcher(s: State, run: seq<Action>, t: Thread, m: Entry)
    requires IsRun(s, run) && At(s.maps, m) == Mapping(SEARCHING, Thr(t))
    requires forall a :: a in run ==> !Ends(a, m) && !(a.Load? && a.m == m)
    ensures At(After(s, run).maps, m) == Mapping(SEARCHING, Thr(t))
    ensures forall k :: 0 <= k < |run| && run[k].Search? && run[k].m == m && run[k].t != t ==> SleepsAfter(s, run, k, m)
    decreases |run|
  {
    if run != [] {
      assert run[0] in run && forall a :: a in run[1..] ==> a in run;
      var s' := Apply(s, run[0]);
      OneSearcher(s', run[1..], t, m);
      forall k | 0 <= k < |run| && run[k].Search? && run[k].m == m && run[k].t != t ensures SleepsAfter(s, run, k, m) {
        if k > 0 {
          assert run[k] == run[1..][k - 1] && SleepsAfter(s', run[1..], k - 1, m);
        }
      }
    }
  }

  /** Right after its k-th step the thread that took it sleeps on m. */
  ghost predicate SleepsAfter(s: State, run: seq<Action>, k: nat, m: Entry)
    requires IsRun(s, run) && k < |run|
    decreases k
  {
    var s' := Apply(s, run[0]);
    if k == 0 then PcOf(s', run[0].t) == Asleep(m) else SleepsAfter(s', run[1..], k - 1, m)
  }

  lemma FirstSearchIsRecorded(s: State, t: Thread, m: Entry)
    requires At(s.maps, m).state == EMPTY && Enabled(s, Search(t, m))
    ensures At(Apply(s, Search(t, m)).maps, m) == Mapping(SEARCHING, Thr(t))
  {}

  /** An entry that is reset before it is done is anybody's: the next that tries to load it does. */
  lemma ResetReopens(s: State, t: Thread, m: Entry, u: Thread)
    requires At(s.maps, m).state != DONE && Enabled(s, SetState(t, m, EMPTY))
    requires Enabled(Apply(s, SetState(t, m, EMPTY)), Load(u, m))
    ensures At(Apply(Apply(s, SetState(t, m, EMPTY)), Load(u, m)).maps, m) == Mapping(LOADING, Thr(u))
  {}

  /** A linked class is there for all once the entry is forced to be done. */
  lemma LinkedIsHandedOut(s: State, t: Thread, m: Entry, c: Class, run: seq<Action>)
    requires At(s.maps, m) == Mapping(LOADED, Cls(c)) && Enabled(s, SetState(t, m, DONE))
    requires IsRun(Apply(s, SetState(t, m, DONE)), run) && exists a :: a in run && Asks(a, m)
    ensures (m, Cls(c)) in After(Apply(s, SetState(t, m, DONE)), run).handed
  {
    DoneIsHanded(Apply(s, SetState(t, m, DONE)), run, m, c);
  }
}
