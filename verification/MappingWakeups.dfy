/** Threads asleep on an entry are woken when there is something for them to do. */
module MappingWakeups {
  import opened ClassMapping

  predicate Sleeps(pc: Pc) {
    pc.Asleep? || pc.Wait?
  }

  /** The calls that end with a broadcast on m, whether or not they changed the entry. */
  predicate Broadcasts(a: Action, m: Entry) {
    (a.Loaded? || a.SetState?) && a.m == m
  }

  /** Who sleeps without having been notified: those who have just fallen asleep, and those who slept so
      before and heard no broadcast on their entry. */
  ghost function NextUnheard(s: State, unheard: set<Thread>, a: Action): set<Thread>
    requires Enabled(s, a)
  {
    var s' := Apply(s, a);
    set t | t in s'.pcs && Sleeps(s'.pcs[t]) && (t == a.t || (t in unheard && !Broadcasts(a, s'.pcs[t].mapping)))
  }

  ghost function Unheard(s: State, unheard: set<Thread>, run: seq<Action>): set<Thread>
    requires IsRun(s, run)
    decreases |run|
  {
    if run == [] then unheard else Unheard(Apply(s, run[0]), NextUnheard(s, unheard, run[0]), run[1..])
  }

  /** A thread that walks has the lock of an entry being loaded. */
  ghost predicate WalksLoading(s: State) {
    forall t :: PcOf(s, t).Walk? ==> At(s.maps, PcOf(s, t).mapping).state == LOADING
  }

  /** Unnotified sleepers sleep on entries that somebody is searching for, loading or linking. */
  ghost predicate BusyEntries(s: State, unheard: set<Thread>) {
    forall t :: t in unheard ==>
      Sleeps(PcOf(s, t)) && At(s.maps, PcOf(s, t).mapping).state in {SEARCHING, LOADING, LOADED}
  }

  lemma WalksLoadingStep(s: State, a: Action)
    requires WalksLoading(s) && Enabled(s, a)
    ensures WalksLoading(Apply(s, a))
  {
    var s' := Apply(s, a);
    forall t | PcOf(s', t).Walk? ensures At(s'.maps, PcOf(s', t).mapping).state == LOADING {
      if t != a.t {
        assert PcOf(s', t) == PcOf(s, t);
        assert HoldsEntry(s.pcs[t], PcOf(s, t).mapping);
      }
    }
  }

  /** Nothing but a broadcasting call makes an entry EMPTY or DONE. */
  lemma BusyStays(s: State, a: Action, m: Entry)
    requires Enabled(s, a) && !Broadcasts(a, m) && At(s.maps, m).state in {SEARCHING, LOADING, LOADED}
    ensures At(Apply(s, a).maps, m).state in {SEARCHING, LOADING, LOADED}
  {}

  lemma FallsAsleep(s: State, a: Action)
    requires WalksLoading(s) && Enabled(s, a) && Sleeps(PcOf(Apply(s, a), a.t)) && !Sleeps(PcOf(s, a.t))
    ensures At(Apply(s, a).maps, PcOf(Apply(s, a), a.t).mapping).state in {SEARCHING, LOADING, LOADED}
  {}

  /** A sleeper takes no step but to wake. */
  lemma SleeperWakes(s: State, a: Action)
    requires Enabled(s, a) && Sleeps(PcOf(s, a.t))
    ensures !Sleeps(PcOf(Apply(s, a), a.t))
  {}

  lemma BusyStep(s: State, unheard: set<Thread>, a: Action)
    requires WalksLoading(s) && BusyEntries(s, unheard) && Enabled(s, a)
    ensures BusyEntries(Apply(s, a), NextUnheard(s, unheard, a))
  {
    var s' := Apply(s, a);
    forall t | t in NextUnheard(s, unheard, a)
      ensures Sleeps(PcOf(s', t)) && At(s'.maps, PcOf(s', t).mapping).state in {SEARCHING, LOADING, LOADED}
    {
      if t == a.t {
        if Sleeps(PcOf(s, t)) { SleeperWakes(s, a); }
        FallsAsleep(s, a);
      } else {
        assert PcOf(s', t) == PcOf(s, t);
        BusyStays(s, a, PcOf(s, t).mapping);
      }
    }
  }

  lemma {:induction false} BusyRun(s: State, unheard: set<Thread>, run: seq<Action>)
    requires WalksLoading(s) && BusyEntries(s, unheard) && IsRun(s, run)
    ensures BusyEntries(After(s, run), Unheard(s, unheard, run))
    decreases |run|
  {
    if run != [] {
      WalksLoadingStep(s, run[0]);
      BusyStep(s, unheard, run[0]);
      BusyRun(Apply(s, run[0]), NextUnheard(s, unheard, run[0]), run[1..]);
    }
  }

  /** Over every run, disciplined or not, no thread is left asleep and unnotified on an entry that is
      free to be taken or whose class is there. */
  lemma NoWakeupIsLost(s: State, run: seq<Action>, t: Thread)
    requires Init(s) && IsRun(s, run) && t in Unheard(s, {}, run)
    ensures var s' := After(s, run);
      Sleeps(PcOf(s', t)) && At(s'.maps, PcOf(s', t).mapping).state !in {EMPTY, DONE}
  {
    BusyRun(s, {}, run);
  }
}
