/** The class-mapping protocol of the class entry pool: the EMPTY / SEARCHING / LOADING /
    LOADED / DONE life of an entry, driven by any number of threads, and the list of name
    dependencies by which circular loading is detected.

    A step is one access to shared memory: a turn of a loop under an entry's lock, one read of
    the dependency walk, a withdrawal under the mapping lock. The walk holds the mapping lock,
    but the entries it reads are guarded by their own locks, so other threads may hand
    entries over between its reads. A thread that registers takes its entry's lock and the mapping
    lock in one step: while it holds the first and queues for the second it reads and writes nothing
    shared, so the two may as well be taken together. */
module ClassMapping {
  import opened Options
  import opened WaitGraph

  type Thread = Node
  type Entry = nat
  type Class = nat

  datatype Phase = EMPTY | SEARCHING | LOADING | LOADED | DONE

  /** The data union of an entry. A class pointer read as a thread equals no thread. */
  datatype Datum = Null | Thr(thread: Thread) | Cls(cl: Class)

  datatype Mapping = Mapping(state: Phase, data: Datum)

  type Maps = map<Entry, Mapping>

  /** Thread `thread` is registered as blocked on `mapping`. */
  datatype Dep = Dep(thread: Thread, mapping: Entry)

  /** Entries not mentioned are as lookupClassEntry creates them. */
  function At(maps: Maps, m: Entry): Mapping {
    if m in maps then maps[m] else Mapping(EMPTY, Null)
  }

  // ----- the dependency list -----

  /** The first registration of the thread stored in d. */
  function Find(deps: seq<Dep>, d: Datum): (r: Option<Dep>)
    ensures r.Some? ==> r.value in deps && d == Thr(r.value.thread)
    ensures r.None? ==> forall e :: e in deps ==> d != Thr(e.thread)
  {
    if deps == [] then None
    else if d == Thr(deps[0].thread) then Some(deps[0])
    else Find(deps[1..], d)
  }

  /** The list without the first registration on m. */
  function Remove(deps: seq<Dep>, m: Entry): (r: seq<Dep>)
    ensures forall e :: e in r ==> e in deps
    ensures |r| <= |deps|
  {
    if deps == [] then []
    else if deps[0].mapping == m then deps[1..]
    else [deps[0]] + Remove(deps[1..], m)
  }

  /** Taking an element out behind the first one. */
  lemma ConsWithout(d: Dep, tail: seq<Dep>, k: nat)
    requires k < |tail|
    ensures ([d] + tail)[..k + 1] + ([d] + tail)[k + 2..] == [d] + (tail[..k] + tail[k + 1..])
  {
    assert ([d] + tail)[..k + 1] == [d] + tail[..k];
    assert ([d] + tail)[k + 2..] == tail[k + 1..];
  }

  lemma RemoveCons(d: Dep, tail: seq<Dep>, m: Entry)
    ensures Remove([d] + tail, m) == if d.mapping == m then tail else [d] + Remove(tail, m)
  {
    assert ([d] + tail)[1..] == tail;
  }

  /** What the removal leaves: the list without its first registration on the mapping. */
  lemma {:induction false} RemovesFirst(deps: seq<Dep>, m: Entry, k: nat)
    requires k <= |deps| && (k < |deps| ==> deps[k].mapping == m)
    requires forall i :: 0 <= i < k ==> deps[i].mapping != m
    ensures Remove(deps, m) == if k < |deps| then deps[..k] + deps[k + 1..] else deps
  {
    if deps != [] {
      var d, tail := deps[0], deps[1..];
      assert deps == [d] + tail;
      RemoveCons(d, tail, m);
      if k > 0 {
        RemovesFirst(tail, m, k - 1);
        if k < |deps| { ConsWithout(d, tail, k - 1); }
      } else {
        assert deps[..0] + tail == tail;
      }
    }
  }

  ghost predicate OncePerThread(deps: seq<Dep>) {
    forall i, j :: 0 <= i < j < |deps| ==> deps[i].thread != deps[j].thread
  }

  ghost predicate OncePerMapping(deps: seq<Dep>) {
    forall i, j :: 0 <= i < j < |deps| ==> deps[i].mapping != deps[j].mapping
  }

  ghost function Threads(deps: seq<Dep>): set<Thread> {
    set e | e in deps :: e.thread
  }

  /** What the walk reads for a registered thread t: the datum of the mapping t is blocked on. */
  ghost function Successor(deps: seq<Dep>, maps: Maps, t: Thread): Datum {
    match Find(deps, Thr(t))
    case None => Null
    case Some(d) => At(maps, d.mapping).data
  }

  /** From each registered thread to the thread recorded in its mapping. */
  ghost function Edges(deps: seq<Dep>, maps: Maps): Graph {
    map t | t in Threads(deps) && Successor(deps, maps, t).Thr? :: Successor(deps, maps, t).thread
  }

  lemma {:induction false} FindUnique(deps: seq<Dep>, e: Dep)
    requires OncePerThread(deps) && e in deps
    ensures Find(deps, Thr(e.thread)) == Some(e)
  {
    if deps[0] != e {
      assert forall i, j :: 0 <= i < j < |deps[1..]| ==> deps[1..][i] == deps[i + 1] && deps[1..][j] == deps[j + 1];
      var i :| 0 <= i < |deps| && deps[i] == e;
      assert deps[1..][i - 1] == e;
      FindUnique(deps[1..], e);
    }
  }

  lemma {:induction false} RemoveKeepsOrder(deps: seq<Dep>, m: Entry)
    requires OncePerThread(deps)
    ensures OncePerThread(Remove(deps, m))
  {
    if deps != [] && deps[0].mapping != m {
      var tail := deps[1..];
      assert forall i :: 0 <= i < |tail| ==> tail[i] == deps[i + 1];
      RemoveKeepsOrder(tail, m);
      var r := Remove(tail, m);
      forall j | 0 <= j < |r|
        ensures r[j].thread != deps[0].thread
      {
        assert r[j] in tail;
      }
    } else if deps != [] {
      assert forall i :: 0 <= i < |deps[1..]| ==> deps[1..][i] == deps[i + 1];
    }
  }

  // ----- the machine -----

  datatype Pc =
    | Free
    // waiting on the entry's condition, unregistered
    | Asleep(mapping: Entry)
    // inside addNameDependency, holding the entry's lock and the mapping lock
    | Walk(mapping: Entry, cur: Option<Dep>, checked: bool, hit: bool)
    // registration refused: about to withdraw and fail, holding the entry's lock
    | Refused(mapping: Entry)
    // asked for an entry this thread itself is loading: about to withdraw and fail
    | SelfCircular(mapping: Entry)
    // waiting on the entry's condition, registered
    | Wait(mapping: Entry)
    // woken from Wait with the entry's lock back: about to withdraw and try again
    | Woken(mapping: Entry)

  datatype State = State(
    maps: Maps,
    deps: seq<Dep>,
    pcs: map<Thread, Pc>,
    // every word handed out through out_cl, with the entry it came from
    handed: set<(Entry, Datum)>)

  datatype Action =
    | Search(t: Thread, m: Entry)
    | Load(t: Thread, m: Entry)
    | Check(t: Thread)
    | Advance(t: Thread)
    | Decide(t: Thread)
    | Wake(t: Thread)
    | Withdraw(t: Thread)
    | Loaded(t: Thread, m: Entry, cl: Class, prepared: bool)
    | SetState(t: Thread, m: Entry, phase: Phase)

  function PcOf(s: State, t: Thread): Pc {
    if t in s.pcs then s.pcs[t] else Free
  }

  predicate HoldsEntry(pc: Pc, m: Entry) {
    match pc
    case Walk(e, _, _, _) => e == m
    case Refused(e) => e == m
    case SelfCircular(e) => e == m
    case Woken(e) => e == m
    case _ => false
  }

  predicate EntryUnlocked(s: State, m: Entry) {
    forall t :: t in s.pcs ==> !HoldsEntry(s.pcs[t], m)
  }

  predicate MappingUnlocked(s: State) {
    forall t :: t in s.pcs ==> !s.pcs[t].Walk?
  }

  /** The turn registers its thread and walks: the entry is being loaded by someone else. */
  predicate Registers(s: State, t: Thread, m: Entry) {
    At(s.maps, m).state == LOADING && At(s.maps, m).data != Thr(t)
  }

  predicate Enabled(s: State, a: Action) {
    match a
    case Search(t, m) => PcOf(s, t) == Free && EntryUnlocked(s, m) && (Registers(s, t, m) ==> MappingUnlocked(s))
    case Load(t, m) => PcOf(s, t) == Free && EntryUnlocked(s, m) && (Registers(s, t, m) ==> MappingUnlocked(s))
    case Check(t) => var pc := PcOf(s, t); pc.Walk? && pc.cur.Some? && !pc.checked && !pc.hit
    case Advance(t) => var pc := PcOf(s, t); pc.Walk? && pc.cur.Some? && pc.checked
    case Decide(t) => var pc := PcOf(s, t); pc.Walk? && !pc.checked && (pc.cur.None? || pc.hit)
    case Wake(t) => var pc := PcOf(s, t); pc.Asleep? || (pc.Wait? && EntryUnlocked(s, pc.mapping))
    case Withdraw(t) =>
      var pc := PcOf(s, t);
      (pc.Refused? || pc.SelfCircular? || pc.Woken?) && MappingUnlocked(s)
    case Loaded(t, m, _, _) => PcOf(s, t) == Free && EntryUnlocked(s, m)
    case SetState(t, m, _) => PcOf(s, t) == Free && EntryUnlocked(s, m)
  }

  function Put(s: State, m: Entry, e: Mapping): State {
    s.(maps := s.maps[m := e])
  }

  function Go(s: State, t: Thread, pc: Pc): State {
    s.(pcs := s.pcs[t := pc])
  }

  /** Register t on m and start the walk at m's owner. */
  function BeginWalk(s: State, t: Thread, m: Entry): State {
    var deps := [Dep(t, m)] + s.deps;
    Go(s.(deps := deps), t, Walk(m, Find(deps, At(s.maps, m).data), false, false))
  }

  /** The cases classMappingSearch and classMappingLoad share. */
  function BusyTurn(s: State, t: Thread, m: Entry): State {
    var e := At(s.maps, m);
    match e.state
    case LOADING => if e.data == Thr(t) then Go(s, t, SelfCircular(m)) else BeginWalk(s, t, m)
    case DONE => s.(handed := s.handed + {(m, e.data)})
    case _ => Go(s, t, Asleep(m))
  }

  function Apply(s: State, a: Action): State
    requires Enabled(s, a)
  {
    match a
    case Search(t, m) =>
      var e := At(s.maps, m);
      if e.state == EMPTY then Put(s, m, Mapping(SEARCHING, Thr(t)))
      else if e.state == SEARCHING && e.data == Thr(t) then s
      else BusyTurn(s, t, m)
    case Load(t, m) =>
      if At(s.maps, m).state in {EMPTY, SEARCHING} then Put(s, m, Mapping(LOADING, Thr(t)))
      else BusyTurn(s, t, m)
    case Check(t) =>
      var pc := PcOf(s, t);
      Go(s, t, pc.(checked := true, hit := At(s.maps, pc.cur.value.mapping).data == Thr(t)))
    case Advance(t) =>
      var pc := PcOf(s, t);
      Go(s, t, pc.(checked := false, cur := Find(s.deps, At(s.maps, pc.cur.value.mapping).data)))
    case Decide(t) =>
      var pc := PcOf(s, t);
      Go(s, t, if pc.hit then Refused(pc.mapping) else Wait(pc.mapping))
    case Wake(t) =>
      var pc := PcOf(s, t);
      Go(s, t, if pc.Asleep? then Free else Woken(pc.mapping))
    case Withdraw(t) =>
      Go(s.(deps := Remove(s.deps, PcOf(s, t).mapping)), t, Free)
    case Loaded(t, m, cl, prepared) =>
      if At(s.maps, m).state in {SEARCHING, LOADING}
      then Put(s, m, Mapping(if prepared then DONE else LOADED, Cls(cl)))
      else s
    case SetState(t, m, phase) =>
      var e := At(s.maps, m);
      if e.state in {SEARCHING, LOADING, LOADED} then Put(s, m, e.(state := phase)) else s
  }

  /** Before any entry is used: no registrations, every thread outside the protocol. */
  ghost predicate Init(s: State) {
    s.maps == map[] && s.deps == [] && s.pcs == map[] && s.handed == {}
  }

  ghost predicate IsRun(s: State, run: seq<Action>)
    decreases |run|
  {
    run != [] ==> Enabled(s, run[0]) && IsRun(Apply(s, run[0]), run[1..])
  }

  ghost function After(s: State, run: seq<Action>): State
    requires IsRun(s, run)
    decreases |run|
  {
    if run == [] then s else After(Apply(s, run[0]), run[1..])
  }

  // ----- the discipline -----

  /** A withdrawal leaves no registration of the withdrawing thread behind, and nobody
      registers while a refused registration is still listed. */
  ghost predicate Tidy(s: State, a: Action)
    requires Enabled(s, a)
  {
    match a
    case Withdraw(t) => t !in Threads(Remove(s.deps, PcOf(s, t).mapping))
    case Search(t, m) => Registers(s, t, m) ==> NoneRefused(s)
    case Load(t, m) => Registers(s, t, m) ==> NoneRefused(s)
    case _ => true
  }

  ghost predicate NoneRefused(s: State) {
    forall u :: u in s.pcs ==> !s.pcs[u].Refused?
  }

  ghost predicate TidyRun(s: State, run: seq<Action>)
    decreases |run|
  {
    run != [] ==> Enabled(s, run[0]) && Tidy(s, run[0]) && TidyRun(Apply(s, run[0]), run[1..])
  }

  // ----- acyclicity -----

  ghost predicate Listed(pc: Pc, m: Entry) {
    (pc.Walk? || pc.Refused? || pc.Wait? || pc.Woken?) && pc.mapping == m
  }

  ghost predicate Blocked(pc: Pc) {
    pc.Wait? || pc.Woken?
  }

  /** The wait-for graph of the threads whose registration was accepted. */
  ghost function Accepted(s: State): Graph {
    map t | t in Threads(s.deps) && Blocked(PcOf(s, t)) && Successor(s.deps, s.maps, t).Thr?
        :: Successor(s.deps, s.maps, t).thread
  }

  ghost predicate Registrations(s: State) {
    && OncePerThread(s.deps)
    && forall e :: e in s.deps ==> Listed(PcOf(s, e.thread), e.mapping)
  }

  ghost predicate OneWalker(s: State) {
    forall t, u :: PcOf(s, t).Walk? && PcOf(s, u).Walk? ==> t == u
  }

  /** What a walk by t over m, owned by o, knows: if o leads to t, the cursor is on the way. */
  ghost predicate WalkSound(s: State, t: Thread)
    requires PcOf(s, t).Walk?
  {
    var pc := PcOf(s, t);
    var e := At(s.maps, pc.mapping);
    && s.deps != [] && s.deps[0] == Dep(t, pc.mapping)
    && (forall u :: u != t ==> !PcOf(s, u).Refused? && !HoldsEntry(PcOf(s, u), pc.mapping))
    && e.data != Thr(t)
    && (pc.cur.Some? ==> pc.cur.value in s.deps && (!pc.hit ==> pc.cur.value.thread != t))
    && (pc.checked ==> pc.cur.Some? && (!pc.hit ==> At(s.maps, pc.cur.value.mapping).data != Thr(t)))
    && (!pc.hit && e.data.Thr? && Reaches(Accepted(s), e.data.thread, t) ==>
          pc.cur.Some? && Through(Accepted(s), e.data.thread, pc.cur.value.thread, t))
  }

  ghost predicate Inv(s: State) {
    && Registrations(s)
    && OneWalker(s)
    && (forall t :: PcOf(s, t).Walk? ==> WalkSound(s, t))
    && Acyclic(Accepted(s))
  }

  /** The entry part of a step by u: a single unlocked entry changes, its datum staying as it
      was, becoming a class or becoming u; u itself ends unregistered. */
  ghost predicate EntryStep(s: State, s': State, u: Thread, m: Entry) {
    && s'.deps == s.deps
    && (PcOf(s, u).Free? || PcOf(s, u).Asleep?)
    && (PcOf(s', u).Free? || PcOf(s', u).Asleep? || PcOf(s', u).SelfCircular?)
    && (PcOf(s', u).SelfCircular? ==> EntryUnlocked(s, PcOf(s', u).mapping))
    && (forall t :: t != u ==> PcOf(s', t) == PcOf(s, t))
    && (forall e :: e != m ==> At(s'.maps, e) == At(s.maps, e))
    && (s'.maps == s.maps || EntryUnlocked(s, m))
    && (var d := At(s'.maps, m).data; d == At(s.maps, m).data || d.Cls? || d == Thr(u))
  }

  /** When a thread has an edge in the graph, and where it leads. */
  lemma AcceptedAt(s: State, x: Thread)
    ensures x in Accepted(s) <==>
      x in Threads(s.deps) && Blocked(PcOf(s, x)) && Successor(s.deps, s.maps, x).Thr?
    ensures x in Accepted(s) ==> Accepted(s)[x] == Successor(s.deps, s.maps, x).thread
  {}

  lemma RedirectAt(s: State, s': State, u: Thread, m: Entry, x: Thread)
    requires EntryStep(s, s', u, m) && x in Accepted(s')
    ensures x != u && ((x in Accepted(s) && Accepted(s')[x] == Accepted(s)[x]) || Accepted(s')[x] == u)
  {
    AcceptedAt(s, x);
    AcceptedAt(s', x);
  }

  lemma EntryStepRedirects(s: State, s': State, u: Thread, m: Entry)
    requires EntryStep(s, s', u, m)
    ensures RedirectedTo(Accepted(s), Accepted(s'), u)
  {
    var g, g' := Accepted(s), Accepted(s');
    forall x | x in g'
      ensures x != u && ((x in g && g'[x] == g[x]) || g'[x] == u)
    {
      RedirectAt(s, s', u, m, x);
    }
  }

  lemma GoKeepsEdge(s: State, t: Thread, pc: Pc, x: Thread)
    requires x != t
    ensures x in Accepted(Go(s, t, pc)) <==> x in Accepted(s)
    ensures x in Accepted(s) ==> Accepted(Go(s, t, pc))[x] == Accepted(s)[x]
  {
    AcceptedAt(s, x);
    AcceptedAt(Go(s, t, pc), x);
  }

  /** A thread that moves on changes no edge but its own. */
  lemma GoGraph(s: State, t: Thread, pc: Pc)
    ensures Accepted(Go(s, t, pc)) ==
      if t in Threads(s.deps) && Blocked(pc) && Successor(s.deps, s.maps, t).Thr?
      then Accepted(s)[t := Successor(s.deps, s.maps, t).thread]
      else Accepted(s) - {t}
  {
    var g, g' := Accepted(s), Accepted(Go(s, t, pc));
    AcceptedAt(Go(s, t, pc), t);
    forall x | x != t ensures (x in g' <==> x in g) && (x in g ==> g'[x] == g[x]) {
      GoKeepsEdge(s, t, pc, x);
    }
    SameButFor(g, g', t);
  }

  /** Two graphs that agree but for one node. */
  lemma SameButFor(g: Graph, g': Graph, t: Thread)
    requires forall x :: x != t ==> (x in g' <==> x in g) && (x in g ==> g'[x] == g[x])
    ensures g' == if t in g' then g[t := g'[t]] else g - {t}
  {}

  /** One that goes from one state outside the graph to another leaves it as it is, and so does one
      that stays blocked. */
  lemma GoSameGraph(s: State, t: Thread, pc: Pc)
    requires Blocked(pc) <==> Blocked(PcOf(s, t))
    ensures Accepted(Go(s, t, pc)) == Accepted(s)
  {
    GoGraph(s, t, pc);
    AcceptedAt(s, t);
  }

  lemma EntryStepKeepsCursor(g: Graph, g': Graph, u: Thread, o: Thread, cur: Option<Dep>, t: Thread)
    requires Acyclic(g) && RedirectedTo(g, g', u) && u != t
    requires Reaches(g, o, t) ==> cur.Some? && Through(g, o, cur.value.thread, t)
    ensures Reaches(g', o, t) ==> cur.Some? && Through(g', o, cur.value.thread, t)
  {
    if Reaches(g', o, t) {
      var k: nat :| Path(g', o, k, t);
      RedirectedPath(g, g', u, o, k, t);
      ThroughRedirect(g, g', u, o, cur.value.thread, t);
    }
  }

  lemma EntryStepKeepsWalk(s: State, s': State, u: Thread, m: Entry, t: Thread)
    requires Inv(s) && EntryStep(s, s', u, m)
    requires PcOf(s', t).Walk?
    ensures WalkSound(s', t)
  {
    EntryStepRedirects(s, s', u, m);
    assert t != u && WalkSound(s, t);
    var pc := PcOf(s, t);
    assert HoldsEntry(pc, pc.mapping);
    var e := At(s.maps, pc.mapping);
    assert At(s'.maps, pc.mapping) == e;
    if !pc.hit && e.data.Thr? {
      EntryStepKeepsCursor(Accepted(s), Accepted(s'), u, e.data.thread, pc.cur, t);
    }
  }

  lemma EntryStepKeepsInv(s: State, s': State, u: Thread, m: Entry)
    requires Inv(s) && EntryStep(s, s', u, m)
    ensures Inv(s')
  {
    EntryStepRedirects(s, s', u, m);
    AcyclicRedirect(Accepted(s), Accepted(s'), u);
    forall t | PcOf(s', t).Walk?
      ensures WalkSound(s', t)
    {
      EntryStepKeepsWalk(s, s', u, m, t);
    }
  }

  lemma BeginWalkKeepsInv(s: State, t: Thread, m: Entry)
    requires Inv(s) && PcOf(s, t) == Free && EntryUnlocked(s, m)
    requires At(s.maps, m).data != Thr(t)
    requires MappingUnlocked(s) && NoneRefused(s)
    ensures Inv(BeginWalk(s, t, m))
  {
    var s' := BeginWalk(s, t, m);
    BeginWalkGraph(s, t, m);
    BeginWalkRegisters(s, t, m);
    assert forall u :: u != t ==> PcOf(s', u) == PcOf(s, u);
    BeginWalkSound(s, t, m);
  }

  lemma BeginWalkRegisters(s: State, t: Thread, m: Entry)
    requires Registrations(s) && PcOf(s, t) == Free
    ensures Registrations(BeginWalk(s, t, m))
  {
    var s' := BeginWalk(s, t, m);
    forall e | e in s'.deps
      ensures Listed(PcOf(s', e.thread), e.mapping)
    {
      assert e == Dep(t, m) || e in s.deps;
    }
    forall i | 0 <= i < |s.deps|
      ensures s.deps[i].thread != t
    {
      assert s.deps[i] in s.deps;
    }
  }

  /** Where the walk for t starts: at the owner o, if o is registered, and so on the way to t if o leads
      there. */
  lemma FirstCursor(g: Graph, deps: seq<Dep>, t: Thread, m: Entry, o: Thread)
    requires o != t && forall x :: x in g ==> x in Threads(deps)
    ensures var cur := Find([Dep(t, m)] + deps, Thr(o));
      && (cur.Some? ==> cur.value in deps && cur.value.thread == o)
      && (Reaches(g, o, t) ==> cur.Some? && Through(g, o, o, t))
  {
    FindPast(deps, Dep(t, m), o);
    if Reaches(g, o, t) {
      var k: nat :| Path(g, o, k, t);
      assert k > 0 && o in g;
      assert Path(g, o, 0, o);
    }
  }

  lemma AcceptedAreListed(s: State, x: Thread)
    requires x in Accepted(s)
    ensures x in Threads(s.deps)
  {
    AcceptedAt(s, x);
  }

  lemma BeginWalkSound(s: State, t: Thread, m: Entry)
    requires Inv(s) && PcOf(s, t) == Free && EntryUnlocked(s, m)
    requires At(s.maps, m).data != Thr(t)
    requires MappingUnlocked(s) && NoneRefused(s)
    ensures WalkSound(BeginWalk(s, t, m), t)
  {
    var s', d := BeginWalk(s, t, m), At(s.maps, m).data;
    BeginWalkGraph(s, t, m);
    assert forall u :: u != t ==> PcOf(s', u) == PcOf(s, u);
    forall x | x in Accepted(s) ensures x in Threads(s.deps) {
      AcceptedAreListed(s, x);
    }
    if d.Thr? { FirstCursor(Accepted(s), s.deps, t, m, d.thread); }
  }

  /** Registering t changes nothing in the graph until t is accepted. */
  lemma BeginWalkGraph(s: State, t: Thread, m: Entry)
    requires PcOf(s, t) == Free
    ensures Accepted(BeginWalk(s, t, m)) == Accepted(s)
  {
    var s' := BeginWalk(s, t, m);
    forall x
      ensures x in Accepted(s') <==> x in Accepted(s)
      ensures x in Accepted(s) ==> Accepted(s')[x] == Accepted(s)[x]
    {
      if x != t {
        FindPast(s.deps, Dep(t, m), x);
      }
    }
  }

  lemma FindPast(deps: seq<Dep>, e: Dep, x: Thread)
    requires x != e.thread
    ensures Find([e] + deps, Thr(x)) == Find(deps, Thr(x))
    ensures x in Threads([e] + deps) <==> x in Threads(deps)
  {
    assert ([e] + deps)[1..] == deps;
  }

  /** A move of the walker's own cursor touches nothing else. */
  lemma WalkerMoves(s: State, t: Thread, pc: Pc)
    requires Inv(s) && PcOf(s, t).Walk? && pc.Walk? && pc.mapping == PcOf(s, t).mapping
    ensures var s' := Go(s, t, pc); Accepted(s') == Accepted(s) && (WalkSound(s', t) ==> Inv(s'))
  {
    var s' := Go(s, t, pc);
    assert forall u :: u != t ==> PcOf(s', u) == PcOf(s, u);
    GoSameGraph(s, t, pc);
  }

  lemma CheckKeepsInv(s: State, t: Thread)
    requires Inv(s) && Enabled(s, Check(t))
    ensures Inv(Apply(s, Check(t)))
  {
    var s' := Apply(s, Check(t));
    WalkerMoves(s, t, PcOf(s', t));
    assert WalkSound(s, t);
    assert forall u :: u != t ==> PcOf(s', u) == PcOf(s, u);
  }

  lemma ThroughNext(g: Graph, o: Thread, c: Thread, t: Thread)
    requires Through(g, o, c, t) && c != t
    ensures c in g && Through(g, o, g[c], t)
    ensures g[c] == t || g[c] in g
  {
    var n: nat, k: nat :| Path(g, o, n, c) && Path(g, c, k, t);
    assert Path(g, c, 1, g[c]);
    PathConcat(g, o, n, c, 1, g[c]);
    assert Path(g, g[c], k - 1, t);
  }

  lemma AdvanceKeepsInv(s: State, t: Thread)
    requires Inv(s) && Enabled(s, Advance(t))
    ensures Inv(Apply(s, Advance(t)))
  {
    var s' := Apply(s, Advance(t));
    var pc := PcOf(s, t);
    WalkerMoves(s, t, PcOf(s', t));
    assert WalkSound(s, t);
    assert forall u :: u != t ==> PcOf(s', u) == PcOf(s, u);
    var d := At(s.maps, pc.mapping).data;
    var c := pc.cur.value;
    FindUnique(s.deps, c);
    if !pc.hit && d.Thr? && Reaches(Accepted(s), d.thread, t) {
      ThroughNext(Accepted(s), d.thread, c.thread, t);
    }
  }

  lemma DecideKeepsInv(s: State, t: Thread)
    requires Inv(s) && Enabled(s, Decide(t))
    ensures Inv(Apply(s, Decide(t)))
  {
    var s' := Apply(s, Decide(t));
    DecideGraph(s, t);
    assert forall u :: u != t ==> PcOf(s', u) == PcOf(s, u);
  }

  /** The edge of an accepted registration leads to the owner of its mapping. */
  lemma DecideEdge(s: State, t: Thread)
    requires Inv(s) && Enabled(s, Decide(t))
    ensures
      var pc := PcOf(s, t);
      var d := At(s.maps, pc.mapping).data;
      Accepted(Apply(s, Decide(t))) == if pc.hit || !d.Thr? then Accepted(s) else Accepted(s)[t := d.thread]
  {
    var pc := PcOf(s, t);
    assert WalkSound(s, t) && s.deps[0] in s.deps;
    FindUnique(s.deps, Dep(t, pc.mapping));
    GoGraph(s, t, if pc.hit then Refused(pc.mapping) else Wait(pc.mapping));
    AcceptedAt(s, t);
  }

  lemma DecideGraph(s: State, t: Thread)
    requires Inv(s) && Enabled(s, Decide(t))
    ensures Acyclic(Accepted(Apply(s, Decide(t))))
  {
    DecideEdge(s, t);
    assert WalkSound(s, t);
    var pc := PcOf(s, t);
    var d := At(s.maps, pc.mapping).data;
    if !pc.hit && d.Thr? {
      AcyclicExtend(Accepted(s), t, d.thread);
    }
  }

  lemma WakeKeepsInv(s: State, t: Thread)
    requires Inv(s) && Enabled(s, Wake(t)) && PcOf(s, t).Wait?
    ensures Inv(Apply(s, Wake(t)))
  {
    var s' := Apply(s, Wake(t));
    assert forall u :: u != t ==> PcOf(s', u) == PcOf(s, u);
    GoSameGraph(s, t, Woken(PcOf(s, t).mapping));
    forall w | PcOf(s', w).Walk?
      ensures WalkSound(s', w)
    {
      assert WalkSound(s, w);
      assert HoldsEntry(PcOf(s, w), PcOf(s, w).mapping);
    }
  }

  /** An edge left after a withdrawal was there before. */
  lemma WithdrawnEdge(s: State, t: Thread, x: Thread)
    requires Registrations(s) && Enabled(s, Withdraw(t)) && x in Accepted(Apply(s, Withdraw(t)))
    ensures x in Accepted(s) && Accepted(Apply(s, Withdraw(t)))[x] == Accepted(s)[x]
  {
    var s' := Apply(s, Withdraw(t));
    RemoveKeepsOrder(s.deps, PcOf(s, t).mapping);
    AcceptedAt(s, x);
    AcceptedAt(s', x);
    var e :| e in s'.deps && e.thread == x;
    FindUnique(s'.deps, e);
    FindUnique(s.deps, e);
  }

  lemma WithdrawKeepsInv(s: State, t: Thread)
    requires Inv(s) && Enabled(s, Withdraw(t)) && Tidy(s, Withdraw(t))
    ensures Inv(Apply(s, Withdraw(t)))
  {
    var s' := Apply(s, Withdraw(t));
    assert forall u :: u != t ==> PcOf(s', u) == PcOf(s, u);
    RemoveKeepsOrder(s.deps, PcOf(s, t).mapping);
    forall x | x in Accepted(s')
      ensures x in Accepted(s) && Accepted(s')[x] == Accepted(s)[x]
    {
      WithdrawnEdge(s, t, x);
    }
    AcyclicSubgraph(Accepted(s), Accepted(s'));
    assert forall e :: e in s'.deps ==> e in s.deps && e.thread != t;
  }

  /** A turn that does not register, a report or a forced state. */
  lemma EntryActionKeepsInv(s: State, a: Action)
    requires Inv(s) && Enabled(s, a) && (a.Search? || a.Load? || a.Loaded? || a.SetState?)
    requires (a.Search? || a.Load?) ==> !Registers(s, a.t, a.m)
    ensures Inv(Apply(s, a))
  {
    EntryStepKeepsInv(s, Apply(s, a), a.t, a.m);
  }

  lemma WakeStepKeepsInv(s: State, t: Thread)
    requires Inv(s) && Enabled(s, Wake(t))
    ensures Inv(Apply(s, Wake(t)))
  {
    if PcOf(s, t).Wait? {
      WakeKeepsInv(s, t);
    } else {
      EntryStepKeepsInv(s, Apply(s, Wake(t)), t, 0);
    }
  }

  lemma RegisteringKeepsInv(s: State, a: Action)
    requires Inv(s) && Enabled(s, a) && Tidy(s, a) && (a.Search? || a.Load?) && Registers(s, a.t, a.m)
    ensures Inv(Apply(s, a))
  {
    BeginWalkKeepsInv(s, a.t, a.m);
  }

  lemma StepKeepsInv(s: State, a: Action)
    requires Inv(s) && Enabled(s, a) && Tidy(s, a)
    ensures Inv(Apply(s, a))
  {
    if a.Check? {
      CheckKeepsInv(s, a.t);
    } else if a.Advance? {
      AdvanceKeepsInv(s, a.t);
    } else if a.Decide? {
      DecideKeepsInv(s, a.t);
    } else if a.Withdraw? {
      WithdrawKeepsInv(s, a.t);
    } else if a.Wake? {
      WakeStepKeepsInv(s, a.t);
    } else if (a.Search? || a.Load?) && Registers(s, a.t, a.m) {
      RegisteringKeepsInv(s, a);
    } else {
      EntryActionKeepsInv(s, a);
    }
  }
}
