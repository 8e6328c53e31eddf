/** The list of name dependencies as the code updates it, one call at a time. */
module NameDependency {
  import opened Options
  import opened WaitGraph
  import opened ClassMapping
  import opened LinkedChain

  /** The registrations, each in a node of the waiting thread, and the links between them. */
  class DependencyList {
    const list: Chain<Dep>

    constructor ()
      ensures Valid() && Deps() == [] && fresh(list)
    {
      list := new Chain();
    }

    ghost predicate Valid()
      reads this, list, list.nodes
    {
      list.Valid()
    }

    ghost function Deps(): seq<Dep>
      reads this, list
    {
      Values(list.nodes)
    }

    /** The node of the first registration of the given thread, or null. */
    method FindNameDependency(jt: Datum) returns (r: Cell?<Dep>)
      requires Valid()
      ensures if r == null then Find(Deps(), jt) == None else r in list.nodes && Find(Deps(), jt) == Some(r.value)
    {
      r := null;
      var curr := list.first;
      ghost var i := 0;
      while curr != null && r == null
        invariant i <= |list.nodes| && curr == Nth(list.nodes, i)
        invariant if r == null then Find(Deps(), jt) == Find(Deps()[i..], jt)
                  else r in list.nodes && Find(Deps(), jt) == Some(r.value)
        decreases |list.nodes| - i
      {
        assert LinkedAt(list.nodes, i);
        assert Deps()[i..][1..] == Deps()[i + 1..];
        if Thr(curr.value.thread) == jt {
          r := curr;
        }
        curr := curr.next;
        i := i + 1;
      }
    }

    /** Register nd, and say whether it closes no circle: refused exactly when the owner of its
        mapping leads, over registered threads, to nd's own thread. Where the walk does not end,
        the code does not return. */
    method AddNameDependency(nd: Cell<Dep>, maps: Maps) returns (ok: bool)
      requires Valid() && nd !in list.nodes
      requires WalkEnds(Deps(), maps, nd.value)
      modifies list, nd
      ensures Valid() && list.nodes == [nd] + old(list.nodes)
      ensures ok <==> !Circular(old(Deps()), maps, nd.value)
    {
      ghost var fuel := WalkDecides(Deps(), maps, nd.value);
      ghost var circular := Circular(Deps(), maps, nd.value);
      AppendValues(list.nodes, nd);
      list.PushFront(nd);
      ok := WalkFromOwner(nd, maps, fuel, circular);
    }

    /** From the owner of the mapping, over the registrations of one thread after another. */
    method WalkFromOwner(nd: Cell<Dep>, maps: Maps, ghost limit: nat, ghost circular: bool) returns (ok: bool)
      requires Valid()
      requires Verdict(Deps(), maps, nd.value.thread, Find(Deps(), At(maps, nd.value.mapping).data), limit)
            == Some(!circular)
      ensures ok <==> !circular
    {
      ok := true;
      ghost var fuel := limit;
      var curr := FindNameDependency(At(maps, nd.value.mapping).data);
      while curr != null && ok
        invariant if ok then Verdict(Deps(), maps, nd.value.thread, Cursor(curr), fuel) == Some(!circular) else circular
        decreases ok, fuel
      {
        if At(maps, curr.value.mapping).data == Thr(nd.value.thread) {
          ok := false;
        } else {
          fuel := fuel - 1;
        }
        curr := FindNameDependency(At(maps, curr.value.mapping).data);
      }
    }

    /** Drop the first registration on ce: the link that led to its node now leads past it. */
    method RemNameDependency(ce: Entry)
      requires Valid()
      modifies list, list.nodes
      ensures Valid() && Deps() == Remove(old(Deps()), ce)
      ensures forall n :: n in list.nodes ==> n in old(list.nodes)
    {
      var last: Cell?<Dep>, curr := null, list.first;
      ghost var i := 0;
      while curr != null && curr.value.mapping != ce
        invariant i <= |list.nodes| && curr == Nth(list.nodes, i) && last == list.Before(i)
        invariant forall k :: 0 <= k < i ==> Deps()[k].mapping != ce
        decreases |list.nodes| - i
      {
        assert LinkedAt(list.nodes, i);
        last := curr;
        curr := curr.next;
        i := i + 1;
      }
      RemovesFirst(Deps(), ce, i);
      if curr != null {
        WithoutValues(list.nodes, i);
        list.Unlink(last, curr, i);
      }
    }
  }

  ghost function Cursor(n: Cell?<Dep>): Option<Dep> {
    if n == null then None else Some(n.value)
  }

  /** What the walk from curr answers, if it takes at most fuel steps. */
  ghost function Verdict(deps: seq<Dep>, maps: Maps, t: Thread, curr: Option<Dep>, fuel: nat): Option<bool>
    decreases fuel
  {
    match curr
    case None => Some(true)
    case Some(c) =>
      var d := At(maps, c.mapping).data;
      if d == Thr(t) then Some(false)
      else if fuel == 0 then None
      else Verdict(deps, maps, t, Find(deps, d), fuel - 1)
  }

  /** What the walk for nd follows: the first registration of each thread but nd's own. */
  ghost function Followed(deps: seq<Dep>, maps: Maps, nd: Dep): Graph {
    Edges(deps, maps) - {nd.thread}
  }

  /** The owner of nd's mapping is nd's thread or leads to it. */
  ghost predicate Circular(deps: seq<Dep>, maps: Maps, nd: Dep) {
    var owner := At(maps, nd.mapping).data;
    owner.Thr? && Reaches(Followed(deps, maps, nd), owner.thread, nd.thread)
  }

  /** A registration the walk for nd can come to, other than nd. */
  ghost predicate Current(deps: seq<Dep>, nd: Dep, c: Dep) {
    Find(deps, Thr(c.thread)) == Some(c) && c.thread != nd.thread
  }

  /** The cursor stands n registrations from the owner; if the owner leads to nd's thread, the
      way there runs through the cursor. */
  ghost predicate WalkState(g: Graph, deps: seq<Dep>, owner: Datum, nd: Dep, curr: Option<Dep>, n: nat) {
    match curr
    case None => owner.Thr? ==> !Reaches(g, owner.thread, nd.thread)
    case Some(c) =>
      && owner.Thr?
      && (Current(deps, nd, c) || (c == nd && n == 0))
      && Path(g, owner.thread, n, c.thread)
      && (Reaches(g, owner.thread, nd.thread) ==> Through(g, owner.thread, c.thread, nd.thread))
  }

  /** g has the edges the walk for nd reads. */
  ghost predicate GraphOf(g: Graph, deps: seq<Dep>, maps: Maps, nd: Dep) {
    && (forall x :: x in g ==> x in Threads(deps) && x != nd.thread)
    && forall c :: Current(deps, nd, c) ==> Edge(g, c.thread, At(maps, c.mapping).data)
  }

  ghost predicate Edge(g: Graph, x: Thread, d: Datum) {
    (x in g <==> d.Thr?) && (d.Thr? ==> g[x] == d.thread)
  }

  lemma FollowedGraph(deps: seq<Dep>, maps: Maps, nd: Dep)
    ensures GraphOf(Followed(deps, maps, nd), deps, maps, nd)
  {
    forall c | Current(deps, nd, c) ensures Edge(Followed(deps, maps, nd), c.thread, At(maps, c.mapping).data) {
      assert c in deps && c.thread in Threads(deps);
    }
  }

  /** The registration found for a thread other than nd's. */
  lemma FoundIsCurrent(deps: seq<Dep>, nd: Dep, x: Thread)
    requires x != nd.thread
    ensures Find([nd] + deps, Thr(x)) == Find(deps, Thr(x))
    ensures match Find(deps, Thr(x))
      case Some(c) => Current(deps, nd, c) && c.thread == x
      case None => x !in Threads(deps)
  {
    FindPast(deps, nd, x);
  }

  lemma WalkStart(g: Graph, deps: seq<Dep>, maps: Maps, owner: Datum, nd: Dep)
    requires GraphOf(g, deps, maps, nd)
    ensures WalkState(g, deps, owner, nd, Find([nd] + deps, owner), 0)
  {
    if owner.Thr? {
      assert Path(g, owner.thread, 0, owner.thread);
      if owner.thread != nd.thread {
        FoundIsCurrent(deps, nd, owner.thread);
        if Reaches(g, owner.thread, nd.thread) {
          var k: nat :| Path(g, owner.thread, k, nd.thread);
          assert owner.thread in g;
        }
      }
    }
  }

  /** The edge the walk reads at a registration takes it one step on. */
  lemma OneEdgeOn(g: Graph, deps: seq<Dep>, maps: Maps, owner: Thread, nd: Dep, c: Dep, n: nat, x: Thread)
    requires GraphOf(g, deps, maps, nd) && Current(deps, nd, c) && At(maps, c.mapping).data == Thr(x)
    requires Path(g, owner, n, c.thread)
    ensures Path(g, owner, n + 1, x)
  {
    assert Edge(g, c.thread, Thr(x));
    assert Path(g, c.thread, 1, x) by { assert Path(g, x, 0, x); }
    PathConcat(g, owner, n, c.thread, 1, x);
  }

  /** One turn of the walk that sees the circle. */
  lemma WalkHit(g: Graph, deps: seq<Dep>, maps: Maps, owner: Datum, nd: Dep, c: Dep, n: nat)
    requires GraphOf(g, deps, maps, nd) && At(maps, c.mapping).data == Thr(nd.thread)
    requires WalkState(g, deps, owner, nd, Some(c), n) && (c == nd ==> owner == Thr(nd.thread))
    ensures Reaches(g, owner.thread, nd.thread)
  {
    if Current(deps, nd, c) {
      OneEdgeOn(g, deps, maps, owner.thread, nd, c, n, nd.thread);
    } else {
      assert Path(g, owner.thread, n, nd.thread);
    }
  }

  /** One turn that does not: the next cursor keeps the walk sound. */
  lemma WalkNext(g: Graph, deps: seq<Dep>, maps: Maps, owner: Datum, nd: Dep, c: Dep, n: nat, d: Datum)
    requires GraphOf(g, deps, maps, nd) && d == At(maps, c.mapping).data && d != Thr(nd.thread)
    requires WalkState(g, deps, owner, nd, Some(c), n) && Current(deps, nd, c)
    ensures WalkState(g, deps, owner, nd, Find([nd] + deps, d), n + 1)
  {
    assert Edge(g, c.thread, d);
    if Reaches(g, owner.thread, nd.thread) {
      ThroughNext(g, owner.thread, c.thread, nd.thread);
    }
    if d.Thr? {
      OneEdgeOn(g, deps, maps, owner.thread, nd, c, n, d.thread);
      FoundIsCurrent(deps, nd, d.thread);
    }
  }

  /** A walk whose every turn sees a circle that is there, or goes on within the limit, answers. */
  ghost predicate Answering(p: (Option<Dep>, nat) -> bool, deps: seq<Dep>, maps: Maps, t: Thread, limit: nat,
                            circular: bool) {
    && (forall n: nat :: p(None, n) ==> !circular)
    && (forall c, n: nat :: p(Some(c), n) ==> Turns(p, deps, maps, t, limit, circular, c, n))
  }

  ghost predicate Turns(p: (Option<Dep>, nat) -> bool, deps: seq<Dep>, maps: Maps, t: Thread, limit: nat,
                        circular: bool, c: Dep, n: nat) {
    var d := At(maps, c.mapping).data;
    n < limit && if d == Thr(t) then circular else p(Find(deps, d), n + 1)
  }

  lemma {:induction false} WalkAnswers(p: (Option<Dep>, nat) -> bool, deps: seq<Dep>, maps: Maps, t: Thread,
                                       limit: nat, circular: bool, curr: Option<Dep>, n: nat)
    requires Answering(p, deps, maps, t, limit, circular) && p(curr, n) && n <= limit
    ensures Verdict(deps, maps, t, curr, limit - n) == Some(!circular)
    decreases limit - n
  {
    if curr.Some? {
      assert Turns(p, deps, maps, t, limit, circular, curr.value, n);
      var d := At(maps, curr.value.mapping).data;
      if d != Thr(t) {
        WalkAnswers(p, deps, maps, t, limit, circular, Find(deps, d), n + 1);
      }
    }
  }

  /** What the walk for nd keeps. */
  ghost function Sound(g: Graph, deps: seq<Dep>, owner: Datum, nd: Dep): (Option<Dep>, nat) -> bool {
    (curr: Option<Dep>, n: nat) => WalkState(g, deps, owner, nd, curr, n)
  }

  lemma SoundTurns(g: Graph, deps: seq<Dep>, maps: Maps, owner: Datum, nd: Dep, c: Dep, n: nat)
    requires GraphOf(g, deps, maps, nd) && owner == At(maps, nd.mapping).data && owner.Thr?
    requires !Loops(g, owner.thread) && Sound(g, deps, owner, nd)(Some(c), n)
    ensures Turns(Sound(g, deps, owner, nd), [nd] + deps, maps, nd.thread, |g| + 1,
                  Reaches(g, owner.thread, nd.thread), c, n)
  {
    var d := At(maps, c.mapping).data;
    assert WalkState(g, deps, owner, nd, Some(c), n);
    PathBound(g, owner.thread, n, c.thread);
    if d == Thr(nd.thread) {
      WalkHit(g, deps, maps, owner, nd, c, n);
    } else {
      WalkNext(g, deps, maps, owner, nd, c, n, d);
    }
  }

  lemma SoundAnswers(g: Graph, deps: seq<Dep>, maps: Maps, owner: Datum, nd: Dep)
    requires GraphOf(g, deps, maps, nd) && owner == At(maps, nd.mapping).data && owner.Thr? && !Loops(g, owner.thread)
    ensures Answering(Sound(g, deps, owner, nd), [nd] + deps, maps, nd.thread, |g| + 1,
                      Reaches(g, owner.thread, nd.thread))
  {
    var p, circular := Sound(g, deps, owner, nd), Reaches(g, owner.thread, nd.thread);
    forall c, n: nat | p(Some(c), n) ensures Turns(p, [nd] + deps, maps, nd.thread, |g| + 1, circular, c, n) {
      SoundTurns(g, deps, maps, owner, nd, c, n);
    }
  }

  /** The owner of nd's mapping does not lead into a circle of registered threads. */
  ghost predicate WalkEnds(deps: seq<Dep>, maps: Maps, nd: Dep) {
    var owner := At(maps, nd.mapping).data;
    owner.Thr? ==> !Loops(Followed(deps, maps, nd), owner.thread)
  }

  /** The answer of the whole walk, if it takes at most `fuel` steps. */
  ghost function Answer(deps: seq<Dep>, maps: Maps, nd: Dep, fuel: nat): Option<bool> {
    Verdict([nd] + deps, maps, nd.thread, Find([nd] + deps, At(maps, nd.mapping).data), fuel)
  }

  /** Where it ends, the walk refuses exactly the registrations that close a circle. */
  lemma WalkDecides(deps: seq<Dep>, maps: Maps, nd: Dep) returns (limit: nat)
    requires WalkEnds(deps, maps, nd)
    ensures Answer(deps, maps, nd, limit) == Some(!Circular(deps, maps, nd))
  {
    var g, owner := Followed(deps, maps, nd), At(maps, nd.mapping).data;
    limit := |g| + 1;
    if owner.Thr? {
      FollowedGraph(deps, maps, nd);
      WalkStart(g, deps, maps, owner, nd);
      SoundAnswers(g, deps, maps, owner, nd);
      WalkAnswers(Sound(g, deps, owner, nd), [nd] + deps, maps, nd.thread, limit, Reaches(g, owner.thread, nd.thread),
                  Find([nd] + deps, owner), 0);
    }
  }

  /** The walk goes from c to another registration with p. */
  ghost predicate GoesOn(p: Dep -> bool, deps: seq<Dep>, maps: Maps, t: Thread, c: Dep) {
    var d := At(maps, c.mapping).data;
    d != Thr(t) && Find(deps, d).Some? && p(Find(deps, d).value)
  }

  lemma {:induction false} NeverEnds(p: Dep -> bool, deps: seq<Dep>, maps: Maps, t: Thread, c: Dep, fuel: nat)
    requires p(c) && forall e :: p(e) ==> GoesOn(p, deps, maps, t, e)
    ensures Verdict(deps, maps, t, Some(c), fuel).None?
    decreases fuel
  {
    assert GoesOn(p, deps, maps, t, c);
    if fuel > 0 {
      NeverEnds(p, deps, maps, t, Find(deps, At(maps, c.mapping).data).value, fuel - 1);
    }
  }

  /** A registration on the way into a circle. */
  ghost function Looping(g: Graph, deps: seq<Dep>, nd: Dep): Dep -> bool {
    (c: Dep) => Current(deps, nd, c) && Loops(g, c.thread)
  }

  /** From such a registration the walk goes on to another one. */
  lemma LoopingGoesOn(g: Graph, deps: seq<Dep>, maps: Maps, nd: Dep, c: Dep)
    requires GraphOf(g, deps, maps, nd) && Looping(g, deps, nd)(c)
    ensures GoesOn(Looping(g, deps, nd), [nd] + deps, maps, nd.thread, c)
  {
    LoopsNext(g, c.thread);
    assert Edge(g, c.thread, At(maps, c.mapping).data);
    var x := g[c.thread];
    LoopsNext(g, x);
    FoundIsCurrent(deps, nd, x);
  }

  lemma LoopingWalk(g: Graph, deps: seq<Dep>, maps: Maps, nd: Dep, c: Dep, fuel: nat)
    requires GraphOf(g, deps, maps, nd) && Looping(g, deps, nd)(c)
    ensures Verdict([nd] + deps, maps, nd.thread, Some(c), fuel).None?
  {
    var p := Looping(g, deps, nd);
    forall e | p(e) ensures GoesOn(p, [nd] + deps, maps, nd.thread, e) {
      LoopingGoesOn(g, deps, maps, nd, e);
    }
    NeverEnds(p, [nd] + deps, maps, nd.thread, c, fuel);
  }

  /** The walk of addNameDependency ends exactly when the owner of the mapping does not lead into a
      circle of registered threads. */
  lemma WalkEndsIff(deps: seq<Dep>, maps: Maps, nd: Dep)
    ensures (exists fuel :: Answer(deps, maps, nd, fuel).Some?) <==> WalkEnds(deps, maps, nd)
  {
    var g, owner := Followed(deps, maps, nd), At(maps, nd.mapping).data;
    if WalkEnds(deps, maps, nd) {
      var limit := WalkDecides(deps, maps, nd);
    } else {
      FollowedGraph(deps, maps, nd);
      LoopsNext(g, owner.thread);
      FoundIsCurrent(deps, nd, owner.thread);
      var c := Find(deps, owner).value;
      forall fuel: nat ensures Answer(deps, maps, nd, fuel).None? {
        LoopingWalk(g, deps, maps, nd, c, fuel);
      }
    }
  }
}
