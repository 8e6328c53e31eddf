/** The class entry pool: 256 chains of entries keyed by name and loader. Lookups scan a chain
    without a lock, and only a thread that found nothing locks the pool, scans again and appends. */
module ClassPool {
  import opened Options

  const CLASSHASHSZ := 256

  type Thread = nat
  type Name = nat
  type Loader = nat

  datatype Entry = Entry(id: nat, name: Name, loader: Loader)

  predicate Matches(e: Entry, n: Name, l: Loader) {
    e.name == n && e.loader == l
  }

  /** The chain a name belongs to, given its hash value. */
  function Bucket(hash: Name -> nat, n: Name): (b: nat)
    ensures b < CLASSHASHSZ
  {
    hash(n) % CLASSHASHSZ
  }

  // ----- racing lookups -----

  datatype Pc =
    | Idle
    // scanning without the lock, about to look at position i
    | Scan(name: Name, loader: Loader, i: nat)
    // nothing found: about to allocate an entry
    | Missed(name: Name, loader: Loader)
    // allocated `mine`, about to lock the pool
    | Made(mine: Entry)
    // scanning with the lock
    | Rescan(mine: Entry, i: nat)
    // someone else added it at position i; lock still held
    | Beaten(mine: Entry, i: nat)
    // lock released and `mine` freed, about to read the entry at position i
    | Fetch(name: Name, loader: Loader, i: nat)
    // `mine` appended, its name not yet referenced; lock held
    | Appended(mine: Entry)
    // name referenced; lock held
    | Referenced(mine: Entry)
    | Got(name: Name, loader: Loader, e: Entry)

  datatype Pool = Pool(
    chains: map<nat, seq<Entry>>,
    // references to names held on behalf of entries
    refs: multiset<Name>,
    lock: Option<Thread>,
    next: nat,
    pcs: map<Thread, Pc>,
    // what lookups have returned
    answers: set<(Name, Loader, Entry)>)

  datatype Action = Call(t: Thread, name: Name, loader: Loader) | Step(t: Thread)

  function PcOf(s: Pool, t: Thread): Pc {
    if t in s.pcs then s.pcs[t] else Idle
  }

  function Chain(s: Pool, b: nat): seq<Entry> {
    if b in s.chains then s.chains[b] else []
  }

  function ChainFor(hash: Name -> nat, s: Pool, n: Name): seq<Entry> {
    Chain(s, Bucket(hash, n))
  }

  predicate Enabled(s: Pool, a: Action) {
    match a
    case Call(t, _, _) => PcOf(s, t).Idle?
    case Step(t) => !PcOf(s, t).Idle? && (PcOf(s, t).Made? ==> s.lock.None?)
  }

  function Go(s: Pool, t: Thread, pc: Pc): Pool {
    s.(pcs := s.pcs[t := pc])
  }

  function Apply(hash: Name -> nat, s: Pool, a: Action): Pool
    requires Enabled(s, a)
  {
    match a
    case Call(t, n, l) => Go(s, t, Scan(n, l, 0))
    case Step(t) =>
      match PcOf(s, t)
      case Scan(n, l, i) =>
        var c := ChainFor(hash, s, n);
        if i >= |c| then Go(s, t, Missed(n, l))
        else if Matches(c[i], n, l) then Go(s, t, Got(n, l, c[i]))
        else Go(s, t, Scan(n, l, i + 1))
      case Missed(n, l) => Go(s.(next := s.next + 1), t, Made(Entry(s.next, n, l)))
      case Made(mine) => Go(s.(lock := Some(t)), t, Rescan(mine, 0))
      case Rescan(mine, i) =>
        var b := Bucket(hash, mine.name);
        var c := Chain(s, b);
        if i >= |c| then Go(s.(chains := s.chains[b := c + [mine]]), t, Appended(mine))
        else if Matches(c[i], mine.name, mine.loader) then Go(s, t, Beaten(mine, i))
        else Go(s, t, Rescan(mine, i + 1))
      case Beaten(mine, i) => Go(s.(lock := None), t, Fetch(mine.name, mine.loader, i))
      case Fetch(n, l, i) =>
        var c := ChainFor(hash, s, n);
        if i < |c| then Go(s, t, Got(n, l, c[i])) else Go(s, t, Idle)
      case Appended(mine) => Go(s.(refs := s.refs + multiset{mine.name}), t, Referenced(mine))
      case Referenced(mine) => Go(s.(lock := None), t, Got(mine.name, mine.loader, mine))
      case Got(n, l, e) => Go(s.(answers := s.answers + {(n, l, e)}), t, Idle)
      case Idle => s
  }

  ghost predicate IsRun(hash: Name -> nat, s: Pool, run: seq<Action>)
    decreases |run|
  {
    run != [] ==> Enabled(s, run[0]) && IsRun(hash, Apply(hash, s, run[0]), run[1..])
  }

  ghost function After(hash: Name -> nat, s: Pool, run: seq<Action>): Pool
    requires IsRun(hash, s, run)
    decreases |run|
  {
    if run == [] then s else After(hash, Apply(hash, s, run[0]), run[1..])
  }

  const Empty := Pool(map[], multiset{}, None, 0, map[], {})

  // ----- one entry per name and loader -----

  /** The first i entries are not for n and l. */
  ghost predicate NoMatch(c: seq<Entry>, i: nat, n: Name, l: Loader) {
    i <= |c| && forall j :: 0 <= j < i ==> !Matches(c[j], n, l)
  }

  /** Every entry is in the chain of its name, and no chain has two for one name and loader. */
  ghost predicate ChainOk(hash: Name -> nat, b: nat, c: seq<Entry>) {
    && (forall i :: 0 <= i < |c| ==> Bucket(hash, c[i].name) == b)
    && (forall i, j :: 0 <= i < j < |c| ==> !Matches(c[i], c[j].name, c[j].loader))
  }

  ghost predicate ChainsOk(hash: Name -> nat, s: Pool) {
    forall b :: ChainOk(hash, b, Chain(s, b))
  }

  predicate HasLock(pc: Pc) {
    pc.Rescan? || pc.Beaten? || pc.Appended? || pc.Referenced?
  }

  ghost predicate Locked(s: Pool) {
    forall t: Thread :: HasLock(PcOf(s, t)) <==> s.lock == Some(t)
  }

  /** What each control point knows of the chain it looks at. */
  ghost predicate PcOk(hash: Name -> nat, s: Pool, pc: Pc) {
    match pc
    case Scan(n, l, i) => NoMatch(ChainFor(hash, s, n), i, n, l)
    case Rescan(mine, i) => NoMatch(ChainFor(hash, s, mine.name), i, mine.name, mine.loader)
    case Beaten(mine, i) =>
      var c := ChainFor(hash, s, mine.name);
      i < |c| && Matches(c[i], mine.name, mine.loader)
    case Fetch(n, l, i) =>
      var c := ChainFor(hash, s, n);
      i < |c| && Matches(c[i], n, l)
    case Appended(mine) => mine in ChainFor(hash, s, mine.name)
    case Referenced(mine) => mine in ChainFor(hash, s, mine.name)
    case Got(n, l, e) => e in ChainFor(hash, s, n) && Matches(e, n, l)
    case _ => true
  }

  ghost predicate AnswersOk(hash: Name -> nat, s: Pool) {
    forall n, l, e :: (n, l, e) in s.answers ==> e in ChainFor(hash, s, n) && Matches(e, n, l)
  }

  ghost predicate Inv(hash: Name -> nat, s: Pool) {
    && ChainsOk(hash, s) && Locked(s) && AnswersOk(hash, s)
    && forall t :: PcOk(hash, s, PcOf(s, t))
  }

  /** Chains only ever grow at their end. */
  ghost predicate Grows(s: Pool, s': Pool) {
    forall b :: Chain(s, b) <= Chain(s', b)
  }

  lemma StepGrows(hash: Name -> nat, s: Pool, a: Action)
    requires Enabled(s, a)
    ensures Grows(s, Apply(hash, s, a))
  {}

  lemma StepKeepsLocked(hash: Name -> nat, s: Pool, a: Action)
    requires Locked(s) && Enabled(s, a)
    ensures Locked(Apply(hash, s, a))
  {
    var s' := Apply(hash, s, a);
    assert forall t :: t != a.t ==> PcOf(s', t) == PcOf(s, t);
  }

  /** What a control point knows survives growth at the end of the chains. */
  lemma GrowthKeepsPcOk(hash: Name -> nat, s: Pool, s': Pool, pc: Pc)
    requires Grows(s, s') && PcOk(hash, s, pc)
    ensures PcOk(hash, s', pc)
  {
    var n := match pc
      case Scan(n, _, _) => n
      case Rescan(e, _) => e.name
      case Beaten(e, _) => e.name
      case Fetch(n, _, _) => n
      case Appended(e) => e.name
      case Referenced(e) => e.name
      case Got(n, _, _) => n
      case _ => 0;
    assert ChainFor(hash, s, n) <= ChainFor(hash, s', n);
  }

  lemma StepKeepsChains(hash: Name -> nat, s: Pool, a: Action)
    requires ChainsOk(hash, s) && Enabled(s, a) && PcOk(hash, s, PcOf(s, a.t))
    ensures ChainsOk(hash, Apply(hash, s, a))
  {
    var s' := Apply(hash, s, a);
    forall b
      ensures ChainOk(hash, b, Chain(s', b))
    {
      assert ChainOk(hash, b, Chain(s, b));
    }
  }

  lemma StepKeepsOwnPcOk(hash: Name -> nat, s: Pool, a: Action)
    requires Enabled(s, a) && PcOk(hash, s, PcOf(s, a.t))
    ensures PcOk(hash, Apply(hash, s, a), PcOf(Apply(hash, s, a), a.t))
  {
    var s' := Apply(hash, s, a);
    if PcOf(s', a.t).Appended? {
      var c := ChainFor(hash, s', PcOf(s', a.t).mine.name);
      assert c[|c| - 1] == PcOf(s', a.t).mine;
    }
  }

  lemma StepKeepsAnswers(hash: Name -> nat, s: Pool, a: Action)
    requires AnswersOk(hash, s) && Enabled(s, a) && PcOk(hash, s, PcOf(s, a.t))
    ensures AnswersOk(hash, Apply(hash, s, a))
  {
    var s' := Apply(hash, s, a);
    StepGrows(hash, s, a);
    forall n, l, e | (n, l, e) in s'.answers
      ensures e in ChainFor(hash, s', n) && Matches(e, n, l)
    {
      assert ChainFor(hash, s, n) <= ChainFor(hash, s', n);
    }
  }

  lemma StepKeepsInv(hash: Name -> nat, s: Pool, a: Action)
    requires Inv(hash, s) && Enabled(s, a)
    ensures Inv(hash, Apply(hash, s, a))
  {
    var s' := Apply(hash, s, a);
    assert PcOk(hash, s, PcOf(s, a.t));
    StepKeepsChains(hash, s, a);
    StepKeepsLocked(hash, s, a);
    StepKeepsAnswers(hash, s, a);
    StepGrows(hash, s, a);
    forall t
      ensures PcOk(hash, s', PcOf(s', t))
    {
      if t == a.t {
        StepKeepsOwnPcOk(hash, s, a);
      } else {
        GrowthKeepsPcOk(hash, s, s', PcOf(s, t));
      }
    }
  }

  lemma {:induction false} RunKeepsInv(hash: Name -> nat, s: Pool, run: seq<Action>)
    requires Inv(hash, s) && IsRun(hash, s, run)
    ensures Inv(hash, After(hash, s, run))
    decreases |run|
  {
    if run != [] {
      StepKeepsInv(hash, s, run[0]);
      RunKeepsInv(hash, Apply(hash, s, run[0]), run[1..]);
    }
  }

  /** However lookups interleave, the pool never holds two entries for one name and loader, every
      entry is in its chain, and all callers for one name and loader get the same entry. */
  lemma OneEntryPerClass(hash: Name -> nat, run: seq<Action>)
    requires IsRun(hash, Empty, run)
    ensures var s := After(hash, Empty, run);
      && ChainsOk(hash, s)
      && (forall n, l, e, f :: (n, l, e) in s.answers && (n, l, f) in s.answers ==> e == f)
      && (forall n, l, e :: (n, l, e) in s.answers ==> e in ChainFor(hash, s, n) && Matches(e, n, l))
  {
    RunKeepsInv(hash, Empty, run);
    var s := After(hash, Empty, run);
    forall n, l, e, f | (n, l, e) in s.answers && (n, l, f) in s.answers
      ensures e == f
    {
      var c := ChainFor(hash, s, n);
      assert ChainOk(hash, Bucket(hash, n), c);
      var i :| 0 <= i < |c| && c[i] == e;
      var j :| 0 <= j < |c| && c[j] == f;
    }
  }

  // ----- one name reference per entry -----

  /** How many entries of a chain are named x. */
  function Named(c: seq<Entry>, x: Name): nat {
    if c == [] then 0 else (if c[0].name == x then 1 else 0) + Named(c[1..], x)
  }

  lemma {:induction false} NamedSnoc(c: seq<Entry>, e: Entry, x: Name)
    ensures Named(c + [e], x) == Named(c, x) + if e.name == x then 1 else 0
  {
    if c == [] {
      assert c + [e] == [e];
      assert [e][1..] == [];
    } else {
      assert (c + [e])[1..] == c[1..] + [e];
      NamedSnoc(c[1..], e, x);
    }
  }

  /** How many entries of the first n chains are named x. */
  function AllNamed(s: Pool, n: nat, x: Name): nat {
    if n == 0 then 0 else AllNamed(s, n - 1, x) + Named(Chain(s, n - 1), x)
  }

  lemma {:induction false} AllNamedSame(s: Pool, s': Pool, n: nat, x: Name)
    requires forall b: nat :: b < n ==> Chain(s', b) == Chain(s, b)
    ensures AllNamed(s', n, x) == AllNamed(s, n, x)
  {
    if n > 0 {
      AllNamedSame(s, s', n - 1, x);
    }
  }

  lemma {:induction false} AllNamedStep(s: Pool, s': Pool, b: nat, e: Entry, n: nat, x: Name)
    requires forall c: nat :: Chain(s', c) == if c == b then Chain(s, b) + [e] else Chain(s, c)
    requires b < n
    ensures AllNamed(s', n, x) == AllNamed(s, n, x) + if e.name == x then 1 else 0
  {
    if n - 1 == b {
      AllNamedSame(s, s', n - 1, x);
      NamedSnoc(Chain(s, b), e, x);
    } else {
      AllNamedStep(s, s', b, e, n - 1, x);
    }
  }

  /** One if some entry named x is in its chain but not yet referenced. */
  ghost function Owed(s: Pool, x: Name): nat {
    match s.lock
    case None => 0
    case Some(t) => if PcOf(s, t).Appended? && PcOf(s, t).mine.name == x then 1 else 0
  }

  /** The references to x that are held, with the one owed, are as many as entries named x. */
  ghost predicate RefsOk(s: Pool, n: nat, x: Name) {
    s.refs[x] + Owed(s, x) == AllNamed(s, n, x)
  }

  lemma AppendKeepsRefs(hash: Name -> nat, s: Pool, t: Thread, n: nat, x: Name)
    requires Locked(s) && RefsOk(s, n, x) && CLASSHASHSZ <= n && PcOf(s, t).Rescan?
    requires PcOf(Apply(hash, s, Step(t)), t).Appended?
    ensures RefsOk(Apply(hash, s, Step(t)), n, x)
  {
    var s', mine := Apply(hash, s, Step(t)), PcOf(s, t).mine;
    assert HasLock(PcOf(s, t));
    AllNamedStep(s, s', Bucket(hash, mine.name), mine, n, x);
  }

  lemma OtherStepsKeepRefs(hash: Name -> nat, s: Pool, a: Action, n: nat, x: Name)
    requires Locked(s) && RefsOk(s, n, x) && Enabled(s, a)
    requires Apply(hash, s, a).chains == s.chains
    requires PcOf(s, a.t).Rescan? ==> !PcOf(Apply(hash, s, a), a.t).Appended?
    ensures RefsOk(Apply(hash, s, a), n, x)
  {
    var s', pc := Apply(hash, s, a), PcOf(s, a.t);
    AllNamedSame(s, s', n, x);
    assert HasLock(pc) ==> s.lock == Some(a.t);
  }

  lemma StepKeepsRefs(hash: Name -> nat, s: Pool, a: Action, n: nat, x: Name)
    requires Locked(s) && RefsOk(s, n, x) && Enabled(s, a) && CLASSHASHSZ <= n
    ensures RefsOk(Apply(hash, s, a), n, x)
  {
    if PcOf(s, a.t).Rescan? && PcOf(Apply(hash, s, a), a.t).Appended? {
      AppendKeepsRefs(hash, s, a.t, n, x);
    } else {
      OtherStepsKeepRefs(hash, s, a, n, x);
    }
  }

  lemma {:induction false} RunKeepsRefs(hash: Name -> nat, s: Pool, run: seq<Action>, n: nat, x: Name)
    requires Locked(s) && RefsOk(s, n, x) && IsRun(hash, s, run) && CLASSHASHSZ <= n
    ensures RefsOk(After(hash, s, run), n, x)
    decreases |run|
  {
    if run != [] {
      StepKeepsRefs(hash, s, run[0], n, x);
      StepKeepsLocked(hash, s, run[0]);
      RunKeepsRefs(hash, Apply(hash, s, run[0]), run[1..], n, x);
    }
  }

  lemma {:induction false} EmptyHasNoNames(n: nat, x: Name)
    ensures AllNamed(Empty, n, x) == 0
  {
    if n > 0 {
      EmptyHasNoNames(n - 1, x);
    }
  }

  /** Whenever the pool is unlocked it holds, of each name, as many references as it has entries of
      that name. */
  lemma OneReferencePerEntry(hash: Name -> nat, run: seq<Action>, n: nat, x: Name)
    requires IsRun(hash, Empty, run) && n == CLASSHASHSZ
    ensures var s := After(hash, Empty, run); s.lock.None? ==> s.refs[x] == AllNamed(s, n, x)
  {
    EmptyHasNoNames(n, x);
    RunKeepsRefs(hash, Empty, run, n, x);
  }

  // ----- answers and calls -----

  /** What a thread inside a lookup is looking for. */
  function Wanted(pc: Pc): Option<(Name, Loader)> {
    match pc
    case Idle => None
    case Scan(n, l, _) => Some((n, l))
    case Missed(n, l) => Some((n, l))
    case Made(e) => Some((e.name, e.loader))
    case Rescan(e, _) => Some((e.name, e.loader))
    case Beaten(e, _) => Some((e.name, e.loader))
    case Fetch(n, l, _) => Some((n, l))
    case Appended(e) => Some((e.name, e.loader))
    case Referenced(e) => Some((e.name, e.loader))
    case Got(n, l, _) => Some((n, l))
  }

  /** What t last called for in a run, `before` if it did not call. */
  function LastCall(run: seq<Action>, t: Thread, before: Option<(Name, Loader)>): Option<(Name, Loader)> {
    if run == [] then before else LastCall(run[1..], t, Noted(run[0], t, before))
  }

  function Noted(a: Action, t: Thread, before: Option<(Name, Loader)>): Option<(Name, Loader)> {
    if a.Call? && a.t == t then Some((a.name, a.loader)) else before
  }

  ghost predicate Answered(s: Pool, n: Name, l: Loader) {
    exists e :: (n, l, e) in s.answers
  }

  /** Inside a lookup t looks for what it called for; outside it has had its answer. */
  ghost predicate Serves(s: Pool, t: Thread, last: Option<(Name, Loader)>) {
    if PcOf(s, t).Idle? then last.Some? ==> Answered(s, last.value.0, last.value.1)
    else last == Wanted(PcOf(s, t))
  }

  /** A step of a lookup under way goes on looking for the same, or has found it. */
  lemma OwnStepServes(hash: Name -> nat, s: Pool, t: Thread)
    requires PcOk(hash, s, PcOf(s, t)) && Enabled(s, Step(t))
    ensures var s', want := Apply(hash, s, Step(t)), Wanted(PcOf(s, t)).value;
      if PcOf(s', t).Idle? then Answered(s', want.0, want.1) else Wanted(PcOf(s', t)) == Some(want)
  {
    var s', pc := Apply(hash, s, Step(t)), PcOf(s, t);
    if pc.Got? {
      assert (pc.name, pc.loader, pc.e) in s'.answers;
    }
  }

  lemma OthersStay(hash: Name -> nat, s: Pool, a: Action, t: Thread)
    requires Enabled(s, a) && t != a.t
    ensures PcOf(Apply(hash, s, a), t) == PcOf(s, t) && s.answers <= Apply(hash, s, a).answers
  {}

  lemma ServesStep(hash: Name -> nat, s: Pool, a: Action, t: Thread, last: Option<(Name, Loader)>)
    requires Inv(hash, s) && Enabled(s, a) && Serves(s, t, last)
    ensures Serves(Apply(hash, s, a), t, Noted(a, t, last))
  {
    if t != a.t {
      OthersStay(hash, s, a, t);
    } else if a.Step? {
      assert PcOk(hash, s, PcOf(s, t));
      OwnStepServes(hash, s, t);
    }
  }

  lemma {:induction false} ServesRun(hash: Name -> nat, s: Pool, run: seq<Action>, t: Thread,
                                     last: Option<(Name, Loader)>)
    requires Inv(hash, s) && IsRun(hash, s, run) && Serves(s, t, last)
    ensures Serves(After(hash, s, run), t, LastCall(run, t, last))
    decreases |run|
  {
    if run != [] {
      ServesStep(hash, s, run[0], t, last);
      StepKeepsInv(hash, s, run[0]);
      ServesRun(hash, Apply(hash, s, run[0]), run[1..], t, Noted(run[0], t, last));
    }
  }

  /** No lookup gives up, and none is for anything but what was called for: a thread that is back from
      its last call has been given an entry of the name and loader it called for. */
  lemma EveryCallIsAnswered(hash: Name -> nat, run: seq<Action>, t: Thread)
    requires IsRun(hash, Empty, run)
    ensures var s, last := After(hash, Empty, run), LastCall(run, t, None);
      PcOf(s, t).Idle? && last.Some? ==> Answered(s, last.value.0, last.value.1)
  {
    ServesRun(hash, Empty, run, t, None);
  }

  /** The lookups under way, the answers so far and the entries are for what was asked. */
  ghost predicate AskedFor(s: Pool, asked: set<(Name, Loader)>) {
    && (forall t :: WantsFrom(PcOf(s, t), asked))
    && (forall n, l, e :: (n, l, e) in s.answers ==> (n, l) in asked)
    && (forall b :: AllFrom(Chain(s, b), asked))
  }

  ghost predicate WantsFrom(pc: Pc, asked: set<(Name, Loader)>) {
    pc.Idle? || Wanted(pc).value in asked
  }

  ghost predicate AllFrom(c: seq<Entry>, asked: set<(Name, Loader)>) {
    forall i :: 0 <= i < |c| ==> (c[i].name, c[i].loader) in asked
  }

  function Asked(run: seq<Action>): set<(Name, Loader)> {
    set a | a in run && a.Call? :: (a.name, a.loader)
  }

  function AskedBy(a: Action): set<(Name, Loader)> {
    if a.Call? then {(a.name, a.loader)} else {}
  }

  lemma OwnStepAsked(hash: Name -> nat, s: Pool, a: Action, asked: set<(Name, Loader)>)
    requires WantsFrom(PcOf(s, a.t), asked) && Enabled(s, a)
    ensures WantsFrom(PcOf(Apply(hash, s, a), a.t), asked + AskedBy(a))
  {}

  lemma ChainsAsked(hash: Name -> nat, s: Pool, a: Action, asked: set<(Name, Loader)>, b: nat)
    requires WantsFrom(PcOf(s, a.t), asked) && Enabled(s, a) && AllFrom(Chain(s, b), asked)
    ensures AllFrom(Chain(Apply(hash, s, a), b), asked)
  {}

  lemma AnswersAsked(hash: Name -> nat, s: Pool, a: Action, asked: set<(Name, Loader)>)
    requires AskedFor(s, asked) && Enabled(s, a)
    ensures forall n, l, e :: (n, l, e) in Apply(hash, s, a).answers ==> (n, l) in asked
  {
    assert WantsFrom(PcOf(s, a.t), asked);
  }

  lemma AskedStep(hash: Name -> nat, s: Pool, a: Action, asked: set<(Name, Loader)>)
    requires AskedFor(s, asked) && Enabled(s, a)
    ensures AskedFor(Apply(hash, s, a), asked + AskedBy(a))
  {
    var s', more := Apply(hash, s, a), asked + AskedBy(a);
    forall t ensures WantsFrom(PcOf(s', t), more) {
      assert WantsFrom(PcOf(s, t), asked);
      if t == a.t { OwnStepAsked(hash, s, a, asked); } else { OthersStay(hash, s, a, t); }
    }
    forall b ensures AllFrom(Chain(s', b), more) {
      assert WantsFrom(PcOf(s, a.t), asked) && AllFrom(Chain(s, b), asked);
      ChainsAsked(hash, s, a, asked, b);
    }
    AnswersAsked(hash, s, a, asked);
  }

  lemma {:induction false} AskedRun(hash: Name -> nat, s: Pool, run: seq<Action>, asked: set<(Name, Loader)>)
    requires AskedFor(s, asked) && IsRun(hash, s, run)
    ensures AskedFor(After(hash, s, run), asked + Asked(run))
    decreases |run|
  {
    if run == [] {
      assert asked + Asked(run) == asked;
    } else {
      AskedStep(hash, s, run[0], asked);
      AskedRun(hash, Apply(hash, s, run[0]), run[1..], asked + AskedBy(run[0]));
      assert asked + AskedBy(run[0]) + Asked(run[1..]) == asked + Asked(run);
    }
  }

  /** The pool holds entries, and gives answers, only for names and loaders somebody called for. */
  lemma OnlyWhatWasAsked(hash: Name -> nat, run: seq<Action>)
    requires IsRun(hash, Empty, run)
    ensures var s := After(hash, Empty, run);
      && (forall n, l, e :: (n, l, e) in s.answers ==> (n, l) in Asked(run))
      && (forall b :: AllFrom(Chain(s, b), Asked(run)))
  {
    AskedRun(hash, Empty, run, {});
    assert {} + Asked(run) == Asked(run);
  }

  // ----- entries are told apart -----

  /** The entry a thread has allocated and not linked. */
  function Unlinked(pc: Pc): Option<Entry> {
    match pc
    case Made(e) => Some(e)
    case Rescan(e, _) => Some(e)
    case _ => None
  }

  ghost predicate InChain(s: Pool, e: Entry) {
    exists b :: e in Chain(s, b)
  }

  /** Ids of entries are below the next one; no two linked entries share one, no two allocated ones do, and
      no linked entry shares one with an allocated one. */
  ghost predicate IdsOk(s: Pool) {
    && (forall e, f :: InChain(s, e) && InChain(s, f) && e.id == f.id ==> e == f)
    && (forall e :: InChain(s, e) ==> e.id < s.next)
    && (forall t: Thread :: Unlinked(PcOf(s, t)).Some? ==> UnlinkedOk(s, t))
  }

  ghost predicate UnlinkedOk(s: Pool, t: Thread)
    requires Unlinked(PcOf(s, t)).Some?
  {
    var mine := Unlinked(PcOf(s, t)).value;
    && mine.id < s.next
    && (forall e :: InChain(s, e) ==> e.id != mine.id)
    && forall u: Thread :: u != t && Unlinked(PcOf(s, u)).Some? ==> Unlinked(PcOf(s, u)).value.id != mine.id
  }

  /** A step that links the entry its thread had allocated. */
  ghost predicate Links(hash: Name -> nat, s: Pool, a: Action, e: Entry)
    requires Enabled(s, a)
  {
    PcOf(s, a.t).Rescan? && PcOf(Apply(hash, s, a), a.t).Appended? && e == PcOf(s, a.t).mine
  }

  lemma ChainEffect(hash: Name -> nat, s: Pool, a: Action, b: nat, e: Entry)
    requires Enabled(s, a) && e in Chain(Apply(hash, s, a), b) && e !in Chain(s, b)
    ensures Links(hash, s, a, e)
  {}

  lemma LinkedIsThere(hash: Name -> nat, s: Pool, a: Action, e: Entry)
    requires Enabled(s, a) && Links(hash, s, a, e)
    ensures InChain(Apply(hash, s, a), e)
  {
    var c := Chain(Apply(hash, s, a), Bucket(hash, e.name));
    assert c[|c| - 1] == e;
  }

  /** Nothing else is linked, and nothing is unlinked. */
  lemma LinkEffect(hash: Name -> nat, s: Pool, a: Action, e: Entry)
    requires Enabled(s, a)
    ensures InChain(Apply(hash, s, a), e) <==> InChain(s, e) || Links(hash, s, a, e)
  {
    var s' := Apply(hash, s, a);
    if InChain(s, e) {
      StepGrows(hash, s, a);
      var b :| e in Chain(s, b);
      assert Chain(s, b) <= Chain(s', b) && e in Chain(s', b);
    } else if InChain(s', e) {
      var b :| e in Chain(s', b);
      ChainEffect(hash, s, a, b, e);
    }
    if Links(hash, s, a, e) { LinkedIsThere(hash, s, a, e); }
  }

  /** What an allocated entry was before: the same, or just made from the next id. */
  lemma AllocEffect(hash: Name -> nat, s: Pool, a: Action)
    requires Enabled(s, a)
    ensures var s', mine, mine' := Apply(hash, s, a), Unlinked(PcOf(s, a.t)), Unlinked(PcOf(Apply(hash, s, a), a.t));
      if PcOf(s, a.t).Missed? && a.Step? then mine'.Some? && mine'.value.id == s.next && s'.next == s.next + 1
      else s'.next == s.next && (mine'.Some? ==> mine' == mine)
  {}

  lemma LinkedIds(hash: Name -> nat, s: Pool, a: Action, e: Entry, f: Entry)
    requires IdsOk(s) && Enabled(s, a) && InChain(Apply(hash, s, a), e) && InChain(Apply(hash, s, a), f)
    ensures e.id < Apply(hash, s, a).next && (e.id == f.id ==> e == f)
  {
    AllocEffect(hash, s, a);
    LinkEffect(hash, s, a, e);
    LinkEffect(hash, s, a, f);
    if Unlinked(PcOf(s, a.t)).Some? { assert UnlinkedOk(s, a.t); }
  }

  /** An entry that another thread has allocated stays apart. */
  lemma OthersUnlinked(hash: Name -> nat, s: Pool, a: Action, t: Thread, e: Entry)
    requires IdsOk(s) && Enabled(s, a) && t != a.t && Unlinked(PcOf(s, t)) == Some(e)
    ensures var s' := Apply(hash, s, a);
      && e.id < s'.next
      && (forall f :: InChain(s', f) ==> f.id != e.id)
      && (Unlinked(PcOf(s', a.t)).Some? ==> Unlinked(PcOf(s', a.t)).value.id != e.id)
  {
    var s' := Apply(hash, s, a);
    AllocEffect(hash, s, a);
    assert UnlinkedOk(s, t);
    forall f | InChain(s', f) ensures f.id != e.id {
      LinkEffect(hash, s, a, f);
    }
  }

  /** So does the thread's own. */
  lemma OwnUnlinked(hash: Name -> nat, s: Pool, a: Action, e: Entry)
    requires IdsOk(s) && Enabled(s, a) && Unlinked(PcOf(Apply(hash, s, a), a.t)) == Some(e)
    ensures e.id < Apply(hash, s, a).next && forall f :: InChain(Apply(hash, s, a), f) ==> f.id != e.id
  {
    var s' := Apply(hash, s, a);
    AllocEffect(hash, s, a);
    if Unlinked(PcOf(s, a.t)).Some? { assert UnlinkedOk(s, a.t); }
    forall f | InChain(s', f) ensures f.id != e.id {
      LinkEffect(hash, s, a, f);
    }
  }

  lemma UnlinkedStep(hash: Name -> nat, s: Pool, a: Action, t: Thread)
    requires IdsOk(s) && Enabled(s, a) && Unlinked(PcOf(Apply(hash, s, a), t)).Some?
    ensures UnlinkedOk(Apply(hash, s, a), t)
  {
    var s' := Apply(hash, s, a);
    var e := Unlinked(PcOf(s', t)).value;
    if t == a.t { OwnUnlinked(hash, s, a, e); } else { OthersStay(hash, s, a, t); OthersUnlinked(hash, s, a, t, e); }
    forall u: Thread | u != t && Unlinked(PcOf(s', u)).Some? ensures Unlinked(PcOf(s', u)).value.id != e.id {
      if u != a.t {
        OthersStay(hash, s, a, u);
        if t == a.t { OthersUnlinked(hash, s, a, u, Unlinked(PcOf(s, u)).value); } else { assert UnlinkedOk(s, t); }
      }
    }
  }

  lemma IdsStep(hash: Name -> nat, s: Pool, a: Action)
    requires IdsOk(s) && Enabled(s, a)
    ensures IdsOk(Apply(hash, s, a))
  {
    var s' := Apply(hash, s, a);
    forall e, f | InChain(s', e) && InChain(s', f) ensures e.id < s'.next && (e.id == f.id ==> e == f) {
      LinkedIds(hash, s, a, e, f);
    }
    forall t: Thread | Unlinked(PcOf(s', t)).Some? ensures UnlinkedOk(s', t) {
      UnlinkedStep(hash, s, a, t);
    }
  }

  lemma {:induction false} IdsRun(hash: Name -> nat, s: Pool, run: seq<Action>)
    requires IdsOk(s) && IsRun(hash, s, run)
    ensures IdsOk(After(hash, s, run))
    decreases |run|
  {
    if run != [] {
      IdsStep(hash, s, run[0]);
      IdsRun(hash, Apply(hash, s, run[0]), run[1..]);
    }
  }

  /** Entries are objects of their own: those of different names or loaders differ in their ids. */
  lemma EntriesAreDistinct(hash: Name -> nat, run: seq<Action>, e: Entry, f: Entry)
    requires IsRun(hash, Empty, run)
    requires InChain(After(hash, Empty, run), e) && InChain(After(hash, Empty, run), f) && e.id == f.id
    ensures e == f
  {
    IdsRun(hash, Empty, run);
  }

  // ----- the lock -----

  lemma {:induction false} LockedRun(hash: Name -> nat, s: Pool, run: seq<Action>)
    requires Locked(s) && IsRun(hash, s, run)
    ensures Locked(After(hash, s, run))
    decreases |run|
  {
    if run != [] {
      StepKeepsLocked(hash, s, run[0]);
      LockedRun(hash, Apply(hash, s, run[0]), run[1..]);
    }
  }

  /** Nobody is back from a lookup with the lock, so the pool is unlocked whenever all are back. */
  lemma LockIsGivenBack(hash: Name -> nat, run: seq<Action>)
    requires IsRun(hash, Empty, run)
    ensures var s := After(hash, Empty, run);
      && (forall t: Thread :: PcOf(s, t).Idle? ==> s.lock != Some(t))
      && ((forall t: Thread :: PcOf(s, t).Idle?) ==> s.lock.None?)
  {
    LockedRun(hash, Empty, run);
  }

  /** t is on its way to an entry that is there, or has it. */
  ghost predicate OnItsWay(hash: Name -> nat, s: Pool, t: Thread) {
    match PcOf(s, t)
    case Scan(n, l, i) =>
      var c := ChainFor(hash, s, n);
      exists j :: i <= j < |c| && Matches(c[j], n, l)
    case Got(_, _, _) => true
    case Idle => true
    case _ => false
  }

  lemma WayStep(hash: Name -> nat, s: Pool, a: Action, t: Thread)
    requires OnItsWay(hash, s, t) && Enabled(s, a) && !(a.Call? && a.t == t)
    ensures OnItsWay(hash, Apply(hash, s, a), t)
  {
    var s' := Apply(hash, s, a);
    StepGrows(hash, s, a);
    if PcOf(s, t).Scan? {
      var pc := PcOf(s, t);
      var c, c' := ChainFor(hash, s, pc.name), ChainFor(hash, s', pc.name);
      var j :| pc.i <= j < |c| && Matches(c[j], pc.name, pc.loader);
      assert c <= c' && Matches(c'[j], pc.name, pc.loader);
      if t != a.t { OthersStay(hash, s, a, t); }
    } else if t != a.t {
      OthersStay(hash, s, a, t);
    }
  }

  lemma {:induction false} WayRun(hash: Name -> nat, s: Pool, run: seq<Action>, t: Thread)
    requires OnItsWay(hash, s, t) && IsRun(hash, s, run) && forall a :: a in run ==> !(a.Call? && a.t == t)
    ensures OnItsWay(hash, After(hash, s, run), t)
    decreases |run|
  {
    if run != [] {
      assert run[0] in run && forall a :: a in run[1..] ==> a in run;
      WayStep(hash, s, run[0], t);
      WayRun(hash, Apply(hash, s, run[0]), run[1..], t);
    }
  }

  /** A lookup of an entry that is there allocates nothing and takes no lock, until it is back. */
  lemma FoundWithoutLock(hash: Name -> nat, s: Pool, t: Thread, n: Name, l: Loader, run: seq<Action>)
    requires Enabled(s, Call(t, n, l)) && exists e :: e in ChainFor(hash, s, n) && Matches(e, n, l)
    requires IsRun(hash, Apply(hash, s, Call(t, n, l)), run) && forall a :: a in run ==> !(a.Call? && a.t == t)
    ensures var pc := PcOf(After(hash, Apply(hash, s, Call(t, n, l)), run), t); pc.Scan? || pc.Got? || pc.Idle?
  {
    var s', c := Apply(hash, s, Call(t, n, l)), ChainFor(hash, s, n);
    var e :| e in c && Matches(e, n, l);
    var j :| 0 <= j < |c| && c[j] == e;
    assert ChainFor(hash, s', n)[j] == e;
    WayRun(hash, s', run, t);
  }
}
