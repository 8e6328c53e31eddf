/** The chains of the class entry pool as one thread relinks them in place: lookup with insertion
    at the end, and removal of everything a dying class loader owns. */
module EntryTable {
  import opened ClassPool
  import L = LinkedChain

  /** The entries of other loaders, in order. */
  function Others(c: seq<Entry>, l: Loader): seq<Entry> {
    if c == [] then []
    else if c[0].loader == l then Others(c[1..], l)
    else [c[0]] + Others(c[1..], l)
  }

  function Owned(c: seq<Entry>, l: Loader): nat {
    if c == [] then 0 else (if c[0].loader == l then 1 else 0) + Owned(c[1..], l)
  }

  lemma {:induction false} OthersSnoc(c: seq<Entry>, e: Entry, l: Loader)
    ensures Others(c + [e], l) == if e.loader == l then Others(c, l) else Others(c, l) + [e]
    ensures Owned(c + [e], l) == Owned(c, l) + if e.loader == l then 1 else 0
  {
    if c == [] {
      assert c + [e] == [e];
      assert [e][1..] == [];
    } else {
      assert (c + [e])[1..] == c[1..] + [e];
      OthersSnoc(c[1..], e, l);
    }
  }

  /** Others keeps exactly the entries it should. */
  lemma {:induction false} OthersContents(c: seq<Entry>, l: Loader)
    ensures forall e :: e in Others(c, l) <==> e in c && e.loader != l
    ensures |Others(c, l)| + Owned(c, l) == |c|
  {
    if c != [] {
      OthersContents(c[1..], l);
    }
  }

  lemma {:induction false} OthersOk(hash: Name -> nat, b: nat, c: seq<Entry>, l: Loader)
    requires ChainOk(hash, b, c)
    ensures ChainOk(hash, b, Others(c, l))
  {
    if c != [] {
      var tail, r := c[1..], Others(c[1..], l);
      assert forall i :: 0 <= i < |tail| ==> tail[i] == c[i + 1];
      OthersOk(hash, b, tail, l);
      OthersContents(tail, l);
      forall j | 0 <= j < |r|
        ensures !Matches(c[0], r[j].name, r[j].loader)
      {
        assert r[j] in tail;
      }
    }
  }

  /** How many entries named x all chains together have. */
  function Count(bs: seq<seq<Entry>>, x: Name): nat {
    if bs == [] then 0 else Named(bs[0], x) + Count(bs[1..], x)
  }

  lemma {:induction false} CountUpdate(bs: seq<seq<Entry>>, b: nat, c: seq<Entry>, x: Name)
    requires b < |bs|
    ensures Count(bs[b := c], x) == Count(bs, x) - Named(bs[b], x) + Named(c, x)
  {
    if b == 0 {
      assert bs[b := c][1..] == bs[1..];
    } else {
      assert bs[b := c][1..] == bs[1..][b - 1 := c];
      CountUpdate(bs[1..], b - 1, c, x);
    }
  }

  lemma {:induction false} NamedWithout(c: seq<Entry>, k: nat, x: Name)
    requires k < |c|
    ensures Named(c, x) == Named(c[..k] + c[k + 1..], x) + if c[k].name == x then 1 else 0
  {
    if k == 0 {
      assert c[..0] + c[1..] == c[1..];
    } else {
      assert (c[..k] + c[k + 1..])[1..] == c[1..][..k - 1] + c[1..][k..];
      NamedWithout(c[1..], k - 1, x);
    }
  }

  lemma {:induction false} CountAtLeast(bs: seq<seq<Entry>>, b: nat, x: Name)
    requires b < |bs|
    ensures Count(bs, x) >= Named(bs[b], x)
  {
    if b > 0 {
      CountAtLeast(bs[1..], b - 1, x);
    }
  }

  /** Entries of l in the chains from b on. */
  function OwnedFrom(bs: seq<seq<Entry>>, l: Loader, b: nat): nat
    requires b <= |bs|
    decreases |bs| - b
  {
    if b == |bs| then 0 else Owned(bs[b], l) + OwnedFrom(bs, l, b + 1)
  }

  ghost predicate AllOk(hash: Name -> nat, bs: seq<seq<Entry>>) {
    forall b :: 0 <= b < |bs| ==> ChainOk(hash, b, bs[b])
  }

  /** One reference per entry. */
  ghost predicate RefsMatch(refs: multiset<Name>, bs: seq<seq<Entry>>) {
    forall x :: refs[x] == Count(bs, x)
  }

  lemma PurgedOk(hash: Name -> nat, bs: seq<seq<Entry>>, b: nat, l: Loader)
    requires b < |bs| && AllOk(hash, bs)
    ensures AllOk(hash, bs[b := Others(bs[b], l)])
  {
    OthersOk(hash, b, bs[b], l);
  }

  /** After k of its entries a chain holds those that stay, then the rest. */
  ghost predicate Purging(was: seq<Entry>, k: nat, l: Loader, chain: seq<Entry>, pos: nat) {
    k <= |was| && chain == Others(was[..k], l) + was[k..] && pos == |Others(was[..k], l)|
  }

  lemma PurgeStep(was: seq<Entry>, k: nat, l: Loader, chain: seq<Entry>, pos: nat)
    requires Purging(was, k, l, chain, pos) && pos < |chain|
    ensures k < |was| && chain[pos] == was[k]
    ensures chain[pos].loader == l ==> Purging(was, k + 1, l, chain[..pos] + chain[pos + 1..], pos)
    ensures chain[pos].loader != l ==> Purging(was, k + 1, l, chain, pos + 1)
    ensures Owned(was[..k + 1], l) == Owned(was[..k], l) + if chain[pos].loader == l then 1 else 0
  {
    assert was[..k + 1] == was[..k] + [was[k]];
    OthersSnoc(was[..k], was[k], l);
  }

  /** Releasing the name of an entry that is taken out keeps the references right. */
  lemma ReleaseOne(refs: multiset<Name>, refs': multiset<Name>, was: seq<Entry>, c: seq<Entry>, pos: nat)
    requires pos < |c| && Released(refs, refs', was, c) && forall x :: refs[x] >= Named(was, x)
    ensures Released(refs, refs' - multiset{c[pos].name}, was, L.Without(c, pos))
  {
    forall x
      ensures (refs' - multiset{c[pos].name})[x] == refs[x] - Named(was, x) + Named(L.Without(c, pos), x)
    {
      NamedWithout(c, pos, x);
      assert refs'[x] >= Named(c, x);
    }
  }

  // ----- one chain -----

  /** Follow the chain to the first entry for a name and loader, or to its end; `last` holds the
      link that leads there. */
  method Follow(chain: L.Chain<Entry>, name: Name, loader: Loader)
    returns (last: L.Cell?<Entry>, curr: L.Cell?<Entry>, ghost i: nat)
    requires chain.Valid()
    ensures i <= |chain.nodes| && curr == L.Nth(chain.nodes, i) && last == chain.Before(i)
    ensures NoMatch(L.Values(chain.nodes), i, name, loader)
    ensures curr != null ==> Matches(curr.value, name, loader)
  {
    last, curr, i := null, chain.first, 0;
    while curr != null && !(curr.value.name == name && curr.value.loader == loader)
      invariant i <= |chain.nodes| && curr == L.Nth(chain.nodes, i) && last == chain.Before(i)
      invariant NoMatch(L.Values(chain.nodes), i, name, loader)
      decreases |chain.nodes| - i
    {
      assert L.LinkedAt(chain.nodes, i);
      last, curr, i := curr, curr.next, i + 1;
    }
  }

  /** References left when a chain goes from `was` to `now`. */
  ghost predicate Released(refs: multiset<Name>, refs': multiset<Name>, was: seq<Entry>, now: seq<Entry>) {
    forall x :: refs'[x] == refs[x] - Named(was, x) + Named(now, x)
  }

  /** Unlink the entries of loader from one chain and release their names. */
  method Purge(chain: L.Chain<Entry>, loader: Loader, refs: multiset<Name>, ghost cells: set<L.Cell<Entry>>)
    returns (removed: nat, refs': multiset<Name>)
    requires chain.Valid() && forall n :: n in chain.nodes ==> n in cells
    requires forall x :: refs[x] >= Named(L.Values(chain.nodes), x)
    modifies chain, cells
    ensures chain.Valid() && forall n :: n in chain.nodes ==> n in cells
    ensures L.Values(chain.nodes) == Others(old(L.Values(chain.nodes)), loader)
    ensures removed == Owned(old(L.Values(chain.nodes)), loader)
    ensures Released(refs, refs', old(L.Values(chain.nodes)), L.Values(chain.nodes))
  {
    removed, refs' := 0, refs;
    var last: L.Cell?<Entry>, entry := null, chain.first;
    ghost var was, pos, k := L.Values(chain.nodes), 0, 0;
    while entry != null
      invariant chain.Valid() && forall n :: n in chain.nodes ==> n in cells
      invariant pos <= |chain.nodes| && entry == L.Nth(chain.nodes, pos) && last == chain.Before(pos)
      invariant Purging(was, k, loader, L.Values(chain.nodes), pos) && removed == Owned(was[..k], loader)
      invariant Released(refs, refs', was, L.Values(chain.nodes))
      decreases |was| - k
    {
      PurgeStep(was, k, loader, L.Values(chain.nodes), pos);
      assert L.LinkedAt(chain.nodes, pos);
      if entry.value.loader == loader {
        ReleaseOne(refs, refs', was, L.Values(chain.nodes), pos);
        refs' := refs' - multiset{entry.value.name};
        L.WithoutValues(chain.nodes, pos);
        var next := entry.next;
        chain.Unlink(last, entry, pos);
        removed := removed + 1;
        entry := next;
      } else {
        last, entry, pos := entry, entry.next, pos + 1;
      }
      k := k + 1;
    }
    assert k == |was| && was[..k] == was;
  }

  // ----- the table -----

  ghost predicate AllDistinct(buckets: seq<L.Chain<Entry>>) {
    forall b, c :: 0 <= b < c < |buckets| ==> buckets[b] != buckets[c]
  }

  /** What the chains hold. */
  ghost function Contents(buckets: seq<L.Chain<Entry>>): (r: seq<seq<Entry>>)
    reads buckets
    ensures |r| == |buckets|
  {
    seq(|buckets|, b requires 0 <= b < |buckets| reads buckets => L.Values(buckets[b].nodes))
  }

  ghost function Cells(chain: L.Chain<Entry>): set<L.Cell<Entry>>
    reads chain
  {
    set n | n in chain.nodes
  }

  /** A cell stands in the chain of its name. */
  lemma HomeOf(hash: Name -> nat, buckets: seq<L.Chain<Entry>>, b: nat, n: L.Cell<Entry>)
    requires AllOk(hash, Contents(buckets)) && b < |buckets| && n in Cells(buckets[b])
    ensures Bucket(hash, n.value.name) == b
  {
    assert ChainOk(hash, b, Contents(buckets)[b]);
    var i :| 0 <= i < |buckets[b].nodes| && buckets[b].nodes[i] == n;
    assert Contents(buckets)[b][i] == n.value;
  }

  /** No other chain has cells of chain b. */
  ghost predicate Apart(buckets: seq<L.Chain<Entry>>, b: nat)
    requires b < |buckets|
    reads buckets
  {
    forall c :: 0 <= c < |buckets| && c != b ==> Cells(buckets[b]) !! Cells(buckets[c])
  }

  lemma BucketsApart(hash: Name -> nat, buckets: seq<L.Chain<Entry>>, b: nat)
    requires AllOk(hash, Contents(buckets)) && b < |buckets|
    ensures Apart(buckets, b)
  {
    forall c, n | 0 <= c < |buckets| && n in Cells(buckets[b]) && n in Cells(buckets[c]) ensures b == c {
      HomeOf(hash, buckets, b, n);
      HomeOf(hash, buckets, c, n);
    }
  }

  /** Well-formed chains over these cells. */
  ghost predicate Shaped(buckets: seq<L.Chain<Entry>>, cells: set<L.Cell<Entry>>)
    reads buckets, cells
  {
    && AllDistinct(buckets)
    && forall b :: 0 <= b < |buckets| ==> Cells(buckets[b]) <= cells && buckets[b].Valid()
  }

  /** Append a cell to chain b; the others stay. */
  method AppendTo(buckets: seq<L.Chain<Entry>>, b: nat, last: L.Cell?<Entry>, entry: L.Cell<Entry>,
                  ghost cells: set<L.Cell<Entry>>)
    requires Shaped(buckets, cells) && b < |buckets| && Apart(buckets, b)
    requires entry !in cells && entry.next == null && last == buckets[b].Before(|buckets[b].nodes|)
    modifies buckets[b], cells
    ensures Shaped(buckets, cells + {entry})
    ensures Contents(buckets) == old(Contents(buckets))[b := old(Contents(buckets)[b]) + [entry.value]]
  {
    L.AppendValues(buckets[b].nodes, entry);
    assert last != null ==> last in Cells(buckets[b]);
    buckets[b].Append(last, entry);
  }

  /** Purge chain b; the others stay. */
  method PurgeAt(buckets: seq<L.Chain<Entry>>, b: nat, loader: Loader, refs: multiset<Name>,
                 ghost cells: set<L.Cell<Entry>>)
    returns (removed: nat, refs': multiset<Name>)
    requires Shaped(buckets, cells) && b < |buckets| && Apart(buckets, b)
    requires forall x :: refs[x] >= Named(Contents(buckets)[b], x)
    modifies buckets[b], cells
    ensures Shaped(buckets, cells)
    ensures Contents(buckets) == old(Contents(buckets))[b := Others(old(Contents(buckets)[b]), loader)]
    ensures removed == Owned(old(Contents(buckets)[b]), loader)
    ensures Released(refs, refs', old(Contents(buckets)[b]), Contents(buckets)[b])
  {
    removed, refs' := Purge(buckets[b], loader, refs, Cells(buckets[b]));
  }

  class Table {
    const hash: Name -> nat
    const buckets: seq<L.Chain<Entry>>
    var refs: multiset<Name>
    ghost var cells: set<L.Cell<Entry>>

    /** 256 well-formed chains, each entry in its own and once only, and one reference to its name
        each. */
    ghost predicate Valid()
      reads this, buckets, cells
    {
      && |buckets| == CLASSHASHSZ && Shaped(buckets, cells)
      && AllOk(hash, Contents(buckets))
      && RefsMatch(refs, Contents(buckets))
    }

    ghost function Chains(): seq<seq<Entry>>
      reads this, buckets
    {
      Contents(buckets)
    }

    constructor (hash: Name -> nat)
      ensures Valid() && fresh(buckets) && fresh(cells) && this.hash == hash
      ensures forall b :: 0 <= b < |buckets| ==> Chains()[b] == []
    {
      this.hash := hash;
      var made := NewChains(CLASSHASHSZ);
      buckets := made;
      refs := multiset{};
      cells := {};
      new;
      assert forall b :: 0 <= b < |buckets| ==> Chains()[b] == [];
      EmptyOk(hash, Chains());
    }

    /** The entry for a name and loader, if the table has one. */
    method LookupInternal(name: Name, loader: Loader) returns (r: L.Cell?<Entry>)
      requires Valid()
      ensures r != null ==> r in buckets[Bucket(hash, name)].nodes && Matches(r.value, name, loader)
      ensures r == null ==> forall b, e :: 0 <= b < |buckets| && e in Chains()[b] ==> !Matches(e, name, loader)
    {
      var home := Bucket(hash, name);
      var last, curr;
      ghost var i;
      last, curr, i := Follow(buckets[home], name, loader);
      forall b, e | curr == null && 0 <= b < |buckets| && e in Chains()[b]
        ensures !Matches(e, name, loader)
      {
        var j :| 0 <= j < |Chains()[b]| && Chains()[b][j] == e;
        assert ChainOk(hash, b, Chains()[b]);
      }
      return curr;
    }

    /** Append an entry to its chain, unless one for its name and loader is there. */
    method Insert(entry: L.Cell<Entry>) returns (r: L.Cell<Entry>)
      requires Valid() && entry !in cells && entry.next == null
      modifies this, buckets, cells
      ensures Valid()
      ensures var b := Bucket(hash, entry.value.name);
        if exists e :: e in old(Chains()[b]) && Matches(e, entry.value.name, entry.value.loader)
        then r.value in old(Chains()[b]) && Chains() == old(Chains()) && refs == old(refs)
             && Matches(r.value, entry.value.name, entry.value.loader)
        else r == entry && Chains() == old(Chains())[b := old(Chains()[b]) + [entry.value]]
             && refs == old(refs) + multiset{entry.value.name}
    {
      var b := Bucket(hash, entry.value.name);
      var last, curr;
      ghost var i;
      last, curr, i := Follow(buckets[b], entry.value.name, entry.value.loader);
      if curr != null {
        assert Chains()[b][i] == curr.value;
        return curr;
      }
      assert !exists e :: e in Chains()[b] && Matches(e, entry.value.name, entry.value.loader);
      Link(b, last, entry);
      return entry;
    }

    /** Store a new entry in the link at the end of its chain and reference its name. */
    method Link(b: nat, last: L.Cell?<Entry>, entry: L.Cell<Entry>)
      requires Valid() && entry !in cells && entry.next == null && b == Bucket(hash, entry.value.name)
      requires last == buckets[b].Before(|buckets[b].nodes|)
      requires NoMatch(Chains()[b], |Chains()[b]|, entry.value.name, entry.value.loader)
      modifies this, buckets, cells
      ensures Valid() && Chains() == old(Chains())[b := old(Chains()[b]) + [entry.value]]
      ensures refs == old(refs) + multiset{entry.value.name}
    {
      ghost var before := Chains();
      BucketsApart(hash, buckets, b);
      AppendTo(buckets, b, last, entry, cells);
      cells := cells + {entry};
      refs := refs + multiset{entry.value.name};
      AppendedOk(hash, before, refs, b, entry.value);
    }

    /** Unlink the entries of one chain that belong to loader. */
    method PurgeChain(b: nat, loader: Loader) returns (removed: nat)
      requires Valid() && b < |buckets|
      modifies this, buckets, cells
      ensures Valid() && cells == old(cells)
      ensures Chains() == old(Chains())[b := Others(old(Chains()[b]), loader)]
      ensures removed == Owned(old(Chains()[b]), loader)
    {
      ghost var before := Chains();
      BucketsApart(hash, buckets, b);
      forall x ensures refs[x] >= Named(before[b], x) {
        CountAtLeast(before, b, x);
      }
      ghost var was := refs;
      removed, refs := PurgeAt(buckets, b, loader, refs, cells);
      PurgedOk(hash, before, b, loader);
      PurgedRefs(was, refs, before, b, Others(before[b], loader));
    }

    /** Remove every entry of loader, leaving each chain with the others in their order, and say
        how many there were. */
    method RemoveClassEntries(loader: Loader) returns (total: nat)
      requires Valid()
      modifies this, buckets, cells
      ensures Valid()
      ensures forall b :: 0 <= b < |buckets| ==> Chains()[b] == Others(old(Chains()[b]), loader)
      ensures total == OwnedFrom(old(Chains()), loader, 0)
    {
      total := 0;
      var ipool := |buckets|;
      while ipool > 0
        invariant 0 <= ipool <= |buckets| && Valid() && cells == old(cells)
        invariant forall b :: 0 <= b < ipool ==> Chains()[b] == old(Chains()[b])
        invariant forall b :: ipool <= b < |buckets| ==> Chains()[b] == Others(old(Chains()[b]), loader)
        invariant total == OwnedFrom(old(Chains()), loader, ipool)
      {
        ipool := ipool - 1;
        var removed := PurgeChain(ipool, loader);
        total := total + removed;
      }
    }

    /** The entry for a name and loader, made and appended to its chain if there was none. */
    method Lookup(name: Name, loader: Loader, id: nat) returns (r: L.Cell<Entry>)
      requires Valid()
      modifies this, buckets, cells
      ensures Valid() && Matches(r.value, name, loader)
      ensures var b := Bucket(hash, name);
        if exists e :: e in old(Chains()[b]) && Matches(e, name, loader)
        then r.value in old(Chains()[b]) && Chains() == old(Chains()) && refs == old(refs)
        else r.value.id == id && Chains() == old(Chains())[b := old(Chains()[b]) + [r.value]]
             && refs == old(refs) + multiset{name}
    {
      var found := LookupInternal(name, loader);
      if found != null {
        assert found.value in Chains()[Bucket(hash, name)] by {
          var b := Bucket(hash, name);
          var i :| 0 <= i < |buckets[b].nodes| && buckets[b].nodes[i] == found;
          assert Chains()[b][i] == found.value;
        }
        return found;
      }
      var entry := new L.Cell(Entry(id, name, loader));
      r := Insert(entry);
    }
  }

  /** The table with an entry appended where there was none for its name and loader. */
  lemma AppendedOk(hash: Name -> nat, before: seq<seq<Entry>>, refs: multiset<Name>, b: nat, e: Entry)
    requires b < |before| && AllOk(hash, before) && Bucket(hash, e.name) == b
    requires NoMatch(before[b], |before[b]|, e.name, e.loader)
    requires e.name in refs && RefsMatch(refs - multiset{e.name}, before)
    ensures AllOk(hash, before[b := before[b] + [e]]) && RefsMatch(refs, before[b := before[b] + [e]])
  {
    assert ChainOk(hash, b, before[b]);
    forall x ensures refs[x] == Count(before[b := before[b] + [e]], x) {
      CountUpdate(before, b, before[b] + [e], x);
      NamedSnoc(before[b], e, x);
      assert (refs - multiset{e.name})[x] == refs[x] - if x == e.name then 1 else 0;
    }
  }

  lemma PurgedRefs(refs: multiset<Name>, refs': multiset<Name>, before: seq<seq<Entry>>, b: nat, c: seq<Entry>)
    requires b < |before| && RefsMatch(refs, before) && Released(refs, refs', before[b], c)
    ensures RefsMatch(refs', before[b := c])
  {
    forall x ensures refs'[x] == Count(before[b := c], x) {
      CountUpdate(before, b, c, x);
    }
  }

  method NewChains(n: nat) returns (made: seq<L.Chain<Entry>>)
    ensures |made| == n && fresh(made) && AllDistinct(made)
    ensures forall b :: 0 <= b < n ==> made[b].Valid() && made[b].nodes == []
  {
    made := [];
    while |made| < n
      invariant |made| <= n && fresh(made) && AllDistinct(made)
      invariant forall b :: 0 <= b < |made| ==> made[b].Valid() && made[b].nodes == []
    {
      var c := new L.Chain<Entry>();
      made := made + [c];
    }
  }

  lemma EmptyOk(hash: Name -> nat, bs: seq<seq<Entry>>)
    requires forall b :: 0 <= b < |bs| ==> bs[b] == []
    ensures AllOk(hash, bs) && RefsMatch(multiset{}, bs)
  {
    forall x ensures Count(bs, x) == 0 {
      CountEmpty(bs, x);
    }
  }

  lemma {:induction false} CountEmpty(bs: seq<seq<Entry>>, x: Name)
    requires forall b :: 0 <= b < |bs| ==> bs[b] == []
    ensures Count(bs, x) == 0
  {
    if bs != [] {
      CountEmpty(bs[1..], x);
    }
  }

  /** After a removal the loader has no entry left, and every other loader's entries are all there. */
  lemma RemovalIsExact(before: seq<Entry>, l: Loader, e: Entry)
    ensures e in Others(before, l) <==> e in before && e.loader != l
    ensures Owned(Others(before, l), l) == 0 && Others(Others(before, l), l) == Others(before, l)
  {
    OthersContents(before, l);
    OthersFixed(Others(before, l), l);
  }

  lemma {:induction false} OthersFixed(c: seq<Entry>, l: Loader)
    requires forall e :: e in c ==> e.loader != l
    ensures Others(c, l) == c && Owned(c, l) == 0
  {
    if c != [] {
      OthersFixed(c[1..], l);
    }
  }
}
