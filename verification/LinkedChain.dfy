/** Singly linked chains whose links are changed in place, as the buckets of the class entry pool and
    the list of name dependencies are. */
module LinkedChain {

  class Cell<T> {
    const value: T
    var next: Cell?<T>

    constructor (value: T)
      ensures this.value == value && next == null
    {
      this.value, next := value, null;
    }
  }

  ghost predicate Distinct<T>(nodes: seq<Cell<T>>) {
    forall i, j :: 0 <= i < j < |nodes| ==> nodes[i] != nodes[j]
  }

  /** The node at a place; behind the last one, null. */
  ghost function Nth<T>(nodes: seq<Cell<T>>, i: nat): Cell?<T> {
    if i < |nodes| then nodes[i] else null
  }

  ghost predicate LinkedAt<T>(nodes: seq<Cell<T>>, i: nat)
    requires i < |nodes|
    reads nodes
  {
    nodes[i].next == Nth(nodes, i + 1)
  }

  ghost function Values<T>(nodes: seq<Cell<T>>): (vs: seq<T>)
    ensures |vs| == |nodes|
  {
    seq(|nodes|, i requires 0 <= i < |nodes| => nodes[i].value)
  }

  ghost function Without<T>(s: seq<T>, i: nat): seq<T>
    requires i < |s|
  {
    s[..i] + s[i + 1..]
  }

  /** What storing into a link changes besides the chain itself. */
  ghost function LinkOf<T>(prev: Cell?<T>): set<Cell<T>> {
    if prev == null then {} else {prev}
  }

  lemma WithoutValues<T>(nodes: seq<Cell<T>>, i: nat)
    requires i < |nodes|
    ensures Values(Without(nodes, i)) == Without(Values(nodes), i)
  {}

  lemma AppendValues<T>(nodes: seq<Cell<T>>, n: Cell<T>)
    ensures Values(nodes + [n]) == Values(nodes) + [n.value] && Values([n] + nodes) == [n.value] + Values(nodes)
  {}

  /** Where the nodes behind a removed one stand. */
  lemma WithoutShape<T>(nodes: seq<Cell<T>>, i: nat)
    requires Distinct(nodes) && i < |nodes|
    ensures var m := Without(nodes, i);
      && Distinct(m) && |m| == |nodes| - 1 && nodes[i] !in m
      && (forall j :: 0 <= j < i ==> m[j] == nodes[j])
      && (forall j :: i <= j < |m| ==> m[j] == nodes[j + 1])
  {
    var m := Without(nodes, i);
    forall j | i <= j < |m| ensures m[j] == nodes[j + 1] {
      assert m[j] == nodes[i + 1..][j - i];
    }
  }

  class Chain<T> {
    var first: Cell?<T>
    ghost var nodes: seq<Cell<T>>

    constructor ()
      ensures Valid() && nodes == []
    {
      first, nodes := null, [];
    }

    ghost predicate Valid()
      reads this, nodes
    {
      && first == Nth(nodes, 0)
      && Distinct(nodes)
      && forall i :: 0 <= i < |nodes| ==> LinkedAt(nodes, i)
    }

    /** The link that leads to place i is `first`, or the next pointer of this node. */
    ghost function Before(i: nat): Cell?<T>
      reads this
      requires i <= |nodes|
    {
      if i == 0 then null else nodes[i - 1]
    }

    method PushFront(n: Cell<T>)
      requires Valid() && n !in nodes
      modifies this, n`next
      ensures Valid() && nodes == [n] + old(nodes)
    {
      n.next := first;
      first := n;
      nodes := [n] + nodes;
      forall i | 0 <= i < |nodes| ensures LinkedAt(nodes, i) {
        assert i > 0 ==> old(LinkedAt(nodes, i - 1));
      }
    }

    /** Store n in the link at the end. */
    method Append(last: Cell?<T>, n: Cell<T>)
      requires Valid() && n !in nodes && n.next == null && last == Before(|nodes|)
      modifies this, LinkOf(last)
      ensures Valid() && nodes == old(nodes) + [n]
    {
      if last == null { first := n; } else { last.next := n; }
      nodes := nodes + [n];
      forall i | 0 <= i < |nodes| ensures LinkedAt(nodes, i) {
        assert i < |nodes| - 1 ==> old(LinkedAt(nodes, i));
      }
    }

    /** Store the successor of curr in the link that leads to curr. */
    method Unlink(prev: Cell?<T>, curr: Cell<T>, ghost i: nat)
      requires Valid() && i < |nodes| && nodes[i] == curr && prev == Before(i)
      modifies this, LinkOf(prev)
      ensures Valid() && nodes == Without(old(nodes), i)
    {
      assert LinkedAt(nodes, i);
      WithoutShape(nodes, i);
      if prev == null { first := curr.next; } else { prev.next := curr.next; }
      nodes := Without(nodes, i);
      forall j | 0 <= j < |nodes| ensures LinkedAt(nodes, j) {
        assert j < i ==> old(LinkedAt(nodes, j));
        assert j >= i ==> old(LinkedAt(nodes, j + 1));
      }
    }
  }
}
