/** The circular, doubly linked list in which a class's native methods wait to be printed. */
module MethodRing {
  import opened AccessFlags
  import opened Options
  import opened Mangling
  import opened Descriptors
  import opened NativeMethods

  class Node {
    const decl: Decl
    var mangled: bool
    var next: Node?
    var prev: Node?

    constructor (decl: Decl)
      ensures this.decl == decl && !mangled
    {
      this.decl, mangled, next, prev := decl, false, null, null;
    }
  }

  function After(i: nat, n: nat): nat {
    if i + 1 == n then 0 else i + 1
  }

  ghost predicate Distinct(nodes: seq<Node>) {
    forall i, j :: 0 <= i < j < |nodes| ==> nodes[i] != nodes[j]
  }

  /** The nodes, in this order, form a ring. */
  ghost predicate Linked(nodes: seq<Node>)
    reads nodes
  {
    && Distinct(nodes)
    && forall i :: 0 <= i < |nodes| ==> LinkedAt(nodes, i)
  }

  ghost predicate LinkedAt(nodes: seq<Node>, i: nat)
    requires i < |nodes|
    reads nodes
  {
    var j := After(i, |nodes|);
    nodes[i].next == nodes[j] && nodes[j].prev == nodes[i]
  }

  ghost function View(nodes: seq<Node>): (ms: seq<Method>)
    reads nodes
    ensures |ms| == |nodes|
  {
    seq(|nodes|, i requires 0 <= i < |nodes| reads nodes => Method(nodes[i].decl, nodes[i].mangled))
  }

  ghost function Behind(nodes: seq<Node>, k: nat, list: Node): seq<Node>
    requires k < |nodes|
  {
    nodes[..k + 1] + [list] + nodes[k + 1..]
  }

  lemma BehindShape(nodes: seq<Node>, k: nat, list: Node)
    requires Distinct(nodes) && k < |nodes| && list !in nodes
    ensures var m := Behind(nodes, k, list);
            && Distinct(m) && |m| == |nodes| + 1 && m[k + 1] == list
            && (forall j :: 0 <= j <= k ==> m[j] == nodes[j])
            && (forall j :: k + 1 < j < |m| ==> m[j] == nodes[j - 1])
  {
    var m := Behind(nodes, k, list);
    forall j | k + 1 < j < |m| ensures m[j] == nodes[j - 1] {
      assert m[j] == nodes[k + 1..][j - k - 2];
    }
  }

  lemma BehindView(ms: seq<Method>, r: seq<Method>, k: nat, d: Decl)
    requires k < |ms| && |r| == |ms| + 1 && r[k] == ms[k].(mangled := true) && r[k + 1] == Method(d, true)
    requires forall j :: 0 <= j < k ==> r[j] == ms[j]
    requires forall j :: k + 1 < j < |r| ==> r[j] == ms[j - 1]
    ensures r == ms[..k] + [ms[k].(mangled := true), Method(d, true)] + ms[k + 1..]
  {}

  /** Link a node in behind another one. */
  method InsertBehind(i: Node, list: Node, ghost nodes: seq<Node>, ghost k: nat)
    requires Linked(nodes) && k < |nodes| && nodes[k] == i && list !in nodes && i.next != null
    modifies i`next, i.next`prev, list`next, list`prev
    ensures Linked(Behind(nodes, k, list))
    ensures View(Behind(nodes, k, list)) == old(View(Behind(nodes, k, list)))
  {
    assert LinkedAt(nodes, k);
    i.next.prev := list;
    list.next := i.next;
    i.next := list;
    list.prev := i;
    BehindShape(nodes, k, list);
    ghost var m := Behind(nodes, k, list);
    forall j | 0 <= j < |m| ensures LinkedAt(m, j) {
      assert j < k ==> old(LinkedAt(nodes, j));
      assert j > k + 1 ==> old(LinkedAt(nodes, j - 1));
    }
  }

  /** Link a node in before the start of the ring. */
  method InsertAtEnd(i: Node, list: Node, ghost nodes: seq<Node>)
    requires Linked(nodes) && nodes != [] && nodes[0] == i && list !in nodes && i.prev != null
    modifies i`prev, i.prev`next, list`next, list`prev
    ensures Linked(nodes + [list])
  {
    assert LinkedAt(nodes, |nodes| - 1);
    i.prev.next := list;
    list.prev := i.prev;
    i.prev := list;
    list.next := i;
    forall j | 0 <= j <= |nodes| ensures LinkedAt(nodes + [list], j) {
      assert j < |nodes| - 1 ==> old(LinkedAt(nodes, j));
    }
  }

  /** Mark a method and the one about to be linked in behind it. */
  method MarkBoth(i: Node, list: Node, ghost nodes: seq<Node>, ghost k: nat)
    requires Linked(nodes) && k < |nodes| && nodes[k] == i && list !in nodes
    modifies i`mangled, list`mangled
    ensures Linked(nodes)
    ensures var ms := old(View(nodes));
            View(Behind(nodes, k, list)) == ms[..k] + [ms[k].(mangled := true), Method(list.decl, true)] + ms[k + 1..]
  {
    list.mangled, i.mangled := true, true;
    forall j | 0 <= j < |nodes| ensures LinkedAt(nodes, j) {
      assert old(LinkedAt(nodes, j));
    }
    BehindShape(nodes, k, list);
    BehindView(old(View(nodes)), View(Behind(nodes, k, list)), k, list.decl);
  }

  // ----- prototypes -----

  datatype Prototype = Prototype(symbol: string, ret: string, isStatic: bool, words: nat, params: seq<string>)

  /** The generator gets through a descriptor: it has a parenthesis, a type behind it, and arguments
      that translate. */
  predicate Printable(sig: string) {
    && sig != "" && |UpToParen(sig)| < |sig|
    && Translate(sig, |UpToParen(sig)| + 1).Translated?
    && ArgLoop(sig, 1, 1, []).Args?
  }

  function PrototypeOf(cls: string, m: Method): Prototype
    requires Printable(m.decl.sig)
  {
    var sig := m.decl.sig;
    var args := ArgLoop(sig, 1, 1, []);
    Prototype(Symbol(cls, m), Translate(sig, |UpToParen(sig)| + 1).ctype, HasFlag(m.decl.flags, ACC_STATIC), args.words,
              args.ctypes)
  }

  predicate AllPrintable(ms: seq<Method>) {
    forall i :: 0 <= i < |ms| ==> Printable(ms[i].decl.sig)
  }

  /** How many methods at the front get through. */
  function PrintableUpTo(ms: seq<Method>): (n: nat)
    ensures n <= |ms| && AllPrintable(ms[..n]) && (n < |ms| ==> !Printable(ms[n].decl.sig))
  {
    if ms == [] || !Printable(ms[0].decl.sig) then 0
    else
      var n := PrintableUpTo(ms[1..]);
      assert forall i :: 0 < i < n + 1 ==> ms[i] == ms[1..][..n][i - 1];
      n + 1
  }

  function Prototypes(cls: string, ms: seq<Method>): seq<Prototype>
    requires AllPrintable(ms)
  {
    seq(|ms|, i requires 0 <= i < |ms| => PrototypeOf(cls, ms[i]))
  }

  method FindParen(s: string) returns (j: nat)
    ensures j == |UpToParen(s)|
  {
    j := 0;
    while j < |s| && s[j] != ')'
      invariant j <= |s| && j + |UpToParen(s[j..])| == |UpToParen(s)|
    {
      assert s[j..][1..] == s[j + 1..];
      j := j + 1;
    }
  }

  /** One prototype: return type, symbol with the arguments only where they are needed, arguments.
      None where the program aborts, or reads past the end of the descriptor. */
  method PrintPrototype(cls: string, i: Node) returns (p: Option<Prototype>)
    ensures p == if Printable(i.decl.sig) then Some(PrototypeOf(cls, Method(i.decl, i.mangled))) else None
  {
    var sig := i.decl.sig;
    var paren := FindParen(sig);
    if paren == |sig| { return None; }
    var ret := TranslateSig(sig, paren + 1);
    if !ret.Translated? { return None; }
    var text := FprintfJni(i.decl.name);
    if i.mangled {
      var args := FprintfJni(sig[1..]);
      text := text + ("__" + args);
    } else {
      text := text + "";
    }
    var walked := WalkArgs(sig);
    if walked.Stuck? { return None; }
    return Some(Prototype("Java_" + cls + "_" + text, ret.ctype, HasFlag(i.decl.flags, ACC_STATIC), walked.words,
                          walked.ctypes));
  }

  // ----- the generator's list -----

  class MethodList {
    const cls: string
    var ring: Node?
    ghost var nodes: seq<Node>

    constructor (cls: string)
      ensures Valid() && Contents() == [] && this.cls == cls
    {
      this.cls, ring, nodes := cls, null, [];
    }

    ghost predicate Valid()
      reads this, nodes
    {
      Linked(nodes) && if ring == null then nodes == [] else nodes != [] && ring == nodes[0]
    }

    ghost function Contents(): seq<Method>
      reads this, nodes
    {
      View(nodes)
    }

    /** Walk once round the ring, up to the first method of this name. */
    method FindNamed(name: string) returns (i: Node, found: bool, ghost k: nat)
      requires Valid() && ring != null
      ensures k == FirstNamed(Contents(), name)
      ensures found <==> FirstNamed(Contents(), name) < |nodes|
      ensures i == if found then nodes[FirstNamed(Contents(), name)] else ring
    {
      i, found, k := ring, false, 0;
      var more := true;
      while more
        invariant k <= |nodes| && !found && i == (if k == |nodes| then ring else nodes[k]) && more == (k < |nodes|)
        invariant forall j :: 0 <= j < k ==> nodes[j].decl.name != name
        decreases |nodes| - k
      {
        if i.decl.name == name {
          found := true;
          assert Contents()[k].decl.name == name;
          return;
        }
        assert LinkedAt(nodes, k);
        i := i.next;
        k := k + 1;
        more := i != ring;
      }
    }

    method AddMethod(d: Decl)
      requires Valid()
      modifies this, nodes
      ensures Valid() && Contents() == Add(old(Contents()), d)
      ensures fresh(set n | n in nodes && n !in old(nodes))
    {
      if !HasFlag(d.flags, ACC_NATIVE) { return; }
      var list := new Node(d);
      if ring == null {
        AddFirst(list);
        return;
      }
      var i, found;
      ghost var k;
      i, found, k := FindNamed(d.name);
      if found {
        AddOverload(i, list, k);
      } else {
        AddLast(i, list);
      }
    }

    /** A ring of one. */
    method AddFirst(list: Node)
      requires Valid() && ring == null && !list.mangled
      modifies this, list
      ensures Valid() && nodes == [list] && Contents() == [Method(list.decl, false)]
    {
      ring, nodes := list, [list];
      list.next, list.prev := list, list;
      assert LinkedAt(nodes, 0);
    }

    /** Link a method of a new name in at the end. */
    method AddLast(i: Node, list: Node)
      requires Valid() && ring == i && list !in nodes && !list.mangled
      modifies this`nodes, nodes, list
      ensures Valid() && nodes == old(nodes) + [list] && Contents() == old(Contents()) + [Method(list.decl, false)]
    {
      assert LinkedAt(nodes, |nodes| - 1);
      InsertAtEnd(i, list, nodes);
      nodes := nodes + [list];
    }

    /** Mark both methods of the name and link the new one in behind the first. */
    method AddOverload(i: Node, list: Node, ghost k: nat)
      requires Valid() && k < |nodes| && i == nodes[k] && list !in nodes && list.decl.name == i.decl.name
      requires k == FirstNamed(Contents(), i.decl.name)
      modifies this`nodes, nodes, list
      ensures Valid() && nodes == Behind(old(nodes), k, list)
      ensures Contents() == Insert(old(Contents()), list.decl)
    {
      MarkBoth(i, list, nodes, k);
      assert LinkedAt(nodes, k);
      InsertBehind(i, list, nodes, k);
      nodes := Behind(nodes, k, list);
    }

    /** Print every method once, in ring order, up to one whose descriptor does not get through. */
    method PrintAll() returns (out: seq<Prototype>, ok: bool)
      requires Valid() && ring != null
      ensures out == Prototypes(cls, Contents()[..PrintableUpTo(Contents())])
      ensures ok <==> AllPrintable(Contents())
    {
      out, ok := [], true;
      var i: Node, more := ring, true;
      ghost var k := 0;
      while more
        invariant k <= |nodes| && i == (if k == |nodes| then ring else nodes[k]) && more == (k < |nodes|)
        invariant AllPrintable(Contents()[..k]) && out == Prototypes(cls, Contents()[..k])
        decreases |nodes| - k
      {
        assert Contents()[k] == Method(i.decl, i.mangled);
        var p := PrintPrototype(cls, i);
        if p.None? {
          StopsAt(Contents(), k);
          return out, false;
        }
        PrintsNext(cls, Contents(), k);
        out := out + [p.value];
        assert LinkedAt(nodes, k);
        i := i.next;
        k := k + 1;
        more := i != ring;
      }
      assert Contents()[..k] == Contents();
      StopsAt(Contents(), k);
    }

    /** Print the list and empty it. Where a descriptor does not get through, the program is gone. */
    method FinishMethods() returns (out: seq<Prototype>, ok: bool)
      requires Valid()
      modifies this
      ensures out == Prototypes(cls, old(Contents())[..PrintableUpTo(old(Contents()))])
      ensures ok <==> AllPrintable(old(Contents()))
      ensures ok ==> Valid() && Contents() == []
    {
      if ring == null { return [], true; }
      out, ok := PrintAll();
      if ok { ring, nodes := null, []; }
    }
  }

  lemma StopsAt(ms: seq<Method>, k: nat)
    requires k <= |ms| && AllPrintable(ms[..k]) && (k < |ms| ==> !Printable(ms[k].decl.sig))
    ensures PrintableUpTo(ms) == k && (AllPrintable(ms) <==> k == |ms|)
  {
    var n := PrintableUpTo(ms);
    assert forall i :: 0 <= i < k ==> ms[..k][i] == ms[i];
    assert forall i :: 0 <= i < n ==> ms[..n][i] == ms[i];
  }

  lemma PrototypesSnoc(cls: string, ms: seq<Method>, m: Method)
    requires AllPrintable(ms) && Printable(m.decl.sig)
    ensures AllPrintable(ms + [m])
    ensures Prototypes(cls, ms + [m]) == Prototypes(cls, ms) + [PrototypeOf(cls, m)]
  {
    assert forall i :: 0 <= i < |ms| ==> (ms + [m])[i] == ms[i];
  }

  lemma PrintsNext(cls: string, ms: seq<Method>, k: nat)
    requires k < |ms| && AllPrintable(ms[..k]) && Printable(ms[k].decl.sig)
    ensures AllPrintable(ms[..k + 1])
    ensures Prototypes(cls, ms[..k + 1]) == Prototypes(cls, ms[..k]) + [PrototypeOf(cls, ms[k])]
  {
    PrototypesSnoc(cls, ms[..k], ms[k]);
    assert ms[..k + 1] == ms[..k] + [ms[k]];
  }

  // ----- descriptors the generator gets through -----

  /** What follows the parenthesis: a type, or V for none. */
  datatype ReturnType = Void | Returns(t: FieldType)

  function ReturnText(r: ReturnType): string {
    if r.Void? then "V" else Text(r.t)
  }

  function ReturnCType(r: ReturnType): string {
    if r.Void? then "void" else CType(r.t)
  }

  lemma ReturnConsumed(s: string, i: nat, r: ReturnType)
    requires (r.Returns? ==> WellFormed(r.t)) && At(s, i, ReturnText(r))
    ensures i <= |s| && Translate(s, i).Translated? && Translate(s, i).ctype == ReturnCType(r)
  {
    if r.Void? {
      AtFirst(s, i, 'V');
    } else {
      ConsumesOneType(s, i, r.t);
    }
  }

  /** A class name may hold a closing parenthesis; the search for the end of the arguments then stops
      inside the name, and here the program aborts. */
  lemma ParenInName()
    ensures WellFormed(Object("a)b")) && !Printable("(" + Text(Object("a)b")) + ")V")
  {
    var sig := "(" + Text(Object("a)b")) + ")V";
    FirstParen(sig, "(La", "b;)V");
    assert sig[4] == 'b';
  }

  /** The text of a method descriptor. */
  function DescriptorText(ts: seq<FieldType>, ret: ReturnType): string {
    "(" + ParamsText(ts) + ")" + ReturnText(ret)
  }

  /** Where its arguments end. */
  function ArgsEnd(ts: seq<FieldType>): nat {
    1 + |ParamsText(ts)|
  }

  lemma {:induction false} ArgsEndAtParen(ts: seq<FieldType>, ret: ReturnType)
    requires ')' !in ParamsText(ts)
    ensures |UpToParen(DescriptorText(ts, ret))| == ArgsEnd(ts) < |DescriptorText(ts, ret)|
  {
    FirstParen(DescriptorText(ts, ret), "(" + ParamsText(ts), ReturnText(ret));
  }

  lemma TailAt(a: string, b: string)
    ensures At(a + b, |a|, b)
  {
    assert (a + b)[|a|..|a| + |b|] == b;
  }

  lemma {:induction false} ReturnBehindParen(ts: seq<FieldType>, ret: ReturnType)
    requires ret.Returns? ==> WellFormed(ret.t)
    ensures var sig, n := DescriptorText(ts, ret), ArgsEnd(ts) + 1;
      n <= |sig| && Translate(sig, n).Translated? && Translate(sig, n).ctype == ReturnCType(ret)
  {
    TailAt("(" + ParamsText(ts) + ")", ReturnText(ret));
    ReturnConsumed(DescriptorText(ts, ret), ArgsEnd(ts) + 1, ret);
  }

  lemma {:induction false} ArgsWalked(ts: seq<FieldType>, ret: ReturnType)
    requires AllWellFormed(ts)
    ensures DescriptorText(ts, ret) != ""
    ensures ArgLoop(DescriptorText(ts, ret), 1, 1, []) == Args(1 + TotalWords(ts), CTypes(ts), ArgsEnd(ts))
  {
    MethodDescriptor(ts, ReturnText(ret));
  }

  /** Every method descriptor without such a name is printable, and its prototype has one C type per
      parameter. */
  lemma DescriptorsPrintable(cls: string, m: Method, ts: seq<FieldType>, ret: ReturnType)
    requires AllWellFormed(ts) && (ret.Returns? ==> WellFormed(ret.t)) && ')' !in ParamsText(ts)
    requires m.decl.sig == DescriptorText(ts, ret)
    ensures Printable(m.decl.sig)
    ensures var p := PrototypeOf(cls, m);
      && p.params == CTypes(ts) && p.words == 1 + TotalWords(ts) && p.ret == ReturnCType(ret)
      && (p.isStatic <==> m.decl.flags / 0x8 % 2 == 1)
  {
    ArgsEndAtParen(ts, ret);
    ReturnBehindParen(ts, ret);
    ArgsWalked(ts, ret);
  }

  /** The symbol: the class, the escaped name and, for an overloaded method, the escaped parameter types. */
  lemma SymbolText(cls: string, m: Method, ts: seq<FieldType>, ret: ReturnType)
    requires Unqualified(m.decl.name) && ')' !in ParamsText(ts) && m.decl.sig == DescriptorText(ts, ret)
    requires Printable(m.decl.sig)
    ensures var name, args := Escape(m.decl.name), Escape(ParamsText(ts));
      PrototypeOf(cls, m).symbol == "Java_" + cls + "_" + name + if m.mangled then "__" + args else ""
  {
    NameUpToParen(m.decl.name);
    ArgsOf(ParamsText(ts), ReturnText(ret));
    Associative("Java_" + cls + "_", Escape(m.decl.name), Tail(m));
  }

  /** Exactly the method descriptors get through behind whose first closing parenthesis, be it the one
      of the arguments or one in a class name, the generator finds what it takes for a type. */
  lemma {:induction false} PrintableIff(ts: seq<FieldType>, ret: ReturnType)
    requires AllWellFormed(ts)
    ensures var sig := DescriptorText(ts, ret);
      var n := |UpToParen(sig)| + 1;
      n <= |sig| && (Printable(sig) <==> BeginsType(sig, n) || At(sig, n, "V") || Loose(sig, n))
  {
    var sig := DescriptorText(ts, ret);
    var r := UpToParen(sig);
    assert sig[ArgsEnd(ts)] == ')' && sig[..|sig|] == sig;
    assert r != sig && r == sig[..|r|];
    ArgsWalked(ts, ret);
    TranslatesIff(sig, |r| + 1);
  }
}
