/** Whether a class may use a method or field of another: the walk up the superclasses. */
module Access {
  import opened AccessFlags
  import opened Options
  import opened WaitGraph

  type Class = Node

  /** `slots` are the vtable indexes of the methods a class declares. */
  datatype Info = Info(flags: nat, name: string, packageLength: nat, slots: seq<int>)

  /** `subclass(t, c)` says that c is t or a subtype of it. */
  datatype World = World(supers: Graph, info: Class -> Info, subclass: (Class, Class) -> bool)

  datatype Method = Method(cls: Class, idx: int, flags: nat)

  datatype Field = Field(cls: Class, flags: nat)

  function Prefix(s: string, n: nat): string {
    if n <= |s| then s[..n] else s
  }

  predicate SamePackage(a: Info, b: Info) {
    a.packageLength == b.packageLength && Prefix(a.name, a.packageLength) == Prefix(b.name, a.packageLength)
  }

  predicate CheckAccess(w: World, context: Class, target: Class, flags: nat) {
    var same := SamePackage(w.info(context), w.info(target));
    var classAcc := HasFlag(w.info(target).flags, ACC_PUBLIC) || w.subclass(target, context) || same;
    var slotAcc :=
      || HasFlag(flags, ACC_PUBLIC)
      || (HasFlag(flags, ACC_PROTECTED) && w.subclass(target, context))
      || (same && !HasFlag(flags, ACC_PRIVATE));
    context == target || (classAcc && slotAcc)
  }

  // ----- which classes are tried -----

  predicate Declares(w: World, cl: Class, idx: int) {
    idx in w.info(cl).slots
  }

  /** cl or a class above it declares the slot. */
  ghost predicate DeclaredFrom(w: World, cl: Class, idx: int) {
    exists a :: Reaches(w.supers, cl, a) && Declares(w, a, idx)
  }

  /** The classes from target up to and including `last`, or to the root where `last` is not above. */
  ghost predicate UpTo(w: World, target: Class, last: Class, cl: Class) {
    && Reaches(w.supers, target, cl)
    && !(last != cl && Reaches(w.supers, target, last) && Reaches(w.supers, last, cl))
  }

  /** For a virtual method: the target and every class above it that is not above the topmost one
      declaring the slot. For any other: up to the class of the method. */
  ghost predicate MethodVisits(w: World, target: Class, m: Method, cl: Class) {
    if m.idx != -1 then Reaches(w.supers, target, cl) && (cl == target || DeclaredFrom(w, cl, m.idx))
    else UpTo(w, target, m.cls, cl)
  }

  ghost predicate MethodReachable(w: World, context: Class, target: Class, m: Method) {
    exists cl :: MethodVisits(w, target, m, cl) && CheckAccess(w, context, cl, m.flags)
  }

  /** The declaring class is open to the target, and some visited class to the context. */
  ghost predicate MethodAccess(w: World, context: Class, target: Class, m: Method) {
    (target == m.cls || MethodReachable(w, target, m.cls, m)) && MethodReachable(w, context, target, m)
  }

  ghost predicate FieldReachable(w: World, context: Class, target: Class, f: Field) {
    exists cl :: UpTo(w, target, f.cls, cl) && CheckAccess(w, context, cl, f.flags)
  }

  ghost predicate FieldAccess(w: World, context: Class, target: Class, f: Field) {
    (target == f.cls || FieldReachable(w, target, f.cls, f)) && FieldReachable(w, context, target, f)
  }

  // ----- walking -----

  lemma ReachesSelf(g: Graph, x: Node)
    ensures Reaches(g, x, x)
  {
    assert Path(g, x, 0, x);
  }

  /** Above a class: itself, or above its superclass. */
  lemma ReachesStep(g: Graph, x: Node, y: Node)
    ensures Reaches(g, x, y) <==> x == y || (x in g && Reaches(g, g[x], y))
  {
    ReachesSelf(g, x);
    if Reaches(g, x, y) {
      var n: nat :| Path(g, x, n, y);
      if n > 0 { assert Path(g, g[x], n - 1, y); }
    }
    if x in g && Reaches(g, g[x], y) {
      var n: nat :| Path(g, g[x], n, y);
      assert Path(g, x, n + 1, y);
    }
  }

  lemma ReachesThrough(g: Graph, x: Node, y: Node, z: Node)
    requires Reaches(g, x, y) && Reaches(g, y, z)
    ensures Reaches(g, x, z)
  {
    var n: nat :| Path(g, x, n, y);
    var k: nat :| Path(g, y, k, z);
    PathConcat(g, x, n, y, k, z);
  }

  lemma NotBack(g: Graph, x: Node, y: Node)
    requires Acyclic(g) && Reaches(g, x, y) && Reaches(g, y, x)
    ensures x == y
  {
    var n: nat :| Path(g, x, n, y);
    var k: nat :| Path(g, y, k, x);
    PathConcat(g, x, n, y, k, x);
  }

  /** Of two classes above a third, one is above the other. */
  lemma Comparable(g: Graph, x: Node, y: Node, z: Node)
    requires Reaches(g, x, y) && Reaches(g, x, z)
    ensures Reaches(g, y, z) || Reaches(g, z, y)
  {
    var n: nat :| Path(g, x, n, y);
    var k: nat :| Path(g, x, k, z);
    if n <= k { PathRest(g, x, n, y, k, z); } else { PathRest(g, x, k, z, n, y); }
  }

  /** The superclass, if some class above declares the slot. */
  method FindSuperMethod(w: World, orig: Class, idx: int) returns (r: Option<Class>)
    requires Acyclic(w.supers)
    ensures r.Some? <==> orig in w.supers && DeclaredFrom(w, w.supers[orig], idx)
    ensures r.Some? ==> r.value == w.supers[orig]
  {
    r := None;
    if orig !in w.supers { return; }
    var cl := Some(w.supers[orig]);
    ghost var n := 0;
    ghost var top := w.supers[orig];
    ReachesSelf(w.supers, top);
    while cl.Some? && r.None?
      invariant cl.Some? ==> Path(w.supers, top, n, cl.value)
      invariant r.Some? ==> r.value == top && DeclaredFrom(w, top, idx)
      invariant r.None? && DeclaredFrom(w, top, idx) ==> cl.Some? && DeclaredFrom(w, cl.value, idx)
      decreases cl.Some?, |w.supers| - n, r.None?
    {
      PathBound(w.supers, top, n, cl.value);
      var c := cl.value;
      var found := HasSlot(w.info(c).slots, idx);
      if found {
        r := Some(w.supers[orig]);
        ReachesSelf(w.supers, c);
        assert Reaches(w.supers, top, c);
      }
      NextDeclarer(w, c, idx);
      if c in w.supers {
        AtSuper(w.supers, top, n, c);
        cl, n := Some(w.supers[c]), n + 1;
        PathBound(w.supers, top, n, w.supers[c]);
      } else {
        cl := None;
      }
    }
  }

  method HasSlot(slots: seq<int>, idx: int) returns (found: bool)
    ensures found <==> idx in slots
  {
    found := false;
    var lpc := 0;
    while lpc < |slots| && !found
      invariant lpc <= |slots| && (found <==> idx in slots[..lpc])
    {
      if slots[lpc] == idx { found := true; }
      lpc := lpc + 1;
    }
  }

  lemma NextDeclarer(w: World, c: Class, idx: int)
    ensures DeclaredFrom(w, c, idx) <==> Declares(w, c, idx) || (c in w.supers && DeclaredFrom(w, w.supers[c], idx))
  {
    ReachesSelf(w.supers, c);
    if DeclaredFrom(w, c, idx) {
      var a :| Reaches(w.supers, c, a) && Declares(w, a, idx);
      ReachesStep(w.supers, c, a);
    }
    if c in w.supers && DeclaredFrom(w, w.supers[c], idx) {
      var a :| Reaches(w.supers, w.supers[c], a) && Declares(w, a, idx);
      ReachesStep(w.supers, c, a);
    }
  }

  lemma AtSuper(g: Graph, x: Node, n: nat, y: Node)
    requires Path(g, x, n, y) && y in g
    ensures Path(g, x, n + 1, g[y])
  {
    assert Path(g, y, 1, g[y]) by { assert Path(g, g[y], 0, g[y]); }
    PathConcat(g, x, n, y, 1, g[y]);
  }

  // ----- one step of each walk -----

  /** The walk for a virtual method goes on exactly while a visited class lies above. */
  lemma VirtualStep(w: World, target: Class, m: Method, cl: Class, v: Class)
    requires m.idx != -1 && MethodVisits(w, target, m, v) && Reaches(w.supers, target, cl)
    requires Reaches(w.supers, cl, v) && v != cl && Acyclic(w.supers)
    ensures cl in w.supers && DeclaredFrom(w, w.supers[cl], m.idx) && Reaches(w.supers, w.supers[cl], v)
  {
    ReachesStep(w.supers, cl, v);
    if v == target {
      NotBack(w.supers, target, cl);
      assert false;
    }
    var a :| Reaches(w.supers, v, a) && Declares(w, a, m.idx);
    ReachesThrough(w.supers, w.supers[cl], v, a);
  }

  lemma SuperVisited(w: World, target: Class, m: Method, cl: Class)
    requires m.idx != -1 && Reaches(w.supers, target, cl) && cl in w.supers && DeclaredFrom(w, w.supers[cl], m.idx)
    ensures MethodVisits(w, target, m, w.supers[cl])
  {
    ReachesStep(w.supers, cl, w.supers[cl]);
    ReachesSelf(w.supers, w.supers[cl]);
    ReachesThrough(w.supers, target, cl, w.supers[cl]);
  }

  /** The bounded walk goes on exactly while a class to try lies above. */
  lemma BoundedStep(w: World, target: Class, last: Class, cl: Class, v: Class)
    requires UpTo(w, target, last, v) && UpTo(w, target, last, cl) && Reaches(w.supers, cl, v) && v != cl
    ensures cl != last && cl in w.supers && Reaches(w.supers, w.supers[cl], v)
  {
    ReachesStep(w.supers, cl, v);
  }

  lemma BoundedSuper(w: World, target: Class, last: Class, cl: Class)
    requires Acyclic(w.supers) && UpTo(w, target, last, cl) && cl != last && cl in w.supers
    ensures UpTo(w, target, last, w.supers[cl])
  {
    var up := w.supers[cl];
    ReachesSelf(w.supers, up);
    ReachesStep(w.supers, cl, up);
    ReachesThrough(w.supers, target, cl, up);
    if last != up && Reaches(w.supers, target, last) && Reaches(w.supers, last, up) {
      Comparable(w.supers, target, cl, last);
      if Reaches(w.supers, cl, last) {
        ReachesStep(w.supers, cl, last);
        NotBack(w.supers, up, last);
        assert false;
      }
    }
  }

  // ----- the checks -----

  ghost predicate AllAbove(w: World, context: Class, target: Class, m: Method, cl: Option<Class>) {
    forall v :: MethodVisits(w, target, m, v) && CheckAccess(w, context, v, m.flags) ==>
      cl.Some? && Reaches(w.supers, cl.value, v)
  }

  /** The next class to try after one that is closed. */
  method NextForMethod(w: World, ghost context: Class, ghost target: Class, m: Method, cl: Class)
    returns (r: Option<Class>)
    requires Acyclic(w.supers) && MethodVisits(w, target, m, cl) && !CheckAccess(w, context, cl, m.flags)
    requires AllAbove(w, context, target, m, Some(cl))
    ensures AllAbove(w, context, target, m, r)
    ensures r.Some? ==> cl in w.supers && r.value == w.supers[cl] && MethodVisits(w, target, m, r.value)
  {
    if m.idx != -1 {
      r := FindSuperMethod(w, cl, m.idx);
      if r.Some? { SuperVisited(w, target, m, cl); }
    } else if m.cls != cl {
      r := if cl in w.supers then Some(w.supers[cl]) else None;
      if r.Some? { BoundedSuper(w, target, m.cls, cl); }
    } else {
      r := None;
    }
    forall v | MethodVisits(w, target, m, v) && CheckAccess(w, context, v, m.flags)
      ensures r.Some? && Reaches(w.supers, r.value, v)
    {
      if m.idx != -1 {
        VirtualStep(w, target, m, cl, v);
      } else {
        BoundedStep(w, target, m.cls, cl, v);
      }
    }
  }

  /** The walk of a method check. */
  method WalkForMethod(w: World, context: Class, target: Class, m: Method) returns (ok: bool)
    requires Acyclic(w.supers)
    ensures ok <==> MethodReachable(w, context, target, m)
  {
    ok := false;
    var cl := Some(target);
    ghost var n := 0;
    StartVisited(w, target, m);
    while cl.Some? && !ok
      invariant cl.Some? ==> Path(w.supers, target, n, cl.value) && MethodVisits(w, target, m, cl.value)
      invariant ok ==> MethodReachable(w, context, target, m)
      invariant !ok ==> AllAbove(w, context, target, m, cl)
      decreases !ok, cl.Some?, |w.supers| - n
    {
      var c := cl.value;
      PathBound(w.supers, target, n, c);
      if CheckAccess(w, context, c, m.flags) {
        ok := true;
      } else {
        cl := NextForMethod(w, context, target, m, c);
        if cl.Some? {
          AtSuper(w.supers, target, n, c);
          n := n + 1;
          PathBound(w.supers, target, n, cl.value);
        }
      }
    }
  }

  lemma StartVisited(w: World, target: Class, m: Method)
    requires Acyclic(w.supers)
    ensures MethodVisits(w, target, m, target) && UpTo(w, target, m.cls, target) && Path(w.supers, target, 0, target)
    ensures forall v :: MethodVisits(w, target, m, v) ==> Reaches(w.supers, target, v)
  {
    ReachesSelf(w.supers, target);
    if Reaches(w.supers, target, m.cls) && Reaches(w.supers, m.cls, target) {
      NotBack(w.supers, target, m.cls);
    }
  }

  /** The check ends, after one call of itself at most, with the closed form. */
  method CheckMethodAccess(w: World, context: Class, target: Class, m: Method) returns (ok: bool)
    requires Acyclic(w.supers)
    ensures ok <==> MethodAccess(w, context, target, m)
    decreases target != m.cls
  {
    var open_ := target == m.cls;
    if !open_ {
      open_ := CheckMethodAccess(w, target, m.cls, m);
    }
    if !open_ { return false; }
    ok := WalkForMethod(w, context, target, m);
  }

  /** The step of the field walk. From a class it tries it goes to a class it tries, and where it does
      not go on there is no other above. */
  method FindSuperField(w: World, orig: Class, f: Field) returns (r: Option<Class>)
    requires Acyclic(w.supers)
    ensures r.Some? ==> orig in w.supers && r.value == w.supers[orig]
    ensures forall target, v ::
      UpTo(w, target, f.cls, orig) && UpTo(w, target, f.cls, v) && Reaches(w.supers, orig, v) && v != orig ==>
      r.Some? && UpTo(w, target, f.cls, r.value) && Reaches(w.supers, r.value, v)
    ensures r.Some? ==> forall target :: UpTo(w, target, f.cls, orig) ==> UpTo(w, target, f.cls, r.value)
  {
    r := None;
    if f.cls != orig && orig in w.supers { r := Some(w.supers[orig]); }
    forall target | r.Some? && UpTo(w, target, f.cls, orig) ensures UpTo(w, target, f.cls, r.value) {
      BoundedSuper(w, target, f.cls, orig);
    }
    forall target, v |
      UpTo(w, target, f.cls, orig) && UpTo(w, target, f.cls, v) && Reaches(w.supers, orig, v) && v != orig
      ensures r.Some? && UpTo(w, target, f.cls, r.value) && Reaches(w.supers, r.value, v)
    {
      BoundedStep(w, target, f.cls, orig, v);
    }
  }

  ghost predicate FieldAllAbove(w: World, context: Class, target: Class, f: Field, cl: Option<Class>) {
    forall v :: UpTo(w, target, f.cls, v) && CheckAccess(w, context, v, f.flags) ==>
      cl.Some? && Reaches(w.supers, cl.value, v)
  }

  method WalkForField(w: World, context: Class, target: Class, f: Field) returns (ok: bool)
    requires Acyclic(w.supers)
    ensures ok <==> FieldReachable(w, context, target, f)
  {
    ok := false;
    var cl := Some(target);
    ghost var n := 0;
    StartVisited(w, target, Method(f.cls, -1, f.flags));
    while cl.Some? && !ok
      invariant cl.Some? ==> Path(w.supers, target, n, cl.value) && UpTo(w, target, f.cls, cl.value)
      invariant ok ==> FieldReachable(w, context, target, f)
      invariant !ok ==> FieldAllAbove(w, context, target, f, cl)
      decreases !ok, cl.Some?, |w.supers| - n
    {
      var c := cl.value;
      PathBound(w.supers, target, n, c);
      if CheckAccess(w, context, c, f.flags) {
        ok := true;
      } else {
        cl := FindSuperField(w, c, f);
        if cl.Some? {
          AtSuper(w.supers, target, n, c);
          n := n + 1;
          PathBound(w.supers, target, n, cl.value);
        }
      }
    }
  }

  method CheckFieldAccess(w: World, context: Class, target: Class, f: Field) returns (ok: bool)
    requires Acyclic(w.supers)
    ensures ok <==> FieldAccess(w, context, target, f)
    decreases target != f.cls
  {
    var open_ := target == f.cls;
    if !open_ {
      open_ := CheckFieldAccess(w, target, f.cls, f);
    }
    if !open_ { return false; }
    ok := WalkForField(w, context, target, f);
  }

  // ----- what the closed form comes to -----

  // Flag bit 0 is public, bit 1 private, bit 2 protected.

  predicate IsPublic(flags: nat) {
    flags % 2 == 1
  }

  predicate OnlyPrivate(flags: nat) {
    flags % 8 == 2
  }

  predicate OnlyProtected(flags: nat) {
    flags % 8 == 4
  }

  predicate NoProtection(flags: nat) {
    flags % 8 == 0
  }

  /** A flag bit is one of the last eight's. */
  lemma LastBits(flags: nat, q: nat, r: nat)
    requires flags == 8 * q + r && r < 8
    ensures HasFlag(flags, 1) <==> r % 2 == 1
    ensures HasFlag(flags, 2) <==> r / 2 % 2 == 1
    ensures HasFlag(flags, 4) <==> r / 4 % 2 == 1
  {
    assert flags / 1 == 2 * (4 * q) + r;
    assert flags / 2 == 2 * (2 * q) + r / 2;
    assert flags / 4 == 2 * q + r / 4;
    EvenAdd(4 * q, r);
    EvenAdd(2 * q, r / 2);
    EvenAdd(q, r / 4);
  }

  lemma EvenAdd(k: nat, r: nat)
    ensures (2 * k + r) % 2 == r % 2
  {}

  lemma ByEights(flags: nat, q: nat, r: nat)
    requires flags == 8 * q + r && r < 8
    ensures flags % 8 == r && flags % 2 == r % 2
  {
    EvenAdd(4 * q, r);
  }

  /** The three flags as bits. */
  lemma FlagBits(flags: nat)
    ensures HasFlag(flags, ACC_PUBLIC) <==> IsPublic(flags)
    ensures OnlyPrivate(flags) <==>
      HasFlag(flags, ACC_PRIVATE) && !HasFlag(flags, ACC_PUBLIC) && !HasFlag(flags, ACC_PROTECTED)
    ensures OnlyProtected(flags) <==>
      HasFlag(flags, ACC_PROTECTED) && !HasFlag(flags, ACC_PUBLIC) && !HasFlag(flags, ACC_PRIVATE)
    ensures NoProtection(flags) <==>
      !HasFlag(flags, ACC_PROTECTED) && !HasFlag(flags, ACC_PUBLIC) && !HasFlag(flags, ACC_PRIVATE)
  {
    var q, r := flags / 8, flags % 8;
    LastBits(flags, q, r);
    ByEights(flags, q, r);
  }

  /** Classes of one package: their names agree up to where the package ends. */
  lemma SamePackageIff(a: Info, b: Info, p: string, q: string, x: string, y: string)
    requires a.name == p + x && a.packageLength == |p| && b.name == q + y && b.packageLength == |q|
    ensures SamePackage(a, b) <==> p == q
  {
    assert (p + x)[..|p|] == p;
    if |p| == |q| { assert (q + y)[..|p|] == q; }
  }

  lemma OwnWalk(w: World, cls: Class, cl: Class)
    ensures UpTo(w, cls, cls, cl) <==> cl == cls
  {
    ReachesSelf(w.supers, cls);
  }

  /** Through the declaring class only that class is tried. */
  lemma OwnClassOnly(w: World, context: Class, f: Field)
    ensures FieldReachable(w, context, f.cls, f) <==> CheckAccess(w, context, f.cls, f.flags)
    ensures FieldAccess(w, context, f.cls, f) <==> CheckAccess(w, context, f.cls, f.flags)
  {
    forall cl ensures UpTo(w, f.cls, f.cls, cl) <==> cl == f.cls {
      OwnWalk(w, f.cls, cl);
    }
    assert UpTo(w, f.cls, f.cls, f.cls);
  }

  /** A class may always use its own fields. */
  lemma OwnFieldOpen(w: World, f: Field)
    ensures FieldAccess(w, f.cls, f.cls, f)
  {
    OwnClassOnly(w, f.cls, f);
  }

  /** A public field is open to those to whom its class is: everyone if the class is public, else its
      subclasses and its package. */
  lemma PublicFieldIff(w: World, context: Class, f: Field)
    requires IsPublic(f.flags) && context != f.cls
    ensures FieldAccess(w, context, f.cls, f) <==>
      IsPublic(w.info(f.cls).flags) || w.subclass(f.cls, context) || SamePackage(w.info(context), w.info(f.cls))
  {
    OwnClassOnly(w, context, f);
  }

  /** A protected field is open to the subclasses of its class and to its package. */
  lemma ProtectedFieldIff(w: World, context: Class, f: Field)
    requires OnlyProtected(f.flags) && context != f.cls
    ensures FieldAccess(w, context, f.cls, f) <==>
      w.subclass(f.cls, context) || SamePackage(w.info(context), w.info(f.cls))
  {
    FlagBits(f.flags);
    OwnClassOnly(w, context, f);
  }

  /** A field without a flag is open to its package. */
  lemma PackageFieldIff(w: World, context: Class, f: Field)
    requires NoProtection(f.flags) && context != f.cls
    ensures FieldAccess(w, context, f.cls, f) <==> SamePackage(w.info(context), w.info(f.cls))
  {
    FlagBits(f.flags);
    OwnClassOnly(w, context, f);
  }

  /** A private field is open to its own class alone, and only through that class. */
  lemma PrivateFieldIff(w: World, context: Class, target: Class, f: Field)
    requires OnlyPrivate(f.flags)
    ensures FieldAccess(w, context, target, f) <==> context == target == f.cls
  {
    FlagBits(f.flags);
    OwnWalk(w, f.cls, f.cls);
    forall cl ensures UpTo(w, f.cls, f.cls, cl) <==> cl == f.cls {
      OwnWalk(w, f.cls, cl);
    }
  }

  /** A method outside the vtable is as open as a field of its class and flags. */
  lemma MethodAsField(w: World, context: Class, target: Class, m: Method)
    requires m.idx == -1
    ensures MethodAccess(w, context, target, m) <==> FieldAccess(w, context, target, Field(m.cls, m.flags))
  {
    var f := Field(m.cls, m.flags);
    forall c, t ensures MethodReachable(w, c, t, m) <==> FieldReachable(w, c, t, f) {
      if MethodReachable(w, c, t, m) {
        var cl :| MethodVisits(w, t, m, cl) && CheckAccess(w, c, cl, m.flags);
        assert UpTo(w, t, f.cls, cl);
      }
      if FieldReachable(w, c, t, f) {
        var cl :| UpTo(w, t, f.cls, cl) && CheckAccess(w, c, cl, f.flags);
        assert MethodVisits(w, t, m, cl);
      }
    }
  }

  /** So the same holds of methods outside the vtable, flag by flag. */
  lemma MethodIff(w: World, context: Class, m: Method)
    requires m.idx == -1 && context != m.cls
    ensures var same, below := SamePackage(w.info(context), w.info(m.cls)), w.subclass(m.cls, context);
      && (IsPublic(m.flags) ==>
            (MethodAccess(w, context, m.cls, m) <==> IsPublic(w.info(m.cls).flags) || below || same))
      && (OnlyProtected(m.flags) ==> (MethodAccess(w, context, m.cls, m) <==> below || same))
      && (NoProtection(m.flags) ==> (MethodAccess(w, context, m.cls, m) <==> same))
      && (OnlyPrivate(m.flags) ==> !MethodAccess(w, context, m.cls, m))
  {
    var f := Field(m.cls, m.flags);
    MethodAsField(w, context, m.cls, m);
    if IsPublic(f.flags) { PublicFieldIff(w, context, f); }
    if OnlyProtected(f.flags) { ProtectedFieldIff(w, context, f); }
    if NoProtection(f.flags) { PackageFieldIff(w, context, f); }
    if OnlyPrivate(f.flags) { PrivateFieldIff(w, context, f.cls, f); }
  }

  /** A private method outside the vtable is open to its own class alone, and only through it. */
  lemma PrivateMethodIff(w: World, context: Class, target: Class, m: Method)
    requires OnlyPrivate(m.flags) && m.idx == -1
    ensures MethodAccess(w, context, target, m) <==> context == target == m.cls
  {
    MethodAsField(w, context, target, m);
    PrivateFieldIff(w, context, target, Field(m.cls, m.flags));
  }

  /** A public method of a public class is open to everyone through every public class. */
  lemma PublicMethodOpen(w: World, context: Class, target: Class, m: Method)
    requires IsPublic(m.flags) && Acyclic(w.supers)
    requires IsPublic(w.info(target).flags) && IsPublic(w.info(m.cls).flags)
    ensures MethodAccess(w, context, target, m)
  {
    FlagBits(m.flags);
    StartVisited(w, target, m);
    StartVisited(w, m.cls, m);
  }

  /** A virtual method is open to a subclass of any class that overrides or declares it, at or above the
      target, when it is protected. */
  lemma InheritedProtected(w: World, context: Class, target: Class, m: Method, cl: Class)
    requires m.idx != -1 && OnlyProtected(m.flags) && target == m.cls
    requires Reaches(w.supers, target, cl) && Declares(w, cl, m.idx) && w.subclass(cl, context)
    ensures MethodAccess(w, context, target, m)
  {
    FlagBits(m.flags);
    ReachesSelf(w.supers, cl);
    assert DeclaredFrom(w, cl, m.idx);
    assert MethodVisits(w, target, m, cl);
  }

  /** A public method of a class that is not public becomes open to everyone through a public subclass. */
  lemma InheritedPublic(w: World, context: Class, target: Class, m: Method)
    requires IsPublic(m.flags) && IsPublic(w.info(target).flags) && w.subclass(m.cls, target) && Acyclic(w.supers)
    ensures MethodAccess(w, context, target, m)
  {
    FlagBits(m.flags);
    StartVisited(w, target, m);
    StartVisited(w, m.cls, m);
  }

  /** A virtual method that is not private is open to the package of any class at or above its own that
      declares the slot, though it be overridden in another package. */
  lemma InheritedByPackage(w: World, context: Class, m: Method, cl: Class)
    requires m.idx != -1 && (NoProtection(m.flags) || OnlyProtected(m.flags))
    requires Reaches(w.supers, m.cls, cl) && Declares(w, cl, m.idx) && SamePackage(w.info(context), w.info(cl))
    ensures MethodAccess(w, context, m.cls, m)
  {
    FlagBits(m.flags);
    ReachesSelf(w.supers, cl);
    assert DeclaredFrom(w, cl, m.idx);
    assert MethodVisits(w, m.cls, m, cl);
  }
}
