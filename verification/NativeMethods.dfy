/** The native methods of one class, in the order their prototypes are printed, and their symbols. */
module NativeMethods {
  import opened AccessFlags
  import opened Mangling

  datatype Decl = Decl(name: string, sig: string, flags: nat)

  /** `mangled` says that the symbol needs the argument descriptor. */
  datatype Method = Method(decl: Decl, mangled: bool)

  // ----- insertion -----

  /** The first method of this name, or the length. */
  function FirstNamed(ms: seq<Method>, name: string): (k: nat)
    ensures k <= |ms| && (k < |ms| ==> ms[k].decl.name == name)
    ensures forall i :: 0 <= i < k ==> ms[i].decl.name != name
  {
    if ms == [] || ms[0].decl.name == name then 0 else 1 + FirstNamed(ms[1..], name)
  }

  /** Behind the first method of the same name, marking both; or at the end. */
  function Insert(ms: seq<Method>, d: Decl): seq<Method> {
    var k := FirstNamed(ms, d.name);
    if k < |ms| then ms[..k] + [ms[k].(mangled := true), Method(d, true)] + ms[k + 1..]
    else ms + [Method(d, false)]
  }

  function Add(ms: seq<Method>, d: Decl): seq<Method> {
    if HasFlag(d.flags, ACC_NATIVE) then Insert(ms, d) else ms
  }

  function Build(ds: seq<Decl>): seq<Method> {
    if ds == [] then [] else Add(Build(ds[..|ds| - 1]), ds[|ds| - 1])
  }

  // ----- what every sequence of insertions leaves -----

  predicate SameName(ms: seq<Method>, i: nat, j: nat)
    requires i < |ms| && j < |ms|
  {
    ms[i].decl.name == ms[j].decl.name
  }

  /** Methods of one name stand together. */
  predicate Grouped(ms: seq<Method>) {
    forall i, k, j :: 0 <= i < k < j < |ms| && SameName(ms, i, j) ==> SameName(ms, i, k)
  }

  /** A method is marked exactly when another one has its name. */
  ghost predicate Marked(ms: seq<Method>) {
    forall i :: 0 <= i < |ms| ==> (ms[i].mangled <==> Shared(ms, i))
  }

  function Decls(ms: seq<Method>): seq<Decl> {
    seq(|ms|, i requires 0 <= i < |ms| => ms[i].decl)
  }

  function Natives(ds: seq<Decl>): seq<Decl> {
    if ds == [] then []
    else
      var d := ds[|ds| - 1];
      Natives(ds[..|ds| - 1]) + if d.flags / 0x100 % 2 == 1 then [d] else []
  }

  /** Where a method stands after an insertion behind place `k`. */
  function Old(i: nat, k: nat): nat {
    if i <= k + 1 then (if i == k + 1 then k else i) else i - 1
  }

  /** The sequence after an insertion behind place `k`. */
  predicate Spread(ms: seq<Method>, r: seq<Method>, k: nat) {
    && k < |ms| && |r| == |ms| + 1 && r[k].mangled && r[k + 1].mangled
    && (forall i :: 0 <= i < |r| ==> r[i].decl.name == ms[Old(i, k)].decl.name)
    && (forall i :: 0 <= i < |r| && i != k && i != k + 1 ==> r[i] == ms[Old(i, k)])
  }

  lemma InsertShape(ms: seq<Method>, d: Decl)
    requires FirstNamed(ms, d.name) < |ms|
    ensures Spread(ms, Insert(ms, d), FirstNamed(ms, d.name))
  {
    var k := FirstNamed(ms, d.name);
    SpreadAt(ms, k, ms[k].(mangled := true), Method(d, true));
  }

  lemma SpreadAt(ms: seq<Method>, k: nat, a: Method, b: Method)
    requires k < |ms| && a.mangled && b.mangled && a.decl.name == b.decl.name == ms[k].decl.name
    ensures Spread(ms, ms[..k] + [a, b] + ms[k + 1..], k)
  {
    var r := ms[..k] + [a, b] + ms[k + 1..];
    assert r[k] == a && r[k + 1] == b;
    assert forall i :: 0 <= i < k ==> r[i] == ms[i];
    forall i | k + 1 < i < |r| ensures r[i] == ms[i - 1] {
      assert r[i] == ms[k + 1..][i - k - 2];
    }
  }

  lemma InsertKeepsGrouped(ms: seq<Method>, d: Decl)
    requires Grouped(ms)
    ensures Grouped(Insert(ms, d))
  {
    var k, r := FirstNamed(ms, d.name), Insert(ms, d);
    if k < |ms| {
      InsertShape(ms, d);
      forall i, m, j | 0 <= i < m < j < |r| && SameName(r, i, j) ensures SameName(r, i, m) {
        assert SameName(ms, Old(i, k), Old(j, k));
        assert Old(i, k) < Old(m, k) < Old(j, k) ==> SameName(ms, Old(i, k), Old(m, k));
      }
    } else {
      forall i, m, j | 0 <= i < m < j < |r| && SameName(r, i, j) ensures SameName(r, i, m) {
        assert r[i] == ms[i] && r[m] == ms[m];
        if j < |ms| {
          assert r[j] == ms[j] && SameName(ms, i, j);
          assert SameName(ms, i, m);
        }
      }
    }
  }

  ghost predicate Shared(ms: seq<Method>, i: nat)
    requires i < |ms|
  {
    exists j :: 0 <= j < |ms| && j != i && SameName(ms, i, j)
  }

  lemma SharedAt(ms: seq<Method>, r: seq<Method>, k: nat, i: nat)
    requires Spread(ms, r, k) && i < |r| && i != k && i != k + 1
    ensures Shared(r, i) <==> Shared(ms, Old(i, k))
  {
    var o := Old(i, k);
    if Shared(ms, o) {
      var j :| 0 <= j < |ms| && j != o && SameName(ms, o, j);
      assert SameName(r, i, if j <= k then j else j + 1);
    }
    if Shared(r, i) {
      var j :| 0 <= j < |r| && j != i && SameName(r, i, j);
      assert SameName(ms, o, Old(j, k));
    }
  }

  lemma MarkedAt(ms: seq<Method>, r: seq<Method>, k: nat, i: nat)
    requires Marked(ms) && Spread(ms, r, k) && i < |r|
    ensures r[i].mangled <==> Shared(r, i)
  {
    if i == k {
      assert SameName(r, i, k + 1);
    } else if i == k + 1 {
      assert SameName(r, i, k);
    } else {
      SharedAt(ms, r, k, i);
    }
  }

  lemma InsertKeepsMarked(ms: seq<Method>, d: Decl)
    requires Marked(ms)
    ensures Marked(Insert(ms, d))
  {
    var k, r := FirstNamed(ms, d.name), Insert(ms, d);
    if k < |ms| {
      InsertShape(ms, d);
      forall i | 0 <= i < |r| ensures r[i].mangled <==> Shared(r, i) {
        MarkedAt(ms, r, k, i);
      }
    } else {
      forall i | 0 <= i < |r| ensures r[i].mangled <==> Shared(r, i) {
        AppendedAt(ms, d, i);
      }
    }
  }

  lemma AppendedAt(ms: seq<Method>, d: Decl, i: nat)
    requires Marked(ms) && FirstNamed(ms, d.name) == |ms| && i <= |ms|
    ensures var r := ms + [Method(d, false)]; r[i].mangled <==> Shared(r, i)
  {
    var r := ms + [Method(d, false)];
    assert forall j :: 0 <= j < |ms| ==> r[j] == ms[j] && !SameName(r, j, |ms|);
    if i < |ms| && Shared(ms, i) {
      var j :| 0 <= j < |ms| && j != i && SameName(ms, i, j);
      assert SameName(r, i, j);
    }
    if Shared(r, i) {
      var j :| 0 <= j < |r| && j != i && SameName(r, i, j);
      assert SameName(r, j, i);
      assert SameName(ms, i, j);
    }
  }

  lemma InsertAddsOne(ms: seq<Method>, d: Decl)
    ensures multiset(Decls(Insert(ms, d))) == multiset(Decls(ms)) + multiset{d}
  {
    var k := FirstNamed(ms, d.name);
    var all := Decls(ms);
    if k < |ms| {
      assert Decls(Insert(ms, d)) == all[..k + 1] + [d] + all[k + 1..];
      assert all == all[..k + 1] + all[k + 1..];
    } else {
      assert Decls(Insert(ms, d)) == all + [d];
    }
  }

  /** After any sequence of insertions every native method is held once, equal names stand together,
      and exactly the overloaded ones are marked. */
  lemma {:induction false} BuildIsOrderly(ds: seq<Decl>)
    ensures Grouped(Build(ds)) && Marked(Build(ds))
    ensures multiset(Decls(Build(ds))) == multiset(Natives(ds))
  {
    if ds != [] {
      var was, d := ds[..|ds| - 1], ds[|ds| - 1];
      BuildIsOrderly(was);
      if HasFlag(d.flags, ACC_NATIVE) {
        InsertKeepsGrouped(Build(was), d);
        InsertKeepsMarked(Build(was), d);
        InsertAddsOne(Build(was), d);
      }
    }
  }

  /** An insertion leaves the others in their order; the new method stands right behind the first of its
      name, or at the end if there is none. */
  lemma InsertPlace(ms: seq<Method>, d: Decl) returns (k: nat)
    ensures k <= |ms| && Decls(Insert(ms, d)) == Decls(ms)[..k] + [d] + Decls(ms)[k..]
    ensures (forall i :: 0 <= i < k - 1 ==> ms[i].decl.name != d.name) &&
      if k > 0 && ms[k - 1].decl.name == d.name then true
      else k == |ms| && forall i :: 0 <= i < |ms| ==> ms[i].decl.name != d.name
  {
    var first := FirstNamed(ms, d.name);
    k := if first < |ms| then first + 1 else first;
    var all := Decls(ms);
    assert Decls(Insert(ms, d)) == all[..k] + [d] + all[k..];
  }

  // ----- symbols -----

  /** The argument part of a descriptor. */
  function ArgText(sig: string): string {
    if sig == "" then "" else UpToParen(sig[1..])
  }

  function Tail(m: Method): string {
    if m.mangled then "__" + Escape(ArgText(m.decl.sig)) else ""
  }

  function Symbol(cls: string, m: Method): string {
    "Java_" + cls + "_" + (Escape(UpToParen(m.decl.name)) + Tail(m))
  }

  lemma {:induction false} NameUpToParen(name: string)
    requires Unqualified(name)
    ensures UpToParen(name) == name
  {
    if name != "" {
      assert forall i :: 0 <= i < |name| - 1 ==> name[1..][i] == name[i + 1];
      NameUpToParen(name[1..]);
    }
  }

  /** Two symbols of one class agree in the parts behind the class name. */
  lemma SymbolParts(cls: string, a: Method, b: Method)
    requires Unqualified(a.decl.name) && Unqualified(b.decl.name)
    ensures Symbol(cls, a) == Symbol(cls, b) <==> a.decl.name == b.decl.name && Tail(a) == Tail(b)
  {
    var p := "Java_" + cls + "_";
    var x, y := Escape(a.decl.name) + Tail(a), Escape(b.decl.name) + Tail(b);
    NameUpToParen(a.decl.name);
    NameUpToParen(b.decl.name);
    assert (p + x)[|p|..] == x && (p + y)[|p|..] == y;
    if x == y {
      NameEndsAtSeparator(a.decl.name, b.decl.name, Tail(a), Tail(b));
    }
  }

  /** Exactly when two native methods of a class are given the same symbol. */
  lemma SymbolsClashIff(cls: string, ds: seq<Decl>, i: nat, j: nat)
    requires i < |Build(ds)| && j < |Build(ds)| && i != j
    requires Unqualified(Build(ds)[i].decl.name) && Unqualified(Build(ds)[j].decl.name)
    ensures var a, b := Build(ds)[i], Build(ds)[j];
            Symbol(cls, a) == Symbol(cls, b) <==>
            a.decl.name == b.decl.name && Normal(ArgText(a.decl.sig)) == Normal(ArgText(b.decl.sig))
  {
    var ms := Build(ds);
    var a, b := ms[i], ms[j];
    BuildIsOrderly(ds);
    SymbolParts(cls, a, b);
    if a.decl.name == b.decl.name {
      assert SameName(ms, i, j) && SameName(ms, j, i);
      var p, x, y := "__", Escape(ArgText(a.decl.sig)), Escape(ArgText(b.decl.sig));
      assert Tail(a)[|p|..] == x && Tail(b)[|p|..] == y;
      EscapedAlikeIff(ArgText(a.decl.sig), ArgText(b.decl.sig));
    }
  }

  predicate SameKey(d: Decl, e: Decl) {
    d.name == e.name && ArgText(d.sig) == ArgText(e.sig)
  }

  predicate KeysDistinct(ds: seq<Decl>) {
    forall i, j :: 0 <= i < j < |ds| ==> !SameKey(ds[i], ds[j])
  }

  lemma KeysWith(a: seq<Decl>, b: seq<Decl>, d: Decl)
    requires KeysDistinct(a + b) && forall i :: 0 <= i < |a + b| ==> !SameKey((a + b)[i], d)
    ensures KeysDistinct(a + [d] + b)
  {
    var all, r := a + b, a + [d] + b;
    forall i, j | 0 <= i < j < |r| ensures !SameKey(r[i], r[j]) {
      var x, y := if i <= |a| then i else i - 1, if j <= |a| then j else j - 1;
      assert i != |a| ==> r[i] == all[x];
      assert j != |a| ==> r[j] == all[y];
    }
  }

  lemma InsertKeepsKeys(ms: seq<Method>, d: Decl)
    requires KeysDistinct(Decls(ms)) && forall i :: 0 <= i < |ms| ==> !SameKey(ms[i].decl, d)
    ensures KeysDistinct(Decls(Insert(ms, d)))
  {
    var all := Decls(ms);
    var k := FirstNamed(ms, d.name);
    var n := if k < |ms| then k + 1 else k;
    var a, b := all[..n], all[n..];
    assert a + b == all;
    assert Decls(Insert(ms, d)) == a + [d] + b;
    KeysWith(a, b, d);
  }

  lemma {:induction false} BuildKeepsKeys(ds: seq<Decl>)
    requires KeysDistinct(Natives(ds))
    ensures KeysDistinct(Decls(Build(ds)))
  {
    if ds != [] {
      var was, d := ds[..|ds| - 1], ds[|ds| - 1];
      var old_ := Natives(was);
      if HasFlag(d.flags, ACC_NATIVE) {
        assert Natives(ds) == old_ + [d];
        assert forall i :: 0 <= i < |old_| ==> Natives(ds)[i] == old_[i] && Natives(ds)[|old_|] == d;
        BuildKeepsKeys(was);
        BuildIsOrderly(was);
        var ms := Build(was);
        forall i | 0 <= i < |ms| ensures !SameKey(ms[i].decl, d) {
          var e := Decls(ms)[i];
          assert e in multiset(Decls(ms));
          assert e in old_;
        }
        InsertKeepsKeys(Build(was), d);
      } else {
        assert Natives(ds) == old_;
        BuildKeepsKeys(was);
      }
    }
  }

  /** The symbols of one class are pairwise distinct when names and arguments tell the methods apart
      and no slash of a class name is followed by a digit. */
  lemma SymbolsDistinct(cls: string, ds: seq<Decl>, i: nat, j: nat)
    requires KeysDistinct(Natives(ds)) && i < j < |Build(ds)|
    requires forall d :: d in Natives(ds) ==> Unqualified(d.name) && NoSlashDigit(ArgText(d.sig))
    ensures Symbol(cls, Build(ds)[i]) != Symbol(cls, Build(ds)[j])
  {
    var all := Decls(Build(ds));
    BuildIsOrderly(ds);
    BuildKeepsKeys(ds);
    assert all[i] in multiset(all) && all[j] in multiset(all);
    assert all[i] in Natives(ds) && all[j] in Natives(ds);
    SymbolsClashIff(cls, ds, i, j);
    PlainIsNormal(ArgText(all[i].sig));
    PlainIsNormal(ArgText(all[j].sig));
  }

  lemma OverloadsClash(cls: string, d: Decl, e: Decl)
    requires d.name == e.name && Unqualified(d.name)
    requires HasFlag(d.flags, ACC_NATIVE) && HasFlag(e.flags, ACC_NATIVE)
    requires ArgText(d.sig) != ArgText(e.sig) && Normal(ArgText(d.sig)) == Normal(ArgText(e.sig))
    ensures KeysDistinct(Natives([d, e])) && |Build([d, e])| == 2
    ensures Symbol(cls, Build([d, e])[0]) == Symbol(cls, Build([d, e])[1])
  {
    TwoOverloads(d, e);
    SymbolsClashIff(cls, [d, e], 0, 1);
  }

  /** Without the condition on slashes two methods can share a symbol. */
  lemma SlashDigitClash(cls: string) returns (d: Decl, e: Decl)
    ensures d.name == e.name == "f" && d.sig == "(La/1;)V" && e.sig == "(La_;)V"
    ensures KeysDistinct(Natives([d, e])) && |Build([d, e])| == 2
    ensures Symbol(cls, Build([d, e])[0]) == Symbol(cls, Build([d, e])[1])
  {
    var s, t := ArgTexts();
    var f := "f";
    assert Unqualified(f);
    d, e := ClashOf(cls, f, s, t);
  }

  lemma ClashOf(cls: string, f: string, s: string, t: string) returns (d: Decl, e: Decl)
    requires Unqualified(f) && ArgText(s) != ArgText(t) && Normal(ArgText(s)) == Normal(ArgText(t))
    ensures d.name == e.name == f && d.sig == s && e.sig == t
    ensures KeysDistinct(Natives([d, e])) && |Build([d, e])| == 2
    ensures Symbol(cls, Build([d, e])[0]) == Symbol(cls, Build([d, e])[1])
  {
    d, e := Decl(f, s, ACC_NATIVE), Decl(f, t, ACC_NATIVE);
    OverloadsClash(cls, d, e);
  }

  lemma TwoOverloads(d: Decl, e: Decl)
    requires d.name == e.name && HasFlag(d.flags, ACC_NATIVE) && HasFlag(e.flags, ACC_NATIVE)
    ensures Natives([d, e]) == [d, e] && Build([d, e]) == [Method(d, true), Method(e, true)]
  {
    assert [d, e][..1] == [d] && [d][..0] == [];
    assert Build([d]) == [Method(d, false)] && Natives([d]) == [d];
  }

  lemma {:induction false} ArgTexts() returns (s: string, t: string)
    ensures s == "(La/1;)V" && t == "(La_;)V"
    ensures Normal(ArgText(s)) == Normal(ArgText(t)) && ArgText(s) != ArgText(t)
  {
    var a, b, ret := "La/1;", "La_;", "V";
    s, t := "(" + a + ")" + ret, "(" + b + ")" + ret;
    assert a[2] != b[2];
    ArgsOf(a, ret);
    ArgsOf(b, ret);
    SlashReadsAs(a, b);
  }

  lemma {:induction false} ArgsOf(a: string, ret: string)
    requires ')' !in a
    ensures ArgText("(" + a + ")" + ret) == a
  {
    assert ("(" + a + ")" + ret)[1..] == a + ")" + ret;
    FirstParen(a + ")" + ret, a, ret);
  }

  lemma {:induction false} SlashReadsAs(a: string, b: string)
    requires a == "La/1;" && b == "La_;"
    ensures Normal(a) == Normal(b)
  {
    assert a[1..] == "a/1;" && a[1..][1..] == "/1;" && b[1..] == "a_;" && b[1..][1..] == "_;";
    SlashOne();
    NormalCons(a[1..]);
    NormalCons(b[1..]);
    NormalCons(a);
    NormalCons(b);
  }

  lemma {:induction false} SlashOne()
    ensures Normal("/1;") == Normal("_;")
  {
    assert Begins("1;", CodeOf('_')) && "1;"[|CodeOf('_')|..] == ";" && "/1;"[1..] == "1;" && "_;"[1..] == ";";
  }

  lemma {:induction false} FirstParen(s: string, a: string, b: string)
    requires s == a + ")" + b && ')' !in a
    ensures UpToParen(s) == a
  {
    if a != "" {
      assert s[1..] == a[1..] + ")" + b;
      FirstParen(s[1..], a[1..], b);
    }
  }
}
