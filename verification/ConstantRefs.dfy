/** String references over a read of the constant pool. */
module ConstantRefs {
  import opened ConstantPool

  /** How many slots point to s. */
  function Pointers(data: seq<Slot>, s: seq<Byte>): nat {
    if data == [] then 0 else (if data[0] == Utf(s) then 1 else 0) + Pointers(data[1..], s)
  }

  lemma {:induction false} PointersConcat(xs: seq<Slot>, ys: seq<Slot>, s: seq<Byte>)
    ensures Pointers(xs + ys, s) == Pointers(xs, s) + Pointers(ys, s)
  {
    if xs == [] {
      assert xs + ys == ys;
    } else {
      assert (xs + ys)[1..] == xs[1..] + ys;
      PointersConcat(xs[1..], ys, s);
    }
  }

  lemma {:induction false} PointersUpdate(data: seq<Slot>, i: nat, x: Slot, s: seq<Byte>)
    requires i < |data|
    ensures Pointers(data[i := x], s)
         == Pointers(data, s) - (if data[i] == Utf(s) then 1 else 0) + if x == Utf(s) then 1 else 0
  {
    if i == 0 {
      assert data[i := x][1..] == data[1..];
    } else {
      assert data[i := x][1..] == data[1..][i - 1 := x];
      PointersUpdate(data[1..], i - 1, x, s);
    }
  }

  /** In the first pass only Utf8 slots point to strings. */
  ghost predicate OnlyUtf8Points(p: Progress) {
    |p.data| == |p.tags| && forall i :: 0 <= i < |p.data| && p.data[i].Utf? ==> p.tags[i] == UTF8
  }

  /** Every pointer in the pool owns one reference on top of those there were before. */
  ghost predicate Owns(p: Progress, before: multiset<seq<Byte>>, s: seq<Byte>) {
    p.refs[s] == before[s] + Pointers(p.data, s)
  }

  lemma {:induction false} WordsPointNowhere(data: seq<Slot>, s: seq<Byte>)
    requires forall i :: 0 <= i < |data| ==> data[i].Word?
    ensures Pointers(data, s) == 0
  {
    if data != [] {
      WordsPointNowhere(data[1..], s);
    }
  }

  /** A constant read adds one string and its reference, or only numbers. */
  lemma ReadOneAdds(cfg: Config, bytes: seq<Byte>, size: nat, p: Progress) returns (new_: seq<Slot>)
    requires |p.data| == |p.tags| && ReadOne(cfg, bytes, size, p).Next?
    ensures var q := ReadOne(cfg, bytes, size, p).p;
      && q.data == p.data + new_ && |q.tags| == |q.data| && q.tags[..|p.tags|] == p.tags
      && if q.tags[|p.tags|] == UTF8
         then new_ == [q.data[|p.data|]] && new_[0].Utf? && q.refs == p.refs + multiset{new_[0].s}
         else q.refs == p.refs && forall i :: 0 <= i < |new_| ==> new_[i].Word?
  {
    new_ := ReadOne(cfg, bytes, size, p).p.data[|p.data|..];
  }

  lemma ReadOneOwns(cfg: Config, bytes: seq<Byte>, size: nat, p: Progress, before: multiset<seq<Byte>>, s: seq<Byte>)
    requires OnlyUtf8Points(p) && Owns(p, before, s) && ReadOne(cfg, bytes, size, p).Next?
    ensures var q := ReadOne(cfg, bytes, size, p).p; OnlyUtf8Points(q) && Owns(q, before, s)
  {
    var q := ReadOne(cfg, bytes, size, p).p;
    var new_ := ReadOneAdds(cfg, bytes, size, p);
    PointersConcat(p.data, new_, s);
    if q.tags[|p.tags|] == UTF8 {
      assert new_[1..] == [];
    } else {
      WordsPointNowhere(new_, s);
    }
    forall i | 0 <= i < |q.data| && q.data[i].Utf?
      ensures q.tags[i] == UTF8
    {
      if i < |p.data| {
        assert q.tags[i] == p.tags[i];
      } else {
        assert q.data[i] == new_[i - |p.data|];
      }
    }
  }

  lemma {:induction false} FirstPassOwns(cfg: Config, bytes: seq<Byte>, size: nat, p: Progress,
                                         before: multiset<seq<Byte>>, s: seq<Byte>)
    requires Shaped(p, size) && OnlyUtf8Points(p) && Owns(p, before, s)
    ensures var r := FirstPass(cfg, bytes, size, p); !r.Overran? ==> OnlyUtf8Points(r.p) && Owns(r.p, before, s)
    decreases size - |p.tags|
  {
    if |p.tags| < size && ReadOne(cfg, bytes, size, p).Next? {
      ReadOneOwns(cfg, bytes, size, p, before, s);
      FirstPassOwns(cfg, bytes, size, ReadOne(cfg, bytes, size, p).p, before, s);
    }
  }

  /** The failure path gives back one reference per pointer. */
  lemma {:induction false} ReleaseGivesBack(tags: seq<nat>, data: seq<Slot>, refs: multiset<seq<Byte>>, s: seq<Byte>)
    requires |data| == |tags| && forall i :: 0 <= i < |tags| ==> (tags[i] == UTF8 <==> data[i].Utf?)
    requires refs[s] >= Pointers(data, s)
    ensures Release(tags, data, refs)[s] == refs[s] - Pointers(data, s)
  {
    if tags != [] {
      var refs' := if tags[0] == UTF8 then refs - multiset{data[0].s} else refs;
      ReleaseGivesBack(tags[1..], data[1..], refs', s);
    }
  }

  lemma {:induction false} SecondPassOwns(p: Progress, size: nat, i: nat, before: multiset<seq<Byte>>, s: seq<Byte>)
    requires Pending(p, size, i) && size <= |p.tags| && Owns(p, before, s)
    ensures Owns(SecondPass(p, size, i), before, s)
    decreases |p.tags| - i
  {
    if i < |p.tags| {
      var q := Resolve(p, size, i);
      if p.tags[i] == CLASS || p.tags[i] == STRING {
        PointersUpdate(p.data, i, p.data[LowHalf(p.data[i].n)], s);
      }
      SecondPassOwns(q, size, i + 1, before, s);
    }
  }

  /** Of every string, a failed read gives back exactly the references it took, and a successful
      one keeps one for each slot that ends up pointing to it. */
  lemma ReferencesBalance(cfg: Config, bytes: seq<Byte>, before: multiset<seq<Byte>>)
    ensures match ReadPool(cfg, bytes, before)
      case Failure(refs) => refs == before
      case Done(p) => forall s :: p.refs[s] == before[s] + Pointers(p.data, s)
      case _ => true
  {
    var r := ReadPool(cfg, bytes, before);
    if r.Failure? || r.Done? {
      var size := U2(bytes, 0);
      var first := FirstPass(cfg, bytes, size, Start(before));
      forall s
        ensures r.Failure? ==> r.refs[s] == before[s]
        ensures r.Done? ==> r.p.refs[s] == before[s] + Pointers(r.p.data, s)
      {
        FirstPassOwns(cfg, bytes, size, Start(before), before, s);
        if first.Failed? {
          ReleaseGivesBack(first.p.tags, first.p.data, first.p.refs, s);
        } else {
          SecondPassOwns(first.p, size, 1, before, s);
        }
      }
    }
  }
}
