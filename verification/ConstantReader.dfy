/** The reader itself: two passes over the slot and tag arrays, in place. */
module ConstantReader {
  import opened ConstantPool
  import opened ConstantInputs

  /** How a read ends: well, with an error posted, or at a write past the end of the arrays, which the
      code goes on to make and where the model stops. */
  datatype Status = Fine | Bad | PastEnd

  class Reader {
    const cfg: Config
    const bytes: seq<Byte>
    // the file cursor
    var cur: nat
    // what the class's constants record holds
    var size: nat
    var tags: array<nat>
    var data: array<Slot>
    // references held on interned strings
    var refs: multiset<seq<Byte>>

    constructor (cfg: Config, bytes: seq<Byte>, refs: multiset<seq<Byte>>)
      ensures this.cfg == cfg && this.bytes == bytes && this.refs == refs && cur == 0
    {
      this.cfg, this.bytes, this.refs, cur, size := cfg, bytes, refs, 0, 0;
      tags, data := new nat[0], new Slot[0];
    }

    /** The first `i` slots, as the specification sees them. */
    ghost function Upto(i: nat): Progress
      reads this, tags, data
      requires i <= tags.Length && i <= data.Length
    {
      Progress(cur, tags[..i], data[..i], refs)
    }

    ghost predicate Allocated()
      reads this
    {
      tags.Length == data.Length == size && tags as object != data as object
    }

    method Put(i: nat, used: nat, slot: Slot)
      requires Allocated() && i < size
      modifies this`cur, data
      ensures tags[..i + 1] == old(tags[..i]) + [tags[i]] && data[..i + 1] == old(data[..i]) + [slot]
      ensures cur == old(cur) + used
    {
      data[i] := slot;
      cur := cur + used;
    }

    /** A long or double: the words, then the unusable slot behind them. */
    method PutWide(i: nat, first: nat, second: nat)
      requires Allocated() && i + 1 < size
      modifies this`cur, data, tags
      ensures tags[..i + 2] == old(tags[..i]) + [old(tags[i]), UNKNOWN]
      ensures data[..i + 2] == old(data[..i]) + WideSlots(cfg, first, second)
      ensures cur == old(cur) + 8
    {
      if cfg.ptr64 {
        data[i] := Word(WordsToLong(first, second));
        data[i + 1] := Word(0);
      } else {
        data[i] := Word(first);
        data[i + 1] := Word(second);
      }
      tags[i + 1] := UNKNOWN;
      cur := cur + 8;
    }

    /** The body of a Utf8 constant, cursor behind its tag. */
    method ReadUtf8(i: nat) returns (ok: bool)
      requires Allocated() && i < size && tags[i] == UTF8 && 1 <= cur <= |bytes| && bytes[cur - 1] == UTF8
      modifies this`cur, this`refs, data
      ensures var r := old(ReadOne(cfg, bytes, size, Upto(i).(pos := cur - 1)));
              if ok then r == Next(Upto(i + 1)) else r.Fail? && Upto(i) == old(Upto(i)).(pos := cur)
    {
      ok := false;
      if |bytes| < cur + 2 { return; }
      var len := U2(bytes, cur);
      cur := cur + 2;
      if |bytes| < cur + len { return; }
      var str := bytes[cur..cur + len];
      if !cfg.valid(str) { return; }
      refs := refs + multiset{str};
      Put(i, len, Utf(str));
      ok := true;
    }

    /** The body of a long or double, cursor behind its tag. */
    method ReadWide(i: nat) returns (st: Status)
      requires Allocated() && i < size && (tags[i] == LONG || tags[i] == DOUBLE) && 1 <= cur <= |bytes|
      requires bytes[cur - 1] == tags[i]
      modifies this`cur, tags, data
      ensures var r := old(ReadOne(cfg, bytes, size, Upto(i).(pos := cur - 1)));
        match st
        case Fine => i + 2 <= size && r == Next(Upto(i + 2))
        case Bad => r.Fail? && Upto(i) == old(Upto(i)).(pos := cur)
        case PastEnd => r.Overrun?
    {
      if |bytes| < cur + 8 { return Bad; }
      var d4, d4b := U4(bytes, cur), U4(bytes, cur + 4);
      if i + 1 == size { return PastEnd; }
      if tags[i] == DOUBLE && cfg.swapDouble {
        PutWide(i, d4b, d4);
      } else {
        PutWide(i, d4, d4b);
      }
      return Fine;
    }

    /** Any other body, cursor behind its tag. */
    method ReadPlain(i: nat) returns (ok: bool)
      requires Allocated() && i < size && 1 <= cur <= |bytes| && bytes[cur - 1] == tags[i]
      requires tags[i] != UTF8 && tags[i] != LONG && tags[i] != DOUBLE
      modifies this`cur, data
      ensures var r := old(ReadOne(cfg, bytes, size, Upto(i).(pos := cur - 1)));
              if ok then r == Next(Upto(i + 1)) else r.Fail? && Upto(i) == old(Upto(i)).(pos := cur)
    {
      ok := false;
      var type_ := tags[i];
      if type_ == CLASS || type_ == STRING {
        if |bytes| < cur + 2 { return; }
        var d2 := U2(bytes, cur);
        if d2 == 0 || d2 >= size { cur := cur + 2; return; }
        Put(i, 2, Word(d2));
      } else if type_ == FIELDREF || type_ == METHODREF || type_ == INTERFACEMETHODREF || type_ == NAMEANDTYPE {
        if |bytes| < cur + 4 { return; }
        var d2, d2b := U2(bytes, cur), U2(bytes, cur + 2);
        Put(i, 4, Word(Pack(cfg, d2, d2b)));
      } else if type_ == INTEGER || type_ == FLOAT {
        if |bytes| < cur + 4 { return; }
        Put(i, 4, Word(U4(bytes, cur)));
      } else {
        return;
      }
      ok := true;
    }

    /** One turn of the first loop. `next` is the slot of the next turn. */
    method ReadEntry(i: nat) returns (st: Status, next: nat)
      requires Allocated() && i < size
      modifies this`cur, this`refs, tags, data
      ensures var r := old(ReadOne(cfg, bytes, size, Upto(i)));
        match st
        case Fine => i < next <= size && r == Next(Upto(next))
        case Bad => r.Fail? && next == i && Upto(i) == old(Upto(i)).(pos := cur)
        case PastEnd => r.Overrun?
    {
      st, next := Bad, i;
      if |bytes| < cur + 1 { return; }
      var type_ := bytes[cur];
      cur := cur + 1;
      tags[i] := type_;
      if type_ == LONG || type_ == DOUBLE {
        st := ReadWide(i);
        if st == Fine { next := i + 2; }
        return;
      }
      var ok;
      if type_ == UTF8 { ok := ReadUtf8(i); } else { ok := ReadPlain(i); }
      if ok { st, next := Fine, i + 1; }
    }

    /** The first loop: fill every slot, or stop at the first constant that does not parse. */
    method FillSlots() returns (st: Status, i: nat)
      requires Allocated() && 0 < size < 0x1_0000 && tags[0] == UNKNOWN && data[0] == Word(0)
      modifies this`cur, this`refs, tags, data
      ensures i <= size && (st.Fine? ==> i == size)
      ensures var r := old(FirstPass(cfg, bytes, size, Upto(1)));
        match st
        case Fine => r == Filled(Upto(size))
        case Bad => r.Failed? && r.p == Upto(i).(pos := r.p.pos)
        case PastEnd => r.Overran?
    {
      i, st := 1, Fine;
      ghost var was := FirstPass(cfg, bytes, size, Upto(1));
      while i < size
        invariant Allocated() && i <= size && Shaped(Upto(i), size) && st == Fine
        invariant FirstPass(cfg, bytes, size, Upto(i)) == was
      {
        st, i := ReadEntry(i);
        if st != Fine { return st, if st == Bad then i else 0; }
      }
    }

    /** The failure path: give back the references of the first `i` slots. */
    method ReleaseSlots(i: nat)
      requires i <= tags.Length == data.Length
      requires forall k :: 0 <= k < i && tags[k] == UTF8 ==> data[k].Utf?
      modifies this`size, this`refs
      ensures size == 0 && refs == old(Release(tags[..i], data[..i], refs))
    {
      ghost var t, d := tags[..i], data[..i];
      ghost var was := Release(t, d, refs);
      assert t[0..] == t && d[0..] == d;
      size := 0;
      var j := 0;
      while j < i
        invariant j <= i && size == 0
        invariant Release(t[j..], d[j..], refs) == was
      {
        assert t[j..][1..] == t[j + 1..] && d[j..][1..] == d[j + 1..];
        if tags[j] == UTF8 {
          refs := refs - multiset{data[j].s};
        }
        j := j + 1;
      }
    }

    /** One turn of the second loop. */
    method PointAtName(i: nat)
      requires Allocated() && i < size && Pending(Upto(size), size, i)
      modifies this`refs, tags, data
      ensures Upto(size) == old(Resolve(Upto(size), size, i))
    {
      if tags[i] == CLASS || tags[i] == STRING {
        var j := LowHalf(data[i].n);
        assert j < size;
        if tags[j] == UTF8 {
          data[i] := data[j];
          refs := refs + multiset{data[j].s};
        } else {
          tags[i] := ERROR;
        }
      }
    }

    /** The second loop: class and string slots come to point at their names. */
    method PointAtNames()
      requires Allocated() && 0 < size && Pending(Upto(size), size, 1)
      modifies this`refs, tags, data
      ensures Upto(size) == old(SecondPass(Upto(size), size, 1))
    {
      var i := 1;
      while i < size
        invariant Allocated() && i <= size && Pending(Upto(size), size, i)
        invariant SecondPass(Upto(size), size, i) == old(SecondPass(Upto(size), size, 1))
      {
        ghost var p := Upto(size);
        PointAtName(i);
        assert SecondPass(p, size, i) == SecondPass(Resolve(p, size, i), size, i + 1);
        i := i + 1;
      }
    }

    method Allocate(poolsize: nat)
      requires poolsize > 0
      modifies this`size, this`tags, this`data
      ensures Allocated() && size == poolsize && fresh(tags) && fresh(data)
      ensures tags[..1] == [UNKNOWN] && data[..1] == [Word(0)]
    {
      tags, data, size := new nat[poolsize], new Slot[poolsize], poolsize;
      data[0] := Word(0);
      tags[0] := UNKNOWN;
    }

    /** Both passes, from slot one. */
    method ReadSlots() returns (st: Status)
      requires Allocated() && 0 < size < 0x1_0000 && tags[..1] == [UNKNOWN] && data[..1] == [Word(0)]
      modifies this`cur, this`refs, this`size, tags, data
      ensures match old(FirstPass(cfg, bytes, size, Upto(1)))
        case Failed(p) => st == Bad && size == 0 && refs == Release(p.tags, p.data, p.refs)
        case Filled(p) => st == Fine && size == old(size) && Upto(size) == SecondPass(p, size, 1)
        case Overran => st == PastEnd
    {
      assert tags[..1][0] == UNKNOWN && data[..1][0] == Word(0);
      var i;
      st, i := FillSlots();
      if st == Fine {
        PointAtNames();
      } else if st == Bad {
        ReleaseSlots(i);
      }
    }

    /** The whole read, on any input. It ends well exactly on serialisations, and past its arrays
        exactly on inputs that declare no slot or start a long or double in the last one. */
    method ReadConstantPool() returns (st: Status)
      requires cur == 0
      modifies this
      ensures st == Fine <==> BeginsWithPool(cfg, bytes)
      ensures st == PastEnd <==> BeginsWithOverrun(cfg, bytes)
      ensures match old(ReadPool(cfg, bytes, refs))
        case NoCount => st == Bad && unchanged(this)
        case Failure(left) => st == Bad && size == 0 && refs == left
        case Done(p) => st == Fine && Allocated() && Upto(size) == p
        case OutOfBounds => st == PastEnd
    {
      AcceptsIff(cfg, bytes, refs);
      OutOfBoundsIff(cfg, bytes, refs);
      if |bytes| < cur + 2 { return Bad; }
      var poolsize := U2(bytes, cur);
      cur := cur + 2;
      if poolsize == 0 { return PastEnd; }
      Allocate(poolsize);
      assert Upto(1) == Start(refs);
      st := ReadSlots();
    }
  }
}
