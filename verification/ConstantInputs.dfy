/** Which inputs the constant pool reader accepts, and on which it runs past its arrays, over all
    strings of bytes. */
module ConstantInputs {
  import opened ConstantPool
  import opened ConstantCodec

  // ----- what was read was written by someone -----

  lemma StandsJoin(bytes: seq<Byte>, pos: nat, e: seq<Byte>, f: seq<Byte>)
    requires Stands(bytes, pos, e) && Stands(bytes, pos + |e|, f)
    ensures Stands(bytes, pos, e + f)
  {
    assert bytes[pos..pos + |e + f|] == bytes[pos..pos + |e|] + bytes[pos + |e|..pos + |e| + |f|];
  }

  lemma U2Stands(bytes: seq<Byte>, pos: nat)
    requires pos + 2 <= |bytes|
    ensures Stands(bytes, pos, Enc2(U2(bytes, pos)))
  {
    var v := U2(bytes, pos);
    assert v / 256 == bytes[pos] && v % 256 == bytes[pos + 1];
    assert bytes[pos..pos + 2] == [bytes[pos], bytes[pos + 1]];
  }

  lemma U4Stands(bytes: seq<Byte>, pos: nat)
    requires pos + 4 <= |bytes|
    ensures Stands(bytes, pos, Enc4(U4(bytes, pos)))
  {
    var x, y := U2(bytes, pos), U2(bytes, pos + 2);
    U2Stands(bytes, pos);
    U2Stands(bytes, pos + 2);
    StandsJoin(bytes, pos, Enc2(x), Enc2(y));
    assert U4(bytes, pos) / 0x1_0000 == x && U4(bytes, pos) % 0x1_0000 == y;
  }

  lemma TwoU4Stand(bytes: seq<Byte>, pos: nat)
    requires pos + 8 <= |bytes|
    ensures Stands(bytes, pos, Enc4(U4(bytes, pos)) + Enc4(U4(bytes, pos + 4)))
  {
    U4Stands(bytes, pos);
    U4Stands(bytes, pos + 4);
    StandsJoin(bytes, pos, Enc4(U4(bytes, pos)), Enc4(U4(bytes, pos + 4)));
  }

  lemma StringStands(bytes: seq<Byte>, pos: nat, s: seq<Byte>)
    requires pos + 2 <= |bytes| && Stands(bytes, pos + 2, s) && |s| == U2(bytes, pos)
    ensures Stands(bytes, pos, Enc2(|s|) + s)
  {
    U2Stands(bytes, pos);
    StandsJoin(bytes, pos, Enc2(|s|), s);
  }

  lemma TagStands(bytes: seq<Byte>, pos: nat, rest: seq<Byte>)
    requires pos < |bytes| && Stands(bytes, pos + 1, rest)
    ensures Stands(bytes, pos, [bytes[pos]] + rest)
  {
    assert bytes[pos..pos + 1] == [bytes[pos]];
    StandsJoin(bytes, pos, [bytes[pos]], rest);
  }

  /** c is the constant that stands at pos. */
  ghost predicate IsAt(cfg: Config, bytes: seq<Byte>, size: nat, pos: nat, c: Const)
    requires size < 0x1_0000
  {
    Ok(cfg, c, size) && Stands(bytes, pos, Enc(cfg, c, size))
  }

  lemma DecodeUtf8(cfg: Config, bytes: seq<Byte>, size: nat, p: Progress) returns (c: Const)
    requires size < 0x1_0000 && p.pos < |bytes| && bytes[p.pos] == UTF8 && !ReadOne(cfg, bytes, size, p).Fail?
    ensures IsAt(cfg, bytes, size, p.pos, c)
  {
    var at := p.pos + 1;
    var len := U2(bytes, at);
    var s := bytes[at + 2..at + 2 + len];
    c := Utf8(s);
    StringStands(bytes, at, s);
    TagStands(bytes, p.pos, Enc2(|s|) + s);
  }

  lemma DecodeIndex(cfg: Config, bytes: seq<Byte>, size: nat, p: Progress) returns (c: Const)
    requires size < 0x1_0000 && p.pos < |bytes| && !ReadOne(cfg, bytes, size, p).Fail?
    requires bytes[p.pos] == CLASS || bytes[p.pos] == STRING
    ensures IsAt(cfg, bytes, size, p.pos, c)
  {
    var d := U2(bytes, p.pos + 1);
    c := if bytes[p.pos] == CLASS then Class(d) else Str(d);
    U2Stands(bytes, p.pos + 1);
    TagStands(bytes, p.pos, Enc2(d));
  }

  lemma DecodeNumber(cfg: Config, bytes: seq<Byte>, size: nat, p: Progress) returns (c: Const)
    requires size < 0x1_0000 && p.pos < |bytes| && !ReadOne(cfg, bytes, size, p).Fail?
    requires bytes[p.pos] == INTEGER || bytes[p.pos] == FLOAT
    ensures IsAt(cfg, bytes, size, p.pos, c)
  {
    var v := U4(bytes, p.pos + 1);
    c := if bytes[p.pos] == INTEGER then Integer(v) else Float(v);
    U4Stands(bytes, p.pos + 1);
    TagStands(bytes, p.pos, Enc4(v));
  }

  predicate PairTag(b: Byte) {
    b == FIELDREF || b == METHODREF || b == INTERFACEMETHODREF || b == NAMEANDTYPE
  }

  function PairConst(b: Byte, x: nat, y: nat): Const {
    if b == FIELDREF then Fieldref(x, y)
    else if b == METHODREF then Methodref(x, y)
    else if b == INTERFACEMETHODREF then InterfaceMethodref(x, y)
    else NameAndType(x, y)
  }

  lemma PairIsAt(cfg: Config, bytes: seq<Byte>, size: nat, pos: nat)
    requires size < 0x1_0000 && pos + 5 <= |bytes| && PairTag(bytes[pos])
    ensures IsAt(cfg, bytes, size, pos, PairConst(bytes[pos], U2(bytes, pos + 1), U2(bytes, pos + 3)))
  {
    var x, y := U2(bytes, pos + 1), U2(bytes, pos + 3);
    U2Stands(bytes, pos + 1);
    U2Stands(bytes, pos + 3);
    StandsJoin(bytes, pos + 1, Enc2(x), Enc2(y));
    TagStands(bytes, pos, Enc2(x) + Enc2(y));
  }

  lemma DecodePair(cfg: Config, bytes: seq<Byte>, size: nat, p: Progress) returns (c: Const)
    requires size < 0x1_0000 && p.pos < |bytes| && PairTag(bytes[p.pos]) && !ReadOne(cfg, bytes, size, p).Fail?
    ensures IsAt(cfg, bytes, size, p.pos, c)
  {
    PairIsAt(cfg, bytes, size, p.pos);
    c := PairConst(bytes[p.pos], U2(bytes, p.pos + 1), U2(bytes, p.pos + 3));
  }

  function WideConst(b: Byte, x: nat, y: nat): Const {
    if b == LONG then Long(x, y) else Double(x, y)
  }

  lemma WideIsAt(cfg: Config, bytes: seq<Byte>, size: nat, pos: nat)
    requires size < 0x1_0000 && pos + 9 <= |bytes| && (bytes[pos] == LONG || bytes[pos] == DOUBLE)
    ensures IsAt(cfg, bytes, size, pos, WideConst(bytes[pos], U4(bytes, pos + 1), U4(bytes, pos + 5)))
  {
    TwoU4Stand(bytes, pos + 1);
    TagStands(bytes, pos, Enc4(U4(bytes, pos + 1)) + Enc4(U4(bytes, pos + 5)));
  }

  lemma DecodeWide(cfg: Config, bytes: seq<Byte>, size: nat, p: Progress) returns (c: Const)
    requires size < 0x1_0000 && p.pos < |bytes| && !ReadOne(cfg, bytes, size, p).Fail?
    requires bytes[p.pos] == LONG || bytes[p.pos] == DOUBLE
    ensures IsAt(cfg, bytes, size, p.pos, c)
  {
    WideIsAt(cfg, bytes, size, p.pos);
    c := WideConst(bytes[p.pos], U4(bytes, p.pos + 1), U4(bytes, p.pos + 5));
  }

  /** Where a read does not fail, a serialised constant stands. */
  lemma DecodeOne(cfg: Config, bytes: seq<Byte>, size: nat, p: Progress) returns (c: Const)
    requires size < 0x1_0000 && !ReadOne(cfg, bytes, size, p).Fail?
    ensures IsAt(cfg, bytes, size, p.pos, c)
  {
    var tag := bytes[p.pos];
    if tag == UTF8 {
      c := DecodeUtf8(cfg, bytes, size, p);
    } else if tag == CLASS || tag == STRING {
      c := DecodeIndex(cfg, bytes, size, p);
    } else if PairTag(tag) {
      c := DecodePair(cfg, bytes, size, p);
    } else if tag == INTEGER || tag == FLOAT {
      c := DecodeNumber(cfg, bytes, size, p);
    } else {
      c := DecodeWide(cfg, bytes, size, p);
    }
  }

  // ----- the first pass -----

  /** The constants cs stand at pos. */
  ghost predicate AreAt(cfg: Config, bytes: seq<Byte>, size: nat, pos: nat, cs: seq<Const>)
    requires size < 0x1_0000
  {
    AllOk(cfg, cs, size) && Stands(bytes, pos, Body(cfg, cs, size))
  }

  lemma ConsAt(cfg: Config, bytes: seq<Byte>, size: nat, pos: nat, c: Const, cs: seq<Const>)
    requires size < 0x1_0000 && IsAt(cfg, bytes, size, pos, c)
    requires AreAt(cfg, bytes, size, pos + |Enc(cfg, c, size)|, cs)
    ensures AreAt(cfg, bytes, size, pos, [c] + cs)
  {
    assert ([c] + cs)[1..] == cs;
    StandsJoin(bytes, pos, Enc(cfg, c, size), Body(cfg, cs, size));
  }

  /** One turn that does not fail goes over a constant: one that takes its slots, or a wide one in the
      last slot. */
  lemma DecodeTurn(cfg: Config, bytes: seq<Byte>, size: nat, p: Progress) returns (c: Const)
    requires Shaped(p, size) && |p.tags| < size && !ReadOne(cfg, bytes, size, p).Fail?
    ensures IsAt(cfg, bytes, size, p.pos, c)
    ensures match ReadOne(cfg, bytes, size, p)
      case Next(q) =>
        && Shaped(q, size) && |q.tags| == |p.tags| + Width(c) <= size
        && q.pos == p.pos + |Enc(cfg, c, size)| <= |bytes|
      case _ => Wide(c) && |p.tags| + 1 == size
  {
    c := DecodeOne(cfg, bytes, size, p);
    ReadConst(cfg, bytes, size, p, c);
  }

  lemma {:induction false} ConsSlots(c: Const, cs: seq<Const>, from: nat, size: nat)
    ensures Slots([c] + cs) == Width(c) + Slots(cs)
    ensures Straddles([c] + cs, from, size) <==>
            from < size && ((Wide(c) && from + 1 == size) || Straddles(cs, from + Width(c), size))
  {
    assert ([c] + cs)[1..] == cs;
  }

  /** Constants from p on that explain how the first pass ends. */
  ghost predicate Explains(cfg: Config, bytes: seq<Byte>, size: nat, p: Progress, cs: seq<Const>, overran: bool)
    requires size < 0x1_0000
  {
    && AreAt(cfg, bytes, size, p.pos, cs)
    && if overran then Straddles(cs, |p.tags|, size) else |p.tags| + Slots(cs) == size
  }

  /** A wide constant in the last slot explains an overrun. */
  lemma ExplainLast(cfg: Config, bytes: seq<Byte>, size: nat, p: Progress, c: Const)
    requires size < 0x1_0000 && IsAt(cfg, bytes, size, p.pos, c) && Wide(c) && |p.tags| + 1 == size
    ensures Explains(cfg, bytes, size, p, [c], true)
  {
    assert AreAt(cfg, bytes, size, p.pos + |Enc(cfg, c, size)|, []);
    ConsAt(cfg, bytes, size, p.pos, c, []);
    ConsSlots(c, [], |p.tags|, size);
    assert [c] + [] == [c];
  }

  /** What explains the end from q explains it from p, with the constant between them in front. */
  lemma ExplainCons(cfg: Config, bytes: seq<Byte>, size: nat, p: Progress, q: Progress, c: Const, cs: seq<Const>,
                    overran: bool)
    requires size < 0x1_0000 && IsAt(cfg, bytes, size, p.pos, c) && |p.tags| < size
    requires |q.tags| == |p.tags| + Width(c) && q.pos == p.pos + |Enc(cfg, c, size)|
    requires Explains(cfg, bytes, size, q, cs, overran)
    ensures Explains(cfg, bytes, size, p, [c] + cs, overran)
  {
    ConsAt(cfg, bytes, size, p.pos, c, cs);
    ConsSlots(c, cs, |p.tags|, size);
  }

  /** When the first pass fills its arrays it has gone over constants that take all slots; when it runs
      past them, a wide constant starts in the last slot. */
  lemma {:induction false} FirstPassDecodes(cfg: Config, bytes: seq<Byte>, size: nat, p: Progress)
    returns (cs: seq<Const>)
    requires Shaped(p, size) && |p.tags| <= size && !FirstPass(cfg, bytes, size, p).Failed? && p.pos <= |bytes|
    ensures Explains(cfg, bytes, size, p, cs, FirstPass(cfg, bytes, size, p).Overran?)
    decreases size - |p.tags|
  {
    cs := [];
    if |p.tags| < size {
      FirstPassNext(cfg, bytes, size, p);
      var c := DecodeTurn(cfg, bytes, size, p);
      var step := ReadOne(cfg, bytes, size, p);
      if step.Next? {
        cs := FirstPassDecodes(cfg, bytes, size, step.p);
        ExplainCons(cfg, bytes, size, p, step.p, c, cs, FirstPass(cfg, bytes, size, p).Overran?);
        cs := [c] + cs;
      } else {
        ExplainLast(cfg, bytes, size, p, c);
        cs := [c];
      }
    }
  }

  lemma {:induction false} StraddlingOverruns(cfg: Config, bytes: seq<Byte>, size: nat, p: Progress, cs: seq<Const>)
    requires Shaped(p, size) && AreAt(cfg, bytes, size, p.pos, cs) && Straddles(cs, |p.tags|, size)
    ensures FirstPass(cfg, bytes, size, p).Overran?
    decreases |cs|
  {
    if Wide(cs[0]) && |p.tags| + 1 == size {
      StandsSplit(bytes, p.pos, Enc(cfg, cs[0], size), Body(cfg, cs[1..], size));
      ReadConst(cfg, bytes, size, p, cs[0]);
    } else {
      var q := Turn(cfg, bytes, size, p, cs);
      StraddlingOverruns(cfg, bytes, size, q, cs[1..]);
    }
  }

  // ----- whole pools -----

  /** The input begins with the serialisation of a pool of the count it declares. */
  ghost predicate BeginsWithPool(cfg: Config, bytes: seq<Byte>) {
    && |bytes| >= 2 && U2(bytes, 0) > 0
    && exists cs :: AreAt(cfg, bytes, U2(bytes, 0), 2, cs) && 1 + Slots(cs) == U2(bytes, 0)
  }

  /** The input declares no slot at all, or a long or double starts in the last slot it declares. */
  ghost predicate BeginsWithOverrun(cfg: Config, bytes: seq<Byte>) {
    && |bytes| >= 2
    && (U2(bytes, 0) == 0 || exists cs :: AreAt(cfg, bytes, U2(bytes, 0), 2, cs) && Straddles(cs, 1, U2(bytes, 0)))
  }

  /** Over all strings of bytes, the reader runs past its arrays exactly on these. */
  lemma OutOfBoundsIff(cfg: Config, bytes: seq<Byte>, refs: multiset<seq<Byte>>)
    ensures ReadPool(cfg, bytes, refs).OutOfBounds? <==> BeginsWithOverrun(cfg, bytes)
  {
    if |bytes| >= 2 && U2(bytes, 0) > 0 {
      var n, p := U2(bytes, 0), Start(refs);
      if FirstPass(cfg, bytes, n, p).Overran? {
        var cs := FirstPassDecodes(cfg, bytes, n, p);
      }
      if cs :| AreAt(cfg, bytes, n, 2, cs) && Straddles(cs, 1, n) {
        StraddlingOverruns(cfg, bytes, n, p, cs);
      }
    }
  }

  /** Two slots declared and a long in the second. */
  lemma LongInLastSlot(cfg: Config, refs: multiset<seq<Byte>>)
    ensures ReadPool(cfg, [0, 2, 5, 0, 0, 0, 0, 0, 0, 0, 0], refs).OutOfBounds?
  {
    var b: seq<Byte> := [0, 2, 5, 0, 0, 0, 0, 0, 0, 0, 0];
    assert U2(b, 0) == 2;
    assert ReadOne(cfg, b, 2, Start(refs)) == Overrun;
  }

  /** And accepts exactly the serialisations. */
  lemma AcceptsIff(cfg: Config, bytes: seq<Byte>, refs: multiset<seq<Byte>>)
    ensures ReadPool(cfg, bytes, refs).Done? <==> BeginsWithPool(cfg, bytes)
  {
    if |bytes| >= 2 && U2(bytes, 0) > 0 {
      var n, p := U2(bytes, 0), Start(refs);
      if FirstPass(cfg, bytes, n, p).Filled? {
        var cs := FirstPassDecodes(cfg, bytes, n, p);
      }
      if cs :| AreAt(cfg, bytes, n, 2, cs) && 1 + Slots(cs) == n {
        FirstPassFills(cfg, bytes, n, p, cs);
      }
    }
  }
}
