/** The constants of section 4.4 of the Java Virtual Machine Specification, their serialisation,
    and what reading it back gives. */
module ConstantCodec {
  import opened Options
  import opened ConstantPool

  datatype Const =
    | Utf8(s: seq<Byte>)
    | Integer(v: nat)
    | Float(v: nat)
    | Long(hi: nat, lo: nat)
    | Double(hi: nat, lo: nat)
    | Class(index: nat)
    | Str(index: nat)
    | Fieldref(cls: nat, nameAndType: nat)
    | Methodref(cls: nat, nameAndType: nat)
    | InterfaceMethodref(cls: nat, nameAndType: nat)
    | NameAndType(name: nat, descriptor: nat)

  function Enc2(v: nat): (r: seq<Byte>)
    requires v < 0x1_0000
    ensures |r| == 2 && U2(r, 0) == v
  {
    [v / 256, v % 256]
  }

  function Enc4(v: nat): (r: seq<Byte>)
    requires v < 0x1_0000_0000
    ensures |r| == 4 && U4(r, 0) == v
  {
    Enc2(v / 0x1_0000) + Enc2(v % 0x1_0000)
  }

  predicate Wide(c: Const) {
    c.Long? || c.Double?
  }

  function Width(c: Const): nat {
    if Wide(c) then 2 else 1
  }

  /** The tags of section 4.4. */
  function TagOf(c: Const): Byte {
    match c
    case Utf8(_) => 1
    case Integer(_) => 3
    case Float(_) => 4
    case Long(_, _) => 5
    case Double(_, _) => 6
    case Class(_) => 7
    case Str(_) => 8
    case Fieldref(_, _) => 9
    case Methodref(_, _) => 10
    case InterfaceMethodref(_, _) => 11
    case NameAndType(_, _) => 12
  }

  /** A constant that may stand in a pool of `size` slots. */
  predicate Ok(cfg: Config, c: Const, size: nat) {
    match c
    case Utf8(s) => |s| < 0x1_0000 && cfg.valid(s)
    case Integer(v) => v < 0x1_0000_0000
    case Float(v) => v < 0x1_0000_0000
    case Long(h, l) => h < 0x1_0000_0000 && l < 0x1_0000_0000
    case Double(h, l) => h < 0x1_0000_0000 && l < 0x1_0000_0000
    case Class(i) => 0 < i < size
    case Str(i) => 0 < i < size
    case Fieldref(x, y) => x < 0x1_0000 && y < 0x1_0000
    case Methodref(x, y) => x < 0x1_0000 && y < 0x1_0000
    case InterfaceMethodref(x, y) => x < 0x1_0000 && y < 0x1_0000
    case NameAndType(x, y) => x < 0x1_0000 && y < 0x1_0000
  }

  predicate AllOk(cfg: Config, cs: seq<Const>, size: nat) {
    forall i :: 0 <= i < |cs| ==> Ok(cfg, cs[i], size)
  }

  function Enc(cfg: Config, c: Const, size: nat): seq<Byte>
    requires size < 0x1_0000 && Ok(cfg, c, size)
  {
    [TagOf(c)] +
    match c
    case Utf8(s) => Enc2(|s|) + s
    case Integer(v) => Enc4(v)
    case Float(v) => Enc4(v)
    case Long(h, l) => Enc4(h) + Enc4(l)
    case Double(h, l) => Enc4(h) + Enc4(l)
    case Class(i) => Enc2(i)
    case Str(i) => Enc2(i)
    case Fieldref(x, y) => Enc2(x) + Enc2(y)
    case Methodref(x, y) => Enc2(x) + Enc2(y)
    case InterfaceMethodref(x, y) => Enc2(x) + Enc2(y)
    case NameAndType(x, y) => Enc2(x) + Enc2(y)
  }

  function Body(cfg: Config, cs: seq<Const>, size: nat): seq<Byte>
    requires size < 0x1_0000 && AllOk(cfg, cs, size)
  {
    if cs == [] then [] else Enc(cfg, cs[0], size) + Body(cfg, cs[1..], size)
  }

  function Slots(cs: seq<Const>): nat {
    if cs == [] then 0 else Width(cs[0]) + Slots(cs[1..])
  }

  /** What the first pass puts into the slots of a constant. */
  function SlotsOf(cfg: Config, c: Const, size: nat): (r: seq<Slot>)
    requires size < 0x1_0000 && Ok(cfg, c, size)
    ensures |r| == Width(c)
  {
    match c
    case Utf8(s) => [Utf(s)]
    case Integer(v) => [Word(v)]
    case Float(v) => [Word(v)]
    case Long(h, l) => WideSlots(cfg, h, l)
    case Double(h, l) => if cfg.swapDouble then WideSlots(cfg, l, h) else WideSlots(cfg, h, l)
    case Class(i) => [Word(i)]
    case Str(i) => [Word(i)]
    case Fieldref(x, y) => [Word(Pack(cfg, x, y))]
    case Methodref(x, y) => [Word(Pack(cfg, x, y))]
    case InterfaceMethodref(x, y) => [Word(Pack(cfg, x, y))]
    case NameAndType(x, y) => [Word(Pack(cfg, x, y))]
  }

  /** The second slot of a wide constant, like slot zero and references to the wrong thing, has tag 0. */
  function TagsOf(c: Const): (r: seq<nat>)
    ensures |r| == Width(c)
  {
    if Wide(c) then [TagOf(c), 0] else [TagOf(c)]
  }

  function AllTags(cs: seq<Const>): (r: seq<nat>)
    ensures |r| == Slots(cs)
  {
    if cs == [] then [] else TagsOf(cs[0]) + AllTags(cs[1..])
  }

  function AllSlots(cfg: Config, cs: seq<Const>, size: nat): (r: seq<Slot>)
    requires size < 0x1_0000 && AllOk(cfg, cs, size)
    ensures |r| == Slots(cs)
  {
    if cs == [] then [] else SlotsOf(cfg, cs[0], size) + AllSlots(cfg, cs[1..], size)
  }

  // ----- first pass over a serialisation -----

  /** e stands at pos. */
  ghost predicate Stands(bytes: seq<Byte>, pos: nat, e: seq<Byte>) {
    pos + |e| <= |bytes| && bytes[pos..pos + |e|] == e
  }

  lemma StandsSplit(bytes: seq<Byte>, pos: nat, e: seq<Byte>, f: seq<Byte>)
    requires Stands(bytes, pos, e + f)
    ensures Stands(bytes, pos, e) && Stands(bytes, pos + |e|, f)
  {
    var ef := bytes[pos..pos + |e| + |f|];
    assert bytes[pos..pos + |e|] == ef[..|e|] == e;
    assert bytes[pos + |e|..pos + |e| + |f|] == ef[|e|..] == f;
  }

  lemma StandsU2(bytes: seq<Byte>, pos: nat, v: nat)
    requires v < 0x1_0000 && Stands(bytes, pos, Enc2(v))
    ensures U2(bytes, pos) == v
  {
    var e := Enc2(v);
    assert bytes[pos] == e[0] && bytes[pos + 1] == e[1] by {
      assert bytes[pos..pos + 2][0] == e[0] && bytes[pos..pos + 2][1] == e[1];
    }
  }

  lemma StandsU4(bytes: seq<Byte>, pos: nat, v: nat)
    requires v < 0x1_0000_0000 && Stands(bytes, pos, Enc4(v))
    ensures U4(bytes, pos) == v
  {
    StandsSplit(bytes, pos, Enc2(v / 0x1_0000), Enc2(v % 0x1_0000));
    StandsU2(bytes, pos, v / 0x1_0000);
    StandsU2(bytes, pos + 2, v % 0x1_0000);
  }

  /** p after reading c. */
  ghost predicate Took(cfg: Config, p: Progress, q: Progress, c: Const, size: nat)
    requires size < 0x1_0000 && Ok(cfg, c, size)
  {
    && q.pos == p.pos + |Enc(cfg, c, size)|
    && q.tags == p.tags + TagsOf(c)
    && q.data == p.data + SlotsOf(cfg, c, size)
  }

  /** Reading a serialised constant fills its slots, unless a wide one stands in the last slot. */
  ghost predicate ReadsBack(cfg: Config, bytes: seq<Byte>, size: nat, p: Progress, c: Const)
    requires size < 0x1_0000 && Ok(cfg, c, size)
  {
    var r := ReadOne(cfg, bytes, size, p);
    if Wide(c) && |p.tags| + 1 >= size then r.Overrun? else r.Next? && Took(cfg, p, r.p, c, size)
  }

  /** A tag and what follows it. */
  lemma StandsTag(bytes: seq<Byte>, pos: nat, tag: Byte, rest: seq<Byte>)
    requires Stands(bytes, pos, [tag] + rest)
    ensures pos < |bytes| && bytes[pos] == tag && Stands(bytes, pos + 1, rest)
  {
    StandsSplit(bytes, pos, [tag], rest);
    assert bytes[pos] == bytes[pos..pos + 1][0];
  }

  lemma StandsString(bytes: seq<Byte>, pos: nat, s: seq<Byte>)
    requires |s| < 0x1_0000 && Stands(bytes, pos, Enc2(|s|) + s)
    ensures pos + 2 + |s| <= |bytes| && U2(bytes, pos) == |s| && bytes[pos + 2..pos + 2 + |s|] == s
  {
    StandsSplit(bytes, pos, Enc2(|s|), s);
    StandsU2(bytes, pos, |s|);
  }

  lemma StandsTwoU4(bytes: seq<Byte>, pos: nat, x: nat, y: nat)
    requires x < 0x1_0000_0000 && y < 0x1_0000_0000 && Stands(bytes, pos, Enc4(x) + Enc4(y))
    ensures pos + 8 <= |bytes| && U4(bytes, pos) == x && U4(bytes, pos + 4) == y
  {
    StandsSplit(bytes, pos, Enc4(x), Enc4(y));
    StandsU4(bytes, pos, x);
    StandsU4(bytes, pos + 4, y);
  }

  lemma StandsTwoU2(bytes: seq<Byte>, pos: nat, x: nat, y: nat)
    requires x < 0x1_0000 && y < 0x1_0000 && Stands(bytes, pos, Enc2(x) + Enc2(y))
    ensures pos + 4 <= |bytes| && U2(bytes, pos) == x && U2(bytes, pos + 2) == y
  {
    StandsSplit(bytes, pos, Enc2(x), Enc2(y));
    StandsU2(bytes, pos, x);
    StandsU2(bytes, pos + 2, y);
  }

  lemma Utf8Read(cfg: Config, bytes: seq<Byte>, size: nat, p: Progress, c: Const)
    requires size < 0x1_0000 && Ok(cfg, c, size) && c.Utf8?
    requires p.pos + 3 + |c.s| <= |bytes| && bytes[p.pos] == TagOf(c) && U2(bytes, p.pos + 1) == |c.s|
    requires bytes[p.pos + 3..p.pos + 3 + |c.s|] == c.s
    ensures ReadsBack(cfg, bytes, size, p, c)
  {
    assert |Enc(cfg, c, size)| == 3 + |c.s|;
  }

  lemma ReadUtf8(cfg: Config, bytes: seq<Byte>, size: nat, p: Progress, c: Const)
    requires size < 0x1_0000 && Ok(cfg, c, size) && Stands(bytes, p.pos, Enc(cfg, c, size)) && c.Utf8?
    ensures ReadsBack(cfg, bytes, size, p, c)
  {
    StandsTag(bytes, p.pos, TagOf(c), Enc2(|c.s|) + c.s);
    StandsString(bytes, p.pos + 1, c.s);
    Utf8Read(cfg, bytes, size, p, c);
  }

  lemma ReadIndex(cfg: Config, bytes: seq<Byte>, size: nat, p: Progress, c: Const)
    requires size < 0x1_0000 && Ok(cfg, c, size) && Stands(bytes, p.pos, Enc(cfg, c, size)) && (c.Class? || c.Str?)
    ensures ReadsBack(cfg, bytes, size, p, c)
  {
    StandsTag(bytes, p.pos, TagOf(c), Enc2(c.index));
    StandsU2(bytes, p.pos + 1, c.index);
  }

  lemma NumberRead(cfg: Config, bytes: seq<Byte>, size: nat, p: Progress, c: Const)
    requires size < 0x1_0000 && Ok(cfg, c, size) && (c.Integer? || c.Float?)
    requires p.pos + 5 <= |bytes| && bytes[p.pos] == TagOf(c) && U4(bytes, p.pos + 1) == c.v
    ensures ReadsBack(cfg, bytes, size, p, c)
  {
    assert |Enc(cfg, c, size)| == 5;
  }

  lemma ReadNumber(cfg: Config, bytes: seq<Byte>, size: nat, p: Progress, c: Const)
    requires size < 0x1_0000 && Ok(cfg, c, size) && Stands(bytes, p.pos, Enc(cfg, c, size)) && (c.Integer? || c.Float?)
    ensures ReadsBack(cfg, bytes, size, p, c)
  {
    StandsTag(bytes, p.pos, TagOf(c), Enc4(c.v));
    StandsU4(bytes, p.pos + 1, c.v);
    NumberRead(cfg, bytes, size, p, c);
  }

  /** The two halves of a reference constant. */
  function Halves(c: Const): (nat, nat)
    requires c.Fieldref? || c.Methodref? || c.InterfaceMethodref? || c.NameAndType?
  {
    if c.NameAndType? then (c.name, c.descriptor) else (c.cls, c.nameAndType)
  }

  predicate IsPair(c: Const) {
    c.Fieldref? || c.Methodref? || c.InterfaceMethodref? || c.NameAndType?
  }

  lemma PairRead(cfg: Config, bytes: seq<Byte>, size: nat, p: Progress, c: Const)
    requires size < 0x1_0000 && Ok(cfg, c, size) && IsPair(c)
    requires p.pos + 5 <= |bytes| && bytes[p.pos] == TagOf(c)
    requires U2(bytes, p.pos + 1) == Halves(c).0 && U2(bytes, p.pos + 3) == Halves(c).1
    ensures ReadsBack(cfg, bytes, size, p, c)
  {
    assert |Enc(cfg, c, size)| == 5;
  }

  lemma ReadPair(cfg: Config, bytes: seq<Byte>, size: nat, p: Progress, c: Const)
    requires size < 0x1_0000 && Ok(cfg, c, size) && Stands(bytes, p.pos, Enc(cfg, c, size)) && IsPair(c)
    ensures ReadsBack(cfg, bytes, size, p, c)
  {
    var (x, y) := Halves(c);
    StandsTag(bytes, p.pos, TagOf(c), Enc2(x) + Enc2(y));
    StandsTwoU2(bytes, p.pos + 1, x, y);
    PairRead(cfg, bytes, size, p, c);
  }

  lemma WideRead(cfg: Config, bytes: seq<Byte>, size: nat, p: Progress, c: Const)
    requires size < 0x1_0000 && Ok(cfg, c, size) && Wide(c)
    requires p.pos + 9 <= |bytes| && bytes[p.pos] == TagOf(c)
    requires U4(bytes, p.pos + 1) == c.hi && U4(bytes, p.pos + 5) == c.lo
    ensures ReadsBack(cfg, bytes, size, p, c)
  {
    assert |Enc(cfg, c, size)| == 9;
  }

  lemma ReadWide(cfg: Config, bytes: seq<Byte>, size: nat, p: Progress, c: Const)
    requires size < 0x1_0000 && Ok(cfg, c, size) && Stands(bytes, p.pos, Enc(cfg, c, size)) && Wide(c)
    ensures ReadsBack(cfg, bytes, size, p, c)
  {
    StandsTag(bytes, p.pos, TagOf(c), Enc4(c.hi) + Enc4(c.lo));
    StandsTwoU4(bytes, p.pos + 1, c.hi, c.lo);
    WideRead(cfg, bytes, size, p, c);
  }

  lemma ReadConst(cfg: Config, bytes: seq<Byte>, size: nat, p: Progress, c: Const)
    requires size < 0x1_0000 && Ok(cfg, c, size) && Stands(bytes, p.pos, Enc(cfg, c, size))
    ensures ReadsBack(cfg, bytes, size, p, c)
  {
    match c {
      case Utf8(_) => ReadUtf8(cfg, bytes, size, p, c);
      case Integer(_) => ReadNumber(cfg, bytes, size, p, c);
      case Float(_) => ReadNumber(cfg, bytes, size, p, c);
      case Long(_, _) => ReadWide(cfg, bytes, size, p, c);
      case Double(_, _) => ReadWide(cfg, bytes, size, p, c);
      case Class(_) => ReadIndex(cfg, bytes, size, p, c);
      case Str(_) => ReadIndex(cfg, bytes, size, p, c);
      case _ => ReadPair(cfg, bytes, size, p, c);
    }
  }

  /** A wide constant starts in the last slot when slots are filled from `from` on. */
  predicate Straddles(cs: seq<Const>, from: nat, size: nat) {
    cs != [] && from < size && ((Wide(cs[0]) && from + 1 == size) || Straddles(cs[1..], from + Width(cs[0]), size))
  }

  /** How the first pass goes on after one constant. */
  lemma {:induction false} FirstPassNext(cfg: Config, bytes: seq<Byte>, size: nat, p: Progress)
    requires Shaped(p, size) && |p.tags| < size
    ensures match ReadOne(cfg, bytes, size, p)
      case Next(q) => Shaped(q, size) && FirstPass(cfg, bytes, size, p) == FirstPass(cfg, bytes, size, q)
      case Fail => FirstPass(cfg, bytes, size, p).Failed?
      case Overrun => FirstPass(cfg, bytes, size, p).Overran?
  {}

  /** One turn of the first pass over a serialisation. */
  lemma Turn(cfg: Config, bytes: seq<Byte>, size: nat, p: Progress, cs: seq<Const>) returns (q: Progress)
    requires Shaped(p, size) && |p.tags| < size && cs != [] && !(Wide(cs[0]) && |p.tags| + 1 == size)
    requires AllOk(cfg, cs, size) && Stands(bytes, p.pos, Body(cfg, cs, size))
    ensures Shaped(q, size) && Took(cfg, p, q, cs[0], size)
    ensures Stands(bytes, q.pos, Body(cfg, cs[1..], size))
    ensures FirstPass(cfg, bytes, size, p) == FirstPass(cfg, bytes, size, q)
  {
    BodySplit(cfg, bytes, size, p.pos, cs);
    ReadConst(cfg, bytes, size, p, cs[0]);
    FirstPassNext(cfg, bytes, size, p);
    q := ReadOne(cfg, bytes, size, p).p;
  }

  /** The first constant of a serialisation, and the rest. */
  lemma {:induction false} BodySplit(cfg: Config, bytes: seq<Byte>, size: nat, pos: nat, cs: seq<Const>)
    requires size < 0x1_0000 && AllOk(cfg, cs, size) && cs != [] && Stands(bytes, pos, Body(cfg, cs, size))
    ensures Ok(cfg, cs[0], size) && Stands(bytes, pos, Enc(cfg, cs[0], size))
    ensures Stands(bytes, pos + |Enc(cfg, cs[0], size)|, Body(cfg, cs[1..], size))
  {
    StandsSplit(bytes, pos, Enc(cfg, cs[0], size), Body(cfg, cs[1..], size));
  }

  lemma {:induction false} FirstPassFills(cfg: Config, bytes: seq<Byte>, size: nat, p: Progress, cs: seq<Const>)
    requires Shaped(p, size) && AllOk(cfg, cs, size) && Stands(bytes, p.pos, Body(cfg, cs, size))
    requires |p.tags| + Slots(cs) == size
    ensures var r := FirstPass(cfg, bytes, size, p);
      && r.Filled?
      && r.p.pos == p.pos + |Body(cfg, cs, size)|
      && r.p.tags == p.tags + AllTags(cs)
      && r.p.data == p.data + AllSlots(cfg, cs, size)
    decreases |cs|
  {
    if cs != [] {
      var q := Turn(cfg, bytes, size, p, cs);
      FirstPassFills(cfg, bytes, size, q, cs[1..]);
      Assoc(p.tags, TagsOf(cs[0]), AllTags(cs[1..]));
      Assoc(p.data, SlotsOf(cfg, cs[0], size), AllSlots(cfg, cs[1..], size));
    }
  }

  lemma Assoc<T>(x: seq<T>, y: seq<T>, z: seq<T>)
    ensures x + y + z == x + (y + z)
  {}

  lemma SliceOfSecond<T>(x: seq<T>, y: seq<T>, lo: nat, hi: nat)
    requires lo <= hi <= |y|
    ensures (x + y)[|x| + lo..|x| + hi] == y[lo..hi]
  {}

  // ----- round trip -----

  /** The constant whose first slot is o slots after the first constant's. */
  function ConstAt(cs: seq<Const>, o: nat): (r: Option<Const>)
  {
    if cs == [] then None
    else if o == 0 then Some(cs[0])
    else if o < Width(cs[0]) then None
    else ConstAt(cs[1..], o - Width(cs[0]))
  }

  /** What stands o slots after the first: the rest of a wide constant, or a constant and its slots. */
  ghost predicate SlotFilled(cfg: Config, cs: seq<Const>, size: nat, o: nat)
    requires size < 0x1_0000 && AllOk(cfg, cs, size) && o < Slots(cs)
  {
    match ConstAt(cs, o)
    case None => AllTags(cs)[o] == 0
    case Some(c) =>
      && c in cs && o + Width(c) <= Slots(cs) && Ok(cfg, c, size)
      && AllTags(cs)[o] == TagOf(c)
      && AllSlots(cfg, cs, size)[o..o + Width(c)] == SlotsOf(cfg, c, size)
  }

  /** In front: the first constant. */
  lemma {:induction false} FilledFirst(cfg: Config, cs: seq<Const>, size: nat, o: nat)
    requires size < 0x1_0000 && AllOk(cfg, cs, size) && cs != [] && o < Width(cs[0]) && o < Slots(cs)
    ensures SlotFilled(cfg, cs, size, o)
  {
    if o == 0 {
      assert AllSlots(cfg, cs, size)[0..Width(cs[0])] == SlotsOf(cfg, cs[0], size);
    }
  }

  lemma {:induction false} LaterTag(cs: seq<Const>, o: nat)
    requires cs != [] && Width(cs[0]) <= o < Slots(cs)
    ensures AllTags(cs)[o] == AllTags(cs[1..])[o - Width(cs[0])]
  {
    assert AllTags(cs) == TagsOf(cs[0]) + AllTags(cs[1..]);
  }

  lemma {:induction false} LaterSlots(cfg: Config, cs: seq<Const>, size: nat, o: nat, n: nat)
    requires size < 0x1_0000 && AllOk(cfg, cs, size) && cs != [] && Width(cs[0]) <= o && o + n <= Slots(cs)
    ensures AllSlots(cfg, cs, size)[o..o + n] ==
            AllSlots(cfg, cs[1..], size)[o - Width(cs[0])..o - Width(cs[0]) + n]
  {
    var w := Width(cs[0]);
    assert AllSlots(cfg, cs, size) == SlotsOf(cfg, cs[0], size) + AllSlots(cfg, cs[1..], size);
    SliceOfSecond(SlotsOf(cfg, cs[0], size), AllSlots(cfg, cs[1..], size), o - w, o - w + n);
  }

  /** Behind: what stands there without the first constant. */
  lemma {:induction false} FilledLater(cfg: Config, cs: seq<Const>, size: nat, o: nat)
    requires size < 0x1_0000 && AllOk(cfg, cs, size) && cs != [] && Width(cs[0]) <= o < Slots(cs)
    requires SlotFilled(cfg, cs[1..], size, o - Width(cs[0]))
    ensures SlotFilled(cfg, cs, size, o)
  {
    LaterTag(cs, o);
    assert ConstAt(cs, o) == ConstAt(cs[1..], o - Width(cs[0]));
    if ConstAt(cs, o).Some? {
      LaterSlots(cfg, cs, size, o, Width(ConstAt(cs, o).value));
    }
  }

  lemma {:induction false} FilledAt(cfg: Config, cs: seq<Const>, size: nat, o: nat)
    requires size < 0x1_0000 && AllOk(cfg, cs, size) && o < Slots(cs)
    ensures SlotFilled(cfg, cs, size, o)
  {
    if o < Width(cs[0]) {
      FilledFirst(cfg, cs, size, o);
    } else {
      FilledAt(cfg, cs[1..], size, o - Width(cs[0]));
      FilledLater(cfg, cs, size, o);
    }
  }

  /** One turn of the second pass touches slot i only, and no Utf8 slot. */
  lemma ResolveKeeps(p: Progress, size: nat, i: nat)
    requires Pending(p, size, i) && i < |p.tags| && size <= |p.tags|
    ensures var q := Resolve(p, size, i);
      && q.pos == p.pos
      && (forall k :: 0 <= k < |p.tags| && k != i ==> q.tags[k] == p.tags[k] && q.data[k] == p.data[k])
      && (forall k :: 0 <= k < |p.tags| ==> (q.tags[k] == UTF8 <==> p.tags[k] == UTF8))
      && (p.tags[i] == UTF8 ==> q.data[i] == p.data[i])
  {}

  /** What becomes of slot k, given all slots before. */
  ghost predicate Resolved(p: Progress, r: Progress, k: nat)
    requires k < |p.tags| == |p.data| == |r.tags| == |r.data|
  {
    if (p.tags[k] == CLASS || p.tags[k] == STRING) && p.data[k].Word? && LowHalf(p.data[k].n) < |p.tags| then
      var j := LowHalf(p.data[k].n);
      if p.tags[j] == UTF8 then r.tags[k] == p.tags[k] && r.data[k] == p.data[j]
      else r.tags[k] == 0 && r.data[k] == p.data[k]
    else r.tags[k] == p.tags[k] && r.data[k] == p.data[k]
  }

  lemma {:induction false} SecondPassKeeps(p: Progress, size: nat, i: nat, k: nat)
    requires Pending(p, size, i) && size <= |p.tags| && k < |p.tags| && k < i
    ensures var r := SecondPass(p, size, i); r.tags[k] == p.tags[k] && r.data[k] == p.data[k]
    decreases |p.tags| - i
  {
    if i < |p.tags| {
      ResolveKeeps(p, size, i);
      SecondPassKeeps(Resolve(p, size, i), size, i + 1, k);
    }
  }

  lemma {:induction false} SecondPassAt(p: Progress, size: nat, i: nat, k: nat)
    requires Pending(p, size, i) && size <= |p.tags| && i <= k < |p.tags|
    ensures Resolved(p, SecondPass(p, size, i), k)
    decreases |p.tags| - i
  {
    var q := Resolve(p, size, i);
    ResolveKeeps(p, size, i);
    if k == i {
      SecondPassKeeps(q, size, i + 1, k);
    } else {
      SecondPassAt(q, size, i + 1, k);
    }
  }

  lemma {:induction false} SecondPassPos(p: Progress, size: nat, i: nat)
    requires Pending(p, size, i) && size <= |p.tags|
    ensures SecondPass(p, size, i).pos == p.pos
    decreases |p.tags| - i
  {
    if i < |p.tags| {
      SecondPassPos(Resolve(p, size, i), size, i + 1);
    }
  }

  /** The slots from i on decode, through the accessors, to c; class and string slots point at
      their string. */
  ghost predicate Decodes(cfg: Config, p: Progress, cs: seq<Const>, i: nat, c: Const)
    requires |p.tags| == |p.data|
  {
    && i + Width(c) <= |p.tags|
    && match c
       case Utf8(s) => p.tags[i] == UTF8 && p.data[i] == Utf(s)
       case Integer(v) => p.tags[i] == INTEGER && p.data[i] == Word(v)
       case Float(v) => p.tags[i] == FLOAT && p.data[i] == Word(v)
       case Long(h, l) => p.tags[i] == LONG && TwoWords(cfg, p.data[i], p.data[i + 1]) == Some((h, l))
       case Double(h, l) =>
         && p.tags[i] == DOUBLE
         && TwoWords(cfg, p.data[i], p.data[i + 1]) == Some(if cfg.swapDouble then (l, h) else (h, l))
       case Class(j) => PointsTo(p, cs, i, CLASS, j)
       case Str(j) => PointsTo(p, cs, i, STRING, j)
       case Fieldref(x, y) => Halved(p, i, FIELDREF, x, y)
       case Methodref(x, y) => Halved(p, i, METHODREF, x, y)
       case InterfaceMethodref(x, y) => Halved(p, i, INTERFACEMETHODREF, x, y)
       case NameAndType(x, y) => Halved(p, i, NAMEANDTYPE, x, y)
  }

  ghost predicate Halved(p: Progress, i: nat, tag: nat, x: nat, y: nat)
    requires i < |p.tags| == |p.data|
  {
    p.tags[i] == tag && p.data[i].Word? && LowHalf(p.data[i].n) == x && HighHalf(p.data[i].n) == y
  }

  /** The high and low word stored in two slots. */
  function TwoWords(cfg: Config, a: Slot, b: Slot): Option<(nat, nat)> {
    if !a.Word? || !b.Word? then None
    else if cfg.ptr64 then Some((a.n / 0x1_0000_0000, a.n % 0x1_0000_0000))
    else Some((a.n, b.n))
  }

  ghost predicate PointsTo(p: Progress, cs: seq<Const>, i: nat, tag: nat, j: nat)
    requires i < |p.tags| == |p.data|
  {
    if j > 0 && ConstAt(cs, j - 1).Some? && ConstAt(cs, j - 1).value.Utf8?
    then p.tags[i] == tag && p.data[i] == Utf(ConstAt(cs, j - 1).value.s)
    else p.tags[i] == 0
  }

  /** The bytes of a pool. */
  function Encode(cfg: Config, cs: seq<Const>): seq<Byte>
    requires 1 + Slots(cs) < 0x1_0000 && AllOk(cfg, cs, 1 + Slots(cs))
  {
    Enc2(1 + Slots(cs)) + Body(cfg, cs, 1 + Slots(cs))
  }

  /** The slots after the first pass over a serialisation. */
  ghost predicate FirstSlots(cfg: Config, cs: seq<Const>, p: Progress)
    requires 1 + Slots(cs) < 0x1_0000 && AllOk(cfg, cs, 1 + Slots(cs))
  {
    p.tags == [0] + AllTags(cs) && p.data == [Word(0)] + AllSlots(cfg, cs, 1 + Slots(cs))
  }

  lemma ShiftedSlice(first: Slot, slots: seq<Slot>, data: seq<Slot>, o: nat, w: nat)
    requires data == [first] + slots && o + w <= |slots|
    ensures data[o + 1..o + 1 + w] == slots[o..o + w]
  {
    SliceOfSecond([first], slots, o, o + w);
  }

  /** A slot of the first pass, seen through the constant that filled it. */
  lemma FirstSlot(cfg: Config, cs: seq<Const>, p: Progress, o: nat)
    requires 1 + Slots(cs) < 0x1_0000 && AllOk(cfg, cs, 1 + Slots(cs)) && FirstSlots(cfg, cs, p) && o < Slots(cs)
    ensures ConstAt(cs, o).None? ==> p.tags[o + 1] == 0
    ensures ConstAt(cs, o).Some? ==>
      var c := ConstAt(cs, o).value;
      && o + 1 + Width(c) <= |p.tags| && Ok(cfg, c, 1 + Slots(cs))
      && p.tags[o + 1] == TagOf(c)
      && p.data[o + 1..o + 1 + Width(c)] == SlotsOf(cfg, c, 1 + Slots(cs))
  {
    var n := 1 + Slots(cs);
    var slots := AllSlots(cfg, cs, n);
    FilledAt(cfg, cs, n, o);
    assert p.tags[o + 1] == AllTags(cs)[o];
    if ConstAt(cs, o).Some? {
      ShiftedSlice(Word(0), slots, p.data, o, Width(ConstAt(cs, o).value));
    }
  }

  /** Slot j is a Utf8 slot exactly when a Utf8 constant starts there. */
  lemma Utf8Slot(cfg: Config, cs: seq<Const>, p: Progress, j: nat)
    requires 1 + Slots(cs) < 0x1_0000 && AllOk(cfg, cs, 1 + Slots(cs)) && FirstSlots(cfg, cs, p) && 0 < j <= Slots(cs)
    ensures p.tags[j] == UTF8 <==> ConstAt(cs, j - 1).Some? && ConstAt(cs, j - 1).value.Utf8?
    ensures p.tags[j] == UTF8 ==> p.data[j] == Utf(ConstAt(cs, j - 1).value.s)
  {
    FirstSlot(cfg, cs, p, j - 1);
    if ConstAt(cs, j - 1).Some? {
      assert p.data[j] == p.data[j..j + Width(ConstAt(cs, j - 1).value)][0];
    }
  }

  lemma NameSlot(cfg: Config, cs: seq<Const>, p: Progress, o: nat, c: Const)
    requires 1 + Slots(cs) < 0x1_0000 && AllOk(cfg, cs, 1 + Slots(cs)) && FirstSlots(cfg, cs, p) && o < Slots(cs)
    requires ConstAt(cs, o) == Some(c) && (c.Class? || c.Str?)
    ensures p.tags[o + 1] == TagOf(c) && p.data[o + 1] == Word(c.index) && 0 < c.index <= Slots(cs)
  {
    FirstSlot(cfg, cs, p, o);
    assert p.data[o + 1] == p.data[o + 1..o + 2][0];
  }

  /** Slot i names slot c.index, which holds a string exactly when a Utf8 constant starts there. */
  ghost predicate NamePlaced(cs: seq<Const>, p: Progress, i: nat, c: Const)
    requires c.Class? || c.Str?
  {
    && i < |p.tags| == |p.data|
    && p.tags[i] == TagOf(c) && p.data[i] == Word(c.index) && 0 < c.index < |p.tags| && c.index < 0x1_0000
    && (p.tags[c.index] == UTF8 <==> ConstAt(cs, c.index - 1).Some? && ConstAt(cs, c.index - 1).value.Utf8?)
    && (p.tags[c.index] == UTF8 ==> p.data[c.index] == Utf(ConstAt(cs, c.index - 1).value.s))
  }

  lemma NameIsPlaced(cfg: Config, cs: seq<Const>, p: Progress, o: nat, c: Const)
    requires 1 + Slots(cs) < 0x1_0000 && AllOk(cfg, cs, 1 + Slots(cs)) && FirstSlots(cfg, cs, p) && o < Slots(cs)
    requires ConstAt(cs, o) == Some(c) && (c.Class? || c.Str?)
    ensures NamePlaced(cs, p, o + 1, c)
  {
    NameSlot(cfg, cs, p, o, c);
    Utf8Slot(cfg, cs, p, c.index);
  }

  lemma NameResolved(cfg: Config, cs: seq<Const>, p: Progress, r: Progress, i: nat, c: Const)
    requires (c.Class? || c.Str?) && NamePlaced(cs, p, i, c)
    requires |r.tags| == |r.data| == |p.tags| && Resolved(p, r, i)
    ensures Decodes(cfg, r, cs, i, c)
  {
    assert LowHalf(c.index) == c.index;
  }

  lemma DecodesPlain(cfg: Config, cs: seq<Const>, p: Progress, r: Progress, o: nat, c: Const)
    requires 1 + Slots(cs) < 0x1_0000 && AllOk(cfg, cs, 1 + Slots(cs)) && FirstSlots(cfg, cs, p) && o < Slots(cs)
    requires ConstAt(cs, o) == Some(c) && !c.Class? && !c.Str? && !Wide(c)
    requires |r.tags| == |r.data| == |p.tags| && Resolved(p, r, o + 1)
    ensures Decodes(cfg, r, cs, o + 1, c)
  {
    FirstSlot(cfg, cs, p, o);
    assert p.data[o + 1] == p.data[o + 1..o + 2][0];
    if c.Fieldref? || c.Methodref? || c.InterfaceMethodref? || c.NameAndType? {
      var (x, y) := Halves(c);
      PackRoundTrip(cfg, x, y);
    }
  }

  lemma WideSlotsDecode(cfg: Config, first: nat, second: nat)
    requires first < 0x1_0000_0000 && second < 0x1_0000_0000
    ensures TwoWords(cfg, WideSlots(cfg, first, second)[0], WideSlots(cfg, first, second)[1]) == Some((first, second))
  {}

  /** The slots of a wide constant keep what the first pass put there. */
  lemma WideSlotsStay(cfg: Config, cs: seq<Const>, p: Progress, r: Progress, o: nat, c: Const)
    requires 1 + Slots(cs) < 0x1_0000 && AllOk(cfg, cs, 1 + Slots(cs)) && FirstSlots(cfg, cs, p) && o < Slots(cs)
    requires ConstAt(cs, o) == Some(c) && Wide(c)
    requires |r.tags| == |r.data| == |p.tags| && Resolved(p, r, o + 1)
    requires o + 2 < |p.tags| ==> Resolved(p, r, o + 2)
    ensures o + 2 < |p.tags| && r.tags[o + 1] == TagOf(c) && Ok(cfg, c, 1 + Slots(cs))
    ensures var ws := SlotsOf(cfg, c, 1 + Slots(cs)); r.data[o + 1] == ws[0] && r.data[o + 2] == ws[1]
  {
    FirstSlot(cfg, cs, p, o);
    AfterWide(cs, o);
    FirstSlot(cfg, cs, p, o + 1);
    var two := p.data[o + 1..o + 3];
    assert p.data[o + 1] == two[0] && p.data[o + 2] == two[1];
  }

  lemma DecodesWide(cfg: Config, cs: seq<Const>, p: Progress, r: Progress, o: nat, c: Const)
    requires 1 + Slots(cs) < 0x1_0000 && AllOk(cfg, cs, 1 + Slots(cs)) && FirstSlots(cfg, cs, p) && o < Slots(cs)
    requires ConstAt(cs, o) == Some(c) && Wide(c)
    requires |r.tags| == |r.data| == |p.tags| && Resolved(p, r, o + 1)
    requires o + 2 < |p.tags| ==> Resolved(p, r, o + 2)
    ensures Decodes(cfg, r, cs, o + 1, c)
  {
    FirstSlot(cfg, cs, p, o);
    WideSlotsStay(cfg, cs, p, r, o, c);
    WideSlotsDecode(cfg, c.hi, c.lo);
    WideSlotsDecode(cfg, c.lo, c.hi);
  }

  /** The second slot of a wide constant is nobody's first. */
  lemma {:induction false} AfterWide(cs: seq<Const>, o: nat)
    requires ConstAt(cs, o).Some? && Wide(ConstAt(cs, o).value)
    ensures ConstAt(cs, o + 1).None?
  {
    if o > 0 {
      AfterWide(cs[1..], o - Width(cs[0]));
    }
  }

  /** Reading a serialised pool succeeds, consumes exactly its bytes, and its slots decode to the
      constants that were written: class and string slots point at their Utf8, before or after
      them, and are marked as errors when they name something else. */
  lemma RoundTrip(cfg: Config, cs: seq<Const>, rest: seq<Byte>, refs: multiset<seq<Byte>>)
    requires 1 + Slots(cs) < 0x1_0000 && AllOk(cfg, cs, 1 + Slots(cs))
    ensures var r := ReadPool(cfg, Encode(cfg, cs) + rest, refs);
      && r.Done? && r.p.pos == |Encode(cfg, cs)| && |r.p.tags| == |r.p.data| == 1 + Slots(cs)
      && forall o :: 0 <= o < Slots(cs) && ConstAt(cs, o).Some? ==> Decodes(cfg, r.p, cs, o + 1, ConstAt(cs, o).value)
  {
    var n := 1 + Slots(cs);
    var bytes := Encode(cfg, cs) + rest;
    assert Stands(bytes, 0, Enc2(n)) && Stands(bytes, 2, Body(cfg, cs, n));
    StandsU2(bytes, 0, n);
    FirstPassFills(cfg, bytes, n, Start(refs), cs);
    var p := FirstPass(cfg, bytes, n, Start(refs)).p;
    SecondPassPos(p, n, 1);
    var r := SecondPass(p, n, 1);
    forall o | 0 <= o < Slots(cs) && ConstAt(cs, o).Some?
      ensures Decodes(cfg, r, cs, o + 1, ConstAt(cs, o).value)
    {
      SlotDecodes(cfg, cs, p, o, ConstAt(cs, o).value);
    }
  }

  lemma SlotDecodes(cfg: Config, cs: seq<Const>, p: Progress, o: nat, c: Const)
    requires 1 + Slots(cs) < 0x1_0000 && AllOk(cfg, cs, 1 + Slots(cs)) && FirstSlots(cfg, cs, p) && o < Slots(cs)
    requires Pending(p, 1 + Slots(cs), 1) && ConstAt(cs, o) == Some(c)
    ensures Decodes(cfg, SecondPass(p, 1 + Slots(cs), 1), cs, o + 1, c)
  {
    var n := 1 + Slots(cs);
    var r := SecondPass(p, n, 1);
    SecondPassAt(p, n, 1, o + 1);
    if c.Class? || c.Str? {
      NameIsPlaced(cfg, cs, p, o, c);
      NameResolved(cfg, cs, p, r, o + 1, c);
    } else if Wide(c) {
      FirstSlot(cfg, cs, p, o);
      SecondPassAt(p, n, 1, o + 2);
      DecodesWide(cfg, cs, p, r, o, c);
    } else {
      DecodesPlain(cfg, cs, p, r, o, c);
    }
  }
}
