/** Reading the constant pool of a class file: what the two passes make of the bytes. */
module ConstantPool {

  type Byte = b: int | 0 <= b < 256

  const UTF8 := 1
  const INTEGER := 3
  const FLOAT := 4
  const LONG := 5
  const DOUBLE := 6
  const CLASS := 7
  const STRING := 8
  const FIELDREF := 9
  const METHODREF := 10
  const INTERFACEMETHODREF := 11
  const NAMEANDTYPE := 12
  const UNKNOWN := 0
  const ERROR := 0

  /** Words are eight bytes or four; some machines keep the words of a double the other way round. */
  datatype Config = Config(ptr64: bool, swapDouble: bool, valid: seq<Byte> -> bool)

  /** A slot holds a number or points to an interned string. */
  datatype Slot = Word(n: nat) | Utf(s: seq<Byte>)

  // ----- big-endian numbers -----

  function U2(bytes: seq<Byte>, pos: nat): (v: nat)
    requires pos + 2 <= |bytes|
    ensures v < 0x1_0000
  {
    var hi: int, lo: int := bytes[pos], bytes[pos + 1];
    hi * 256 + lo
  }

  function U4(bytes: seq<Byte>, pos: nat): (v: nat)
    requires pos + 4 <= |bytes|
    ensures v < 0x1_0000_0000
  {
    U2(bytes, pos) * 0x1_0000 + U2(bytes, pos + 2)
  }

  // ----- packing and the accessor macros -----

  /** Two 16-bit halves in one slot. The high half is shifted as a signed 32-bit number, so a wide
      slot is filled with its sign. */
  function Pack(cfg: Config, lo: nat, hi: nat): nat
    requires lo < 0x1_0000 && hi < 0x1_0000
  {
    hi * 0x1_0000 + lo + if cfg.ptr64 && hi >= 0x8000 then 0xFFFF_FFFF_0000_0000 else 0
  }

  /** FIELDREF_CLASS, METHODREF_CLASS, NAMEANDTYPE_NAME, CLASS_NAME. */
  function LowHalf(n: nat): nat {
    n % 0x1_0000
  }

  /** FIELDREF_NAMEANDTYPE, METHODREF_NAMEANDTYPE, NAMEANDTYPE_SIGNATURE. */
  function HighHalf(n: nat): nat {
    n / 0x1_0000 % 0x1_0000
  }

  /** WORDS_TO_LONG. */
  function WordsToLong(hi: nat, lo: nat): nat {
    hi * 0x1_0000_0000 + lo
  }

  lemma PackRoundTrip(cfg: Config, lo: nat, hi: nat)
    requires lo < 0x1_0000 && hi < 0x1_0000
    ensures LowHalf(Pack(cfg, lo, hi)) == lo && HighHalf(Pack(cfg, lo, hi)) == hi
  {}

  /** The slot holds the halves as one signed 32-bit number, in as many bits as a slot has. */
  lemma PackIsSigned(cfg: Config, lo: nat, hi: nat)
    requires lo < 0x1_0000 && hi < 0x1_0000
    ensures var signed := (if hi < 0x8000 then hi else hi - 0x1_0000) * 0x1_0000 + lo;
      Pack(cfg, lo, hi) == signed % if cfg.ptr64 then 0x1_0000_0000_0000_0000 else 0x1_0000_0000
  {}

  // ----- first pass -----

  /** How far the first pass has come: the slots filled so far and the string references held. */
  datatype Progress = Progress(pos: nat, tags: seq<nat>, data: seq<Slot>, refs: multiset<seq<Byte>>)

  datatype Step = Next(p: Progress) | Fail | Overrun

  function Add(p: Progress, used: nat, tag: nat, slot: Slot): Progress {
    p.(pos := p.pos + used, tags := p.tags + [tag], data := p.data + [slot])
  }

  /** The two slots of a long or double. */
  function WideSlots(cfg: Config, first: nat, second: nat): seq<Slot> {
    if cfg.ptr64 then [Word(WordsToLong(first, second)), Word(0)] else [Word(first), Word(second)]
  }

  /** As many tags as slots; Utf8 slots point to strings, and class and string slots from `from` on
      still hold the index, within the pool, of a string. */
  predicate Pending(p: Progress, size: nat, from: nat) {
    && |p.data| == |p.tags|
    && forall i :: 0 <= i < |p.tags| ==>
         && (p.tags[i] == UTF8 ==> p.data[i].Utf?)
         && (i >= from && (p.tags[i] == CLASS || p.tags[i] == STRING) ==>
               p.data[i].Word? && 0 < p.data[i].n < size < 0x1_0000)
  }

  predicate Shaped(p: Progress, size: nat) {
    size < 0x1_0000 && Pending(p, size, 0)
  }

  /** A long or double takes two slots; in the last slot it would run past the end of the arrays. */
  function AddWide(cfg: Config, p: Progress, size: nat, tag: nat, first: nat, second: nat): Step {
    if |p.tags| + 1 >= size then Overrun
    else Next(p.(pos := p.pos + 9, tags := p.tags + [tag, UNKNOWN], data := p.data + WideSlots(cfg, first, second)))
  }

  /** Read the constant for the next slot. */
  function ReadOne(cfg: Config, bytes: seq<Byte>, size: nat, p: Progress): (r: Step)
    ensures r.Next? ==> |r.p.tags| > |p.tags|
    ensures r.Next? && Shaped(p, size) ==> Shaped(r.p, size)
  {
    if p.pos + 1 > |bytes| then Fail
    else
      var tag, at := bytes[p.pos], p.pos + 1;
      if tag == UTF8 then
        if at + 2 > |bytes| then Fail
        else
          var len := U2(bytes, at);
          if at + 2 + len > |bytes| then Fail
          else
            var s := bytes[at + 2..at + 2 + len];
            if !cfg.valid(s) then Fail
            else Next(Add(p, 3 + len, tag, Utf(s)).(refs := p.refs + multiset{s}))
      else if tag == CLASS || tag == STRING then
        if at + 2 > |bytes| then Fail
        else
          var d := U2(bytes, at);
          if d == 0 || d >= size then Fail else Next(Add(p, 3, tag, Word(d)))
      else if tag == FIELDREF || tag == METHODREF || tag == INTERFACEMETHODREF || tag == NAMEANDTYPE then
        if at + 4 > |bytes| then Fail
        else Next(Add(p, 5, tag, Word(Pack(cfg, U2(bytes, at), U2(bytes, at + 2)))))
      else if tag == INTEGER || tag == FLOAT then
        if at + 4 > |bytes| then Fail else Next(Add(p, 5, tag, Word(U4(bytes, at))))
      else if tag == LONG then
        if at + 8 > |bytes| then Fail
        else AddWide(cfg, p, size, tag, U4(bytes, at), U4(bytes, at + 4))
      else if tag == DOUBLE then
        if at + 8 > |bytes| then Fail
        else if cfg.swapDouble then AddWide(cfg, p, size, tag, U4(bytes, at + 4), U4(bytes, at))
        else AddWide(cfg, p, size, tag, U4(bytes, at), U4(bytes, at + 4))
      else Fail
  }

  datatype Pass = Filled(p: Progress) | Failed(p: Progress) | Overran

  /** Read until every slot is filled. */
  function FirstPass(cfg: Config, bytes: seq<Byte>, size: nat, p: Progress): (r: Pass)
    requires Shaped(p, size)
    ensures !r.Overran? ==> Shaped(r.p, size)
    ensures r.Filled? ==> |r.p.tags| >= size
    decreases size - |p.tags|
  {
    if |p.tags| >= size then Filled(p)
    else
      match ReadOne(cfg, bytes, size, p)
      case Fail => Failed(p)
      case Overrun => Overran
      case Next(q) => FirstPass(cfg, bytes, size, q)
  }

  /** Before any constant is read: slot zero. */
  function Start(refs: multiset<seq<Byte>>): Progress {
    Progress(2, [UNKNOWN], [Word(0)], refs)
  }

  // ----- second pass -----

  /** Point a class or string slot at its string, or mark it as an error. */
  function Resolve(p: Progress, size: nat, i: nat): (r: Progress)
    requires Pending(p, size, i) && i < |p.tags| && size <= |p.tags|
    ensures |r.tags| == |p.tags| && Pending(r, size, i + 1)
  {
    if p.tags[i] == CLASS || p.tags[i] == STRING then
      var j := LowHalf(p.data[i].n);
      if p.tags[j] == UTF8 then p.(data := p.data[i := p.data[j]], refs := p.refs + multiset{p.data[j].s})
      else p.(tags := p.tags[i := ERROR])
    else p
  }

  function SecondPass(p: Progress, size: nat, i: nat): (r: Progress)
    requires Pending(p, size, i) && size <= |p.tags|
    ensures |r.tags| == |r.data| == |p.tags|
    decreases |p.tags| - i
  {
    if i >= |p.tags| then p else SecondPass(Resolve(p, size, i), size, i + 1)
  }

  // ----- the failure path -----

  /** Give back the reference of every Utf8 slot filled so far. */
  function Release(tags: seq<nat>, data: seq<Slot>, refs: multiset<seq<Byte>>): multiset<seq<Byte>>
    requires |data| == |tags| && forall i :: 0 <= i < |tags| && tags[i] == UTF8 ==> data[i].Utf?
  {
    if tags == [] then refs
    else Release(tags[1..], data[1..], if tags[0] == UTF8 then refs - multiset{data[0].s} else refs)
  }

  // ----- the whole read -----

  datatype Outcome =
    | Done(p: Progress)
    // size is set to zero
    | Failure(refs: multiset<seq<Byte>>)
    // not even the count could be read: nothing is touched
    | NoCount
    // a write past the end of the arrays
    | OutOfBounds

  function ReadPool(cfg: Config, bytes: seq<Byte>, refs: multiset<seq<Byte>>): Outcome {
    if |bytes| < 2 then NoCount
    else if U2(bytes, 0) == 0 then OutOfBounds
    else
      var size := U2(bytes, 0);
      match FirstPass(cfg, bytes, size, Start(refs))
      case Overran => OutOfBounds
      case Failed(p) => Failure(Release(p.tags, p.data, p.refs))
      case Filled(p) => Done(SecondPass(p, size, 1))
  }
}
