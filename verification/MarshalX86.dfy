/** Passing arguments to native code on x86-64: six integer registers, eight float registers and a
    shared stack. */
module MarshalX86 {

  const LOW := 0x1_0000_0000

  /** A 64-bit argument value; a float is its low half. */
  type Word = w: int | 0 <= w < 0x1_0000_0000_0000_0000

  // ----- where the calling convention looks for an argument -----

  /** Floats and doubles are of class SSE, all else of class INTEGER. */
  predicate IsSse(c: char) {
    c in {'F', 'D'}
  }

  /** Float or integer arguments among the first `n`. */
  function Floats(types: string, n: nat): (r: nat)
    requires n <= |types|
    ensures r <= n
  {
    if n == 0 then 0 else Floats(types, n - 1) + if IsSse(types[n - 1]) then 1 else 0
  }

  function Integers(types: string, n: nat): nat
    requires n <= |types|
  {
    n - Floats(types, n)
  }

  function Min(a: nat, b: nat): nat {
    if a < b then a else b
  }

  function Excess(a: nat, b: nat): nat {
    if a < b then 0 else a - b
  }

  /** Arguments among the first `n` that found no register. */
  function InMemory(types: string, n: nat): nat
    requires n <= |types|
  {
    Excess(Integers(types, n), 6) + Excess(Floats(types, n), 8)
  }

  datatype Location = Gpr(i: nat) | Fpr(i: nat) | Stack(i: nat)

  /** The k-th argument of a class goes to register k of that class; those left over go to the stack
      in argument order. */
  function Place(types: string, i: nat): Location
    requires i < |types|
  {
    if IsSse(types[i]) then
      if Floats(types, i) < 8 then Fpr(Floats(types, i)) else Stack(InMemory(types, i))
    else
      if Integers(types, i) < 6 then Gpr(Integers(types, i)) else Stack(InMemory(types, i))
  }

  /** What the callee sees of a word: all of it, or only the float in its low half. */
  function Value(c: char, w: Word): nat {
    if c == 'F' then w % LOW else w
  }

  lemma {:induction false} CountsGrow(types: string, i: nat, n: nat)
    requires i <= n <= |types|
    ensures Floats(types, i) <= Floats(types, n) && Integers(types, i) <= Integers(types, n)
    ensures InMemory(types, i) <= InMemory(types, n)
  {
    if i < n { CountsGrow(types, i, n - 1); }
  }

  /** An argument lies below the counters of every later one. */
  lemma PlaceBefore(types: string, i: nat, n: nat)
    requires i < n <= |types|
    ensures match Place(types, i)
            case Gpr(k) => k < Min(Integers(types, n), 6)
            case Fpr(k) => k < Min(Floats(types, n), 8)
            case Stack(k) => k < InMemory(types, n)
  {
    CountsGrow(types, i + 1, n);
  }

  /** No two arguments share a place. */
  lemma PlacesDiffer(types: string, i: nat, j: nat)
    requires i < j < |types|
    ensures Place(types, i) != Place(types, j)
  {
    PlaceBefore(types, i, j);
  }

  /** Register images and stack block. */
  datatype Frame = Frame(gpr: seq<Word>, fpr: seq<Word>, stack: seq<Word>)

  predicate Has(m: Frame, l: Location) {
    match l
    case Gpr(k) => k < |m.gpr|
    case Fpr(k) => k < |m.fpr|
    case Stack(k) => k < |m.stack|
  }

  function Load(m: Frame, l: Location): Word
    requires Has(m, l)
  {
    match l
    case Gpr(k) => m.gpr[k]
    case Fpr(k) => m.fpr[k]
    case Stack(k) => m.stack[k]
  }

  function Store(m: Frame, l: Location, w: Word): Frame
    requires Has(m, l)
  {
    match l
    case Gpr(k) => m.(gpr := m.gpr[k := w])
    case Fpr(k) => m.(fpr := m.fpr[k := w])
    case Stack(k) => m.(stack := m.stack[k := w])
  }

  /** The callee finds the first `n` arguments in their places. */
  ghost predicate Found(types: string, args: seq<Word>, n: nat, m: Frame)
    requires n <= |types| == |args|
  {
    forall i :: 0 <= i < n ==> FoundAt(types, args, i, m)
  }

  ghost predicate FoundAt(types: string, args: seq<Word>, i: nat, m: Frame)
    requires i < |types| == |args|
  {
    var l := Place(types, i);
    Has(m, l) && Value(types[i], Load(m, l)) == Value(types[i], args[i])
  }

  lemma StoreElsewhere(m: Frame, l: Location, w: Word, k: Location)
    requires Has(m, l) && Has(m, k)
    ensures Has(Store(m, l, w), k) && Load(Store(m, l, w), k) == if k == l then w else Load(m, k)
  {}

  lemma StoreNext(types: string, args: seq<Word>, n: nat, m: Frame, w: Word)
    requires n < |types| == |args| && Found(types, args, n, m) && Has(m, Place(types, n))
    requires Value(types[n], w) == Value(types[n], args[n])
    ensures Found(types, args, n + 1, Store(m, Place(types, n), w))
  {
    var r := Store(m, Place(types, n), w);
    forall i | 0 <= i <= n ensures FoundAt(types, args, i, r) {
      if i < n {
        assert FoundAt(types, args, i, m);
        PlacesDiffer(types, i, n);
      }
      StoreElsewhere(m, Place(types, n), w, Place(types, i));
    }
  }

  // ----- the marshaller -----

  const GPR_ARGS := 6
  const FPR_ARGS := 8

  predicate IsFloat(c: char) {
    c == 'F' || c == 'D'
  }

  /** The counters behind the first `n` arguments. */
  predicate Counted(types: string, n: nat, g: nat, f: nat, s: nat) {
    && n <= |types| && s == InMemory(types, n)
    && g == Min(Integers(types, n), GPR_ARGS) && f == Min(Floats(types, n), FPR_ARGS)
  }

  /** The place the counters point to. */
  function Slot(c: char, g: nat, f: nat, s: nat): Location {
    if IsFloat(c) then if f < FPR_ARGS then Fpr(f) else Stack(s)
    else if g < GPR_ARGS then Gpr(g) else Stack(s)
  }

  lemma SlotIsPlace(types: string, n: nat, g: nat, f: nat, s: nat)
    requires n < |types| && Counted(types, n, g, f, s)
    ensures Slot(types[n], g, f, s) == Place(types, n)
    ensures match Slot(types[n], g, f, s)
            case Gpr(_) => Counted(types, n + 1, g + 1, f, s)
            case Fpr(_) => Counted(types, n + 1, g, f + 1, s)
            case Stack(_) => Counted(types, n + 1, g, f, s + 1)
  {}

  /** The first pass. */
  method CountStack(types: string) returns (words: nat)
    ensures words == InMemory(types, |types|)
  {
    var g, f := 0, 0;
    words := 0;
    var i := 0;
    while i < |types|
      invariant Counted(types, i, g, f, words)
    {
      SlotIsPlace(types, i, g, f, words);
      if IsFloat(types[i]) {
        if f < FPR_ARGS { f := f + 1; } else { words := words + 1; }
      } else {
        if g < GPR_ARGS { g := g + 1; } else { words := words + 1; }
      }
      i := i + 1;
    }
  }

  /** Store a float in the low half of a stack word. */
  function WithLow(w: Word, v: Word): (r: Word)
    ensures r % LOW == v % LOW && r / LOW == w / LOW
  {
    w / LOW * LOW + v % LOW
  }

  /** The buffers of one call. */
  class CallFrame {
    var gpr: array<Word>
    var fpr: array<Word>
    var stack: array<Word>

    constructor (words: nat)
      ensures Valid() && stack.Length == words && fresh(gpr) && fresh(fpr) && fresh(stack)
    {
      gpr, fpr, stack := new Word[GPR_ARGS], new Word[FPR_ARGS], new Word[words];
    }

    ghost predicate Valid()
      reads this
    {
      && gpr.Length == GPR_ARGS && fpr.Length == FPR_ARGS
      && gpr != fpr && gpr != stack && fpr != stack
    }

    ghost function Image(): Frame
      reads this, gpr, fpr, stack
    {
      Frame(gpr[..], fpr[..], stack[..])
    }

    /** One turn of the second pass: store the argument where the counters point. */
    method PutArgument(c: char, v: Word, g: nat, f: nat, s: nat) returns (ghost w: Word)
      requires Valid() && Has(Image(), Slot(c, g, f, s))
      modifies gpr, fpr, stack
      ensures Image() == Store(old(Image()), Slot(c, g, f, s), w)
      ensures if c == 'F' && Slot(c, g, f, s).Stack?
              then w % LOW == v % LOW && w / LOW == Load(old(Image()), Slot(c, g, f, s)) / LOW
              else w == v
    {
      w := v;
      if IsFloat(c) {
        if f < FPR_ARGS {
          fpr[f] := v;
        } else if c == 'F' {
          w := WithLow(stack[s], v);
          stack[s] := WithLow(stack[s], v);
        } else {
          stack[s] := v;
        }
      } else {
        if g < GPR_ARGS {
          gpr[g] := v;
        } else {
          stack[s] := v;
        }
      }
    }

    /** The second pass: the callee finds every argument, whatever the block held before. */
    method PutArguments(types: string, args: seq<Word>) returns (words: nat)
      requires Valid() && |args| == |types| && InMemory(types, |types|) <= stack.Length
      modifies gpr, fpr, stack
      ensures Found(types, args, |args|, Image()) && words == InMemory(types, |types|)
    {
      var g, f := 0, 0;
      words := 0;
      var i := 0;
      while i < |args|
        invariant i <= |args| && Counted(types, i, g, f, words) && Found(types, args, i, Image())
      {
        PlaceBefore(types, i, |types|);
        SlotIsPlace(types, i, g, f, words);
        ghost var before := Image();
        ghost var w := PutArgument(types[i], args[i], g, f, words);
        StoreNext(types, args, i, before, w);
        if IsFloat(types[i]) {
          if f < FPR_ARGS { f := f + 1; } else { words := words + 1; }
        } else {
          if g < GPR_ARGS { g := g + 1; } else { words := words + 1; }
        }
        i := i + 1;
      }
    }
  }

  /** The stack block holds whole pairs of words. */
  function BlockSize(words: nat): (r: nat)
    ensures words <= r <= words + 1 && r % 2 == 0
  {
    if words > 0 then (words + 1) / 2 * 2 else 0
  }

  /** Both passes. The second writes as many stack words as the first counted, into a block rounded
      up to whole pairs. */
  method Marshal(types: string, args: seq<Word>) returns (m: CallFrame, words: nat)
    requires |args| == |types|
    ensures Found(types, args, |args|, m.Image())
    ensures words == InMemory(types, |types|) <= m.stack.Length <= words + 1 && m.stack.Length % 2 == 0
  {
    var counted := CountStack(types);
    m := new CallFrame(BlockSize(counted));
    words := m.PutArguments(types, args);
  }

  // ----- places in plain numbers -----

  lemma {:induction false} AllOneClass(types: string, n: nat, sse: bool)
    requires n <= |types| && forall i :: 0 <= i < n ==> (IsSse(types[i]) <==> sse)
    ensures Floats(types, n) == if sse then n else 0
  {
    if n > 0 { AllOneClass(types, n - 1, sse); }
  }

  /** Arguments that are neither floats nor doubles: six in registers, the rest on the stack. */
  lemma IntegersInOrder(types: string, i: nat)
    requires i < |types| && forall k :: 0 <= k <= i ==> types[k] != 'F' && types[k] != 'D'
    ensures Place(types, i) == if i < 6 then Gpr(i) else Stack(i - 6)
  {
    AllOneClass(types, i, false);
  }

  /** Floats and doubles: eight in registers, the rest on the stack. */
  lemma FloatsInOrder(types: string, i: nat)
    requires i < |types| && forall k :: 0 <= k <= i ==> types[k] == 'F' || types[k] == 'D'
    ensures Place(types, i) == if i < 8 then Fpr(i) else Stack(i - 8)
  {
    AllOneClass(types, i, true);
  }
}
