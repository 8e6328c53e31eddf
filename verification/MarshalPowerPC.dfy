/** Passing arguments to native code on PowerPC: one block of words holds the outgoing stack and the
    images of eight integer and eight float registers. */
module MarshalPowerPC {

  const GPR_ARGS := 8
  const FPR_ARGS := 8
  const ARG_DISPLACEMENT := -2

  type Word = w: int | 0 <= w < 0x1_0000_0000

  /** An argument value as it lies in memory; 32-bit values are its first word. */
  datatype Value = Value(first: Word, second: Word)

  // ----- the first pass -----

  /** Registers used, and stack words used. */
  datatype Counts = Counts(g: nat, f: nat, s: nat)

  function Even(n: int): (r: int)
    ensures r % 2 == 0 && n <= r <= n + 1
  {
    n + n % 2
  }

  /** Two more stack words, aligned to a pair. */
  function PushPair(k: Counts): Counts {
    k.(s := if k.s % 2 == 1 then k.s + 3 else k.s + 2)
  }

  function Step(c: char, k: Counts): Counts {
    if c == 'D' then
      if k.f < FPR_ARGS then k.(f := k.f + 1) else PushPair(k)
    else if c == 'F' then
      if k.f < FPR_ARGS then k.(f := k.f + 1) else k.(s := k.s + 1)
    else if c == 'J' then
      var a := k.(g := Even(k.g));
      if a.g + 1 < GPR_ARGS then a.(g := a.g + 2) else PushPair(a)
    else
      if k.g < GPR_ARGS then k.(g := k.g + 1) else k.(s := k.s + 1)
  }

  /** The counters behind the first `n` arguments. */
  function Run(types: string, n: nat): (k: Counts)
    requires n <= |types|
    ensures k.g <= GPR_ARGS && k.f <= FPR_ARGS
  {
    if n == 0 then Counts(0, 0, 0) else Step(types[n - 1], Run(types, n - 1))
  }

  method CountArguments(types: string) returns (g: nat, f: nat, s: nat)
    ensures Counts(g, f, s) == Run(types, |types|)
  {
    g, f, s := 0, 0, 0;
    var i := 0;
    while i < |types|
      invariant i <= |types| && Counts(g, f, s) == Run(types, i)
    {
      if types[i] == 'D' {
        if f < FPR_ARGS { f := f + 1; }
        else if s % 2 == 1 { s := s + 3; }
        else { s := s + 2; }
      } else if types[i] == 'F' {
        if f < FPR_ARGS { f := f + 1; } else { s := s + 1; }
      } else if types[i] == 'J' {
        if g % 2 == 1 { g := g + 1; }
        if g + 1 < GPR_ARGS { g := g + 2; }
        else if s % 2 == 1 { s := s + 3; }
        else { s := s + 2; }
      } else {
        if g < GPR_ARGS { g := g + 1; } else { s := s + 1; }
      }
      i := i + 1;
    }
  }

  // ----- the block -----

  /** Words of the three areas together. */
  function Needed(k: Counts): nat {
    k.g + 2 * k.f + k.s
  }

  /** Words the block is given: rounded DOWN to four where there are stack arguments. */
  function Allocated(k: Counts): nat {
    if k.s > 0 then Needed(k) - Needed(k) % 4 else Needed(k)
  }

  /** Where an argument of a type goes, by the counters in front of it. */
  datatype Place = Gpr(i: nat) | Fpr(i: nat) | Stack(i: nat)

  function PlaceOf(c: char, k: Counts): Place {
    if c == 'D' then if k.f < FPR_ARGS then Fpr(k.f) else Stack(Even(k.s))
    else if c == 'F' then if k.f < FPR_ARGS then Fpr(k.f) else Stack(k.s)
    else if c == 'J' then if Even(k.g) + 1 < GPR_ARGS then Gpr(Even(k.g)) else Stack(Even(k.s))
    else if k.g < GPR_ARGS then Gpr(k.g) else Stack(k.s)
  }

  /** Word address of a place: stack arguments start below the block, the register images follow. */
  function Address(base: int, all: Counts, p: Place): int {
    match p
    case Stack(i) => base + ARG_DISPLACEMENT + i
    case Gpr(i) => base + all.s + i
    case Fpr(i) => base + all.s + all.g + 2 * i
  }

  /** Float registers hold doubles. */
  function Width(c: char, p: Place): nat {
    if p.Fpr? || c == 'D' || c == 'J' then 2 else 1
  }

  function Where(base: int, types: string, i: nat): int
    requires i < |types|
  {
    Address(base, Run(types, |types|), PlaceOf(types[i], Run(types, i)))
  }

  function WidthAt(types: string, i: nat): nat
    requires i < |types|
  {
    Width(types[i], PlaceOf(types[i], Run(types, i)))
  }

  lemma {:induction false} CountsGrow(types: string, i: nat, n: nat)
    requires i <= n <= |types|
    ensures var a, b := Run(types, i), Run(types, n); a.g <= b.g && a.f <= b.f && a.s <= b.s
  {
    if i < n { CountsGrow(types, i, n - 1); }
  }

  /** End of a place in its own area. */
  predicate Below(c: char, p: Place, k: Counts) {
    match p
    case Gpr(i) => i + Width(c, p) <= k.g
    case Fpr(i) => i < k.f
    case Stack(i) => i + Width(c, p) <= k.s
  }

  predicate NotBelow(p: Place, k: Counts) {
    match p
    case Gpr(i) => i >= k.g
    case Fpr(i) => i >= k.f
    case Stack(i) => i >= k.s
  }

  /** Every argument takes its place above the counters in front of it and below those behind it. */
  lemma PlaceBetween(c: char, k: Counts)
    ensures NotBelow(PlaceOf(c, k), k) && Below(c, PlaceOf(c, k), Step(c, k))
  {}

  /** Every argument lies within the three areas. */
  lemma InBlock(base: int, types: string, i: nat)
    requires i < |types|
    ensures base + ARG_DISPLACEMENT <= Where(base, types, i)
    ensures Where(base, types, i) + WidthAt(types, i) <= base + Needed(Run(types, |types|))
  {
    PlaceBetween(types[i], Run(types, i));
    CountsGrow(types, i + 1, |types|);
  }

  lemma BelowGrows(c: char, p: Place, k: Counts, l: Counts)
    requires Below(c, p, k) && k.g <= l.g && k.f <= l.f && k.s <= l.s
    ensures Below(c, p, l)
  {}

  /** Of two places with the counters k between them, the words do not overlap: in one area they stand
      in order, and the areas are apart. */
  lemma PlacesApart(base: int, all: Counts, c: char, p: Place, d: char, q: Place, k: Counts)
    requires Below(c, p, k) && NotBelow(q, k) && Below(c, p, all) && Below(d, q, all)
    ensures || Address(base, all, p) + Width(c, p) <= Address(base, all, q)
            || Address(base, all, q) + Width(d, q) <= Address(base, all, p)
  {}

  /** No two arguments share a word. */
  lemma NoSharing(base: int, types: string, i: nat, j: nat)
    requires i < j < |types|
    ensures || Where(base, types, i) + WidthAt(types, i) <= Where(base, types, j)
            || Where(base, types, j) + WidthAt(types, j) <= Where(base, types, i)
  {
    var c, d, all := types[i], types[j], Run(types, |types|);
    var p, q := PlaceOf(c, Run(types, i)), PlaceOf(d, Run(types, j));
    PlaceBetween(c, Run(types, i));
    PlaceBetween(d, Run(types, j));
    CountsGrow(types, i + 1, j);
    CountsGrow(types, i + 1, |types|);
    CountsGrow(types, j + 1, |types|);
    BelowGrows(c, p, Run(types, i + 1), Run(types, j));
    BelowGrows(c, p, Run(types, i + 1), all);
    BelowGrows(d, q, Run(types, j + 1), all);
    PlacesApart(base, all, c, p, d, q, Run(types, j));
  }

  /** Longs start in even registers; longs and doubles on the stack start on eight-byte boundaries. */
  lemma PairsAligned(base: int, all: Counts, c: char, k: Counts)
    requires (c == 'J' || c == 'D') && base % 2 == 0
    ensures match PlaceOf(c, k)
            case Gpr(r) => r % 2 == 0
            case Fpr(_) => true
            case Stack(_) => Address(base, all, PlaceOf(c, k)) % 2 == 0
  {
    EvenSum(base, Even(k.s));
  }

  lemma EvenSum(base: int, n: nat)
    requires base % 2 == 0
    ensures (base + ARG_DISPLACEMENT + n) % 2 == n % 2
  {}

  /** Aligning by the address is aligning by the count. */
  lemma EvenShift(base: int, n: nat)
    requires base % 2 == 0
    ensures Even(base + ARG_DISPLACEMENT + n) == base + ARG_DISPLACEMENT + Even(n)
  {
    EvenSum(base, n);
  }

  // ----- places in plain numbers -----

  ghost predicate AllOf(types: string, n: nat, c: char) {
    n <= |types| && forall k :: 0 <= k < n ==> types[k] == c
  }

  lemma {:induction false} RunOfInts(types: string, n: nat)
    requires AllOf(types, n, 'I')
    ensures Run(types, n) == if n <= 8 then Counts(n, 0, 0) else Counts(8, 0, n - 8)
  {
    if n > 0 { RunOfInts(types, n - 1); }
  }

  lemma {:induction false} RunOfLongs(types: string, n: nat)
    requires AllOf(types, n, 'J')
    ensures Run(types, n) == if n <= 4 then Counts(2 * n, 0, 0) else Counts(8, 0, 2 * (n - 4))
  {
    if n > 0 { RunOfLongs(types, n - 1); }
  }

  lemma {:induction false} RunOfDoubles(types: string, n: nat)
    requires AllOf(types, n, 'D')
    ensures Run(types, n) == if n <= 8 then Counts(0, n, 0) else Counts(0, 8, 2 * (n - 8))
  {
    if n > 0 { RunOfDoubles(types, n - 1); }
  }

  lemma {:induction false} RunOfFloats(types: string, n: nat)
    requires AllOf(types, n, 'F')
    ensures Run(types, n) == if n <= 8 then Counts(0, n, 0) else Counts(0, 8, n - 8)
  {
    if n > 0 { RunOfFloats(types, n - 1); }
  }

  /** Of ints, eight are in registers and the rest in a stack word each. */
  lemma IntsInOrder(types: string, n: nat)
    requires AllOf(types, n + 1, 'I')
    ensures PlaceOf(types[n], Run(types, n)) == if n < 8 then Gpr(n) else Stack(n - 8)
  {
    RunOfInts(types, n);
  }

  /** Of longs, four are in pairs of registers and the rest in two stack words each. */
  lemma LongsInOrder(types: string, n: nat)
    requires AllOf(types, n + 1, 'J')
    ensures PlaceOf(types[n], Run(types, n)) == if n < 4 then Gpr(2 * n) else Stack(2 * (n - 4))
  {
    RunOfLongs(types, n);
    if n <= 4 { EvenDouble(n); } else { EvenDouble(n - 4); }
  }

  lemma EvenDouble(n: nat)
    ensures Even(2 * n) == 2 * n
  {}

  /** Of doubles, eight are in registers and the rest in two stack words each. */
  lemma DoublesInOrder(types: string, n: nat)
    requires AllOf(types, n + 1, 'D')
    ensures PlaceOf(types[n], Run(types, n)) == if n < 8 then Fpr(n) else Stack(2 * (n - 8))
  {
    RunOfDoubles(types, n);
    if n >= 8 { EvenDouble(n - 8); }
  }

  /** Of floats, eight are in registers and the rest in a stack word each. */
  lemma FloatsInOrder(types: string, n: nat)
    requires AllOf(types, n + 1, 'F')
    ensures PlaceOf(types[n], Run(types, n)) == if n < 8 then Fpr(n) else Stack(n - 8)
  {
    RunOfFloats(types, n);
  }

  predicate IsFloating(c: char) {
    c == 'F' || c == 'D'
  }

  /** Whether a type finds no register. */
  predicate Full(c: char, k: Counts) {
    PlaceOf(c, k).Stack?
  }

  lemma LongTakesTheLast(k: Counts)
    requires Full('J', k) && k.g <= 8
    ensures Step('J', k).g == 8
  {}

  /** Once a long finds no pair of registers, the odd one left is not used either: whatever integers follow
      go to the stack. */
  lemma LongClosesRegisters(types: string, i: nat, j: nat)
    requires i < j < |types| && types[i] == 'J' && Full('J', Run(types, i)) && !IsFloating(types[j])
    ensures Full(types[j], Run(types, j))
  {
    LongTakesTheLast(Run(types, i));
    CountsGrow(types, i + 1, j);
    assert Run(types, j).g == 8;
  }

  /** Once an argument of a type has gone to the stack, so do all later ones of that type. */
  lemma {:induction false} StackFromThenOn(types: string, i: nat, j: nat)
    requires i < j < |types| && types[i] == types[j] && Full(types[i], Run(types, i))
    ensures Full(types[j], Run(types, j))
  {
    CountsGrow(types, i, j);
  }

  /** Stack arguments start two words below the block; behind its stack words come the integer registers,
      then the float registers, two words each. */
  lemma AreasInOrder(base: int, all: Counts)
    ensures Address(base, all, Stack(0)) == base - 2
    ensures Address(base, all, Gpr(0)) == base + all.s && Address(base, all, Gpr(1)) == base + all.s + 1
    ensures Address(base, all, Fpr(0)) == base + all.s + all.g && Address(base, all, Fpr(1)) == base + all.s + all.g + 2
  {}

  // ----- when the block is large enough -----

  /** A long met with one integer register left: that register stays unused. */
  ghost predicate SkipsLast(types: string, n: nat)
    requires n <= |types|
  {
    exists i :: 0 <= i < n && SkipsAt(types, i)
  }

  predicate SkipsAt(types: string, i: nat)
    requires i < |types|
  {
    types[i] == 'J' && Run(types, i).g == GPR_ARGS - 1
  }

  /** Some argument among the first `n` ends with integer register `end`. */
  ghost predicate EndsInGpr(types: string, n: nat, end: nat)
    requires n <= |types|
  {
    exists i :: 0 <= i < n && GprEnd(types, i) == end
  }

  /** One past the last integer register of an argument, or zero. */
  function GprEnd(types: string, i: nat): nat
    requires i < |types|
  {
    var p := PlaceOf(types[i], Run(types, i));
    if p.Gpr? then p.i + Width(types[i], p) else 0
  }

  /** The last integer register counted holds an argument, or was skipped. */
  lemma {:induction false} LastGpr(types: string, n: nat)
    requires n <= |types| && Run(types, n).g > 0
    ensures EndsInGpr(types, n, Run(types, n).g) || (Run(types, n).g == GPR_ARGS && SkipsLast(types, n))
  {
    var k := Run(types, n - 1);
    if GprEnd(types, n - 1) == Run(types, n).g || SkipsAt(types, n - 1) {
    } else {
      assert Run(types, n).g == k.g;
      LastGpr(types, n - 1);
    }
  }

  /** The last float register counted holds an argument. */
  lemma {:induction false} LastFpr(types: string, n: nat) returns (i: nat)
    requires n <= |types| && Run(types, n).f > 0
    ensures i < n && PlaceOf(types[i], Run(types, i)) == Fpr(Run(types, n).f - 1)
  {
    if Run(types, n).f > Run(types, n - 1).f {
      i := n - 1;
    } else {
      i := LastFpr(types, n - 1);
    }
  }

  /** Nothing goes to the stack before the registers of one kind are used up. */
  lemma {:induction false} StackMeansFull(types: string, n: nat)
    requires n <= |types| && Run(types, n).s > 0
    ensures Run(types, n).g == GPR_ARGS || Run(types, n).f == FPR_ARGS
  {
    if Run(types, n - 1).s > 0 { StackMeansFull(types, n - 1); }
  }

  /** A skipped register holds nothing. */
  lemma SkippedIsUnused(types: string, i: nat, j: nat)
    requires i < |types| && j < |types| && SkipsAt(types, i)
    ensures GprEnd(types, j) < GPR_ARGS
  {
    PlaceBetween(types[j], Run(types, j));
    if j < i {
      CountsGrow(types, j + 1, i);
    } else if i < j {
      CountsGrow(types, i + 1, j);
    }
  }

  /** What the caller can see beforehand: no stack arguments, areas of a multiple of four words, or one
      word too many that is a skipped register. */
  ghost predicate RoomyEnough(types: string) {
    var k := Run(types, |types|);
    || k.s == 0 || Needed(k) % 4 == 0
    || (Needed(k) % 4 == 1 && k.f == 0 && SkipsLast(types, |types|))
  }

  ghost predicate Fits(base: int, types: string, i: nat)
    requires i < |types|
  {
    Where(base, types, i) + WidthAt(types, i) <= base + Allocated(Run(types, |types|))
  }

  lemma FitsIfSkipped(base: int, types: string, i: nat, j: nat)
    requires i < |types| && j < |types| && SkipsAt(types, j) && Run(types, |types|).f == 0
    ensures Where(base, types, i) + WidthAt(types, i) <= base + Needed(Run(types, |types|)) - 1
  {
    SkippedIsUnused(types, j, i);
    CountsGrow(types, j + 1, |types|);
    PlaceBetween(types[i], Run(types, i));
    CountsGrow(types, i + 1, |types|);
  }

  lemma FitsIfRoomy(base: int, types: string, i: nat)
    requires RoomyEnough(types) && i < |types|
    ensures Fits(base, types, i)
  {
    var k := Run(types, |types|);
    if k.s == 0 || Needed(k) % 4 == 0 {
      InBlock(base, types, i);
    } else {
      var j :| 0 <= j < |types| && SkipsAt(types, j);
      FitsIfSkipped(base, types, i, j);
    }
  }

  lemma MissesOtherwise(base: int, types: string) returns (i: nat)
    requires !RoomyEnough(types)
    ensures i < |types| && !Fits(base, types, i)
  {
    var k := Run(types, |types|);
    if k.f > 0 {
      i := LastFpr(types, |types|);
    } else {
      StackMeansFull(types, |types|);
      LastGpr(types, |types|);
      if EndsInGpr(types, |types|, GPR_ARGS) {
        i :| 0 <= i < |types| && GprEnd(types, i) == GPR_ARGS;
      } else {
        var j :| 0 <= j < |types| && SkipsAt(types, j);
        LastGpr(types, j);
        i :| 0 <= i < j && GprEnd(types, i) == GPR_ARGS - 1;
      }
    }
  }

  /** Rounding the block down, the code keeps every word it writes inside exactly for these lists. */
  lemma WritesFitIff(base: int, types: string)
    ensures (forall i :: 0 <= i < |types| ==> Fits(base, types, i)) <==> RoomyEnough(types)
  {
    if RoomyEnough(types) {
      forall i | 0 <= i < |types| ensures Fits(base, types, i) {
        FitsIfRoomy(base, types, i);
      }
    } else {
      var i := MissesOtherwise(base, types);
    }
  }

  /** Nine integers: the eighth register image lies behind the block. */
  lemma NineIntegersOverrun(base: int)
    ensures Where(base, "IIIIIIIII", 7) == base + Allocated(Run("IIIIIIIII", 9))
  {
    var t := "IIIIIIIII";
    assert Run(t, 1).g == 1;
    assert Run(t, 2).g == 2;
    assert Run(t, 3).g == 3;
    assert Run(t, 4).g == 4;
    assert Run(t, 5).g == 5;
    assert Run(t, 6).g == 6;
    assert Run(t, 7) == Counts(7, 0, 0);
    assert Run(t, 8) == Counts(8, 0, 0);
    assert Run(t, 9) == Counts(8, 0, 1);
  }

  // ----- the second pass -----

  /** What is stored for an argument; a float is widened on its way into a float register. */
  function Image(widen: Word -> Value, c: char, p: Place, v: Value): (ws: seq<Word>)
    ensures |ws| == Width(c, p)
  {
    if c == 'F' && p.Fpr? then [widen(v.first).first, widen(v.first).second]
    else if Width(c, p) == 2 then [v.first, v.second]
    else [v.first]
  }

  /** What is known of memory, by word address. */
  type Words = map<int, Word>

  predicate Holds(mem: Words, a: int, ws: seq<Word>) {
    forall i :: 0 <= i < |ws| ==> HoldsWord(mem, a + i, ws[i])
  }

  predicate HoldsWord(mem: Words, a: int, w: Word) {
    a in mem && mem[a] == w
  }

  /** The callee finds an argument in its place. */
  predicate FoundAt(widen: Word -> Value, mem: Words, base: int, types: string, args: seq<Value>, i: nat)
    requires i < |types| == |args|
  {
    Holds(mem, Where(base, types, i), Image(widen, types[i], PlaceOf(types[i], Run(types, i)), args[i]))
  }

  ghost predicate Found(widen: Word -> Value, mem: Words, base: int, types: string, args: seq<Value>, n: nat)
    requires n <= |types| == |args|
  {
    forall i :: 0 <= i < n ==> FoundAt(widen, mem, base, types, args, i)
  }

  /** Only the words from `lo` up to `hi` differ. */
  ghost predicate SameOutside(m: Words, r: Words, lo: int, hi: int) {
    forall x :: x < lo || hi <= x ==> (x in r <==> x in m) && (x in m ==> r[x] == m[x])
  }

  /** The stack memory of the call, of which the block is a part. */
  class Memory {
    var words: Words

    constructor (words: Words)
      ensures this.words == words
    {
      this.words := words;
    }

    method Put(a: int, ws: seq<Word>)
      requires 1 <= |ws| <= 2
      modifies this
      ensures Holds(words, a, ws) && SameOutside(old(words), words, a, a + |ws|)
    {
      words := words[a := ws[0]];
      if |ws| == 2 { words := words[a + 1 := ws[1]]; }
    }
  }

  lemma HoldsElsewhere(m: Words, r: Words, lo: int, hi: int, a: int, ws: seq<Word>)
    requires Holds(m, a, ws) && SameOutside(m, r, lo, hi) && (a + |ws| <= lo || hi <= a)
    ensures Holds(r, a, ws)
  {
    forall i | 0 <= i < |ws| ensures HoldsWord(r, a + i, ws[i]) {
      assert HoldsWord(m, a + i, ws[i]);
    }
  }

  /** Storing the next argument disturbs none of the earlier ones. */
  lemma StoreNext(widen: Word -> Value, m: Words, r: Words, base: int, types: string, args: seq<Value>, n: nat)
    requires n < |types| == |args| && Found(widen, m, base, types, args, n)
    requires SameOutside(m, r, Where(base, types, n), Where(base, types, n) + WidthAt(types, n))
    requires FoundAt(widen, r, base, types, args, n)
    ensures Found(widen, r, base, types, args, n + 1)
  {
    forall i | 0 <= i < n ensures FoundAt(widen, r, base, types, args, i) {
      assert FoundAt(widen, m, base, types, args, i);
      NoSharing(base, types, i, n);
      HoldsElsewhere(m, r, Where(base, types, n), Where(base, types, n) + WidthAt(types, n),
                     Where(base, types, i), Image(widen, types[i], PlaceOf(types[i], Run(types, i)), args[i]));
    }
  }

  /** The pointers and counters of the second pass. */
  datatype Cursor = Cursor(g: nat, f: nat, stack: int)

  /** The second pass has come as far as the first had. */
  predicate InStep(base: int, k: Counts, u: Cursor) {
    u.g == k.g && u.f == k.f && u.stack == base + ARG_DISPLACEMENT + k.s
  }

  /** The argument is stored in its place and nothing else is touched. */
  ghost predicate Stored(widen: Word -> Value, m: Words, r: Words, base: int, all: Counts, c: char, v: Value,
                         k: Counts) {
    var p := PlaceOf(c, k);
    var a := Address(base, all, p);
    Holds(r, a, Image(widen, c, p, v)) && SameOutside(m, r, a, a + Width(c, p))
  }

  /** Two words to the next eight-byte boundary of the stack. */
  method PutPair(mem: Memory, v: Value, u: Cursor) returns (r: Cursor)
    modifies mem
    ensures r == u.(stack := Even(u.stack) + 2)
    ensures Holds(mem.words, Even(u.stack), [v.first, v.second])
    ensures SameOutside(old(mem.words), mem.words, Even(u.stack), Even(u.stack) + 2)
  {
    r := u;
    if r.stack % 2 == 1 { r := r.(stack := r.stack + 1); }
    mem.Put(r.stack, [v.first, v.second]);
    r := r.(stack := r.stack + 2);
  }

  /** A float or double. */
  method PutFloating(widen: Word -> Value, mem: Memory, base: int, all: Counts, c: char, v: Value, ghost k: Counts,
                     u: Cursor) returns (r: Cursor)
    requires (c == 'D' || c == 'F') && base % 2 == 0 && InStep(base, k, u)
    modifies mem
    ensures InStep(base, Step(c, k), r) && Stored(widen, old(mem.words), mem.words, base, all, c, v, k)
  {
    r := u;
    var fpr := base + all.s + all.g;
    EvenShift(base, k.s);
    if c == 'D' {
      if r.f < FPR_ARGS {
        mem.Put(fpr + 2 * r.f, [v.first, v.second]);
        r := r.(f := r.f + 1);
      } else {
        r := PutPair(mem, v, r);
      }
    } else {
      if r.f < FPR_ARGS {
        mem.Put(fpr + 2 * r.f, [widen(v.first).first, widen(v.first).second]);
        r := r.(f := r.f + 1);
      } else {
        mem.Put(r.stack, [v.first]);
        r := r.(stack := r.stack + 1);
      }
    }
  }

  /** A long, or anything of one word. */
  method PutIntegral(widen: Word -> Value, mem: Memory, base: int, all: Counts, c: char, v: Value, ghost k: Counts,
                     u: Cursor) returns (r: Cursor)
    requires c != 'D' && c != 'F' && base % 2 == 0 && InStep(base, k, u)
    modifies mem
    ensures InStep(base, Step(c, k), r) && Stored(widen, old(mem.words), mem.words, base, all, c, v, k)
  {
    r := u;
    var gpr := base + all.s;
    EvenShift(base, k.s);
    if c == 'J' {
      if r.g % 2 == 1 { r := r.(g := r.g + 1); }
      if r.g + 1 < GPR_ARGS {
        mem.Put(gpr + r.g, [v.first, v.second]);
        r := r.(g := r.g + 2);
      } else {
        r := PutPair(mem, v, r);
      }
    } else {
      if r.g < GPR_ARGS {
        mem.Put(gpr + r.g, [v.first]);
        r := r.(g := r.g + 1);
      } else {
        mem.Put(r.stack, [v.first]);
        r := r.(stack := r.stack + 1);
      }
    }
  }

  /** The second pass, from an eight-byte boundary: it uses exactly the registers and stack words the
      first pass counted, and the callee finds every argument. */
  method PutArguments(widen: Word -> Value, mem: Memory, base: int, types: string, args: seq<Value>, all: Counts)
    returns (u: Cursor)
    requires |args| == |types| && all == Run(types, |types|)
    requires base % 2 == 0
    modifies mem
    ensures InStep(base, all, u)
    ensures Found(widen, mem.words, base, types, args, |args|)
    ensures SameOutside(old(mem.words), mem.words, base + ARG_DISPLACEMENT, base + Needed(all))
  {
    u := Cursor(0, 0, base + ARG_DISPLACEMENT);
    var i := 0;
    while i < |args|
      invariant i <= |args| && InStep(base, Run(types, i), u)
      invariant Found(widen, mem.words, base, types, args, i)
      invariant SameOutside(old(mem.words), mem.words, base + ARG_DISPLACEMENT, base + Needed(all))
    {
      InBlock(base, types, i);
      ghost var before := mem.words;
      if types[i] == 'D' || types[i] == 'F' {
        u := PutFloating(widen, mem, base, all, types[i], args[i], Run(types, i), u);
      } else {
        u := PutIntegral(widen, mem, base, all, types[i], args[i], Run(types, i), u);
      }
      StoreNext(widen, before, mem.words, base, types, args, i);
      i := i + 1;
    }
  }

  // ----- what the callee makes of it -----

  /** An argument as the callee uses it: 32 bits, or 64 as two words. */
  datatype Seen = Single(w: Word) | Pair(first: Word, second: Word)

  /** What was passed: of longs and doubles both words, of all else the first. */
  function Passed(c: char, v: Value): Seen {
    if c == 'J' || c == 'D' then Pair(v.first, v.second) else Single(v.first)
  }

  /** The callee reads the words of a place. Float registers hold doubles, which it rounds to floats. */
  function Fetch(narrow: Value -> Word, mem: Words, c: char, p: Place, a: int): Seen
    requires a in mem && (Width(c, p) == 2 ==> a + 1 in mem)
  {
    if c == 'J' || c == 'D' then Pair(mem[a], mem[a + 1])
    else if p.Fpr? then Single(narrow(Value(mem[a], mem[a + 1])))
    else Single(mem[a])
  }

  /** What is stored reads as what was passed. */
  lemma ImageReads(widen: Word -> Value, narrow: Value -> Word, mem: Words, c: char, p: Place, v: Value, a: int,
                   ws: seq<Word>)
    requires ws == Image(widen, c, p, v) && narrow(widen(v.first)) == v.first
    requires p.Fpr? ==> c == 'F' || c == 'D'
    requires HoldsWord(mem, a, ws[0]) && (|ws| == 2 ==> HoldsWord(mem, a + 1, ws[1]))
    ensures Fetch(narrow, mem, c, p, a) == Passed(c, v)
  {}

  lemma HeldWords(mem: Words, a: int, ws: seq<Word>)
    requires Holds(mem, a, ws) && |ws| >= 1
    ensures HoldsWord(mem, a, ws[0]) && (|ws| == 2 ==> HoldsWord(mem, a + 1, ws[1]))
  {
    assert HoldsWord(mem, a + 0, ws[0]);
  }

  /** It gets every argument that is found in its place, if rounding undoes widening. */
  lemma CalleeReads(widen: Word -> Value, narrow: Value -> Word, mem: Words, base: int, types: string,
                    args: seq<Value>, i: nat)
    requires i < |types| == |args| && FoundAt(widen, mem, base, types, args, i)
    requires forall x :: narrow(widen(x)) == x
    ensures var c, p, a := types[i], PlaceOf(types[i], Run(types, i)), Where(base, types, i);
      && a in mem && (Width(c, p) == 2 ==> a + 1 in mem)
      && Fetch(narrow, mem, c, p, a) == Passed(c, args[i])
  {
    var c, p, a := types[i], PlaceOf(types[i], Run(types, i)), Where(base, types, i);
    var ws := Image(widen, c, p, args[i]);
    HeldWords(mem, a, ws);
    RegistersByClass(c, Run(types, i));
    ImageReads(widen, narrow, mem, c, p, args[i], a, ws);
  }

  /** Float registers are for floats and doubles. */
  lemma RegistersByClass(c: char, k: Counts)
    ensures PlaceOf(c, k).Fpr? ==> c == 'F' || c == 'D'
    ensures PlaceOf(c, k).Gpr? ==> c != 'F' && c != 'D'
  {}
}
