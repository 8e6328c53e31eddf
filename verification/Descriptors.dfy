/** Walking the field types of a method descriptor, one C type at a time. */
module Descriptors {

  // ----- the grammar -----

  datatype FieldType =
    | Base(b: BaseType)
    | Object(name: string)
    | Array(elem: FieldType)

  /** The base types of section 4.3.2, with the C types of their values and of arrays of them. */
  datatype BaseType = Byte | Char | Double | Float | Int | Long | Short | Boolean

  function Letter(b: BaseType): char {
    match b
    case Byte => 'B' case Char => 'C' case Double => 'D' case Float => 'F'
    case Int => 'I' case Long => 'J' case Short => 'S' case Boolean => 'Z'
  }

  ghost predicate IsLetter(c: char) {
    exists b :: c == Letter(b)
  }

  function ValueCType(b: BaseType): string {
    match b
    case Byte => "jbyte" case Char => "jchar" case Double => "jdouble" case Float => "jfloat"
    case Int => "jint" case Long => "jlong" case Short => "jshort" case Boolean => "jboolean"
  }

  /** Arrays of booleans share the C type of arrays of ints. */
  function ArrayCType(b: BaseType): string {
    match b
    case Byte => "HArrayOfByte*" case Char => "HArrayOfChar*" case Double => "HArrayOfDouble*"
    case Float => "HArrayOfFloat*" case Int => "HArrayOfInt*" case Long => "HArrayOfLong*"
    case Short => "HArrayOfShort*" case Boolean => "HArrayOfInt*"
  }

  predicate WellFormed(t: FieldType) {
    match t
    case Base(_) => true
    case Object(name) => ';' !in name
    case Array(elem) => WellFormed(elem)
  }

  function Text(t: FieldType): (r: string)
    ensures r != ""
  {
    match t
    case Base(b) => [Letter(b)]
    case Object(name) => "L" + name + ";"
    case Array(elem) => "[" + Text(elem)
  }

  /** Argument words: longs and doubles take two. */
  function Words(t: FieldType): nat {
    if t == Base(Long) || t == Base(Double) then 2 else 1
  }

  function Flat(name: string): string {
    if name == "" then "" else [if name[0] == '/' || name[0] == '$' then '_' else name[0]] + Flat(name[1..])
  }

  lemma {:induction false} FlatAt(name: string, i: nat)
    requires i < |name|
    ensures |Flat(name)| == |name|
    ensures Flat(name)[i] == if name[i] in {'/', '$'} then '_' else name[i]
  {
    if |name| > 1 { FlatAt(name[1..], if i > 0 then i - 1 else 0); }
  }

  /** The C type of a Java type. */
  function CType(t: FieldType): string {
    match t
    case Base(b) => ValueCType(b)
    case Object(name) => "struct H" + Flat(name) + "*"
    case Array(Base(b)) => ArrayCType(b)
    case Array(Object(_)) => "HArrayOfObject*"
    case Array(Array(_)) => "HArrayOfArray*"
  }

  // ----- what one call consumes -----

  predicate IsBase(c: char) {
    c == 'B' || c == 'C' || c == 'D' || c == 'F' || c == 'I' || c == 'J' || c == 'S' || c == 'Z'
  }

  function WalkWords(c: char): nat {
    if c == 'J' || c == 'D' then 2 else 1
  }

  function BaseName(c: char): string {
    if c == 'B' then "jbyte" else if c == 'C' then "jchar" else if c == 'D' then "jdouble"
    else if c == 'F' then "jfloat" else if c == 'I' then "jint" else if c == 'J' then "jlong"
    else if c == 'S' then "jshort" else "jboolean"
  }

  function ArrayName(c: char): string {
    if c == 'B' then "HArrayOfByte*" else if c == 'C' then "HArrayOfChar*" else if c == 'D' then "HArrayOfDouble*"
    else if c == 'F' then "HArrayOfFloat*" else if c == 'I' || c == 'Z' then "HArrayOfInt*"
    else if c == 'S' then "HArrayOfShort*" else "HArrayOfLong*"
  }

  datatype Result =
    | Translated(ctype: string, next: nat, words: nat)
    // the program aborts
    | Aborted
    // the text ends inside a descriptor
    | RanOff

  /** The first semicolon at or after `i`, or the end. */
  function Semicolon(s: string, i: nat): (r: nat)
    requires i <= |s|
    ensures i <= r <= |s| && (r < |s| ==> s[r] == ';')
    ensures forall k :: i <= k < r ==> s[k] != ';'
    decreases |s| - i
  {
    if i < |s| && s[i] != ';' then Semicolon(s, i + 1) else i
  }

  /** The first character at or after `i` that is no bracket, or the end. */
  function Unbracketed(s: string, i: nat): (r: nat)
    requires i <= |s|
    ensures i <= r <= |s| && (r < |s| ==> s[r] != '[')
    ensures forall k :: i <= k < r ==> s[k] == '['
    decreases |s| - i
  {
    if i < |s| && s[i] == '[' then Unbracketed(s, i + 1) else i
  }

  /** A class name from `i`, closed by a semicolon. */
  function PastName(s: string, i: nat, ctype: string): Result
    requires i <= |s|
  {
    var j := Semicolon(s, i);
    if j == |s| then RanOff else Translated(ctype, j + 1, 1)
  }

  function Translate(s: string, i: nat): (r: Result)
    requires i <= |s|
    ensures r.Translated? ==> i < r.next <= |s|
  {
    if i == |s| then Aborted
    else if s[i] == 'L' then PastName(s, i + 1, "struct H" + Flat(s[i + 1..Semicolon(s, i + 1)]) + "*")
    else if s[i] == '[' then TranslateArray(s, i + 1)
    else if IsBase(s[i]) then Translated(BaseName(s[i]), i + 1, WalkWords(s[i]))
    else if s[i] == 'V' then Translated("void", i + 1, 0)
    else Aborted
  }

  function TranslateArray(s: string, i: nat): (r: Result)
    requires i <= |s|
    ensures r.Translated? ==> i < r.next <= |s|
  {
    if i == |s| then Aborted
    else if IsBase(s[i]) then Translated(ArrayName(s[i]), i + 1, 1)
    else if s[i] == 'L' then PastName(s, i + 1, "HArrayOfObject*")
    else if s[i] == '[' then
      var k := Unbracketed(s, i + 1);
      if k == |s| then RanOff
      else if s[k] == 'L' then PastName(s, k + 1, "HArrayOfArray*")
      else Translated("HArrayOfArray*", k + 1, 1)
    else Aborted
  }

  /** The text from `i` on begins with `d`. */
  predicate At(s: string, i: nat, d: string) {
    i + |d| <= |s| && s[i..i + |d|] == d
  }

  method SkipName(s: string, i: nat) returns (j: nat)
    requires i <= |s|
    ensures j == Semicolon(s, i)
  {
    j := i;
    while j < |s| && s[j] != ';'
      invariant i <= j <= |s| && Semicolon(s, i) == Semicolon(s, j)
    {
      j := j + 1;
    }
  }

  /** The C name of a class, up to its semicolon. */
  method PrintName(s: string, i: nat) returns (fp: string, j: nat)
    requires i <= |s|
    ensures j == Semicolon(s, i) && fp == "struct H" + Flat(s[i..j])
  {
    var prefix := "struct H";
    fp, j := prefix, i;
    while j < |s| && s[j] != ';'
      invariant i <= j <= |s| && Semicolon(s, i) == Semicolon(s, j)
      invariant fp == prefix + Flat(s[i..j])
    {
      FlatSnoc(s[i..j], s[j]);
      assert s[i..j + 1] == s[i..j] + [s[j]];
      fp := fp + [if s[j] == '/' || s[j] == '$' then '_' else s[j]];
      j := j + 1;
    }
  }

  method TranslateSig(s: string, start: nat) returns (r: Result)
    requires start <= |s|
    ensures r == Translate(s, start)
  {
    if start == |s| { return Aborted; }
    var i := start + 1;
    var c := s[start];
    if c == 'L' {
      var fp, j := PrintName(s, i);
      return if j == |s| then RanOff else Translated(fp + "*", j + 1, 1);
    } else if c == '[' {
      r := TranslateArraySig(s, i);
    } else if IsBase(c) {
      return Translated(BaseName(c), i, if c == 'J' || c == 'D' then 2 else 1);
    } else if c == 'V' {
      return Translated("void", i, 0);
    } else {
      return Aborted;
    }
  }

  method TranslateArraySig(s: string, start: nat) returns (r: Result)
    requires start <= |s|
    ensures r == TranslateArray(s, start)
  {
    if start == |s| { return Aborted; }
    var i := start + 1;
    var c := s[start];
    if IsBase(c) {
      return Translated(ArrayName(c), i, 1);
    } else if c == '[' {
      while i < |s| && s[i] == '['
        invariant start < i <= |s| && Unbracketed(s, start + 1) == Unbracketed(s, i)
      {
        i := i + 1;
      }
      if i == |s| { return RanOff; }
      if s[i] != 'L' { return Translated("HArrayOfArray*", i + 1, 1); }
      i := SkipName(s, i + 1);
      return if i == |s| then RanOff else Translated("HArrayOfArray*", i + 1, 1);
    } else if c == 'L' {
      i := SkipName(s, i);
      return if i == |s| then RanOff else Translated("HArrayOfObject*", i + 1, 1);
    } else {
      return Aborted;
    }
  }

  lemma {:induction false} FlatSnoc(s: string, c: char)
    ensures Flat(s + [c]) == Flat(s) + Flat([c])
  {
    if s == "" {
      assert s + [c] == [c];
    } else {
      assert (s + [c])[1..] == s[1..] + [c];
      FlatSnoc(s[1..], c);
    }
  }

  // ----- each call consumes exactly one descriptor -----

  /** The cases of the walk are those of the grammar. */
  lemma Tables(b: BaseType)
    ensures var c := Letter(b);
      IsBase(c) && BaseName(c) == ValueCType(b) && ArrayName(c) == ArrayCType(b) && Words(Base(b)) == WalkWords(c)
  {}

  lemma LetterOf(c: char) returns (b: BaseType)
    requires IsBase(c)
    ensures Letter(b) == c
  {
    b := if c == 'B' then Byte else if c == 'C' then Char else if c == 'D' then Double else if c == 'F' then Float
         else if c == 'I' then Int else if c == 'J' then Long else if c == 'S' then Short else Boolean;
  }

  lemma IsBaseIff(c: char)
    ensures IsBase(c) <==> IsLetter(c)
  {
    if IsBase(c) { var b := LetterOf(c); }
    if b :| c == Letter(b) { Tables(b); }
  }

  lemma AtSplit(s: string, i: nat, d: string, e: string)
    ensures At(s, i, d + e) <==> At(s, i, d) && At(s, i + |d|, e)
  {
    if At(s, i, d + e) {
      assert s[i..i + |d|] == s[i..i + |d + e|][..|d|];
      assert s[i + |d|..i + |d| + |e|] == s[i..i + |d + e|][|d|..];
    }
    if At(s, i, d) && At(s, i + |d|, e) {
      assert s[i..i + |d + e|] == s[i..i + |d|] + s[i + |d|..i + |d| + |e|];
    }
  }

  lemma AtFirst(s: string, i: nat, c: char)
    ensures At(s, i, [c]) <==> i < |s| && s[i] == c
  {
    if i < |s| { assert s[i..i + 1] == [s[i]]; }
  }

  lemma {:induction false} SemicolonAt(s: string, i: nat, n: nat)
    requires i <= n < |s| && s[n] == ';' && forall k :: i <= k < n ==> s[k] != ';'
    ensures Semicolon(s, i) == n
  {}

  lemma {:induction false} UnbracketedAt(s: string, i: nat, n: nat)
    requires i <= n < |s| && s[n] != '[' && forall k :: i <= k < n ==> s[k] == '['
    ensures Unbracketed(s, i) == n
  {}

  /** A class name in its place: where it lies and where it ends. */
  lemma NameAt(s: string, i: nat, name: string)
    requires ';' !in name && At(s, i, "L" + name + ";")
    ensures i + |name| + 1 < |s| && s[i] == 'L' && Semicolon(s, i + 1) == i + 1 + |name|
    ensures s[i + 1..i + 1 + |name|] == name
  {
    var n := i + 1 + |name|;
    AtSplit(s, i, "L" + name, ";");
    AtSplit(s, i, "L", name);
    AtFirst(s, i, 'L');
    AtFirst(s, n, ';');
    forall k | i + 1 <= k < n ensures s[k] != ';' {
      assert s[k] == s[i + 1..n][k - i - 1];
    }
    SemicolonAt(s, i + 1, n);
  }

  /** Under nested arrays: the innermost element type. */
  function Innermost(t: FieldType): (r: FieldType)
    ensures !r.Array? && (WellFormed(t) ==> WellFormed(r))
  {
    if t.Array? then Innermost(t.elem) else t
  }

  function Depth(t: FieldType): nat {
    if t.Array? then 1 + Depth(t.elem) else 0
  }

  lemma {:induction false} InnermostAt(s: string, i: nat, t: FieldType)
    requires At(s, i, Text(t))
    ensures At(s, i + Depth(t), Text(Innermost(t))) && |Text(t)| == Depth(t) + |Text(Innermost(t))|
    ensures forall k :: i <= k < i + Depth(t) ==> s[k] == '['
    decreases t
  {
    if t.Array? {
      AtSplit(s, i, "[", Text(t.elem));
      AtFirst(s, i, '[');
      InnermostAt(s, i + 1, t.elem);
    }
  }

  /** Skipping the brackets and the element type of an array of arrays. */
  lemma DeepArray(s: string, i: nat, t: FieldType)
    requires WellFormed(t) && t.Array? && At(s, i, Text(t))
    ensures TranslateArray(s, i) == Translated("HArrayOfArray*", i + |Text(t)|, 1)
  {
    InnermostAt(s, i, t);
    var k, u := i + Depth(t), Innermost(t);
    if u.Object? {
      NameAt(s, k, u.name);
    } else {
      AtFirst(s, k, Letter(u.b));
    }
    UnbracketedAt(s, i + 1, k);
  }

  lemma ArrayConsumed(s: string, i: nat, t: FieldType)
    requires WellFormed(t) && At(s, i, Text(t))
    ensures TranslateArray(s, i) == Translated(CType(Array(t)), i + |Text(t)|, 1)
  {
    match t
    case Base(b) => AtFirst(s, i, Letter(b)); Tables(b);
    case Object(name) => NameAt(s, i, name);
    case Array(_) => DeepArray(s, i, t);
  }

  /** A call on a text that begins with a field type consumes exactly that type. */
  lemma ConsumesOneType(s: string, i: nat, t: FieldType)
    requires WellFormed(t) && At(s, i, Text(t))
    ensures i <= |s| && Translate(s, i) == Translated(CType(t), i + |Text(t)|, Words(t))
  {
    match t
    case Base(b) => AtFirst(s, i, Letter(b)); Tables(b);
    case Object(name) => NameAt(s, i, name);
    case Array(elem) =>
      AtSplit(s, i, "[", Text(elem));
      AtFirst(s, i, '[');
      ArrayConsumed(s, i + 1, elem);
  }

  // ----- and accepts little else -----

  /** Behind two or more brackets any one character passes for an element type. */
  ghost predicate Loose(s: string, i: nat)
    requires i <= |s|
  {
    && At(s, i, "[[")
    && var k := Unbracketed(s, i);
       k < |s| && s[k] != 'L' && !IsLetter(s[k])
  }

  ghost predicate BeginsType(s: string, i: nat) {
    exists t :: WellFormed(t) && At(s, i, Text(t))
  }

  lemma NestedAt(s: string, i: nat, k: nat, t: FieldType) returns (u: FieldType)
    requires i <= k <= |s| && WellFormed(t) && At(s, k, Text(t)) && forall j :: i <= j < k ==> s[j] == '['
    ensures WellFormed(u) && At(s, i, Text(u))
    decreases k - i
  {
    if i == k {
      u := t;
    } else {
      var v := NestedAt(s, i + 1, k, t);
      AtFirst(s, i, '[');
      AtSplit(s, i, "[", Text(v));
      u := Array(v);
    }
  }

  /** The element type found behind the brackets from `i` on. */
  lemma ElementAt(s: string, i: nat)
    requires i <= |s|
    requires var k := Unbracketed(s, i);
             k < |s| && (IsLetter(s[k]) || (s[k] == 'L' && Semicolon(s, k + 1) < |s|))
    ensures BeginsType(s, i)
  {
    var k := Unbracketed(s, i);
    AtFirst(s, k, s[k]);
    var t: FieldType;
    if IsLetter(s[k]) {
      var b :| s[k] == Letter(b);
      t := Base(b);
    } else {
      var j := Semicolon(s, k + 1);
      var name := s[k + 1..j];
      AtFirst(s, j, ';');
      AtSplit(s, k, "L", name);
      AtSplit(s, k, "L" + name, ";");
      t := Object(name);
    }
    var u := NestedAt(s, i, k, t);
  }

  /** Exactly the field types are accepted, but for void and the loose arrays of arrays. */
  lemma AcceptsIff(s: string, i: nat)
    requires i <= |s|
    ensures BeginsType(s, i) <==> Translate(s, i).Translated? && !At(s, i, "V") && !Loose(s, i)
  {
    AtFirst(s, i, 'V');
    if BeginsType(s, i) {
      var t :| WellFormed(t) && At(s, i, Text(t));
      ConsumesOneType(s, i, t);
      InnermostAt(s, i, t);
      NotLoose(s, i, t);
    } else if Translate(s, i).Translated? && s[i] != 'V' {
      AtSplit(s, i, "[", "[");
      AtFirst(s, i, '[');
      AtFirst(s, i + 1, '[');
      assert "[" + "[" == "[[";
      if Unbracketed(s, i) < |s| { IsBaseIff(s[Unbracketed(s, i)]); }
      if !Loose(s, i) { ElementAt(s, i); }
    }
  }

  /** Everything one call gets through: a field type, void, or a loose array of arrays. */
  lemma TranslatesIff(s: string, i: nat)
    requires i <= |s|
    ensures Translate(s, i).Translated? <==> BeginsType(s, i) || At(s, i, "V") || Loose(s, i)
  {
    AcceptsIff(s, i);
    AtFirst(s, i, 'V');
    if Loose(s, i) { LooseTranslates(s, i); }
  }

  lemma LooseTranslates(s: string, i: nat)
    requires i <= |s| && Loose(s, i)
    ensures Translate(s, i).Translated?
  {
    assert s[i] == s[i..i + 2][0] && s[i + 1] == s[i..i + 2][1];
    UnbracketedAt(s, i + 2, Unbracketed(s, i));
    IsBaseIff(s[Unbracketed(s, i)]);
  }

  lemma NotLoose(s: string, i: nat, t: FieldType)
    requires WellFormed(t) && At(s, i, Text(t))
    ensures i < |s| && s[i] != 'V' && !Loose(s, i)
  {
    InnermostAt(s, i, t);
    var k, u := i + Depth(t), Innermost(t);
    if u.Object? { NameAt(s, k, u.name); } else { AtFirst(s, k, Letter(u.b)); }
    UnbracketedAt(s, i, k);
  }

  // ----- the argument loop -----

  datatype Args = Args(words: nat, ctypes: seq<string>, end: nat) | Stuck

  /** Walk the arguments up to the closing parenthesis. */
  function ArgLoop(s: string, i: nat, words: nat, ctypes: seq<string>): Args
    requires i <= |s|
    decreases |s| - i
  {
    if i < |s| && s[i] == ')' then Args(words, ctypes, i)
    else
      match Translate(s, i)
      case Translated(c, next, w) => ArgLoop(s, next, words + w, ctypes + [c])
      case _ => Stuck
  }

  method WalkArgs(sig: string) returns (r: Args)
    requires sig != ""
    ensures r == ArgLoop(sig, 1, 1, [])
  {
    var str: nat, args: nat, types := 1, 1, [];
    while str == |sig| || sig[str] != ')'
      invariant str <= |sig| && ArgLoop(sig, str, args, types) == ArgLoop(sig, 1, 1, [])
      decreases |sig| - str
    {
      var t := TranslateSig(sig, str);
      if !t.Translated? { return Stuck; }
      str, args, types := t.next, args + t.words, types + [t.ctype];
    }
    return Args(args, types, str);
  }

  function ParamsText(ts: seq<FieldType>): string {
    if ts == [] then "" else Text(ts[0]) + ParamsText(ts[1..])
  }

  function TotalWords(ts: seq<FieldType>): nat {
    if ts == [] then 0 else Words(ts[0]) + TotalWords(ts[1..])
  }

  function CTypes(ts: seq<FieldType>): seq<string> {
    if ts == [] then [] else [CType(ts[0])] + CTypes(ts[1..])
  }

  predicate AllWellFormed(ts: seq<FieldType>) {
    forall i :: 0 <= i < |ts| ==> WellFormed(ts[i])
  }

  lemma {:induction false} LoopStep(s: string, i: nat, t: FieldType, words: nat, ctypes: seq<string>)
    requires WellFormed(t) && At(s, i, Text(t))
    ensures i + |Text(t)| <= |s|
    ensures ArgLoop(s, i, words, ctypes) == ArgLoop(s, i + |Text(t)|, words + Words(t), ctypes + [CType(t)])
  {
    ConsumesOneType(s, i, t);
  }

  lemma {:induction false} FirstParam(s: string, i: nat, ts: seq<FieldType>)
    requires ts != [] && At(s, i, ParamsText(ts) + ")")
    ensures At(s, i, Text(ts[0])) && At(s, i + |Text(ts[0])|, ParamsText(ts[1..]) + ")")
  {
    var a, b := Text(ts[0]), ParamsText(ts[1..]);
    assert ParamsText(ts) + ")" == a + (b + ")");
    AtSplit(s, i, a, b + ")");
  }

  lemma {:induction false} OneMoreType(ctypes: seq<string>, ts: seq<FieldType>)
    requires ts != []
    ensures ctypes + [CType(ts[0])] + CTypes(ts[1..]) == ctypes + CTypes(ts)
  {
    assert CTypes(ts) == [CType(ts[0])] + CTypes(ts[1..]);
  }

  lemma {:induction false} LoopConsumesParams(s: string, i: nat, ts: seq<FieldType>, words: nat, ctypes: seq<string>)
    requires AllWellFormed(ts) && At(s, i, ParamsText(ts) + ")")
    ensures i <= |s|
    ensures ArgLoop(s, i, words, ctypes) == Args(words + TotalWords(ts), ctypes + CTypes(ts), i + |ParamsText(ts)|)
    decreases |ts|
  {
    if ts == [] {
      assert ParamsText(ts) + ")" == ")" && ctypes + CTypes(ts) == ctypes;
      AtFirst(s, i, ')');
    } else {
      var t, rest := ts[0], ts[1..];
      FirstParam(s, i, ts);
      LoopStep(s, i, t, words, ctypes);
      LoopConsumesParams(s, i + |Text(t)|, rest, words + Words(t), ctypes + [CType(t)]);
      OneMoreType(ctypes, ts);
    }
  }

  /** For every method descriptor the loop stops at its parenthesis, with one type per parameter and
      one word more than the parameters take. */
  lemma MethodDescriptor(ts: seq<FieldType>, ret: string)
    requires AllWellFormed(ts)
    ensures ArgLoop("(" + ParamsText(ts) + ")" + ret, 1, 1, []) ==
            Args(1 + TotalWords(ts), CTypes(ts), 1 + |ParamsText(ts)|)
  {
    var s := "(" + ParamsText(ts) + ")" + ret;
    assert s[1..1 + |ParamsText(ts)| + 1] == ParamsText(ts) + ")";
    LoopConsumesParams(s, 1, ts, 1, []);
    assert [] + CTypes(ts) == CTypes(ts);
  }
}
