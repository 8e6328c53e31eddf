/** Escaping of method names and argument descriptors in the symbols of native methods. */
module Mangling {

  // ----- what is printed -----

  predicate Special(c: char) {
    c == '/' || c == '_' || c == ';' || c == '[' || c == '$'
  }

  /** What follows the underscore. */
  function CodeOf(c: char): string {
    if c == '_' then "1" else if c == ';' then "2" else if c == '[' then "3" else if c == '$' then "00024" else ""
  }

  function EscapeChar(c: char): (r: string)
    ensures r != ""
  {
    if Special(c) then ['_'] + CodeOf(c) else [c]
  }

  function Escape(s: string): string {
    if s == "" then "" else EscapeChar(s[0]) + Escape(s[1..])
  }

  /** The part of a text in front of its first closing parenthesis. */
  function UpToParen(s: string): (r: string)
    ensures r <= s && ')' !in r
    ensures |r| < |s| ==> s[|r|] == ')'
  {
    if s == "" || s[0] == ')' then ""
    else
      var r := UpToParen(s[1..]);
      assert s == [s[0]] + s[1..];
      [s[0]] + r
  }

  /** The printing loop; the end of the text is its end marker. */
  method FprintfJni(s: string) returns (out: string)
    ensures out == Escape(UpToParen(s))
  {
    out := "";
    var i := 0;
    while i < |s| && s[i] != ')'
      invariant i <= |s|
      invariant out + Escape(UpToParen(s[i..])) == Escape(UpToParen(s))
    {
      ghost var rest := UpToParen(s[i + 1..]);
      assert s[i..][1..] == s[i + 1..];
      EscapeCons(s[i], rest);
      Associative(out, EscapeChar(s[i]), Escape(rest));
      out := out + EscapeChar(s[i]);
      i := i + 1;
    }
  }

  /** The escapes of chapter 2 of the JNI specification. */
  lemma EscapeTable(c: char)
    ensures EscapeChar('/') == "_" && EscapeChar('_') == "_1" && EscapeChar(';') == "_2" && EscapeChar('[') == "_3"
    ensures EscapeChar('$') == "_00024"
    ensures c != '/' && c != '_' && c != ';' && c != '[' && c != '$' ==> EscapeChar(c) == [c]
  {}

  /** A text is printed part by part. */
  lemma {:induction false} EscapeConcat(a: string, b: string)
    ensures Escape(a + b) == Escape(a) + Escape(b)
  {
    if a == "" {
      assert a + b == b;
    } else {
      EscapeConcat(a[1..], b);
      assert (a + b)[1..] == a[1..] + b;
      Associative(EscapeChar(a[0]), Escape(a[1..]), Escape(b));
    }
  }

  // ----- reading an escaped text back -----

  predicate Begins(s: string, d: string) {
    |d| <= |s| && s[..|d|] == d
  }

  /** The character whose code follows an underscore. */
  function Coded(rest: string): (c: char)
    ensures Special(c) && Begins(rest, CodeOf(c))
  {
    if Begins(rest, CodeOf('_')) then '_'
    else if Begins(rest, CodeOf(';')) then ';'
    else if Begins(rest, CodeOf('[')) then '['
    else if Begins(rest, CodeOf('$')) then '$'
    else '/'
  }

  function Unescape(m: string): string
    decreases |m|
  {
    if m == "" then ""
    else if m[0] != '_' then [m[0]] + Unescape(m[1..])
    else
      var c := Coded(m[1..]);
      [c] + Unescape(m[1..][|CodeOf(c)|..])
  }

  /** The text with every slash that reads like an escape replaced by what it reads as: "/1" by an
      underscore, "/2" by a semicolon, "/3" by a bracket, "/00024" by a dollar sign. */
  function Normal(s: string): string
    decreases |s|
  {
    if s == "" then ""
    else if s[0] != '/' then [s[0]] + Normal(s[1..])
    else
      var c := Coded(s[1..]);
      [c] + Normal(s[1..][|CodeOf(c)|..])
  }

  predicate IsDigit(c: char) {
    '0' <= c <= '9'
  }

  predicate Digits(d: string) {
    forall i :: 0 <= i < |d| ==> IsDigit(d[i])
  }

  lemma EscapeCons(c: char, s: string)
    ensures Escape([c] + s) == EscapeChar(c) + Escape(s)
  {
    assert ([c] + s)[1..] == s;
  }

  lemma DigitCons(c: char, r: string)
    requires IsDigit(c)
    ensures Escape([c] + r) == [c] + Escape(r)
  {
    EscapeCons(c, r);
  }

  /** What is printed does not begin with a digit other than the first character. */
  lemma OtherHead(c: char, r: string, d: char)
    requires IsDigit(d) && c != d
    ensures Escape([c] + r) != "" && Escape([c] + r)[0] != d
  {
    EscapeCons(c, r);
    assert (EscapeChar(c) + Escape(r))[0] == EscapeChar(c)[0];
  }

  /** Digits are printed as they are, and nothing else is printed as a digit. */
  lemma {:induction false} DigitsKept(s: string, d: string)
    requires Digits(d)
    ensures Begins(Escape(s), d) <==> Begins(s, d)
    ensures Begins(s, d) ==> Escape(s)[|d|..] == Escape(s[|d|..])
  {
    if d != "" && s != "" {
      var c, r, e := s[0], s[1..], d[1..];
      assert s == [c] + r && d == [d[0]] + e;
      if c == d[0] {
        DigitsKept(r, e);
        DigitStep(c, r, e);
      } else {
        OtherHead(c, r, d[0]);
        HeadsDiffer(Escape(s), d);
        HeadsDiffer(s, d);
      }
    }
  }

  lemma DigitStep(c: char, r: string, e: string)
    requires IsDigit(c) && (Begins(Escape(r), e) <==> Begins(r, e))
    requires Begins(r, e) ==> Escape(r)[|e|..] == Escape(r[|e|..])
    ensures Begins(Escape([c] + r), [c] + e) <==> Begins([c] + r, [c] + e)
    ensures Begins([c] + r, [c] + e) ==> Escape([c] + r)[|e| + 1..] == Escape(([c] + r)[|e| + 1..])
  {
    DigitCons(c, r);
    ConsBegins(c, r, e);
    ConsBegins(c, Escape(r), e);
  }

  lemma HeadsDiffer(s: string, d: string)
    requires s != "" && d != "" && s[0] != d[0]
    ensures !Begins(s, d)
  {
    if |d| <= |s| { assert s[..|d|][0] == s[0]; }
  }

  lemma ConsBegins(c: char, s: string, d: string)
    ensures Begins([c] + s, [c] + d) <==> Begins(s, d)
    ensures Begins(s, d) ==> ([c] + s)[|d| + 1..] == s[|d|..]
  {
    if Begins([c] + s, [c] + d) {
      assert s[..|d|] == ([c] + s)[..|d| + 1][1..];
    }
    if Begins(s, d) {
      assert ([c] + s)[..|d| + 1] == [c] + s[..|d|];
    }
  }

  lemma CodesAreDigits(c: char)
    ensures Digits(CodeOf(c))
  {}

  lemma CodedAgrees(s: string)
    ensures Coded(Escape(s)) == Coded(s)
  {
    DigitsKept(s, CodeOf('_'));
    DigitsKept(s, CodeOf(';'));
    DigitsKept(s, CodeOf('['));
    DigitsKept(s, CodeOf('$'));
  }

  lemma EscapeCoded(s: string)
    ensures Coded(Escape(s)) == Coded(s)
    ensures Escape(s)[|CodeOf(Coded(s))|..] == Escape(s[|CodeOf(Coded(s))|..])
  {
    CodedAgrees(s);
    CodesAreDigits(Coded(s));
    DigitsKept(s, CodeOf(Coded(s)));
  }

  lemma CodedCode(c: char, rest: string)
    requires Special(c) && c != '/'
    ensures Coded(CodeOf(c) + rest) == c
  {
    var m := CodeOf(c) + rest;
    assert m[..|CodeOf(c)|] == CodeOf(c);
    assert m[0] == CodeOf(c)[0];
    if c != '_' { HeadsDiffer(m, CodeOf('_')); }
    if c != ';' { HeadsDiffer(m, CodeOf(';')); }
    if c != '[' { HeadsDiffer(m, CodeOf('[')); }
  }

  lemma SpecialShape(c: char, rest: string)
    requires Special(c)
    ensures var m, code := EscapeChar(c) + rest, CodeOf(c);
      m != "" && m[0] == '_' && m[1..] == code + rest && (code + rest)[|code|..] == rest
  {}

  lemma CodedAfter(c: char, rest: string)
    requires Special(c) && (c == '/' ==> Coded(rest) == '/')
    ensures Coded(CodeOf(c) + rest) == c
  {
    if c != '/' { CodedCode(c, rest); } else { assert CodeOf(c) + rest == rest; }
  }

  lemma {:induction false} UnescapeCode(c: char, rest: string)
    requires Special(c) && (c == '/' ==> Coded(rest) == '/')
    ensures Unescape(EscapeChar(c) + rest) == [c] + Unescape(rest)
  {
    SpecialShape(c, rest);
    CodedAfter(c, rest);
  }

  /** Reading back recovers the text up to the slashes that read like escapes. */
  lemma {:induction false} UnescapeEscape(s: string)
    ensures Unescape(Escape(s)) == Normal(s)
    decreases |s|
  {
    if s != "" {
      var r := s[1..];
      if s[0] == '/' {
        EscapeCoded(r);
        var n := |CodeOf(Coded(r))|;
        assert Escape(s)[1..] == Escape(r);
        UnescapeEscape(r[n..]);
      } else {
        UnescapeEscape(r);
        if Special(s[0]) {
          UnescapeCode(s[0], Escape(r));
        } else {
          assert Escape(s)[1..] == Escape(r);
        }
      }
    }
  }

  lemma Associative(a: string, b: string, c: string)
    ensures (a + b) + c == a + (b + c)
  {}

  lemma {:induction false} SlashPrinted(r: string)
    ensures Escape("/" + r) == EscapeChar(Coded(r)) + Escape(r[|CodeOf(Coded(r))|..])
  {
    var c := Coded(r);
    var t := Escape(r[|CodeOf(c)|..]);
    EscapeCons('/', r);
    DigitsKept(r, CodeOf(c));
    assert Escape(r) == CodeOf(c) + t;
    Associative(['_'], CodeOf(c), t);
    assert EscapeChar('/') == ['_'] && EscapeChar(c) == ['_'] + CodeOf(c);
  }

  /** A text and its normal form are printed alike. */
  lemma {:induction false} EscapeNormal(s: string)
    ensures Escape(Normal(s)) == Escape(s)
    decreases |s|
  {
    if s != "" {
      var r := s[1..];
      assert s == [s[0]] + r;
      if s[0] == '/' {
        var c := Coded(r);
        var t := r[|CodeOf(c)|..];
        SlashPrinted(r);
        EscapeNormal(t);
        EscapeCons(c, Normal(t));
      } else {
        EscapeNormal(r);
        EscapeCons(s[0], Normal(r));
      }
    }
  }

  /** Exactly when two texts are printed alike. */
  lemma EscapedAlikeIff(s: string, t: string)
    ensures Escape(s) == Escape(t) <==> Normal(s) == Normal(t)
  {
    UnescapeEscape(s);
    UnescapeEscape(t);
    EscapeNormal(s);
    EscapeNormal(t);
  }

  /** No slash is followed by a digit. */
  predicate NoSlashDigit(s: string) {
    forall i :: 0 <= i < |s| - 1 && s[i] == '/' ==> !IsDigit(s[i + 1])
  }

  lemma NotACode(r: string)
    requires r != "" && !IsDigit(r[0])
    ensures Coded(r) == '/'
  {
    HeadsDiffer(r, CodeOf('_'));
    HeadsDiffer(r, CodeOf(';'));
    HeadsDiffer(r, CodeOf('['));
    HeadsDiffer(r, CodeOf('$'));
  }

  lemma PlainTail(s: string)
    requires NoSlashDigit(s) && s != ""
    ensures NoSlashDigit(s[1..]) && (s[0] == '/' && |s| > 1 ==> !IsDigit(s[1..][0]))
  {
    var r := s[1..];
    forall i | 0 <= i < |r| - 1 && r[i] == '/' ensures !IsDigit(r[i + 1]) {
      assert s[i + 1] == '/';
    }
    if |s| > 1 { assert s[0 + 1] == r[0]; }
  }

  /** A slash that is no code stays a slash. */
  lemma {:induction false} NormalCons(s: string)
    requires s != "" && (s[0] == '/' ==> Coded(s[1..]) == '/')
    ensures Normal(s) == [s[0]] + Normal(s[1..])
  {
    if s[0] == '/' { assert s[1..][0..] == s[1..]; }
  }

  lemma EmptyIsNoCode()
    ensures Coded("") == '/'
  {}

  lemma {:induction false} PlainIsNormal(s: string)
    requires NoSlashDigit(s)
    ensures Normal(s) == s
  {
    if s != "" {
      var r := s[1..];
      PlainTail(s);
      if s[0] == '/' {
        if r == "" { EmptyIsNoCode(); } else { NotACode(r); }
      }
      NormalCons(s);
      PlainIsNormal(r);
      assert s == [s[0]] + r;
    }
  }

  // ----- symbols -----

  /** What a method may be called: a Java name holds none of the characters of descriptors. */
  predicate Unqualified(name: string) {
    forall i :: 0 <= i < |name| ==> name[i] != '/' && name[i] != ';' && name[i] != '[' && name[i] != ')'
  }

  /** The part of a symbol that follows the name: nothing, or the separator and the arguments. */
  predicate IsTail(x: string) {
    x == "" || (|x| >= 2 && x[0] == '_' && x[1] == '_')
  }

  /** The separator cannot be mistaken for part of a name. */
  lemma {:induction false} NameEndsAtSeparator(a: string, b: string, x: string, y: string)
    requires Unqualified(a) && Unqualified(b) && IsTail(x) && IsTail(y)
    requires Escape(a) + x == Escape(b) + y
    ensures a == b && x == y
    decreases |a|
  {
    if a != "" && b != "" {
      NameStep(a, b, x, y);
      NameEndsAtSeparator(a[1..], b[1..], x, y);
      assert a == [a[0]] + a[1..] && b == [b[0]] + b[1..];
    } else {
      OneNameEmpty(a, b, x, y);
    }
  }

  lemma {:induction false} NameStep(a: string, b: string, x: string, y: string)
    requires a != "" && b != "" && a[0] != '/' && b[0] != '/'
    requires Escape(a) + x == Escape(b) + y
    ensures a[0] == b[0] && Escape(a[1..]) + x == Escape(b[1..]) + y
  {
    Associative(EscapeChar(a[0]), Escape(a[1..]), x);
    Associative(EscapeChar(b[0]), Escape(b[1..]), y);
    SameFirst(a[0], b[0], Escape(a[1..]) + x, Escape(b[1..]) + y);
  }

  lemma {:induction false} OneNameEmpty(a: string, b: string, x: string, y: string)
    requires Unqualified(a) && Unqualified(b) && IsTail(x) && IsTail(y) && (a == "" || b == "")
    ensures Escape(a) + x == Escape(b) + y ==> a == b && x == y
  {
    assert "" + x == x && "" + y == y;
    if a != "" {
      Associative(EscapeChar(a[0]), Escape(a[1..]), x);
      NameIsNoTail(a[0], Escape(a[1..]) + x, y);
    } else if b != "" {
      Associative(EscapeChar(b[0]), Escape(b[1..]), y);
      NameIsNoTail(b[0], Escape(b[1..]) + y, x);
    }
  }

  lemma NameIsNoTail(c: char, rest: string, y: string)
    requires c != '/' && IsTail(y)
    ensures EscapeChar(c) + rest != y
  {
    var m := EscapeChar(c) + rest;
    assert m[0] == EscapeChar(c)[0];
    if Special(c) {
      assert m[1] == CodeOf(c)[0];
    }
  }

  lemma SameFirst(c: char, d: char, p: string, q: string)
    requires c != '/' && d != '/' && EscapeChar(c) + p == EscapeChar(d) + q
    ensures c == d && p == q
  {
    var m := EscapeChar(c) + p;
    assert m[0] == EscapeChar(c)[0] == EscapeChar(d)[0];
    if Special(c) && Special(d) {
      assert m[1] == CodeOf(c)[0] == CodeOf(d)[0];
    }
    assert m[|EscapeChar(c)|..] == p && m[|EscapeChar(d)|..] == q;
  }
}
