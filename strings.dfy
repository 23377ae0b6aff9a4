/** Text helpers used by card normalisation and by the category list:
    `String.prototype.trim`, the decimal rendering of an index inside a
    template literal, and the order `Array.prototype.sort` puts strings in. */
module Strings {

  /** The characters `trim` removes: ECMAScript WhiteSpace and LineTerminator. */
  const Spaces: set<char> := {
    '\U{0009}', '\U{000A}', '\U{000B}', '\U{000C}', '\U{000D}', '\U{0020}', '\U{00A0}',
    '\U{1680}', '\U{2000}', '\U{2001}', '\U{2002}', '\U{2003}', '\U{2004}', '\U{2005}',
    '\U{2006}', '\U{2007}', '\U{2008}', '\U{2009}', '\U{200A}', '\U{2028}', '\U{2029}',
    '\U{202F}', '\U{205F}', '\U{3000}', '\U{FEFF}'
  }

  predicate IsSpace(c: char) {
    c in Spaces
  }

  predicate AllSpace(s: string) {
    forall k :: 0 <= k < |s| ==> IsSpace(s[k])
  }

  /** `s` without its leading white space. */
  function TrimStart(s: string): (r: string)
    ensures |r| <= |s|
  {
    if s != [] && IsSpace(s[0]) then TrimStart(s[1..]) else s
  }

  /** What `TrimStart` removes is a white-space prefix, and what it keeps starts
      with something else. */
  lemma {:induction false} TrimStartSpec(s: string)
    ensures TrimStart(s) == s[|s| - |TrimStart(s)|..]
    ensures AllSpace(s[..|s| - |TrimStart(s)|])
    ensures TrimStart(s) != [] ==> !IsSpace(TrimStart(s)[0])
  {
    if s != [] && IsSpace(s[0]) {
      var r := TrimStart(s[1..]);
      TrimStartSpec(s[1..]);
      assert s[..|s| - |r|] == [s[0]] + s[1..][..|s| - 1 - |r|];
    }
  }

  /** `s` without its trailing white space. */
  function TrimEnd(s: string): (r: string)
    ensures |r| <= |s|
  {
    if s != [] && IsSpace(s[|s| - 1]) then TrimEnd(s[..|s| - 1]) else s
  }

  /** What `TrimEnd` removes is a white-space suffix, and what it keeps ends
      with something else. */
  lemma {:induction false} TrimEndSpec(s: string)
    ensures TrimEnd(s) == s[..|TrimEnd(s)|]
    ensures AllSpace(s[|TrimEnd(s)|..])
    ensures TrimEnd(s) != [] ==> !IsSpace(TrimEnd(s)[|TrimEnd(s)| - 1])
  {
    if s != [] && IsSpace(s[|s| - 1]) {
      var r := TrimEnd(s[..|s| - 1]);
      TrimEndSpec(s[..|s| - 1]);
      assert s[|r|..] == s[..|s| - 1][|r|..] + [s[|s| - 1]];
    }
  }

  /** `s.trim()`: white space removed at both ends (see `TrimSpec`). */
  function Trim(s: string): (r: string)
    ensures |r| <= |s|
    ensures r != [] ==> !IsSpace(r[0]) && !IsSpace(r[|r| - 1])
    ensures r == [] <==> AllSpace(s)
  {
    var t := TrimStart(s);
    TrimStartSpec(s);
    TrimEndSpec(t);
    TrimEmpty(s);
    TrimEnd(t)
  }

  /** The trimmed string is the infix of `s` left after removing white space at
      both ends; it is empty exactly when `s` is white space only. */
  lemma TrimSpec(s: string)
    ensures Trim(s) != [] ==> !IsSpace(Trim(s)[0]) && !IsSpace(Trim(s)[|Trim(s)| - 1])
    ensures exists k :: 0 <= k <= |s| - |Trim(s)| && Trim(s) == s[k..k + |Trim(s)|] && AllSpace(s[..k]) && AllSpace(s[k + |Trim(s)|..])
    ensures Trim(s) == [] <==> AllSpace(s)
  {
    var t := TrimStart(s);
    var r := TrimEnd(t);
    var k := |s| - |t|;
    TrimStartSpec(s);
    TrimEndSpec(t);
    assert t == s[k..];
    assert r == t[..|r|];
    assert s[k + |r|..] == t[|r|..];
    assert AllSpace(s[..k]);
    assert r == s[k..k + |r|];
    TrimEmpty(s);
  }

  lemma TrimEmpty(s: string)
    ensures TrimEnd(TrimStart(s)) == [] <==> AllSpace(s)
  {
    var t := TrimStart(s);
    TrimStartSpec(s);
    TrimEndSpec(t);
    if TrimEnd(t) == [] {
      assert t == [];
      assert s == s[..|s| - |t|];
    }
  }

  /** The decimal digit `d`. */
  function Digit(d: nat): (c: char)
    requires d < 10
    ensures '0' <= c <= '9'
    ensures c as int == 48 + d
  {
    (48 + d) as char
  }

  /** The decimal rendering of `n`, as a template literal writes a number. */
  function NatToString(n: nat): (r: string)
    ensures |r| >= 1
    ensures n >= 10 ==> |r| >= 2
    ensures forall k :: 0 <= k < |r| ==> '0' <= r[k] <= '9'
  {
    if n < 10 then [Digit(n)] else NatToString(n / 10) + [Digit(n % 10)]
  }

  /** Different numbers have different renderings. */
  lemma {:induction false} NatToStringInjective(m: nat, n: nat)
    requires NatToString(m) == NatToString(n)
    ensures m == n
  {
    var s := NatToString(m);
    if m < 10 && n < 10 {
      assert Digit(m) == s[0] == Digit(n);
    } else if m >= 10 && n >= 10 {
      var a, b := NatToString(m / 10), NatToString(n / 10);
      assert s == a + [Digit(m % 10)] == b + [Digit(n % 10)];
      assert a == s[..|s| - 1] == b;
      assert Digit(m % 10) == s[|s| - 1] == Digit(n % 10);
      NatToStringInjective(m / 10, n / 10);
    }
  }

  /** In `x + "-" + a` the part after the last dash is `a` when `a` has no dash:
      two such strings that are equal end in the same `a`. */
  lemma AfterLastDash(x: string, y: string, a: string, b: string)
    requires '-' !in a && '-' !in b
    requires x + "-" + a == y + "-" + b
    ensures a == b
  {
    var w := x + "-" + a;
    var w' := y + "-" + b;
    LastDash(x, a);
    LastDash(y, b);
    assert |a| == |b|;
    assert a == w[|w| - |a|..];
    assert b == w'[|w'| - |b|..];
  }

  /** In `x + "-" + a` with no dash in `a`, the last dash is the one after `x`. */
  lemma LastDash(x: string, a: string)
    requires '-' !in a
    ensures var w := x + "-" + a; w[|x|] == '-' && forall i :: |x| < i < |w| ==> w[i] != '-'
  {
    var w := x + "-" + a;
    forall i | |x| < i < |w| ensures w[i] != '-' {
      assert w[i] == a[i - |x| - 1];
    }
  }

  /** The UTF-16 code units of one character: itself below U+10000, else a
      high surrogate followed by a low surrogate. */
  function CodeUnits(c: char): (r: seq<int>)
    ensures 1 <= |r| <= 2
    ensures |r| == 1 <==> c as int < 0x1_0000
    ensures |r| == 1 ==> r[0] == c as int && !(0xD800 <= r[0] < 0xE000)
    ensures |r| == 2 ==> 0xD800 <= r[0] < 0xDC00 && 0xDC00 <= r[1] < 0xE000
  {
    var v := c as int;
    if v < 0x1_0000 then [v] else [0xD800 + (v - 0x1_0000) / 0x400, 0xDC00 + (v - 0x1_0000) % 0x400]
  }

  /** Different characters have different code units. */
  lemma CodeUnitsInjective(c: char, d: char)
    requires CodeUnits(c) == CodeUnits(d)
    ensures c == d
  {
    var u := CodeUnits(c);
    if |u| == 2 {
      var x, y := c as int - 0x1_0000, d as int - 0x1_0000;
      assert x / 0x400 == y / 0x400 && x % 0x400 == y % 0x400;
      assert x == (x / 0x400) * 0x400 + x % 0x400;
      assert y == (y / 0x400) * 0x400 + y % 0x400;
    }
  }

  /** The UTF-16 encoding of `s`, the sequence JavaScript strings are made of. */
  function Utf16(s: string): (r: seq<int>)
    ensures r == [] <==> s == []
  {
    if s == [] then [] else CodeUnits(s[0]) + Utf16(s[1..])
  }

  /** Different strings have different encodings. */
  lemma {:induction false} Utf16Injective(a: string, b: string)
    requires Utf16(a) == Utf16(b)
    ensures a == b
  {
    if a != [] {
      var ua, ub := CodeUnits(a[0]), CodeUnits(b[0]);
      var w := Utf16(a);
      assert w == ua + Utf16(a[1..]) == ub + Utf16(b[1..]);
      assert ua[0] == w[0] == ub[0];
      assert |ua| == |ub|;
      assert ua == w[..|ua|] == ub;
      CodeUnitsInjective(a[0], b[0]);
      assert Utf16(a[1..]) == w[|ua|..] == Utf16(b[1..]);
      Utf16Injective(a[1..], b[1..]);
      assert a == [a[0]] + a[1..] && b == [b[0]] + b[1..];
    }
  }

  /** Lexicographic order on code-unit sequences, a proper prefix first. */
  predicate UnitsBelow(a: seq<int>, b: seq<int>)
    decreases |a|
  {
    if a == [] then b != []
    else if b == [] then false
    else if a[0] != b[0] then a[0] < b[0]
    else UnitsBelow(a[1..], b[1..])
  }

  lemma {:induction false} UnitsBelowIrreflexive(a: seq<int>)
    ensures !UnitsBelow(a, a)
  {
    if a != [] {
      UnitsBelowIrreflexive(a[1..]);
    }
  }

  lemma {:induction false} UnitsBelowTransitive(a: seq<int>, b: seq<int>, c: seq<int>)
    requires UnitsBelow(a, b) && UnitsBelow(b, c)
    ensures UnitsBelow(a, c)
  {
    if a != [] && a[0] == b[0] && b[0] == c[0] {
      UnitsBelowTransitive(a[1..], b[1..], c[1..]);
    }
  }

  lemma {:induction false} UnitsBelowTotal(a: seq<int>, b: seq<int>)
    requires a != b
    ensures UnitsBelow(a, b) || UnitsBelow(b, a)
  {
    if a != [] && b != [] && a[0] == b[0] {
      assert a == [a[0]] + a[1..] && b == [b[0]] + b[1..];
      UnitsBelowTotal(a[1..], b[1..]);
    }
  }

  /** The string order of `Array.prototype.sort` without a comparator:
      lexicographic by UTF-16 code unit, a proper prefix first. It is a strict
      order, and the empty string comes before every other. */
  predicate Below(a: string, b: string): (r: bool)
    ensures r ==> a != b
    ensures a == [] ==> (r <==> b != [])
  {
    UnitsBelowIrreflexive(Utf16(a));
    UnitsBelow(Utf16(a), Utf16(b))
  }

  /** The code-unit order is not the code-point order: a character above
      U+FFFF is encoded with a surrogate (0xD83D here), so it sorts before
      U+FF21 although its code point is larger. */
  lemma SurrogatesSortBeforeHighBmp()
    ensures '\U{FF21}' < '\U{1F600}'
    ensures Below("\U{1F600}", "\U{FF21}")
  {
    assert Utf16("\U{1F600}") == [0xD83D, 0xDE00];
    assert Utf16("\U{FF21}") == [0xFF21];
  }

  lemma BelowIrreflexive(a: string)
    ensures !Below(a, a)
  {
  }

  lemma BelowTransitive(a: string, b: string, c: string)
    requires Below(a, b) && Below(b, c)
    ensures Below(a, c)
  {
    UnitsBelowTransitive(Utf16(a), Utf16(b), Utf16(c));
  }

  lemma BelowTotal(a: string, b: string)
    requires a != b
    ensures Below(a, b) || Below(b, a)
  {
    if Utf16(a) == Utf16(b) {
      Utf16Injective(a, b);
    }
    UnitsBelowTotal(Utf16(a), Utf16(b));
  }

  /** Strictly increasing, hence without repetitions. */
  predicate StrictlySorted(s: seq<string>) {
    forall i, j :: 0 <= i < j < |s| ==> Below(s[i], s[j])
  }

  /** Adds `x` to a strictly sorted list at its place, unless it is already there. */
  function Insert(s: seq<string>, x: string): (r: seq<string>)
    requires StrictlySorted(s)
    ensures StrictlySorted(r)
    ensures forall y :: y in r <==> y in s || y == x
  {
    if s == [] then [x]
    else if x == s[0] then s
    else if Below(x, s[0]) then
      assert forall j :: 0 < j < |s| ==> Below(x, s[j]) by {
        forall j | 0 < j < |s| ensures Below(x, s[j]) {
          BelowTransitive(x, s[0], s[j]);
        }
      }
      [x] + s
    else
      BelowTotal(x, s[0]);
      var t := Insert(s[1..], x);
      assert forall y :: y in s[1..] ==> Below(s[0], y) by {
        forall y | y in s[1..] ensures Below(s[0], y) {
          var k :| 0 <= k < |s[1..]| && s[1..][k] == y;
          assert y == s[k + 1];
        }
      }
      assert forall j :: 0 <= j < |t| ==> Below(s[0], t[j]) by {
        forall j | 0 <= j < |t| ensures Below(s[0], t[j]) {
          assert t[j] in t;
        }
      }
      assert s == [s[0]] + s[1..];
      [s[0]] + t
  }

  lemma SameElementsEmpty(a: seq<string>, b: seq<string>)
    requires forall y :: y in a <==> y in b
    ensures a == [] <==> b == []
  {
    if a != [] { assert a[0] in b; }
    if b != [] { assert b[0] in a; }
  }

  /** The head of a strictly sorted list is below no element of it. */
  lemma HeadIsLeast(a: seq<string>, b: seq<string>)
    requires StrictlySorted(a) && StrictlySorted(b) && a != [] && b != []
    requires forall y :: y in a <==> y in b
    ensures !Below(b[0], a[0])
  {
    if Below(b[0], a[0]) {
      assert b[0] in a;
      var k :| 0 <= k < |a| && a[k] == b[0];
      if k > 0 {
        BelowTransitive(b[0], a[0], a[k]);
      }
      BelowIrreflexive(b[0]);
    }
  }

  /** Two strictly sorted lists with the same elements are the same list: the
      sorted list of a set of strings is determined by the set alone. */
  lemma {:induction false} SortedListIsUnique(a: seq<string>, b: seq<string>)
    requires StrictlySorted(a) && StrictlySorted(b)
    requires forall y :: y in a <==> y in b
    ensures a == b
  {
    SameElementsEmpty(a, b);
    if a != [] {
      HeadIsLeast(a, b);
      HeadIsLeast(b, a);
      if a[0] != b[0] { BelowTotal(a[0], b[0]); }
      forall y ensures y in a[1..] <==> y in b[1..] {
        if y in a[1..] {
          var k :| 0 <= k < |a[1..]| && a[1..][k] == y;
          assert Below(a[0], a[k + 1]);
          BelowIrreflexive(y);
          assert y in b && y != b[0];
          assert b == [b[0]] + b[1..];
        }
        if y in b[1..] {
          var k :| 0 <= k < |b[1..]| && b[1..][k] == y;
          assert Below(b[0], b[k + 1]);
          BelowIrreflexive(y);
          assert y in a && y != a[0];
          assert a == [a[0]] + a[1..];
        }
      }
      SortedListIsUnique(a[1..], b[1..]);
      assert a == [a[0]] + a[1..] && b == [b[0]] + b[1..];
    }
  }
}
