/**
 * The few Python string operations the tagging tools use: `str.lower()`,
 * the substring test `a in b`, `sep.join(parts)` and the `<` order that
 * `sorted` applies to strings (code point by code point).
 */
module Text {

  /** Lower-case one character; only the ASCII letters A to Z change. */
  function LowerChar(c: char): char
  {
    if 'A' <= c <= 'Z' then (c as int - 'A' as int + 'a' as int) as char else c
  }

  /** `s.lower()`, restricted to ASCII case mapping. */
  function Lower(s: string): (r: string)
    ensures |r| == |s|
    ensures forall i :: 0 <= i < |s| ==> r[i] == LowerChar(s[i])
  {
    seq(|s|, i requires 0 <= i < |s| => LowerChar(s[i]))
  }

  /** Lower-casing twice is lower-casing once. */
  lemma LowerIdempotent(s: string)
    ensures Lower(Lower(s)) == Lower(s)
  {
    forall i | 0 <= i < |s|
      ensures Lower(Lower(s))[i] == Lower(s)[i]
    {
      assert Lower(s)[i] == LowerChar(s[i]);
    }
  }

  /** `needle` appears in `hay` starting at position `k`. */
  predicate OccursAt(needle: string, hay: string, k: nat)
  {
    k + |needle| <= |hay| && hay[k..k + |needle|] == needle
  }

  /** Python's `needle in hay` for strings. */
  predicate Contains(hay: string, needle: string)
  {
    exists k :: 0 <= k <= |hay| && OccursAt(needle, hay, k)
  }

  /** Every string contains itself and the empty string. */
  lemma ContainsSelfAndEmpty(s: string)
    ensures Contains(s, s) && Contains(s, "")
  {
    assert OccursAt(s, s, 0);
    assert OccursAt("", s, 0);
  }

  /** `sep.join(parts)` */
  function Join(sep: string, parts: seq<string>): (r: string)
    ensures |parts| == 1 ==> r == parts[0]
  {
    if |parts| == 0 then ""
    else if |parts| == 1 then parts[0]
    else parts[0] + sep + Join(sep, parts[1..])
  }

  /** In `x + [c] + y` with no `c` in `x`, the first `c` sits right after `x`. */
  lemma FirstSeparator(c: char, x: string, y: string)
    requires c !in x
    ensures var s := x + [c] + y; s[|x|] == c && forall i :: 0 <= i < |x| ==> s[i] != c
  {
    var s := x + [c] + y;
    forall i | 0 <= i < |x|
      ensures s[i] != c
    {
      assert s[i] == x[i];
    }
  }

  /** Cutting at the first separator gives back both pieces. */
  lemma SplitAtFirst(c: char, x: string, y: string, x': string, y': string)
    requires c !in x && c !in x'
    requires x + [c] + y == x' + [c] + y'
    ensures x == x' && y == y'
  {
    var s := x + [c] + y;
    FirstSeparator(c, x, y);
    FirstSeparator(c, x', y');
    assert |x| == |x'|;
    assert x == s[..|x|] && x' == s[..|x'|];
    assert y == s[|x| + 1..] && y' == s[|x'| + 1..];
  }

  /** A join of parts free of the separator contains it exactly when there are two parts or more. */
  lemma JoinHasSeparator(c: char, parts: seq<string>)
    requires |parts| > 0
    requires forall p :: p in parts ==> c !in p
    ensures c in Join([c], parts) <==> |parts| > 1
  {
    if |parts| > 1 {
      var rest := Join([c], parts[1..]);
      assert (parts[0] + [c] + rest)[|parts[0]|] == c;
    } else {
      assert parts[0] in parts;
    }
  }

  /** Joining parts that do not contain the separator loses nothing. */
  lemma {:induction false} JoinInjective(c: char, a: seq<string>, b: seq<string>)
    requires |a| > 0 && |b| > 0
    requires forall p :: p in a ==> c !in p
    requires forall p :: p in b ==> c !in p
    requires Join([c], a) == Join([c], b)
    ensures a == b
    decreases |a|
  {
    JoinHasSeparator(c, a);
    JoinHasSeparator(c, b);
    if |a| > 1 {
      assert a[0] in a && b[0] in b;
      SplitAtFirst(c, a[0], Join([c], a[1..]), b[0], Join([c], b[1..]));
      assert forall p :: p in a[1..] ==> p in a;
      assert forall p :: p in b[1..] ==> p in b;
      JoinInjective(c, a[1..], b[1..]);
      assert a == [a[0]] + a[1..] && b == [b[0]] + b[1..];
    }
  }

  /** Python's `a < b` on strings: lexicographic on code points, a proper prefix first. */
  predicate Below(a: string, b: string)
    decreases |a|
  {
    if a == [] then b != []
    else if b == [] then false
    else if a[0] != b[0] then a[0] < b[0]
    else Below(a[1..], b[1..])
  }

  lemma {:induction false} BelowIrreflexive(a: string)
    ensures !Below(a, a)
    decreases |a|
  {
    if a != [] {
      BelowIrreflexive(a[1..]);
    }
  }

  lemma {:induction false} BelowTransitive(a: string, b: string, c: string)
    requires Below(a, b) && Below(b, c)
    ensures Below(a, c)
    decreases |a|
  {
    if a != [] && b != [] && c != [] && a[0] == b[0] && b[0] == c[0] {
      BelowTransitive(a[1..], b[1..], c[1..]);
    }
  }

  /** Two different strings are always ordered one way or the other. */
  lemma {:induction false} BelowTotal(a: string, b: string)
    requires a != b
    ensures Below(a, b) || Below(b, a)
    decreases |a|
  {
    if a != [] && b != [] && a[0] == b[0] {
      assert a == [a[0]] + a[1..] && b == [b[0]] + b[1..];
      BelowTotal(a[1..], b[1..]);
    }
  }

  lemma BelowAsymmetric(a: string, b: string)
    requires Below(a, b)
    ensures !Below(b, a)
  {
    if Below(b, a) {
      BelowTransitive(a, b, a);
      BelowIrreflexive(a);
    }
  }
}
