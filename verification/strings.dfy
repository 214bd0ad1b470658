/**
 * The handful of Python `str` operations the scripts use, over `string`
 * (a `seq<char>`): `s.count(c)` for one character, `sub in s`, `s.find(sub, i)`,
 * the clamping slice `s[:n]`, `s.replace(c, rep)` for one
 * character, ASCII `lower()` and the decimal rendering used by f-strings.
 */
module Strings {

  /** Number of occurrences of the character `c` in `s` (Python's `s.count(c)`). */
  function Count(s: string, c: char): (n: nat)
    ensures n <= |s|
    ensures n == 0 <==> c !in s
  {
    if s == [] then 0 else (if s[0] == c then 1 else 0) + Count(s[1..], c)
  }

  lemma {:induction false} CountConcat(a: string, b: string, c: char)
    ensures Count(a + b, c) == Count(a, c) + Count(b, c)
  {
    if a == [] {
      assert a + b == b;
    } else {
      assert (a + b)[1..] == a[1..] + b;
      CountConcat(a[1..], b, c);
    }
  }

  /** Inserting text without `c` into `s` keeps the count of `c`. */
  lemma CountInsert(s: string, k: nat, x: string, c: char)
    requires k <= |s| && c !in x
    ensures Count(s[..k] + x + s[k..], c) == Count(s, c)
  {
    assert s == s[..k] + s[k..];
    CountConcat(s[..k], x, c);
    CountConcat(s[..k] + x, s[k..], c);
    CountConcat(s[..k], s[k..], c);
  }

  /** `sub` occurs in `s` starting at index `i`. */
  predicate OccursAt(s: string, sub: string, i: nat)
  {
    i + |sub| <= |s| && s[i..i + |sub|] == sub
  }


  /** `j` is the first index at which `sub` occurs in `s`. */
  ghost predicate FirstAt(s: string, sub: string, j: nat)
  {
    OccursAt(s, sub, j) && forall i :: 0 <= i < j ==> !OccursAt(s, sub, i)
  }

  /**
   * Python's `s.find(sub, from)`: the least index `i >= from` at which `sub`
   * occurs, or -1 when there is none.
   */
  function Find(s: string, sub: string, from: nat): (r: int)
    decreases |s| - from
    ensures r == -1 || (from <= r && OccursAt(s, sub, r))
    ensures r == -1 ==> forall i :: from <= i ==> !OccursAt(s, sub, i)
    ensures r >= 0 ==> forall i :: from <= i < r ==> !OccursAt(s, sub, i)
  {
    if from + |sub| > |s| then -1
    else if OccursAt(s, sub, from) then from
    else Find(s, sub, from + 1)
  }

  /** Python's `sub in s`: a search from the start succeeds. */
  predicate Contains(s: string, sub: string)
  {
    Find(s, sub, 0) >= 0
  }

  /** `sub in s` holds exactly when `sub` occurs somewhere in `s`, and the search finds its first occurrence. */
  lemma ContainsMeansOccurs(s: string, sub: string)
    ensures Contains(s, sub) <==> exists i: nat :: OccursAt(s, sub, i)
    ensures Contains(s, sub) ==> FirstAt(s, sub, Find(s, sub, 0))
  {
  }

  lemma ContainsAt(s: string, sub: string, i: nat)
    requires OccursAt(s, sub, i)
    ensures Contains(s, sub)
  {
  }

  /** `v` occurs in `a + v + b` right after `a`. */
  lemma OccursInMiddle(a: string, v: string, b: string)
    ensures OccursAt(a + v + b, v, |a|)
    ensures Contains(a + v + b, v)
  {
    assert (a + v + b)[|a|..|a| + |v|] == v;
    ContainsAt(a + v + b, v, |a|);
  }

  /** Whatever occurs in `s` also occurs in `s` with text put around it. */
  lemma ContainsWithin(a: string, s: string, b: string, sub: string)
    requires Contains(s, sub)
    ensures Contains(a + s + b, sub)
  {
    var i := Find(s, sub, 0);
    assert (a + s + b)[|a| + i..|a| + i + |sub|] == s[i..i + |sub|];
    assert OccursAt(a + s + b, sub, |a| + i);
  }

  /**
   * `t` is `s` with any number of copies of `a` and of `b` spliced in, and
   * nothing else changed.
   */
  predicate Spliced(s: string, t: string, a: string, b: string)
    decreases |t|
  {
    if t == [] then s == []
    else
      || (s != [] && s[0] == t[0] && Spliced(s[1..], t[1..], a, b))
      || (a != [] && OccursAt(t, a, 0) && Spliced(s, t[|a|..], a, b))
      || (b != [] && OccursAt(t, b, 0) && Spliced(s, t[|b|..], a, b))
  }

  lemma {:induction false} SplicedRefl(s: string, a: string, b: string)
    ensures Spliced(s, s, a, b)
  {
    if s != [] {
      SplicedRefl(s[1..], a, b);
    }
  }

  lemma {:induction false} SplicedConcat(s: string, t: string, u: string, v: string, a: string, b: string)
    requires Spliced(s, t, a, b) && Spliced(u, v, a, b)
    ensures Spliced(s + u, t + v, a, b)
    decreases |t|
  {
    if t == [] {
      assert s + u == u && t + v == v;
    } else if s != [] && s[0] == t[0] && Spliced(s[1..], t[1..], a, b) {
      SplicedConcat(s[1..], t[1..], u, v, a, b);
      assert (s + u)[1..] == s[1..] + u;
      assert (t + v)[1..] == t[1..] + v;
    } else if a != [] && OccursAt(t, a, 0) && Spliced(s, t[|a|..], a, b) {
      SplicedConcat(s, t[|a|..], u, v, a, b);
      SplicedPiece(t, v, a);
    } else {
      SplicedConcat(s, t[|b|..], u, v, a, b);
      SplicedPiece(t, v, b);
    }
  }

  lemma SplicedPiece(t: string, v: string, a: string)
    requires OccursAt(t, a, 0)
    ensures OccursAt(t + v, a, 0) && (t + v)[|a|..] == t[|a|..] + v
  {
    assert (t + v)[..|a|] == t[..|a|];
  }

  /** Splicing one piece in front. */
  lemma SplicedPrepend(s: string, t: string, piece: string, a: string, b: string)
    requires Spliced(s, t, a, b)
    requires piece != [] && (piece == a || piece == b)
    ensures Spliced(s, piece + t, a, b)
  {
    var w := piece + t;
    assert w[..|piece|] == piece;
    assert w[|piece|..] == t;
  }

  /** Splicing one piece into `s` at `k`. */
  lemma SplicedInsert(s: string, k: nat, piece: string, a: string, b: string)
    requires k <= |s|
    requires piece != [] && (piece == a || piece == b)
    ensures Spliced(s, s[..k] + piece + s[k..], a, b)
  {
    var x, y := s[..k], s[k..];
    SplicedRefl(x, a, b);
    SplicedRefl(y, a, b);
    SplicedPrepend(y, y, piece, a, b);
    SplicedConcat(x, x, y, piece + y, a, b);
    assert x + y == s;
    assert x + (piece + y) == x + piece + y;
  }

  /** Pieces without the character `c` leave its count unchanged. */
  lemma {:induction false} SplicedKeepsCount(s: string, t: string, a: string, b: string, c: char)
    requires Spliced(s, t, a, b)
    requires c !in a && c !in b
    ensures Count(t, c) == Count(s, c)
    decreases |t|
  {
    if t == [] {
    } else if s != [] && s[0] == t[0] && Spliced(s[1..], t[1..], a, b) {
      SplicedKeepsCount(s[1..], t[1..], a, b, c);
    } else {
      var piece := if a != [] && OccursAt(t, a, 0) && Spliced(s, t[|a|..], a, b) then a else b;
      SplicedKeepsCount(s, t[|piece|..], a, b, c);
      assert t == piece + t[|piece|..];
      CountConcat(piece, t[|piece|..], c);
    }
  }

  /** Whatever occurs in `s` also occurs in `s` with text after it. */
  lemma ContainsBefore(s: string, b: string, sub: string)
    requires Contains(s, sub)
    ensures Contains(s + b, sub)
  {
    var i := Find(s, sub, 0);
    assert (s + b)[i..i + |sub|] == s[i..i + |sub|];
    assert OccursAt(s + b, sub, i);
  }

  /** Adjacent slices join up. */
  lemma SlicesJoin(s: string, a: nat, b: nat, c: nat)
    requires a <= b <= c <= |s|
    ensures s[a..b] + s[b..c] == s[a..c]
    ensures s[a..b] + s[b..] == s[a..]
  {
  }

  /** Python's `s[:n]` for `n >= 0`. */
  function Take(s: string, n: nat): (r: string)
    ensures |r| <= n && |r| <= |s|
    ensures r == s[..|r|]
    ensures n <= |s| ==> |r| == n
    ensures |s| < n ==> r == s
  {
    if n <= |s| then s[..n] else s
  }

  /** Python's `s.replace(c, rep)` for a one-character `c`. */
  function ReplaceChar(s: string, c: char, rep: string): (r: string)
    ensures c !in rep ==> c !in r
    ensures c !in s ==> r == s
  {
    if s == [] then []
    else (if s[0] == c then rep else [s[0]]) + ReplaceChar(s[1..], c, rep)
  }

  /** A one-character string: `c` itself becomes `rep`, any other character stays. */
  lemma ReplaceCharOne(x: char, c: char, rep: string)
    ensures ReplaceChar([x], c, rep) == if x == c then rep else [x]
  {
    assert [x][1..] == [];
  }

  /** Replacing works piece by piece, so every `c` of `s` becomes one copy of `rep`. */
  lemma {:induction false} ReplaceCharConcat(a: string, b: string, c: char, rep: string)
    ensures ReplaceChar(a + b, c, rep) == ReplaceChar(a, c, rep) + ReplaceChar(b, c, rep)
  {
    if a == [] {
      assert a + b == b;
    } else {
      assert (a + b)[1..] == a[1..] + b;
      ReplaceCharConcat(a[1..], b, c, rep);
    }
  }

  /** ASCII case folding: the model's `str.lower()`. */
  function Lower(s: string): (r: string)
    ensures |r| == |s|
    ensures forall i :: 0 <= i < |s| ==> r[i] == if 'A' <= s[i] <= 'Z' then (s[i] as int + 32) as char else s[i]
  {
    if s == [] then []
    else [if 'A' <= s[0] <= 'Z' then (s[0] as int + 32) as char else s[0]] + Lower(s[1..])
  }

  /** The number a string of decimal digits denotes. */
  function DigitsValue(d: string): nat
    requires forall i :: 0 <= i < |d| ==> '0' <= d[i] <= '9'
  {
    if d == [] then 0 else DigitsValue(d[..|d| - 1]) * 10 + (d[|d| - 1] as int - '0' as int)
  }

  /** Decimal rendering of a natural number, as `f"{n}"` prints it: no leading zero. */
  function NatToString(n: nat): (r: string)
    ensures |r| > 0
    ensures forall i :: 0 <= i < |r| ==> '0' <= r[i] <= '9'
    ensures r[0] == '0' <==> n == 0
  {
    if n < 10 then [('0' as int + n) as char]
    else NatToString(n / 10) + [('0' as int + n % 10) as char]
  }

  /** The rendering denotes `n`. */
  lemma {:induction false} NatToStringValue(n: nat)
    ensures DigitsValue(NatToString(n)) == n
  {
    if n >= 10 {
      NatToStringValue(n / 10);
      var r := NatToString(n);
      assert r[..|r| - 1] == NatToString(n / 10);
    }
  }
}
