/**
 * The few Python string operations the two scripts rely on:
 * `startswith`, `endswith`, the `in` substring test, `strip`/`lstrip`
 * over a given set of whitespace characters, and `split` on one character.
 */
module Strings {

  /** C-locale `isspace`: the characters Python 2 `str.strip()` removes. */
  predicate IsAsciiSpace(c: char) {
    c == ' ' || '\t' <= c <= '\r'
  }

  /** Python 3 `str.isspace()`: the characters `str.lstrip()` removes. */
  predicate IsUnicodeSpace(c: char) {
    IsAsciiSpace(c) || '\U{1C}' <= c <= '\U{1F}' || c == '\U{85}' || c == '\U{A0}' ||
    c == '\U{1680}' || '\U{2000}' <= c <= '\U{200A}' || c == '\U{2028}' || c == '\U{2029}' ||
    c == '\U{202F}' || c == '\U{205F}' || c == '\U{3000}'
  }

  const ASCII_SPACE: set<char> := set c: char | IsAsciiSpace(c)

  const UNICODE_SPACE: set<char> := set c: char | IsUnicodeSpace(c)

  predicate StartsWith(s: string, prefix: string) {
    |prefix| <= |s| && s[..|prefix|] == prefix
  }

  predicate EndsWith(s: string, suffix: string) {
    |suffix| <= |s| && s[|s| - |suffix|..] == suffix
  }

  /** `t in s`: some position of `s` starts a copy of `t`, searched left to right. */
  predicate Contains(s: string, t: string)
    decreases |s|
  {
    StartsWith(s, t) || (|s| > 0 && Contains(s[1..], t))
  }

  /** `t` occurs in `s` starting at position `i`. */
  predicate OccursAt(s: string, t: string, i: int) {
    0 <= i && i + |t| <= |s| && s[i..i + |t|] == t
  }

  /** `Contains` agrees with the positional definition of a substring. */
  lemma {:induction false} ContainsIff(s: string, t: string)
    ensures Contains(s, t) <==> exists i :: OccursAt(s, t, i)
    decreases |s|
  {
    if StartsWith(s, t) {
      assert OccursAt(s, t, 0);
    } else if |s| == 0 {
    } else {
      ContainsIff(s[1..], t);
      if Contains(s[1..], t) {
        var i :| OccursAt(s[1..], t, i);
        assert s[i + 1..i + 1 + |t|] == s[1..][i..i + |t|];
        assert OccursAt(s, t, i + 1);
      }
      if exists i :: OccursAt(s, t, i) {
        var i :| OccursAt(s, t, i);
        assert s[1..][i - 1..i - 1 + |t|] == s[i..i + |t|];
        assert OccursAt(s[1..], t, i - 1);
      }
    }
  }

  /** Every character of `s` is in `ws`. */
  predicate AllIn(s: string, ws: set<char>) {
    forall i :: 0 <= i < |s| ==> s[i] in ws
  }

  /** `s.lstrip()` for the whitespace set `ws`. */
  function TrimLeft(s: string, ws: set<char>): string
    decreases |s|
  {
    if |s| > 0 && s[0] in ws then TrimLeft(s[1..], ws) else s
  }

  /** `TrimLeft` drops the longest all-whitespace prefix and keeps the rest. */
  lemma {:induction false} TrimLeftShape(s: string, ws: set<char>)
    ensures var r := TrimLeft(s, ws);
            |r| <= |s| && r == s[|s| - |r|..] && AllIn(s[..|s| - |r|], ws) && (r == [] || r[0] !in ws)
    decreases |s|
  {
    if |s| > 0 && s[0] in ws {
      TrimLeftShape(s[1..], ws);
    }
  }

  /** `s.rstrip()` for the whitespace set `ws`. */
  function TrimRight(s: string, ws: set<char>): string
    decreases |s|
  {
    if |s| > 0 && s[|s| - 1] in ws then TrimRight(s[..|s| - 1], ws) else s
  }

  /** `TrimRight` drops the longest all-whitespace suffix and keeps the rest. */
  lemma {:induction false} TrimRightShape(s: string, ws: set<char>)
    ensures var r := TrimRight(s, ws);
            |r| <= |s| && r == s[..|r|] && AllIn(s[|r|..], ws) && (r == [] || r[|r| - 1] !in ws)
    decreases |s|
  {
    if |s| > 0 && s[|s| - 1] in ws {
      TrimRightShape(s[..|s| - 1], ws);
      assert s[..|s| - 1][..|TrimRight(s, ws)|] == s[..|TrimRight(s, ws)|];
      assert s[|TrimRight(s, ws)|..] == s[..|s| - 1][|TrimRight(s, ws)|..] + [s[|s| - 1]];
    }
  }

  /** `s.strip()` for the whitespace set `ws`. */
  function Trim(s: string, ws: set<char>): string {
    TrimRight(TrimLeft(s, ws), ws)
  }

  /** Trimming is the identity exactly on strings with no whitespace at either end. */
  lemma TrimFixedPoint(s: string, ws: set<char>)
    ensures Trim(s, ws) == s <==> (s == [] || (s[0] !in ws && s[|s| - 1] !in ws))
  {
    TrimLeftShape(s, ws);
    TrimRightShape(TrimLeft(s, ws), ws);
  }

  /** A whitespace prefix does not change the left-trimmed string. */
  lemma {:induction false} TrimLeftSkipsSpace(w: string, t: string, ws: set<char>)
    requires AllIn(w, ws)
    ensures TrimLeft(w + t, ws) == TrimLeft(t, ws)
    decreases |w|
  {
    if |w| > 0 {
      assert (w + t)[1..] == w[1..] + t;
      TrimLeftSkipsSpace(w[1..], t, ws);
    } else {
      assert w + t == t;
    }
  }

  /** `s.split(sep)`: the pieces between separators, empty pieces kept. */
  function Split(s: string, sep: char): (r: seq<string>)
    ensures |r| >= 1
    ensures forall i :: 0 <= i < |r| ==> sep !in r[i]
    decreases |s|
  {
    if sep !in s then [s]
    else
      var i := IndexOf(s, sep);
      [s[..i]] + Split(s[i + 1..], sep)
  }

  /** Position of the first `c` in `s`. */
  function IndexOf(s: string, c: char): (i: nat)
    requires c in s
    ensures i < |s| && s[i] == c && c !in s[..i]
  {
    if s[0] == c then 0 else 1 + IndexOf(s[1..], c)
  }

  /** `sep.join(parts)`. */
  function Join(parts: seq<string>, sep: char): string
    requires |parts| >= 1
  {
    if |parts| == 1 then parts[0] else parts[0] + [sep] + Join(parts[1..], sep)
  }

  /** Splitting and joining back again gives the original string. */
  lemma {:induction false} JoinSplit(s: string, sep: char)
    ensures Join(Split(s, sep), sep) == s
    decreases |s|
  {
    if sep in s {
      var i := IndexOf(s, sep);
      var rest := Split(s[i + 1..], sep);
      assert Split(s, sep) == [s[..i]] + rest;
      JoinSplit(s[i + 1..], sep);
      assert Join([s[..i]] + rest, sep) == s[..i] + [sep] + Join(rest, sep);
      assert s == s[..i] + [sep] + s[i + 1..];
    }
  }

  /** The first separator of `a + [sep] + b` is the one after `a` when `a` has none. */
  lemma {:induction false} IndexOfAfterPiece(a: string, sep: char, b: string)
    requires sep !in a
    ensures sep in a + [sep] + b
    ensures IndexOf(a + [sep] + b, sep) == |a|
    decreases |a|
  {
    var s := a + [sep] + b;
    assert s[|a|] == sep;
    if |a| > 0 {
      assert s[1..] == a[1..] + [sep] + b;
      IndexOfAfterPiece(a[1..], sep, b);
    }
  }

  /** Splitting `a + [sep] + b` yields `a` and then the pieces of `b`. */
  lemma SplitAfterPiece(a: string, sep: char, b: string)
    requires sep !in a
    ensures Split(a + [sep] + b, sep) == [a] + Split(b, sep)
  {
    var s := a + [sep] + b;
    IndexOfAfterPiece(a, sep, b);
    assert s[..|a|] == a;
    assert s[|a| + 1..] == b;
  }

  /** Joining separator-free pieces and splitting again gives the pieces back. */
  lemma {:induction false} SplitJoin(parts: seq<string>, sep: char)
    requires |parts| >= 1
    requires forall i :: 0 <= i < |parts| ==> sep !in parts[i]
    ensures Split(Join(parts, sep), sep) == parts
    decreases |parts|
  {
    if |parts| > 1 {
      var rest := Join(parts[1..], sep);
      assert Join(parts, sep) == parts[0] + [sep] + rest;
      SplitAfterPiece(parts[0], sep, rest);
      assert forall i :: 0 <= i < |parts[1..]| ==> sep !in parts[1..][i];
      SplitJoin(parts[1..], sep);
      assert parts == [parts[0]] + parts[1..];
    }
  }

  /** The text of a file whose `readlines()` gave `lines`. */
  function Concat(lines: seq<string>): string {
    if lines == [] then [] else lines[0] + Concat(lines[1..])
  }

  lemma {:induction false} ConcatAppend(a: seq<string>, b: seq<string>)
    ensures Concat(a + b) == Concat(a) + Concat(b)
    decreases |a|
  {
    if a == [] {
      assert a + b == b;
    } else {
      assert (a + b)[1..] == a[1..] + b;
      ConcatAppend(a[1..], b);
    }
  }
}
