/**
  The string and list built-ins the Python code relies on, over `string`
  (`seq<char>`): character classes, `lower()`, the `in` substring test,
  `strip()`, `split()` with and without a separator, `join`, and slicing
  with `[:n]`.

  Assumptions shared by the whole model: character classes and case
  folding are those of ASCII. Whitespace is what `str.isspace()` accepts
  below U+0080 (space, tab, line feed, vertical tab, form feed, carriage
  return and the four separators U+001C..U+001F); the regular-expression
  classes `\s`, `\d` and `\w` are taken over the same ASCII ranges.
 */
module Text {
  import opened Wrappers

  predicate IsSpace(c: char)
  {
    c == ' ' || ('\t' <= c <= '\r') || ('\U{1C}' <= c <= '\U{1F}')
  }

  predicate IsDigit(c: char)
  {
    '0' <= c <= '9'
  }

  /** A character of the regular-expression class `\w`. */
  predicate IsWordChar(c: char)
  {
    ('a' <= c <= 'z') || ('A' <= c <= 'Z') || IsDigit(c) || c == '_'
  }

  function LowerChar(c: char): char
  {
    if 'A' <= c <= 'Z' then (c as int + 32) as char else c
  }

  predicate IsUpper(c: char)
  {
    'A' <= c <= 'Z'
  }

  /**
    `s.lower()`: the same length; no upper-case letter is left; every other
    character stays as it was; and each upper-case letter becomes its
    lower-case partner, 32 code points further on.
   */
  function Lower(s: string): (r: string)
    ensures |r| == |s|
    ensures forall i :: 0 <= i < |r| ==> !IsUpper(r[i])
    ensures forall i :: 0 <= i < |s| && !IsUpper(s[i]) ==> r[i] == s[i]
    ensures forall i :: 0 <= i < |s| && IsUpper(s[i]) ==> r[i] as int == s[i] as int + 32
    ensures forall i :: 0 <= i < |s| ==> r[i] == LowerChar(s[i])
  {
    seq(|s|, i requires 0 <= i < |s| => LowerChar(s[i]))
  }

  /** A lower-case letter appears after lowering only where it or its capital appeared before. */
  lemma AbsentAfterLower(s: string, c: char)
    requires 'a' <= c <= 'z'
    requires forall i :: 0 <= i < |s| ==> s[i] != c && s[i] != (c as int - 32) as char
    ensures c !in Lower(s)
  {
    var r := Lower(s);
    forall i | 0 <= i < |r| ensures r[i] != c {
      assert s[i] != c && s[i] != (c as int - 32) as char;
    }
  }

  /** Lowering twice is lowering once. */
  lemma LowerIdempotent(s: string)
    ensures Lower(Lower(s)) == Lower(s)
  {
  }

  lemma LowerAppend(a: string, b: string)
    ensures Lower(a + b) == Lower(a) + Lower(b)
  {
  }

  /** `t` occurs in `s` starting at index `p`. */
  predicate ContainsAt(s: string, t: string, p: nat)
  {
    p + |t| <= |s| && s[p..p + |t|] == t
  }

  /** Python's `t in s` for strings. */
  predicate Contains(s: string, t: string)
  {
    exists p: nat :: p <= |s| && ContainsAt(s, t, p)
  }

  lemma ContainsInSuffix(a: string, b: string, t: string)
    requires Contains(b, t)
    ensures Contains(a + b, t)
  {
    var p: nat :| p <= |b| && ContainsAt(b, t, p);
    assert (a + b)[|a| + p..|a| + p + |t|] == b[p..p + |t|];
    assert ContainsAt(a + b, t, |a| + p);
  }

  lemma ContainsInPrefix(a: string, b: string, t: string)
    requires Contains(a, t)
    ensures Contains(a + b, t)
  {
    var p: nat :| p <= |a| && ContainsAt(a, t, p);
    assert (a + b)[p..p + |t|] == a[p..p + |t|];
    assert ContainsAt(a + b, t, p);
  }

  predicate AllSpace(s: string)
  {
    forall i :: 0 <= i < |s| ==> IsSpace(s[i])
  }

  /** `s.strip()`: leading and trailing whitespace removed. */
  function Strip(s: string): (r: string)
    ensures r == [] <==> AllSpace(s)
    ensures r != [] ==> !IsSpace(r[0]) && !IsSpace(r[|r| - 1])
    ensures |r| <= |s|
    decreases |s|
  {
    if s != [] && IsSpace(s[0]) then
      assert AllSpace(s[1..]) ==> AllSpace(s) by {
        if AllSpace(s[1..]) {
          forall i | 0 < i < |s| ensures IsSpace(s[i]) { assert s[i] == s[1..][i - 1]; }
        }
      }
      Strip(s[1..])
    else if s != [] && IsSpace(s[|s| - 1]) then
      assert AllSpace(s[..|s| - 1]) ==> AllSpace(s) by {
        if AllSpace(s[..|s| - 1]) {
          forall i | 0 <= i < |s| - 1 ensures IsSpace(s[i]) { assert s[i] == s[..|s| - 1][i]; }
        }
      }
      Strip(s[..|s| - 1])
    else
      s
  }

  /**
    `strip()` only cuts whitespace off the ends: it keeps `s[a..b]`, and all
    of `s[..a]` and `s[b..]` is whitespace. With `Strip`'s own contract (the
    kept part starts and ends with non-whitespace) this pins the cut down.
   */
  lemma {:induction false} StripIsSlice(s: string) returns (a: nat, b: nat)
    ensures a <= b <= |s| && Strip(s) == s[a..b]
    ensures AllSpace(s[..a]) && AllSpace(s[b..])
    decreases |s|
  {
    if s != [] && IsSpace(s[0]) {
      var a', b' := StripIsSlice(s[1..]);
      a, b := a' + 1, b' + 1;
      SliceAfterFront(s, a', b');
    } else if s != [] && IsSpace(s[|s| - 1]) {
      a, b := StripIsSlice(s[..|s| - 1]);
      SliceBeforeBack(s, a, b);
    } else {
      a, b := 0, |s|;
    }
  }

  /** A stripped slice of `s[1..]` whose cut-off ends are blank, seen in `s` after a blank first character. */
  lemma SliceAfterFront(s: string, a: nat, b: nat)
    requires s != [] && IsSpace(s[0]) && a <= b <= |s| - 1
    requires AllSpace(s[1..][..a]) && AllSpace(s[1..][b..])
    ensures s[1..][a..b] == s[a + 1..b + 1]
    ensures AllSpace(s[..a + 1]) && AllSpace(s[b + 1..])
  {
    AllSpaceCons(s[0], s[1..][..a]);
    assert s[..a + 1] == [s[0]] + s[1..][..a];
    assert s[b + 1..] == s[1..][b..];
  }

  /** A stripped slice of `s` without its blank last character, seen in `s`. */
  lemma SliceBeforeBack(s: string, a: nat, b: nat)
    requires s != [] && IsSpace(s[|s| - 1]) && a <= b <= |s| - 1
    requires AllSpace(s[..|s| - 1][..a]) && AllSpace(s[..|s| - 1][b..])
    ensures s[..|s| - 1][a..b] == s[a..b]
    ensures AllSpace(s[..a]) && AllSpace(s[b..])
  {
    var t := s[..|s| - 1];
    assert t[..a] == s[..a];
    AllSpaceSnoc(t[b..], s[|s| - 1]);
    assert s[b..] == t[b..] + [s[|s| - 1]];
  }

  lemma AllSpaceCons(c: char, t: string)
    requires IsSpace(c) && AllSpace(t)
    ensures AllSpace([c] + t)
  {
    forall i | 0 < i <= |t| ensures IsSpace(([c] + t)[i]) {
      assert ([c] + t)[i] == t[i - 1];
    }
  }

  lemma AllSpaceSnoc(t: string, c: char)
    requires IsSpace(c) && AllSpace(t)
    ensures AllSpace(t + [c])
  {
    forall i | 0 <= i < |t| ensures IsSpace((t + [c])[i]) {
      assert (t + [c])[i] == t[i];
    }
  }


  /** A piece of `split()`'s result: non-empty and free of whitespace. */
  predicate IsToken(w: string)
  {
    w != [] && forall i :: 0 <= i < |w| ==> !IsSpace(w[i])
  }

  /** The end of the longest run, starting at `i`, of characters that satisfy `p`. */
  function RunEnd(s: string, i: nat, p: char -> bool): (j: nat)
    requires i <= |s|
    ensures i <= j <= |s|
    ensures forall k :: i <= k < j ==> p(s[k])
    ensures j == |s| || !p(s[j])
    decreases |s| - i
  {
    if i < |s| && p(s[i]) then RunEnd(s, i + 1, p) else i
  }

  predicate NotSpace(c: char)
  {
    !IsSpace(c)
  }

  /** `s.split()`: the maximal runs of non-whitespace characters, in order. */
  function SplitWords(s: string): (ws: seq<string>)
    ensures forall k :: 0 <= k < |ws| ==> IsToken(ws[k])
    ensures ws == [] <==> AllSpace(s)
    decreases |s|
  {
    var a := RunEnd(s, 0, IsSpace);
    if a == |s| then
      []
    else
      var b := RunEnd(s, a, NotSpace);
      [s[a..b]] + SplitWords(s[b..])
  }

  /** `gaps[0] + words[0] + gaps[1] + ... + words[n - 1] + gaps[n]`. */
  function Interleave(gaps: seq<string>, words: seq<string>): string
    requires |gaps| == |words| + 1
    decreases |words|
  {
    if words == [] then gaps[0] else gaps[0] + words[0] + Interleave(gaps[1..], words[1..])
  }

  /**
    `split()` cuts `s` into its maximal non-whitespace runs, in order: `s` is
    the tokens interleaved with whitespace gaps, the gaps between two tokens
    are not empty (so no token could be longer), and tokens contain no
    whitespace (`SplitWords`' own contract). The gap before the first token
    holds all the leading whitespace.
   */
  lemma {:induction false} SplitWordsRuns(s: string) returns (gaps: seq<string>)
    ensures var ws := SplitWords(s);
      && |gaps| == |ws| + 1
      && (forall k :: 0 <= k < |gaps| ==> AllSpace(gaps[k]))
      && (forall k :: 0 < k < |ws| ==> gaps[k] != [])
      && s == Interleave(gaps, ws)
    ensures s != [] && IsSpace(s[0]) ==> gaps[0] != []
    decreases |s|
  {
    var a := RunEnd(s, 0, IsSpace);
    if a == |s| {
      gaps := [s];
    } else {
      var b := RunEnd(s, a, NotSpace);
      var x, w, y := s[..a], s[a..b], s[b..];
      var rest := SplitWords(y);
      assert SplitWords(s) == [w] + rest;
      var gs := SplitWordsRuns(y);
      assert AllSpace(x) && (s != [] && IsSpace(s[0]) ==> x != []);
      SplitThree(s, a, b);
      assert rest != [] ==> y != [] && IsSpace(y[0]) by { }
      gaps := [x] + gs;
      InterleaveCons(x, w, gs, rest);
    }
  }

  lemma SplitThree(s: string, a: nat, b: nat)
    requires a <= b <= |s|
    ensures s == s[..a] + s[a..b] + s[b..]
  {
  }

  lemma InterleaveCons(g: string, w: string, gs: seq<string>, ws: seq<string>)
    requires |gs| == |ws| + 1
    requires forall k :: 0 <= k < |gs| ==> AllSpace(gs[k])
    requires forall k :: 0 < k < |ws| ==> gs[k] != []
    requires ws != [] ==> gs[0] != []
    requires AllSpace(g)
    ensures Interleave([g] + gs, [w] + ws) == g + w + Interleave(gs, ws)
    ensures forall k :: 0 <= k < |[g] + gs| ==> AllSpace(([g] + gs)[k])
    ensures forall k :: 0 < k < |[w] + ws| ==> ([g] + gs)[k] != []
  {
    assert ([g] + gs)[1..] == gs && ([w] + ws)[1..] == ws;
    assert forall k :: 0 < k < |[g] + gs| ==> ([g] + gs)[k] == gs[k - 1];
  }

  /** `sep.join(parts)`. */
  function JoinWith(parts: seq<string>, sep: string): (r: string)
    ensures parts == [] ==> r == []
    ensures |parts| == 1 ==> r == parts[0]
    decreases |parts|
  {
    if parts == [] then []
    else if |parts| == 1 then parts[0]
    else parts[0] + sep + JoinWith(parts[1..], sep)
  }

  /** The index of the first `c` in `s`, if any. */
  function IndexOf(s: string, c: char): (r: Option<nat>)
    ensures r.Some? ==> r.value < |s| && s[r.value] == c
    ensures forall k :: 0 <= k < |s| && (r.None? || k < r.value) ==> s[k] != c
    decreases |s|
  {
    if s == [] then None
    else if s[0] == c then Some(0)
    else match IndexOf(s[1..], c)
      case None => None
      case Some(k) => Some(k + 1)
  }

  /** `s.split(c)` for a one-character separator: never empty, no piece holds `c`. */
  function SplitOn(s: string, c: char): (parts: seq<string>)
    ensures |parts| >= 1
    ensures forall k :: 0 <= k < |parts| ==> c !in parts[k]
    decreases |s|
  {
    match IndexOf(s, c)
    case None => [s]
    case Some(k) => [s[..k]] + SplitOn(s[k + 1..], c)
  }

  /** Splitting on `c` and joining with `c` gives back the string. */
  lemma {:induction false} SplitOnJoin(s: string, c: char)
    ensures JoinWith(SplitOn(s, c), [c]) == s
    decreases |s|
  {
    match IndexOf(s, c)
    case None =>
    case Some(k) =>
      var rest := SplitOn(s[k + 1..], c);
      SplitOnJoin(s[k + 1..], c);
      assert SplitOn(s, c) == [s[..k]] + rest;
      assert ([s[..k]] + rest)[1..] == rest;
      assert s == s[..k] + [c] + s[k + 1..];
  }

  function Min(a: int, b: int): int
  {
    if a <= b then a else b
  }

  function Max(a: int, b: int): int
  {
    if a >= b then a else b
  }

  /** `xs[:n]` with Python's slice rules: a negative `n` counts back from the end. */
  function Slice<T>(xs: seq<T>, n: int): (r: seq<T>)
    ensures |r| == if n >= 0 then Min(n, |xs|) else Max(0, |xs| + n)
    ensures r == xs[..|r|]
  {
    if n >= 0 then (if n <= |xs| then xs[..n] else xs)
    else if |xs| + n <= 0 then []
    else xs[..|xs| + n]
  }

  /** No element occurs twice. */
  predicate NoDup<T(==)>(xs: seq<T>)
  {
    forall i, j :: 0 <= i < j < |xs| ==> xs[i] != xs[j]
  }

  /** `xs` is `ys` with some elements deleted, the rest kept in order. */
  predicate Subsequence<T(==)>(xs: seq<T>, ys: seq<T>)
    decreases |ys|
  {
    if xs == [] then true
    else if ys == [] then false
    else if xs[|xs| - 1] == ys[|ys| - 1] then Subsequence(xs[..|xs| - 1], ys[..|ys| - 1])
    else Subsequence(xs, ys[..|ys| - 1])
  }
}
