/**
  The part of Python's `re` module that the source's patterns use, for
  `re.search` and `re.sub`.

  A pattern (`Regex`) is a list of alternatives tried in order at each
  start position; an alternative is a sequence of atoms: a literal
  character, an optional character (`c?`), a run of at least `least`
  characters of a class (`\s+`, `\d+`, `\d{8,}`, `[^.]*`, `[^/]+`, `\n{3,}`,
  ` {2,}`), and the word boundary `\b`. The one group in a source pattern (`(canadian|american)`,
  `(work\s+)?`) is written as two top-level alternatives, which is how a
  backtracking engine orders the same choices.

  Quantifiers here never give characters back (they are possessive). For
  every pattern of the source this finds the same match as Python's
  backtracking engine: in each of them a quantified atom is followed by a
  character its class cannot contain (`\s+` by a letter, `\.?` by `s`, a
  space or the end, `\d+` by `\s`, `[^.]*` by `.`, `[^/]+` by `/`), so
  giving a character back can never let the rest of the pattern match.
 */
module Pattern {
  import opened Wrappers
  import opened Text

  /** The character classes `\s`, `\d`, `[^c]` and the single character `c`. */
  datatype Class = Space | Digit | Except(c: char) | Only(c: char)

  predicate InClass(cls: Class, c: char)
  {
    match cls
    case Space => IsSpace(c)
    case Digit => IsDigit(c)
    case Except(x) => c != x
    case Only(x) => c == x
  }

  datatype Atom =
    | Char(c: char)
    | Opt(c: char)
    | Run(cls: Class, least: nat)
    | Boundary

  type Alt = seq<Atom>
  type Regex = seq<Alt>

  /** The literal `w`, one `Char` per character (what `re.escape` guarantees). */
  function Lit(w: string): (p: Alt)
    ensures |p| == |w|
    ensures forall k :: 0 <= k < |w| ==> p[k] == Char(w[k])
  {
    seq(|w|, k requires 0 <= k < |w| => Char(w[k]))
  }

  /** Character comparison; with `ci` it is `re.IGNORECASE` over ASCII. */
  predicate SameChar(a: char, b: char, ci: bool)
  {
    if ci then LowerChar(a) == LowerChar(b) else a == b
  }

  predicate WordAt(s: string, i: int)
  {
    0 <= i < |s| && IsWordChar(s[i])
  }

  /** `\b` at index `i`: a word character on exactly one side. */
  predicate AtBoundary(s: string, i: nat)
  {
    WordAt(s, i - 1) != WordAt(s, i)
  }

  /** The end of the longest run of characters of `cls` that starts at `i`. */
  function ClassRunEnd(cls: Class, s: string, i: nat): (j: nat)
    requires i <= |s|
    ensures i <= j <= |s|
    ensures forall k :: i <= k < j ==> InClass(cls, s[k])
    ensures j == |s| || !InClass(cls, s[j])
    decreases |s| - i
  {
    if i < |s| && InClass(cls, s[i]) then ClassRunEnd(cls, s, i + 1) else i
  }

  /** Where one atom, tried at `i`, stops. */
  function Step(a: Atom, s: string, i: nat, ci: bool): (r: Option<nat>)
    requires i <= |s|
    ensures r.Some? ==> i <= r.value <= |s|
  {
    match a
    case Char(c) => if i < |s| && SameChar(s[i], c, ci) then Some(i + 1) else None
    case Opt(c) => if i < |s| && SameChar(s[i], c, ci) then Some(i + 1) else Some(i)
    case Run(cls, least) =>
      var j := ClassRunEnd(cls, s, i);
      if j - i >= least then Some(j) else None
    case Boundary => if AtBoundary(s, i) then Some(i) else None
  }

  /** Where the alternative `p`, tried at `i`, stops, if it matches there. */
  function MatchSeq(p: Alt, s: string, i: nat, ci: bool): (r: Option<nat>)
    requires i <= |s|
    ensures r.Some? ==> i <= r.value <= |s|
    decreases |p|
  {
    if p == [] then Some(i)
    else match Step(p[0], s, i, ci)
      case None => None
      case Some(j) => MatchSeq(p[1..], s, j, ci)
  }

  /** The end of the match at `i` of the first alternative that matches there. */
  function MatchAt(re: Regex, s: string, i: nat, ci: bool): (r: Option<nat>)
    requires i <= |s|
    ensures r.Some? ==> i <= r.value <= |s|
    ensures r.None? <==> forall a :: 0 <= a < |re| ==> MatchSeq(re[a], s, i, ci).None?
    decreases |re|
  {
    if re == [] then None
    else match MatchSeq(re[0], s, i, ci)
      case Some(j) => Some(j)
      case None =>
        assert forall a :: 1 <= a < |re| ==> re[1..][a - 1] == re[a];
        MatchAt(re[1..], s, i, ci)
  }

  /** Alternatives are tried in order: the match at `i` is that of the first alternative that matches there. */
  lemma {:induction false} MatchAtFirst(re: Regex, s: string, i: nat, ci: bool) returns (a: nat)
    requires i <= |s| && MatchAt(re, s, i, ci).Some?
    ensures a < |re| && MatchSeq(re[a], s, i, ci) == MatchAt(re, s, i, ci)
    ensures forall b :: 0 <= b < a ==> MatchSeq(re[b], s, i, ci).None?
    decreases |re|
  {
    if MatchSeq(re[0], s, i, ci).Some? {
      a := 0;
    } else {
      var a' := MatchAtFirst(re[1..], s, i, ci);
      a := a' + 1;
      forall b | 0 < b < a ensures MatchSeq(re[b], s, i, ci).None? {
        assert re[b] == re[1..][b - 1];
      }
    }
  }

  datatype Span = Span(start: nat, end: nat)

  /** `re.search` from index `i`: the leftmost start at or after `i` where the pattern matches. */
  function SearchFrom(re: Regex, s: string, i: nat, ci: bool): (r: Option<Span>)
    requires i <= |s|
    ensures r.Some? ==> i <= r.value.start <= r.value.end <= |s|
    ensures r.Some? ==> MatchAt(re, s, r.value.start, ci) == Some(r.value.end)
    ensures forall k :: i <= k <= |s| && (r.None? || k < r.value.start) ==> MatchAt(re, s, k, ci).None?
    decreases |s| - i
  {
    match MatchAt(re, s, i, ci)
    case Some(j) => Some(Span(i, j))
    case None => if i == |s| then None else SearchFrom(re, s, i + 1, ci)
  }

  /** `re.search(pattern, s)` is truthy. */
  predicate Found(re: Regex, s: string, ci: bool)
  {
    SearchFrom(re, s, 0, ci).Some?
  }

  /** The pattern is found exactly when it matches at some index. */
  lemma FoundIff(re: Regex, s: string, ci: bool)
    ensures Found(re, s, ci) <==> exists k :: 0 <= k <= |s| && MatchAt(re, s, k, ci).Some?
  {
    var r := SearchFrom(re, s, 0, ci);
    if r.Some? {
      assert MatchAt(re, s, r.value.start, ci).Some?;
    }
  }

  /**
    `re.sub(pattern, repl, s[i..])`: every leftmost, non-overlapping match
    replaced by `repl`, the text between matches copied. An empty match
    (none of the source's patterns has one) inserts `repl` and the search
    resumes one character later.
   */
  function SubFrom(re: Regex, repl: string, s: string, i: nat, ci: bool): (r: string)
    requires i <= |s|
    ensures SearchFrom(re, s, i, ci).None? ==> r == s[i..]
    decreases |s| - i
  {
    match SearchFrom(re, s, i, ci)
    case None => s[i..]
    case Some(m) =>
      if m.end > m.start then s[i..m.start] + repl + SubFrom(re, repl, s, m.end, ci)
      else if m.start < |s| then s[i..m.start] + repl + [s[m.start]] + SubFrom(re, repl, s, m.start + 1, ci)
      else s[i..m.start] + repl
  }

  /** `re.sub(pattern, repl, s)`; a pattern that is not found leaves `s` as it is. */
  function Sub(re: Regex, repl: string, s: string, ci: bool): (r: string)
    ensures !Found(re, s, ci) ==> r == s
  {
    SubFrom(re, repl, s, 0, ci)
  }

  /** The text before the first match is copied unchanged by `Sub`. */
  lemma SubKeepsPrefix(re: Regex, repl: string, s: string, ci: bool)
    requires Found(re, s, ci)
    ensures var m := SearchFrom(re, s, 0, ci).value;
      |Sub(re, repl, s, ci)| >= m.start && Sub(re, repl, s, ci)[..m.start] == s[..m.start]
  {
  }

  /** The pattern never matches the empty string in `s` (true of every pattern of the source). */
  predicate NoEmptyMatch(re: Regex, s: string, ci: bool)
  {
    forall k :: 0 <= k <= |s| ==> MatchAt(re, s, k, ci) != Some(k)
  }

  /** Matches found one after the other: each a non-empty match, each starting where or after the previous ended. */
  predicate Chain(re: Regex, s: string, i: nat, spans: seq<Span>, ci: bool)
  {
    (forall k :: 0 <= k < |spans| ==>
      i <= spans[k].start < spans[k].end <= |s| && MatchAt(re, s, spans[k].start, ci) == Some(spans[k].end))
    && (forall j, k :: 0 <= j < k < |spans| ==> spans[j].end <= spans[k].start)
  }

  /** Position `p` lies inside one of the spans. */
  predicate Covered(spans: seq<Span>, p: nat)
  {
    exists k :: 0 <= k < |spans| && spans[k].start <= p < spans[k].end
  }

  /** `s[i..]` with each span replaced by `repl` and the text around the spans copied. */
  function Splice(s: string, i: nat, spans: seq<Span>, repl: string): string
    requires i <= |s|
    requires forall k :: 0 <= k < |spans| ==> i <= spans[k].start <= spans[k].end <= |s|
    requires forall j, k :: 0 <= j < k < |spans| ==> spans[j].end <= spans[k].start
    decreases |spans|
  {
    if spans == [] then s[i..]
    else s[i..spans[0].start] + repl + Splice(s, spans[0].end, spans[1..], repl)
  }

  /**
    `re.sub` replaces every match, scanning left to right: for a pattern
    that never matches the empty string, `Sub` is `s` with the spans of a
    chain of matches replaced by `repl` and everything between them
    copied, and every position where the pattern matches lies inside one
    of those spans (a match is skipped only when it overlaps a replaced one).
   */
  lemma {:induction false} SubSplices(re: Regex, repl: string, s: string, i: nat, ci: bool) returns (spans: seq<Span>)
    requires i <= |s| && NoEmptyMatch(re, s, ci)
    ensures Chain(re, s, i, spans, ci)
    ensures forall p :: i <= p <= |s| && MatchAt(re, s, p, ci).Some? ==> Covered(spans, p)
    ensures SubFrom(re, repl, s, i, ci) == Splice(s, i, spans, repl)
    decreases |s| - i
  {
    var r := SearchFrom(re, s, i, ci);
    if r.None? {
      spans := [];
    } else {
      var m := r.value;
      NonEmptyAt(re, s, m.start, m.end, ci);
      var rest := SubSplices(re, repl, s, m.end, ci);
      spans := [m] + rest;
      ChainCons(re, s, i, m, rest, ci);
      SpliceCons(s, i, m, rest, repl);
      CoveredAfter(re, s, i, m, rest, ci);
    }
  }

  lemma NonEmptyAt(re: Regex, s: string, k: nat, e: nat, ci: bool)
    requires k <= |s| && NoEmptyMatch(re, s, ci) && MatchAt(re, s, k, ci) == Some(e)
    ensures k < e
  {
    assert MatchAt(re, s, k, ci) != Some(k);
  }

  lemma ChainCons(re: Regex, s: string, i: nat, m: Span, rest: seq<Span>, ci: bool)
    requires i <= m.start < m.end <= |s| && MatchAt(re, s, m.start, ci) == Some(m.end)
    requires Chain(re, s, m.end, rest, ci)
    ensures Chain(re, s, i, [m] + rest, ci)
  {
    var spans := [m] + rest;
    assert forall k :: 0 < k < |spans| ==> spans[k] == rest[k - 1];
  }

  lemma SpliceCons(s: string, i: nat, m: Span, rest: seq<Span>, repl: string)
    requires i <= m.start <= m.end <= |s|
    requires forall k :: 0 <= k < |rest| ==> m.end <= rest[k].start <= rest[k].end <= |s|
    requires forall j, k :: 0 <= j < k < |rest| ==> rest[j].end <= rest[k].start
    ensures forall k :: 0 <= k < |[m] + rest| ==> i <= ([m] + rest)[k].start <= ([m] + rest)[k].end <= |s|
    ensures forall j, k :: 0 <= j < k < |[m] + rest| ==> ([m] + rest)[j].end <= ([m] + rest)[k].start
    ensures Splice(s, i, [m] + rest, repl) == s[i..m.start] + repl + Splice(s, m.end, rest, repl)
  {
    var spans := [m] + rest;
    assert spans[1..] == rest;
    assert forall k :: 0 < k < |spans| ==> spans[k] == rest[k - 1];
  }

  lemma CoveredAfter(re: Regex, s: string, i: nat, m: Span, rest: seq<Span>, ci: bool)
    requires i <= m.start < m.end <= |s|
    requires forall p :: i <= p < m.start ==> MatchAt(re, s, p, ci).None?
    requires forall p :: m.end <= p <= |s| && MatchAt(re, s, p, ci).Some? ==> Covered(rest, p)
    ensures forall p :: i <= p <= |s| && MatchAt(re, s, p, ci).Some? ==> Covered([m] + rest, p)
  {
    var spans := [m] + rest;
    forall p | i <= p <= |s| && MatchAt(re, s, p, ci).Some? ensures Covered(spans, p) {
      if p < m.end {
        assert spans[0].start <= p < spans[0].end;
      } else {
        var k :| 0 <= k < |rest| && rest[k].start <= p < rest[k].end;
        assert spans[k + 1] == rest[k];
      }
    }
  }

  /** Matching `p + q` is matching `p`, then `q` from where `p` stopped. */
  lemma {:induction false} MatchSeqAppend(p: Alt, q: Alt, s: string, i: nat, ci: bool)
    requires i <= |s|
    ensures MatchSeq(p + q, s, i, ci) ==
      match MatchSeq(p, s, i, ci)
      case None => None
      case Some(k) => MatchSeq(q, s, k, ci)
    decreases |p|
  {
    if p == [] {
      assert p + q == q;
    } else {
      assert (p + q)[0] == p[0];
      assert (p + q)[1..] == p[1..] + q;
      match Step(p[0], s, i, ci)
      case None =>
      case Some(j) => MatchSeqAppend(p[1..], q, s, j, ci);
    }
  }

  /** `w` occurs at `i`, character by character under `SameChar`. */
  predicate LitAt(s: string, w: string, i: nat, ci: bool)
  {
    i + |w| <= |s| && forall k :: 0 <= k < |w| ==> SameChar(s[i + k], w[k], ci)
  }

  /** A literal matches exactly where its characters occur. */
  lemma {:induction false} MatchLit(w: string, s: string, i: nat, ci: bool)
    requires i <= |s|
    ensures MatchSeq(Lit(w), s, i, ci) == if LitAt(s, w, i, ci) then Some(i + |w|) else None
    decreases |w|
  {
    if w != [] {
      assert Lit(w)[0] == Char(w[0]);
      assert Lit(w)[1..] == Lit(w[1..]);
      if i < |s| && SameChar(s[i], w[0], ci) {
        MatchLit(w[1..], s, i + 1, ci);
        if LitAt(s[..], w[1..], i + 1, ci) {
          forall k | 0 <= k < |w| ensures SameChar(s[i + k], w[k], ci) {
            if k > 0 { assert w[k] == w[1..][k - 1]; }
          }
        } else if LitAt(s, w, i, ci) {
          forall k | 0 <= k < |w| - 1 ensures SameChar(s[i + 1 + k], w[1..][k], ci) {
            assert SameChar(s[i + (k + 1)], w[k + 1], ci);
          }
          assert false;
        }
      } else {
        if i + |w| <= |s| {
          assert !SameChar(s[i + 0], w[0], ci);
        }
      }
    }
  }

  predicate AllWordChars(w: string)
  {
    forall k :: 0 <= k < |w| ==> IsWordChar(w[k])
  }

  /** `\bw\b`: the pattern that finds `w` as a whole word. */
  function WholeWord(w: string): Regex
  {
    [[Boundary] + Lit(w) + [Boundary]]
  }

  /** `w` occurs at `p` and is neither preceded nor followed by a word character. */
  predicate WholeWordAt(s: string, w: string, p: nat, ci: bool)
  {
    LitAt(s, w, p, ci)
    && (p == 0 || !IsWordChar(s[p - 1]))
    && (p + |w| == |s| || !IsWordChar(s[p + |w|]))
  }

  lemma SameCharKeepsWordChar(a: char, b: char, ci: bool)
    requires SameChar(a, b, ci) && IsWordChar(b)
    ensures IsWordChar(a)
  {
  }

  /** For a word of word characters, `\bw\b` matches at `p` exactly when `w` stands alone at `p`. */
  lemma WholeWordMatch(w: string, s: string, p: nat, ci: bool)
    requires w != [] && AllWordChars(w) && p <= |s|
    ensures MatchAt(WholeWord(w), s, p, ci).Some? <==> WholeWordAt(s, w, p, ci)
  {
    var alt := [Boundary] + Lit(w) + [Boundary];
    assert WholeWord(w)[0] == alt;
    MatchSeqAppend([Boundary] + Lit(w), [Boundary], s, p, ci);
    MatchSeqAppend([Boundary], Lit(w), s, p, ci);
    assert MatchSeq([Boundary], s, p, ci) == if AtBoundary(s, p) then Some(p) else None;
    MatchLit(w, s, p, ci);
    if LitAt(s, w, p, ci) {
      assert SameChar(s[p + 0], w[0], ci);
      SameCharKeepsWordChar(s[p], w[0], ci);
      assert AtBoundary(s, p) <==> (p == 0 || !IsWordChar(s[p - 1]));
      SameCharKeepsWordChar(s[p + |w| - 1], w[|w| - 1], ci);
      assert WordAt(s, p + |w| - 1);
      assert MatchSeq([Boundary], s, p + |w|, ci) == if AtBoundary(s, p + |w|) then Some(p + |w|) else None;
    }
  }

  /** `re.search(r'\bw\b', s)` succeeds exactly when `w` stands alone somewhere in `s`. */
  lemma WholeWordFound(w: string, s: string, ci: bool)
    requires w != [] && AllWordChars(w)
    ensures Found(WholeWord(w), s, ci) <==> exists p :: 0 <= p <= |s| && WholeWordAt(s, w, p, ci)
  {
    FoundIff(WholeWord(w), s, ci);
    forall p | 0 <= p <= |s|
      ensures MatchAt(WholeWord(w), s, p, ci).Some? <==> WholeWordAt(s, w, p, ci)
    {
      WholeWordMatch(w, s, p, ci);
    }
  }

  /**
    A pattern made of one run matches at `i` exactly when `least` characters
    of the class follow, and then takes the whole run.
   */
  lemma RunMatch(cls: Class, least: nat, s: string, i: nat, ci: bool)
    requires i <= |s|
    ensures var r := MatchAt([[Run(cls, least)]], s, i, ci);
      && (r.Some? <==> i + least <= |s| && forall k :: i <= k < i + least ==> InClass(cls, s[k]))
      && (r.Some? ==> i + least <= r.value && (forall k :: i <= k < r.value ==> InClass(cls, s[k]))
                      && (r.value == |s| || !InClass(cls, s[r.value])))
  {
    var re := [[Run(cls, least)]];
    assert re[0] == [Run(cls, least)];
    RunStep(cls, least, s, i, ci);
    assert MatchAt(re, s, i, ci) == MatchSeq(re[0], s, i, ci);
  }

  /** An alternative ending in a run: the part before it, then the whole run from where that part stopped. */
  lemma ThenRun(p: Alt, cls: Class, least: nat, s: string, i: nat, ci: bool)
    requires i <= |s|
    ensures MatchSeq(p + [Run(cls, least)], s, i, ci) ==
      match MatchSeq(p, s, i, ci)
      case None => None
      case Some(k) => var j := ClassRunEnd(cls, s, k); if j - k >= least then Some(j) else None
  {
    MatchSeqAppend(p, [Run(cls, least)], s, i, ci);
    match MatchSeq(p, s, i, ci) {
      case None =>
      case Some(k) => RunStep(cls, least, s, k, ci);
    }
  }

  /** A lone run atom stops at the end of the run, if the run is long enough. */
  lemma RunStep(cls: Class, least: nat, s: string, i: nat, ci: bool)
    requires i <= |s|
    ensures var j := ClassRunEnd(cls, s, i);
      MatchSeq([Run(cls, least)], s, i, ci) == if j - i >= least then Some(j) else None
  {
    assert [Run(cls, least)][1..] == [];
    var j := ClassRunEnd(cls, s, i);
    assert Step(Run(cls, least), s, i, ci) == if j - i >= least then Some(j) else None;
  }

  /** The search from `i` finds the first index from `i` on where the pattern matches. */
  lemma {:induction false} SearchFinds(re: Regex, s: string, i: nat, j: nat, ci: bool)
    requires i <= j <= |s|
    requires forall k :: i <= k < j ==> MatchAt(re, s, k, ci).None?
    requires MatchAt(re, s, j, ci).Some?
    ensures SearchFrom(re, s, i, ci) == Some(Span(j, MatchAt(re, s, j, ci).value))
    decreases j - i
  {
    if i < j {
      SearchFinds(re, s, i + 1, j, ci);
    }
  }
}
