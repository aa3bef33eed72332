/**
  The rule-based rewriter of job postings (`backend/rewrite_engine.py`):
  `mock_rewrite` folds a table of 18 case-insensitive substitutions over
  the text, then deletes physical requirements from desk-job postings and
  appends an inclusive statement; `identify_changes` compares a posting
  with its rewrite against a second table of 14 patterns; and
  `rewrite_inclusive` chooses between a language model and the rules.
 */
module RewriteEngine {
  import opened Wrappers
  import opened Text
  import opened Pattern

  /* ---------- Pattern building blocks ---------- */

  /** `\s+` */
  const WS: Alt := [Run(Space, 1)]

  /** `\b` */
  const B: Alt := [Boundary]

  /** `u\.?s\.?` */
  const US: Alt := Lit("u") + [Opt('.')] + Lit("s") + [Opt('.')]

  /** A piece of a table pattern: a literal word, or `u\.?s\.?`. */
  datatype Piece = W(word: string) | UsPiece

  /**
    A table pattern written as data: its pieces separated by `\s+`, with
    `\b` at the start and at the end when the flags say so.
   */
  datatype Shape = Shape(leading: bool, pieces: seq<Piece>, trailing: bool)

  function PieceAlt(p: Piece): Alt
  {
    match p
    case W(w) => Lit(w)
    case UsPiece => US
  }

  /** The pieces separated by `\s+`. */
  function Spaced(ps: seq<Piece>): Alt
    decreases |ps|
  {
    if ps == [] then []
    else if |ps| == 1 then PieceAlt(ps[0])
    else PieceAlt(ps[0]) + WS + Spaced(ps[1..])
  }

  function ShapeAlt(sh: Shape): Alt
  {
    (if sh.leading then B else []) + Spaced(sh.pieces) + (if sh.trailing then B else [])
  }

  /** The pattern of a list of shapes: one alternative per shape, in order. */
  function Compile(shapes: seq<Shape>): (re: Regex)
    ensures |re| == |shapes|
    ensures forall k :: 0 <= k < |shapes| ==> re[k] == ShapeAlt(shapes[k])
  {
    seq(|shapes|, k requires 0 <= k < |shapes| => ShapeAlt(shapes[k]))
  }

  /**
    The compiled pattern is the shapes' alternation: it fails at `i` exactly
    when no shape's alternative matches there, and otherwise ends where the
    first shape that matches there ends.
   */
  lemma CompileMatches(shapes: seq<Shape>, s: string, i: nat, ci: bool)
    requires i <= |s|
    ensures var r := MatchAt(Compile(shapes), s, i, ci);
      && (r.None? <==> forall k :: 0 <= k < |shapes| ==> MatchSeq(ShapeAlt(shapes[k]), s, i, ci).None?)
      && (r.Some? ==> exists k :: 0 <= k < |shapes| && MatchSeq(ShapeAlt(shapes[k]), s, i, ci) == r
                                  && forall j :: 0 <= j < k ==> MatchSeq(ShapeAlt(shapes[j]), s, i, ci).None?)
  {
    var re := Compile(shapes);
    if MatchAt(re, s, i, ci).Some? {
      var a := MatchAtFirst(re, s, i, ci);
      assert re[a] == ShapeAlt(shapes[a]);
    }
  }

  /* ---------- mock_rewrite ---------- */

  /** One row of the substitution table: every match of `shapes` becomes `replacement`. */
  datatype Rule = Rule(shapes: seq<Shape>, replacement: string)
  {
    function Pattern(): Regex
    {
      Compile(shapes)
    }
  }

  /** The substitution table, in the order the rules are applied. */
  const REPLACEMENTS: seq<Rule> := [
    Rule([Shape(true, [W("rockstar")], true)], "skilled professional"),
    Rule([Shape(true, [W("ninja")], true)], "expert"),
    Rule([Shape(true, [W("guru")], true)], "specialist"),
    Rule([Shape(true, [W("native"), W("english"), W("speaker")], true)], "strong English communication skills"),
    Rule([Shape(true, [W("native"), W("speaker")], true)], "strong communication skills"),
    Rule([Shape(false, [W("must"), W("be"), W("eligible"), W("to"), W("work"), W("in"), W("the"), UsPiece], false)],
      "authorization to work required"),
    Rule([Shape(false, [W("no"), W("work"), W("visa"), W("sponsorship")], false)], "work authorization required"),
    Rule([Shape(false, [W("no"), W("sponsorship")], false)], "work authorization required"),
    Rule([Shape(true, [W("aggressive")], true)], "proactive"),
    Rule([Shape(false, [W("work"), W("hard"), W("play"), W("hard")], false)], "collaborative and dynamic environment"),
    Rule([Shape(true, [W("digital"), W("native")], true)], "comfortable with technology"),
    Rule([Shape(true, [W("young"), W("and"), W("energetic")], true)], "enthusiastic"),
    Rule([Shape(true, [W("cultural"), W("fit")], true)], "team collaboration"),
    Rule([Shape(true, [W("must"), W("be"), W("authorized"), W("to"), W("work"), W("in"), W("the"), W("united"), W("states")], true)],
      "authorization to work required"),
    Rule([Shape(true, [UsPiece, W("citizen"), W("only")], true)], "authorization to work required"),
    Rule([Shape(true, [W("must"), W("have"), W("work"), W("experience"), W("in"), W("canadian")], true),
          Shape(true, [W("must"), W("have"), W("work"), W("experience"), W("in"), W("american")], true)],
      "relevant work experience preferred"),
    Rule([Shape(true, [W("local"), W("experience"), W("required")], true)], "relevant experience preferred"),
    Rule([Shape(true, [W("strong"), W("north"), W("american"), W("communication")], true)], "strong communication skills")
  ]

  /** One pass of the loop: if the pattern is found, all its matches are replaced. */
  function ApplyRule(rule: Rule, s: string): string
  {
    if Found(rule.Pattern(), s, true) then Sub(rule.Pattern(), rule.replacement, s, true) else s
  }

  /** The rules applied one after the other, each to the previous one's output. */
  function ApplyRules(rules: seq<Rule>, s: string): string
    decreases |rules|
  {
    if rules == [] then s
    else ApplyRule(rules[|rules| - 1], ApplyRules(rules[..|rules| - 1], s))
  }

  /** `must\s+be\s+able\s+to\s+lift\s+\d+\s+lbs?` */
  const LIFT_REQUIREMENT: Regex :=
    [Spaced([W("must"), W("be"), W("able"), W("to"), W("lift")]) + WS + [Run(Digit, 1)] + WS + Lit("lb") + [Opt('s')]]

  /** `physical\s+requirements[^.]*\.` */
  const PHYSICAL_REQUIREMENTS: Regex :=
    [Spaced([W("physical"), W("requirements")]) + [Run(Except('.'), 0), Char('.')]]

  const INCLUSIVE_STATEMENT :=
    "\n\nWe welcome candidates from all backgrounds and are committed to building a diverse and inclusive team."

  /** The lowercased text names a desk job. */
  predicate DeskJob(s: string)
  {
    var l := Lower(s);
    Contains(l, "software") || Contains(l, "engineer") || Contains(l, "developer")
  }

  /** The lowercased text already speaks of diversity or inclusion. */
  predicate MentionsInclusion(s: string)
  {
    var l := Lower(s);
    Contains(l, "diverse") || Contains(l, "inclusive")
  }

  /** The two deletions, applied to desk-job postings only. */
  function DropPhysical(s: string): string
  {
    if DeskJob(s) then Sub(PHYSICAL_REQUIREMENTS, "", Sub(LIFT_REQUIREMENT, "", s, true), true) else s
  }

  /** The inclusive statement, appended when the text lacks one. */
  function AddStatement(s: string): string
  {
    if MentionsInclusion(s) then s else s + INCLUSIVE_STATEMENT
  }

  /** What `mock_rewrite` returns when its substitution table is `rules`. */
  function RewriteWith(rules: seq<Rule>, text: string): string
  {
    AddStatement(DropPhysical(ApplyRules(rules, text)))
  }

  /** What `mock_rewrite` returns. */
  function RewriteSpec(text: string): string
  {
    RewriteWith(REPLACEMENTS, text)
  }

  /** The substitution loop of `mock_rewrite`, run over the rule table `rules`. */
  method Substitute(rules: seq<Rule>, text: string) returns (rewritten: string)
    ensures rewritten == ApplyRules(rules, text)
  {
    rewritten := text;
    for k := 0 to |rules|
      invariant rewritten == ApplyRules(rules[..k], text)
    {
      var rule := rules[k];
      assert rules[..k + 1][..k] == rules[..k];
      if Found(rule.Pattern(), rewritten, true) {
        rewritten := Sub(rule.Pattern(), rule.replacement, rewritten, true);
      }
    }
    assert rules[..|rules|] == rules;
  }

  /** `mock_rewrite` */
  method MockRewrite(text: string) returns (rewritten: string)
    ensures rewritten == RewriteSpec(text)
  {
    rewritten := Substitute(REPLACEMENTS, text);
    if DeskJob(rewritten) {
      rewritten := Sub(LIFT_REQUIREMENT, "", rewritten, true);
      rewritten := Sub(PHYSICAL_REQUIREMENTS, "", rewritten, true);
    }
    if !MentionsInclusion(rewritten) {
      rewritten := rewritten + INCLUSIVE_STATEMENT;
    }
  }

  /** Testing with `re.search` first changes nothing: a rule that is not found leaves the text as `re.sub` would. */
  lemma ApplyRuleIsSub(rule: Rule, s: string)
    ensures ApplyRule(rule, s) == Sub(rule.Pattern(), rule.replacement, s, true)
  {
  }

  /** Applying `a` and then `b` is applying `a + b`: each rule sees the previous rules' output. */
  lemma {:induction false} ApplyRulesAppend(a: seq<Rule>, b: seq<Rule>, s: string)
    ensures ApplyRules(a + b, s) == ApplyRules(b, ApplyRules(a, s))
    decreases |b|
  {
    if b == [] {
      assert a + b == a;
    } else {
      assert (a + b)[..|a + b| - 1] == a + b[..|b| - 1];
      assert (a + b)[|a + b| - 1] == b[|b| - 1];
      ApplyRulesAppend(a, b[..|b| - 1], s);
    }
  }

  /** Rule `k` works on the output of rules `0..k-1`, and on nothing else. */
  lemma RuleSeesPrevious(rules: seq<Rule>, k: nat, text: string)
    requires k < |rules|
    ensures ApplyRules(rules[..k + 1], text) == ApplyRule(rules[k], ApplyRules(rules[..k], text))
  {
    assert rules[..k + 1][..k] == rules[..k];
  }

  /**
    The longer phrases come first in the table: "native english speaker"
    (rule 3) before "native speaker" (rule 4), "no work visa sponsorship"
    (rule 6) before "no sponsorship" (rule 7).
   */
  lemma LongerPhrasesFirst()
    ensures REPLACEMENTS[3].shapes == [Shape(true, [W("native"), W("english"), W("speaker")], true)]
    ensures REPLACEMENTS[4].shapes == [Shape(true, [W("native"), W("speaker")], true)]
    ensures REPLACEMENTS[6].shapes == [Shape(false, [W("no"), W("work"), W("visa"), W("sponsorship")], false)]
    ensures REPLACEMENTS[7].shapes == [Shape(false, [W("no"), W("sponsorship")], false)]
  {
  }

  /** A text in which no rule's pattern is found comes through the table unchanged. */
  lemma {:induction false} NoRuleFound(rules: seq<Rule>, text: string)
    requires forall k :: 0 <= k < |rules| ==> !Found(rules[k].Pattern(), text, true)
    ensures ApplyRules(rules, text) == text
    decreases |rules|
  {
    if rules != [] {
      NoRuleFound(rules[..|rules| - 1], text);
    }
  }

  /** The text before a rule's first match is kept as it was. */
  lemma RuleKeepsPrefix(rule: Rule, s: string)
    requires Found(rule.Pattern(), s, true)
    ensures var m := SearchFrom(rule.Pattern(), s, 0, true).value;
      |ApplyRule(rule, s)| >= m.start && ApplyRule(rule, s)[..m.start] == s[..m.start]
  {
    SubKeepsPrefix(rule.Pattern(), rule.replacement, s, true);
  }

  /** The deletions happen only in postings that name a desk job. */
  lemma DeletionsOnlyForDeskJobs(text: string)
    requires !DeskJob(ApplyRules(REPLACEMENTS, text))
    ensures RewriteSpec(text) == AddStatement(ApplyRules(REPLACEMENTS, text))
  {
  }

  /** `Contains` survives lowercasing an appended tail. */
  lemma MentionsInclusionAfterAppend(s: string)
    ensures MentionsInclusion(s + INCLUSIVE_STATEMENT)
  {
    var l := Lower(INCLUSIVE_STATEMENT);
    var p := |INCLUSIVE_STATEMENT| - 15;
    assert INCLUSIVE_STATEMENT[p..p + 9] == "inclusive";
    assert l[p..p + 9] == "inclusive";
    assert ContainsAt(l, "inclusive", p);
    LowerAppend(s, INCLUSIVE_STATEMENT);
    ContainsInSuffix(Lower(s), l, "inclusive");
  }

  /**
    Every rewrite speaks of diversity or inclusion: the statement is appended
    exactly when the text lacks both words, and only then.
   */
  lemma RewriteMentionsInclusion(rules: seq<Rule>, text: string)
    ensures MentionsInclusion(RewriteWith(rules, text))
    ensures var t := DropPhysical(ApplyRules(rules, text));
      RewriteWith(rules, text) == t + INCLUSIVE_STATEMENT <==> !MentionsInclusion(t)
  {
    var t := DropPhysical(ApplyRules(rules, text));
    if !MentionsInclusion(t) {
      MentionsInclusionAfterAppend(t);
    } else {
      assert |t + INCLUSIVE_STATEMENT| != |t|;
    }
  }

  /**
    A second rewrite appends no second statement when its substitutions and
    deletions leave the first rewrite as it was: the first rewrite already
    speaks of diversity or inclusion. (When the second pass's deletion cuts
    away the text that held the word, the statement is appended then.)
   */
  lemma SecondPassAppendsNothing(rules: seq<Rule>, text: string)
    requires DropPhysical(ApplyRules(rules, RewriteWith(rules, text))) == RewriteWith(rules, text)
    ensures RewriteWith(rules, RewriteWith(rules, text)) == RewriteWith(rules, text)
  {
    RewriteMentionsInclusion(rules, text);
  }

  /**
    A posting that no rule touches, that needs no deletion and that already
    speaks of diversity or inclusion is returned unchanged.
   */
  lemma UntouchedText(text: string)
    requires forall k :: 0 <= k < |REPLACEMENTS| ==> !Found(REPLACEMENTS[k].Pattern(), text, true)
    requires !DeskJob(text) || (!Found(LIFT_REQUIREMENT, text, true)
      && !Found(PHYSICAL_REQUIREMENTS, Sub(LIFT_REQUIREMENT, "", text, true), true))
    requires MentionsInclusion(text)
    ensures RewriteSpec(text) == text
  {
    NoRuleFound(REPLACEMENTS, text);
  }

  /* ---------- identify_changes ---------- */

  /** One row of the comparison table. */
  datatype ChangePattern = ChangePattern(shapes: seq<Shape>, description: string)
  {
    function Pattern(): Regex
    {
      Compile(shapes)
    }
  }

  const CHANGE_PATTERNS: seq<ChangePattern> := [
    ChangePattern([Shape(true, [W("rockstar")], true)], "Removed 'rockstar' \U{2192} 'skilled professional'"),
    ChangePattern([Shape(true, [W("ninja")], true)], "Removed 'ninja' \U{2192} 'expert'"),
    ChangePattern([Shape(true, [W("guru")], true)], "Removed 'guru' \U{2192} 'specialist'"),
    ChangePattern([Shape(false, [W("native"), W("english"), W("speaker")], false)],
      "Removed 'native English speaker' \U{2192} 'strong English communication skills'"),
    ChangePattern([Shape(false, [W("native"), W("speaker")], false)],
      "Removed 'native speaker' \U{2192} 'strong communication skills'"),
    ChangePattern([Shape(false, [W("no"), W("work"), W("visa"), W("sponsorship")], false),
                   Shape(false, [W("no"), W("visa"), W("sponsorship")], false)],
      "Removed visa restrictions \U{2192} 'work authorization required'"),
    ChangePattern([Shape(false, [W("no"), W("sponsorship")], false)],
      "Removed sponsorship restrictions \U{2192} 'work authorization required'"),
    ChangePattern([Shape(false, [W("must"), W("be"), W("eligible"), W("to"), W("work"), W("in"), W("the"), UsPiece], false)],
      "Removed 'must be eligible to work in U.S.' \U{2192} 'authorization to work required'"),
    ChangePattern([Shape(true, [W("aggressive")], true)], "Changed 'aggressive' \U{2192} 'proactive'"),
    ChangePattern([Shape(false, [W("work"), W("hard"), W("play"), W("hard")], false)],
      "Removed 'work hard play hard' \U{2192} 'collaborative and dynamic environment'"),
    ChangePattern([Shape(false, [W("digital"), W("native")], false)],
      "Removed 'digital native' \U{2192} 'comfortable with technology'"),
    ChangePattern([Shape(false, [W("young"), W("and"), W("energetic")], false)],
      "Removed 'young and energetic' \U{2192} 'enthusiastic'"),
    ChangePattern([Shape(false, [W("cultural"), W("fit")], false)],
      "Removed 'cultural fit' \U{2192} 'team collaboration'"),
    ChangePattern([Shape(false, [UsPiece, W("citizen"), W("only")], false)],
      "Removed 'U.S. citizen only' \U{2192} 'authorization to work required'")
  ]

  const ADDED_INCLUSIVE := "Added inclusive language about diverse candidates"
  const REVIEWED := "Text reviewed and optimized for inclusivity and clarity"

  /** The pattern is found in the original but no longer in the rewrite. */
  predicate Removed(pattern: Regex, original: string, rewritten: string)
  {
    Found(pattern, Lower(original), true) && !Found(pattern, Lower(rewritten), true)
  }

  /** The descriptions of the rows whose pattern the rewrite removed, in table order. */
  function Diffs(rows: seq<ChangePattern>, original: string, rewritten: string): (ds: seq<string>)
    ensures |ds| <= |rows|
    decreases |rows|
  {
    if rows == [] then []
    else
      var init, last := rows[..|rows| - 1], rows[|rows| - 1];
      Diffs(init, original, rewritten)
        + (if Removed(last.Pattern(), original, rewritten) then [last.description] else [])
  }

  /** A description is reported exactly when the rewrite removed the pattern of a row that carries it. */
  lemma {:induction false} DiffsMembers(rows: seq<ChangePattern>, original: string, rewritten: string, d: string)
    ensures d in Diffs(rows, original, rewritten) <==>
      exists i :: 0 <= i < |rows| && rows[i].description == d && Removed(rows[i].Pattern(), original, rewritten)
    decreases |rows|
  {
    if rows != [] {
      var init, last := rows[..|rows| - 1], rows[|rows| - 1];
      DiffsMembers(init, original, rewritten, d);
      AppendMember(Diffs(init, original, rewritten), Removed(last.Pattern(), original, rewritten), last.description, d);
      if d in Diffs(init, original, rewritten) {
        var i :| 0 <= i < |init| && init[i].description == d && Removed(init[i].Pattern(), original, rewritten);
        assert rows[i] == init[i];
      } else if Removed(last.Pattern(), original, rewritten) && last.description == d {
        assert rows[|rows| - 1] == last;
      } else {
        forall i | 0 <= i < |rows|
          ensures !(rows[i].description == d && Removed(rows[i].Pattern(), original, rewritten))
        {
          if i < |init| { assert rows[i] == init[i]; }
        }
      }
    }
  }

  lemma AppendMember(xs: seq<string>, b: bool, x: string, d: string)
    ensures d in xs + (if b then [x] else []) <==> d in xs || (b && x == d)
  {
  }

  /** The descriptions of the rows, in table order. */
  function Descriptions(rows: seq<ChangePattern>): (ds: seq<string>)
    ensures |ds| == |rows|
    ensures forall i :: 0 <= i < |rows| ==> ds[i] == rows[i].description
  {
    seq(|rows|, i requires 0 <= i < |rows| => rows[i].description)
  }

  /** The rewrite gained "diverse" or "inclusive" that the original lacked. */
  predicate GainedInclusion(original: string, rewritten: string)
  {
    MentionsInclusion(rewritten) && !MentionsInclusion(original)
  }

  /** What `identify_changes` returns when it compares against the rows `rows`. */
  function ChangesFrom(rows: seq<ChangePattern>, original: string, rewritten: string): seq<string>
  {
    var ds := Diffs(rows, original, rewritten)
      + (if GainedInclusion(original, rewritten) then [ADDED_INCLUSIVE] else []);
    if ds == [] then [REVIEWED] else ds
  }

  /** What `identify_changes` returns. */
  function ChangesSpec(original: string, rewritten: string): seq<string>
  {
    ChangesFrom(CHANGE_PATTERNS, original, rewritten)
  }

  /** The body of `identify_changes`, run over the comparison table `rows`. */
  method CompareAgainst(rows: seq<ChangePattern>, original: string, rewritten: string) returns (changes: seq<string>)
    ensures changes == ChangesFrom(rows, original, rewritten)
  {
    changes := [];
    var originalLower := Lower(original);
    var rewrittenLower := Lower(rewritten);
    for k := 0 to |rows|
      invariant changes == Diffs(rows[..k], original, rewritten)
    {
      var row := rows[k];
      assert rows[..k + 1][..k] == rows[..k];
      if Found(row.Pattern(), originalLower, true) && !Found(row.Pattern(), rewrittenLower, true) {
        changes := changes + [row.description];
      }
    }
    assert rows[..|rows|] == rows;
    if (Contains(rewrittenLower, "diverse") || Contains(rewrittenLower, "inclusive"))
      && !(Contains(originalLower, "diverse") || Contains(originalLower, "inclusive"))
    {
      changes := changes + [ADDED_INCLUSIVE];
    }
    if |changes| == 0 {
      changes := changes + [REVIEWED];
    }
  }

  /** `identify_changes` */
  method IdentifyChanges(original: string, rewritten: string) returns (changes: seq<string>)
    ensures changes == ChangesSpec(original, rewritten)
  {
    changes := CompareAgainst(CHANGE_PATTERNS, original, rewritten);
  }

  lemma DescriptionsDistinctLow()
    ensures forall i, j :: 0 <= i < 5 && i < j < |CHANGE_PATTERNS| ==>
      CHANGE_PATTERNS[i].description != CHANGE_PATTERNS[j].description
  {
    forall i, j | 0 <= i < 5 && i < j < |CHANGE_PATTERNS|
      ensures CHANGE_PATTERNS[i].description != CHANGE_PATTERNS[j].description
    {
      if i == 0 { } else if i == 1 { } else if i == 2 { } else if i == 3 { } else { }
    }
  }

  lemma DescriptionsDistinctMid()
    ensures forall i, j :: 5 <= i < 10 && i < j < |CHANGE_PATTERNS| ==>
      CHANGE_PATTERNS[i].description != CHANGE_PATTERNS[j].description
  {
    forall i, j | 5 <= i < 10 && i < j < |CHANGE_PATTERNS|
      ensures CHANGE_PATTERNS[i].description != CHANGE_PATTERNS[j].description
    {
      if i == 5 { } else if i == 6 { } else if i == 7 { } else if i == 8 { } else { }
    }
  }

  lemma DescriptionsDistinctHigh()
    ensures forall i, j :: 10 <= i < j < |CHANGE_PATTERNS| ==>
      CHANGE_PATTERNS[i].description != CHANGE_PATTERNS[j].description
    ensures forall i :: 0 <= i < |CHANGE_PATTERNS| ==>
      CHANGE_PATTERNS[i].description != ADDED_INCLUSIVE && CHANGE_PATTERNS[i].description != REVIEWED
  {
    forall i, j | 10 <= i < j < |CHANGE_PATTERNS|
      ensures CHANGE_PATTERNS[i].description != CHANGE_PATTERNS[j].description
    {
      if i == 10 { } else if i == 11 { } else { }
    }
    forall i | 0 <= i < |CHANGE_PATTERNS|
      ensures CHANGE_PATTERNS[i].description != ADDED_INCLUSIVE && CHANGE_PATTERNS[i].description != REVIEWED
    {
      if i < 5 { } else if i < 10 { } else { }
    }
  }

  /** The 14 descriptions, "added inclusive" and "reviewed" are 16 different strings. */
  lemma DescriptionsDistinct()
    ensures NoDup(Descriptions(CHANGE_PATTERNS) + [ADDED_INCLUSIVE, REVIEWED])
  {
    DescriptionsDistinctLow();
    DescriptionsDistinctMid();
    DescriptionsDistinctHigh();
  }

  /** The reported removals keep the table's order. */
  lemma {:induction false} DiffsInOrder(rows: seq<ChangePattern>, original: string, rewritten: string)
    requires NoDup(Descriptions(rows))
    ensures Subsequence(Diffs(rows, original, rewritten), Descriptions(rows))
    ensures NoDup(Diffs(rows, original, rewritten))
    decreases |rows|
  {
    if rows != [] {
      var init, last := rows[..|rows| - 1], rows[|rows| - 1];
      var ds := Descriptions(rows);
      assert Descriptions(init) == ds[..|ds| - 1];
      DiffsInOrder(init, original, rewritten);
      var prev := Diffs(init, original, rewritten);
      DiffsMembers(init, original, rewritten, last.description);
      assert last.description !in prev by {
        forall i | 0 <= i < |init| ensures init[i].description != last.description {
          assert ds[i] != ds[|ds| - 1];
        }
      }
      assert ds[|ds| - 1] == last.description;
      if Removed(last.Pattern(), original, rewritten) {
        assert Diffs(rows, original, rewritten) == prev + [last.description];
        assert (prev + [last.description])[..|prev|] == prev;
      } else {
        assert Diffs(rows, original, rewritten) == prev;
        if prev != [] {
          assert prev[|prev| - 1] in prev;
        }
      }
    }
  }

  /** Nothing is reported exactly when the rewrite removed no row's pattern. */
  lemma {:induction false} DiffsEmpty(rows: seq<ChangePattern>, original: string, rewritten: string)
    ensures Diffs(rows, original, rewritten) == [] <==>
      forall i :: 0 <= i < |rows| ==> !Removed(rows[i].Pattern(), original, rewritten)
    decreases |rows|
  {
    if rows != [] {
      var init := rows[..|rows| - 1];
      DiffsEmpty(init, original, rewritten);
      assert forall i :: 0 <= i < |init| ==> init[i] == rows[i];
    }
  }

  /** A text compared with itself has lost no pattern. */
  lemma {:induction false} NoDiffsWithItself(rows: seq<ChangePattern>, t: string)
    ensures Diffs(rows, t, t) == []
    decreases |rows|
  {
    if rows != [] {
      NoDiffsWithItself(rows[..|rows| - 1], t);
    }
  }

  /**
    `identify_changes` against rows with distinct descriptions lists, in
    table order and each at most once, the description of every row whose
    pattern the original has and the rewrite no longer has; then "added
    inclusive" exactly when the rewrite gained "diverse" or "inclusive"; and
    "reviewed" exactly when there is nothing else to say. The list is never
    empty.
   */
  lemma ChangesFromReported(rows: seq<ChangePattern>, original: string, rewritten: string, d: string)
    requires NoDup(Descriptions(rows) + [ADDED_INCLUSIVE, REVIEWED])
    ensures var cs := ChangesFrom(rows, original, rewritten);
      && cs != []
      && NoDup(cs)
      && (d in cs <==>
            (exists i :: 0 <= i < |rows| && rows[i].description == d && Removed(rows[i].Pattern(), original, rewritten))
            || (d == ADDED_INCLUSIVE && GainedInclusion(original, rewritten))
            || (d == REVIEWED && !GainedInclusion(original, rewritten)
                && forall i :: 0 <= i < |rows| ==> !Removed(rows[i].Pattern(), original, rewritten)))
  {
    var all := Descriptions(rows) + [ADDED_INCLUSIVE, REVIEWED];
    assert NoDup(Descriptions(rows)) by {
      forall i, j | 0 <= i < j < |rows| ensures Descriptions(rows)[i] != Descriptions(rows)[j] {
        assert all[i] != all[j];
      }
    }
    var diffs := Diffs(rows, original, rewritten);
    var gained := GainedInclusion(original, rewritten);
    DiffsInOrder(rows, original, rewritten);
    DiffsEmpty(rows, original, rewritten);
    DiffsMembers(rows, original, rewritten, d);
    assert ADDED_INCLUSIVE !in diffs && REVIEWED !in diffs by {
      DiffsMembers(rows, original, rewritten, ADDED_INCLUSIVE);
      DiffsMembers(rows, original, rewritten, REVIEWED);
      forall i | 0 <= i < |rows| ensures rows[i].description != ADDED_INCLUSIVE && rows[i].description != REVIEWED {
        assert all[i] != all[|rows|] && all[i] != all[|rows| + 1];
      }
    }
    var ds := diffs + (if gained then [ADDED_INCLUSIVE] else []);
    assert NoDup(ds) by {
      if gained {
        forall i, j | 0 <= i < j < |ds| ensures ds[i] != ds[j] {
          if j == |ds| - 1 { assert ds[i] in diffs; }
        }
      }
    }
    assert d in ds <==> d in diffs || (gained && d == ADDED_INCLUSIVE);
  }

  /** `ChangesFromReported` for the table of `identify_changes`. */
  lemma ChangesReported(original: string, rewritten: string, d: string)
    ensures var cs := ChangesSpec(original, rewritten);
      && cs != []
      && NoDup(cs)
      && (d in cs <==>
            (exists i :: 0 <= i < |CHANGE_PATTERNS| && CHANGE_PATTERNS[i].description == d
                         && Removed(CHANGE_PATTERNS[i].Pattern(), original, rewritten))
            || (d == ADDED_INCLUSIVE && GainedInclusion(original, rewritten))
            || (d == REVIEWED && !GainedInclusion(original, rewritten)
                && forall i :: 0 <= i < |CHANGE_PATTERNS| ==> !Removed(CHANGE_PATTERNS[i].Pattern(), original, rewritten)))
  {
    DescriptionsDistinct();
    ChangesFromReported(CHANGE_PATTERNS, original, rewritten, d);
  }

  /** Comparing a text with itself reports only that it was reviewed. */
  lemma NothingChanged(t: string)
    ensures ChangesSpec(t, t) == [REVIEWED]
  {
    NoDiffsWithItself(CHANGE_PATTERNS, t);
  }

  /* ---------- rewrite_inclusive ---------- */

  /** What the language model's chat completion gives back: the message content (which may be null), or an exception. */
  datatype LlmReply = Completed(content: Option<string>) | Failed(message: string)

  /** The client: absent when no API key is configured, otherwise the completion call for a prompt. */
  datatype Llm = NoClient | Client(complete: string -> LlmReply)

  /** The `"method"` entry: "llm", "rule-based" or "rule-based-fallback". */
  datatype Approach = ByLlm | ByRules | ByRulesFallback

  /** The dictionary `rewrite_inclusive` returns. */
  datatype RewriteResult = RewriteResult(rewrittenText: string, changes: seq<string>, approach: Approach)

  const PROMPT_HEAD :=
    "Rewrite the following job description to be inclusive, neutral, and free of gendered or exclusionary "
    + "language while keeping the meaning unchanged. Remove any visa restrictions, native speaker requirements, "
    + "or cultural assumptions. Make it welcoming to international candidates and diverse backgrounds:\n\n"

  const PROMPT_TAIL := "\n\nRewritten version:"

  /** The user message sent to the model. */
  function Prompt(text: string): string
  {
    PROMPT_HEAD + text + PROMPT_TAIL
  }

  /** The rule-based answer over the tables `rules` and `rows`, labelled `approach`. */
  function RuleBased(rules: seq<Rule>, rows: seq<ChangePattern>, text: string, approach: Approach): RewriteResult
  {
    var rewritten := RewriteWith(rules, text);
    RewriteResult(rewritten, ChangesFrom(rows, text, rewritten), approach)
  }

  /**
    What `rewrite_inclusive` returns over the tables `rules` and `rows`: the
    rules when there is no client; the model's text when the call answers
    with content; the rules again when the call raises or answers with no
    content (then `identify_changes` raises inside the same `try`).
   */
  function InclusiveWith(rules: seq<Rule>, rows: seq<ChangePattern>, text: string, llm: Llm): RewriteResult
  {
    match llm
    case NoClient => RuleBased(rules, rows, text, ByRules)
    case Client(complete) =>
      match complete(Prompt(text))
      case Completed(Some(content)) => RewriteResult(content, ChangesFrom(rows, text, content), ByLlm)
      case _ => RuleBased(rules, rows, text, ByRulesFallback)
  }

  /** What `rewrite_inclusive` returns. */
  function RewriteInclusiveSpec(text: string, llm: Llm): RewriteResult
  {
    InclusiveWith(REPLACEMENTS, CHANGE_PATTERNS, text, llm)
  }

  /** `rewrite_inclusive`, with the client as the parameter `llm`. */
  method RewriteInclusive(text: string, llm: Llm) returns (r: RewriteResult)
    ensures r == RewriteInclusiveSpec(text, llm)
  {
    if llm.NoClient? {
      var rewritten := MockRewrite(text);
      var changes := IdentifyChanges(text, rewritten);
      return RewriteResult(rewritten, changes, ByRules);
    }
    var reply := llm.complete(Prompt(text));
    if reply.Completed? && reply.content.Some? {
      var rewritten := reply.content.value;
      var changes := IdentifyChanges(text, rewritten);
      return RewriteResult(rewritten, changes, ByLlm);
    }
    var rewritten := MockRewrite(text);
    var changes := IdentifyChanges(text, rewritten);
    r := RewriteResult(rewritten, changes, ByRulesFallback);
  }

  /**
    The model's text is used exactly when a client exists and answers with
    content; otherwise the result is labelled "rule-based" without a client
    and "rule-based-fallback" after a failed call. The list of changes is
    never empty.
   */
  lemma RewriteInclusiveApproach(rules: seq<Rule>, rows: seq<ChangePattern>, text: string, llm: Llm)
    ensures var r := InclusiveWith(rules, rows, text, llm);
      && (r.approach == ByLlm <==>
            llm.Client? && llm.complete(Prompt(text)).Completed? && llm.complete(Prompt(text)).content.Some?)
      && (r.approach == ByRules <==> llm.NoClient?)
      && r.changes != []
  {
    var r := InclusiveWith(rules, rows, text, llm);
    ChangesNeverEmpty(rows, text, r.rewrittenText);
  }

  /**
    Every path but the model's returns the rule-based rewrite and the
    changes `identify_changes` finds in it, and that rewrite speaks of
    diversity or inclusion.
   */
  lemma RewriteInclusiveRuleBased(rules: seq<Rule>, rows: seq<ChangePattern>, text: string, llm: Llm)
    ensures var r := InclusiveWith(rules, rows, text, llm);
      r.approach != ByLlm ==>
        r.rewrittenText == RewriteWith(rules, text) && r.changes == ChangesFrom(rows, text, RewriteWith(rules, text))
        && MentionsInclusion(r.rewrittenText)
  {
    RewriteMentionsInclusion(rules, text);
  }

  lemma ChangesNeverEmpty(rows: seq<ChangePattern>, original: string, rewritten: string)
    ensures ChangesFrom(rows, original, rewritten) != []
  {
  }
}
