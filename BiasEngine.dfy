/**
  Keyword detection and bias scoring of a job posting.

  The posting is lower-cased and its whitespace collapsed, then checked
  against six fixed phrase lists. Single-word masculine-coded terms and all
  feminine-coded terms must stand as whole words (`\bterm\b`, ignoring
  case); every other entry is a plain substring test. Scores that the
  Python code keeps as floats in [0, 1] are integer hundredths here.
 */
module BiasEngine {
  import opened Wrappers
  import opened Text
  import opened Pattern

  datatype Category = Masculine | Feminine | Age | Exclusionary | CulturalFit | Disability

  const MASCULINE_CODED: seq<string> := [
    "aggressive",
    "ambitious",
    "assertive",
    "competitive",
    "confident",
    "decisive",
    "dominant",
    "driven",
    "forceful",
    "independent",
    "leader",
    "logical",
    "outspoken",
    "rockstar",
    "ninja",
    "guru",
    "work hard play hard",
    "hustle",
    "crush it"
  ]

  const FEMININE_CODED: seq<string> := [
    "nurturing",
    "collaborative",
    "empathetic",
    "supportive",
    "caring",
    "sensitive",
    "gentle",
    "warm",
    "compassionate"
  ]

  const AGE_BIASED: seq<string> := [
    "digital native",
    "young",
    "energetic",
    "fresh",
    "recent graduate",
    "millennial",
    "gen z",
    "junior",
    "entry-level only"
  ]

  const EXCLUSIONARY_LANGUAGE: seq<string> := [
    "must be eligible to work in the u.s.",
    "no work visa sponsorship",
    "no sponsorship",
    "native english speaker",
    "native speaker required",
    "strong north american communication",
    "must have work experience in canadian",
    "must have work experience in american",
    "local experience required",
    "u.s. citizen only",
    "must be authorized to work in the united states"
  ]

  const CULTURAL_FIT_CLICHES: seq<string> := [
    "cultural fit",
    "work hard play hard",
    "beer fridays",
    "startup culture",
    "fast-paced environment",
    "like a family"
  ]

  const DISABILITY_BIASED: seq<string> := [
    "must be able to lift",
    "must be able to stand",
    "physical requirements",
    "must be able to travel",
    "able-bodied"
  ]

  /** The phrase list scanned for category `c`. */
  function Phrases(c: Category): seq<string>
  {
    match c
    case Masculine => MASCULINE_CODED
    case Feminine => FEMININE_CODED
    case Age => AGE_BIASED
    case Exclusionary => EXCLUSIONARY_LANGUAGE
    case CulturalFit => CULTURAL_FIT_CLICHES
    case Disability => DISABILITY_BIASED
  }

  /** No list repeats an entry. */
  lemma PhrasesDistinct(c: Category)
    ensures NoDup(Phrases(c))
  {
    match c
    case Masculine => MasculineDistinct();
    case Feminine => FeminineDistinct();
    case Age => AgeDistinct();
    case Exclusionary => ExclusionaryDistinct();
    case CulturalFit => CulturalFitDistinct();
    case Disability => DisabilityDistinct();
  }

  lemma MasculineDistinct()
    ensures NoDup(MASCULINE_CODED)
  {
    forall i, j | 0 <= i < j < |MASCULINE_CODED| ensures MASCULINE_CODED[i] != MASCULINE_CODED[j] {
      if i == 0 { } else if i == 1 { } else if i == 2 { } else if i == 3 { } else if i == 4 { } else if i == 5 { } else if i == 6 { } else if i == 7 { } else if i == 8 { } else if i == 9 { } else if i == 10 { } else if i == 11 { } else if i == 12 { } else if i == 13 { } else if i == 14 { } else if i == 15 { } else if i == 16 { }
    }
  }

  lemma FeminineDistinct()
    ensures NoDup(FEMININE_CODED)
  {
    forall i, j | 0 <= i < j < |FEMININE_CODED| ensures FEMININE_CODED[i] != FEMININE_CODED[j] {
      if i == 0 { } else if i == 1 { } else if i == 2 { } else if i == 3 { } else if i == 4 { } else if i == 5 { } else if i == 6 { }
    }
  }

  lemma AgeDistinct()
    ensures NoDup(AGE_BIASED)
  {
    forall i, j | 0 <= i < j < |AGE_BIASED| ensures AGE_BIASED[i] != AGE_BIASED[j] {
      if i == 0 { } else if i == 1 { } else if i == 2 { } else if i == 3 { } else if i == 4 { } else if i == 5 { } else if i == 6 { }
    }
  }

  lemma ExclusionaryDistinct()
    ensures NoDup(EXCLUSIONARY_LANGUAGE)
  {
    forall i, j | 0 <= i < j < |EXCLUSIONARY_LANGUAGE| ensures EXCLUSIONARY_LANGUAGE[i] != EXCLUSIONARY_LANGUAGE[j] {
      if i == 0 { } else if i == 1 { } else if i == 2 { } else if i == 3 { } else if i == 4 { } else if i == 5 { } else if i == 6 { } else if i == 7 { } else if i == 8 { }
    }
  }

  lemma CulturalFitDistinct()
    ensures NoDup(CULTURAL_FIT_CLICHES)
  {
    forall i, j | 0 <= i < j < |CULTURAL_FIT_CLICHES| ensures CULTURAL_FIT_CLICHES[i] != CULTURAL_FIT_CLICHES[j] {
      if i == 0 { } else if i == 1 { } else if i == 2 { } else if i == 3 { }
    }
  }

  lemma DisabilityDistinct()
    ensures NoDup(DISABILITY_BIASED)
  {
    forall i, j | 0 <= i < j < |DISABILITY_BIASED| ensures DISABILITY_BIASED[i] != DISABILITY_BIASED[j] {
      if i == 0 { } else if i == 1 { } else if i == 2 { }
    }
  }

  /** A single word: non-empty, all of it `\w` characters. */
  predicate IsWord(w: string)
  {
    w != [] && AllWordChars(w)
  }

  /** `split()` of a string with no whitespace in it is that string alone. */
  lemma SplitToken(w: string)
    requires IsToken(w)
    ensures SplitWords(w) == [w]
  {
    assert RunEnd(w, 0, IsSpace) == 0;
    assert RunEnd(w, 0, NotSpace) == |w|;
    assert w[0..|w|] == w;
    assert SplitWords(w[|w|..]) == [];
  }

  /** A string with whitespace between two other characters splits into at least two words. */
  lemma SeveralWords(s: string, j: nat, i: nat, k: nat)
    requires j < i < k < |s|
    requires !IsSpace(s[j]) && IsSpace(s[i]) && !IsSpace(s[k])
    ensures |SplitWords(s)| >= 2
  {
    var a := RunEnd(s, 0, IsSpace);
    var b := RunEnd(s, a, NotSpace);
    assert a <= j;
    assert b <= i;
    assert s[b..][k - b] == s[k];
  }

  /** Exactly two masculine entries hold a space. */
  lemma MasculineSpaces(i: nat)
    requires i < |MASCULINE_CODED|
    ensures ' ' in MASCULINE_CODED[i] <==> i == 16 || i == 18
  {
    if i == 0 { } else if i == 1 { } else if i == 2 { } else if i == 3 { } else if i == 4 { } else if i == 5 { } else if i == 6 { } else if i == 7 { } else if i == 8 { } else if i == 9 { } else if i == 10 { } else if i == 11 { } else if i == 12 { } else if i == 13 { } else if i == 14 { } else if i == 15 { } else if i == 16 { } else if i == 17 { }
  }

  /** The masculine entries without a space are single words. */
  lemma MasculineWords(i: nat)
    requires i < |MASCULINE_CODED| && i != 16 && i != 18
    ensures IsWord(MASCULINE_CODED[i])
  {
    if i < 9 {
      MasculineWordsFirst(i);
    } else {
      MasculineWordsLast(i);
    }
  }

  lemma MasculineWordsFirst(i: nat)
    requires i < 9
    ensures IsWord(MASCULINE_CODED[i])
  {
    if i == 0 { } else if i == 1 { } else if i == 2 { } else if i == 3 { } else if i == 4 { } else if i == 5 { } else if i == 6 { } else if i == 7 { }
  }

  lemma MasculineWordsLast(i: nat)
    requires 9 <= i < |MASCULINE_CODED| && i != 16 && i != 18
    ensures IsWord(MASCULINE_CODED[i])
  {
    if i == 9 { } else if i == 10 { } else if i == 11 { } else if i == 12 { } else if i == 13 { } else if i == 14 { } else if i == 15 { }
  }

  /** The two masculine entries with a space split into several words. */
  lemma MasculinePhrases()
    ensures |SplitWords(MASCULINE_CODED[16])| >= 2
    ensures |SplitWords(MASCULINE_CODED[18])| >= 2
  {
    SeveralWords(MASCULINE_CODED[16], 0, 4, 5);
    SeveralWords(MASCULINE_CODED[18], 0, 5, 6);
  }

  /** Every feminine entry is one word. */
  lemma FeminineEntry(i: nat)
    requires i < |FEMININE_CODED|
    ensures IsWord(FEMININE_CODED[i])
  {
    if i == 0 { } else if i == 1 { } else if i == 2 { } else if i == 3 { } else if i == 4 { } else if i == 5 { } else if i == 6 { } else if i == 7 { } else if i == 8 { }
  }

  /** Whether the entry `phrase` of category `c` is reported for the normalised text `norm`. */
  predicate Hit(c: Category, phrase: string, norm: string)
  {
    match c
    case Masculine =>
      if |SplitWords(phrase)| == 1 then Found(WholeWord(phrase), norm, true) else Contains(norm, phrase)
    case Feminine => Found(WholeWord(phrase), norm, true)
    case _ => Contains(norm, phrase)
  }

  /** The entries of `phrases` that are reported for `norm`, in list order. */
  function Scan(c: Category, phrases: seq<string>, norm: string): (ms: seq<string>)
    ensures |ms| <= |phrases|
    ensures forall x :: x in ms <==> x in phrases && Hit(c, x, norm)
    ensures NoDup(phrases) ==> NoDup(ms)
    decreases |phrases|
  {
    if phrases == [] then []
    else
      var init, last := phrases[..|phrases| - 1], phrases[|phrases| - 1];
      assert phrases == init + [last];
      Scan(c, init, norm) + (if Hit(c, last, norm) then [last] else [])
  }

  /** The reported entries keep the list's order. */
  lemma {:induction false} ScanSubsequence(c: Category, phrases: seq<string>, norm: string)
    requires NoDup(phrases)
    ensures Subsequence(Scan(c, phrases, norm), phrases)
    decreases |phrases|
  {
    if phrases != [] {
      var init, last := phrases[..|phrases| - 1], phrases[|phrases| - 1];
      ScanSubsequence(c, init, norm);
      var ms := Scan(c, init, norm);
      var hit := Hit(c, last, norm);
      assert Scan(c, phrases, norm) == if hit then ms + [last] else ms;
      if hit {
        assert (ms + [last])[..|ms|] == ms;
      } else if ms != [] {
        assert ms[|ms| - 1] in init;
        assert ms[|ms| - 1] != last;
      }
    }
  }

  /** One category's entry in the result: `count` and `matches`. */
  datatype CategoryResult = CategoryResult(count: nat, matches: seq<string>)

  /** The dictionary `detect_bias_keywords` returns, one field per category key. */
  datatype KeywordResults = KeywordResults(
    masculine: CategoryResult, feminine: CategoryResult, age: CategoryResult,
    exclusionary: CategoryResult, culturalFit: CategoryResult, disability: CategoryResult)
  {
    function Get(c: Category): CategoryResult
    {
      match c
      case Masculine => masculine
      case Feminine => feminine
      case Age => age
      case Exclusionary => exclusionary
      case CulturalFit => culturalFit
      case Disability => disability
    }
  }

  const NO_MATCHES := CategoryResult(0, [])

  const ALL_EMPTY := KeywordResults(NO_MATCHES, NO_MATCHES, NO_MATCHES, NO_MATCHES, NO_MATCHES, NO_MATCHES)

  /** `not text or len(text.strip()) == 0` */
  predicate IsBlank(text: string)
  {
    Strip(text) == []
  }

  /** `' '.join(text.lower().split())` */
  function Normalize(text: string): string
  {
    JoinWith(SplitWords(Lower(text)), " ")
  }

  /** A category's count and matches for the entries `phrases`. */
  function Tally(c: Category, phrases: seq<string>, norm: string): CategoryResult
  {
    var ms := Scan(c, phrases, norm);
    CategoryResult(|ms|, ms)
  }

  /** What `detect_bias_keywords` returns: every category with its count and matches. */
  function DetectSpec(text: string): (r: KeywordResults)
    ensures IsBlank(text) ==> r == ALL_EMPTY
  {
    if IsBlank(text) then ALL_EMPTY
    else
      var norm := Normalize(text);
      KeywordResults(
        Tally(Masculine, MASCULINE_CODED, norm), Tally(Feminine, FEMININE_CODED, norm),
        Tally(Age, AGE_BIASED, norm), Tally(Exclusionary, EXCLUSIONARY_LANGUAGE, norm),
        Tally(CulturalFit, CULTURAL_FIT_CLICHES, norm), Tally(Disability, DISABILITY_BIASED, norm))
  }

  /** One of the six loops: every entry of `phrases`, in order, tested against `norm`. */
  method ScanCategory(c: Category, phrases: seq<string>, norm: string) returns (res: CategoryResult)
    ensures res == Tally(c, phrases, norm)
  {
    var count := 0;
    var matches := [];
    for k := 0 to |phrases|
      invariant matches == Scan(c, phrases[..k], norm)
      invariant count == |matches|
    {
      assert phrases[..k + 1][..k] == phrases[..k];
      if Hit(c, phrases[k], norm) {
        count := count + 1;
        matches := matches + [phrases[k]];
      }
    }
    assert phrases[..|phrases|] == phrases;
    res := CategoryResult(count, matches);
  }

  /** `detect_bias_keywords` */
  method DetectBiasKeywords(text: string) returns (r: KeywordResults)
    ensures r == DetectSpec(text)
  {
    if IsBlank(text) {
      return ALL_EMPTY;
    }
    var norm := Normalize(text);
    var masculine := ScanCategory(Masculine, MASCULINE_CODED, norm);
    var feminine := ScanCategory(Feminine, FEMININE_CODED, norm);
    var age := ScanCategory(Age, AGE_BIASED, norm);
    var exclusionary := ScanCategory(Exclusionary, EXCLUSIONARY_LANGUAGE, norm);
    var cultural := ScanCategory(CulturalFit, CULTURAL_FIT_CLICHES, norm);
    var disability := ScanCategory(Disability, DISABILITY_BIASED, norm);
    r := KeywordResults(masculine, feminine, age, exclusionary, cultural, disability);
  }

  /**
    For every category, `count == len(matches)`, and `matches` holds each
    list entry at most once, in list order, exactly when it is reported.
   */
  lemma DetectCategory(text: string, c: Category)
    ensures var r := DetectSpec(text).Get(c);
      && r.count == |r.matches| <= |Phrases(c)|
      && NoDup(r.matches)
      && Subsequence(r.matches, Phrases(c))
      && forall x :: x in r.matches <==> !IsBlank(text) && x in Phrases(c) && Hit(c, x, Normalize(text))
  {
    PhrasesDistinct(c);
    if !IsBlank(text) {
      ScanSubsequence(c, Phrases(c), Normalize(text));
    }
  }

  /** Single-word masculine entries and all feminine entries are found only as whole words. */
  lemma WholeWordEntries(c: Category, phrase: string, norm: string)
    requires phrase in Phrases(c)
    requires c == Feminine || (c == Masculine && ' ' !in phrase)
    ensures Hit(c, phrase, norm) <==> exists p :: 0 <= p <= |norm| && WholeWordAt(norm, phrase, p, true)
  {
    var i :| 0 <= i < |Phrases(c)| && Phrases(c)[i] == phrase;
    if c == Masculine {
      MasculineSpaces(i);
      MasculineWords(i);
      SplitToken(phrase);
    } else {
      FeminineEntry(i);
    }
    WholeWordFound(phrase, norm, true);
  }

  /** Every other entry is found as a plain substring, word boundaries or not. */
  lemma SubstringEntries(c: Category, phrase: string, norm: string)
    requires phrase in Phrases(c)
    requires c != Feminine && (c == Masculine ==> ' ' in phrase)
    ensures Hit(c, phrase, norm) <==> Contains(norm, phrase)
  {
    if c == Masculine {
      var i :| 0 <= i < |MASCULINE_CODED| && MASCULINE_CODED[i] == phrase;
      MasculineSpaces(i);
      MasculinePhrases();
    }
  }

  /** A blank posting normalises to the empty string, so no entry is found in it. */
  lemma BlankNormalizesEmpty(text: string)
    requires IsBlank(text)
    ensures Normalize(text) == []
  {
    assert AllSpace(Lower(text));
  }

  /** A posting in which a non-empty phrase is found is not blank. */
  lemma FoundMeansNotBlank(text: string, t: string)
    requires t != [] && Contains(Normalize(text), t)
    ensures !IsBlank(text)
  {
    if IsBlank(text) {
      BlankNormalizesEmpty(text);
      assert false;
    }
  }

  /** An entry is reported exactly when the posting is not blank and the entry's test succeeds. */
  lemma Reported(text: string, c: Category, x: string)
    requires x in Phrases(c)
    ensures x in DetectSpec(text).Get(c).matches <==> !IsBlank(text) && Hit(c, x, Normalize(text))
  {
    DetectCategory(text, c);
  }

  /** Every cultural-fit entry holds a space. */
  lemma CulturalSpaces(i: nat)
    requires i < |CULTURAL_FIT_CLICHES|
    ensures ' ' in CULTURAL_FIT_CLICHES[i]
  {
    if i == 0 { } else if i == 1 { } else if i == 2 { } else if i == 3 { } else if i == 4 { }
  }

  /**
    There is no cross-category exclusion: an entry on two lists whose tests
    agree is reported under one category exactly when it is reported under
    the other.
   */
  lemma ReportedAlike(c1: Category, c2: Category, text: string, x: string)
    requires x in Phrases(c1) && x in Phrases(c2)
    requires Hit(c1, x, Normalize(text)) == Hit(c2, x, Normalize(text))
    ensures x in DetectSpec(text).Get(c1).matches <==> x in DetectSpec(text).Get(c2).matches
  {
    Reported(text, c1, x);
    Reported(text, c2, x);
  }

  /** An entry on both the masculine and the cultural-fit list has a space, so both test it as a substring. */
  lemma SharedEntryHit(x: string, norm: string)
    requires x in MASCULINE_CODED && x in CULTURAL_FIT_CLICHES
    ensures Hit(Masculine, x, norm) == Hit(CulturalFit, x, norm)
  {
    var i :| 0 <= i < |CULTURAL_FIT_CLICHES| && CULTURAL_FIT_CLICHES[i] == x;
    CulturalSpaces(i);
    var j :| 0 <= j < |MASCULINE_CODED| && MASCULINE_CODED[j] == x;
    MasculineSpaces(j);
    MasculinePhrases();
  }

  /** "work hard play hard" is on both lists. */
  lemma SharedEntry()
    ensures "work hard play hard" in MASCULINE_CODED && "work hard play hard" in CULTURAL_FIT_CLICHES
  {
    assert MASCULINE_CODED[16] == "work hard play hard" == CULTURAL_FIT_CLICHES[1];
  }

  /** Age entries are plain substrings: "young" is reported for "youngster". */
  lemma YoungFoundInYoungster()
    ensures "young" in DetectSpec("youngster").age.matches
  {
    var s := "youngster";
    assert Lower(s) == s;
    assert !IsSpace(s[0]);
    SplitToken(s);
    assert Normalize(s) == s;
    assert ContainsAt(s, "young", 0);
    assert AGE_BIASED[1] == "young";
    Reported(s, Age, "young");
  }

  /* ---------- Keyword-derived classification ---------- */

  /** Labels with scores in hundredths, as inferred from keyword counts. */
  datatype Inference = Inference(labels: seq<string>, scores: seq<int>)

  /** The score the keyword fallback gives each label it can produce. */
  function LabelScore(name: string): int
  {
    if name == "exclusionary-language" then 80
    else if name == "neutral" then 50
    else 70
  }

  predicate HasExclusionary(kr: KeywordResults)
  {
    kr.exclusionary.count > 0
  }

  predicate HasGendered(kr: KeywordResults)
  {
    kr.masculine.count > 0 || kr.feminine.count > 0
  }

  predicate HasAgeBias(kr: KeywordResults)
  {
    kr.age.count > 0
  }

  /** `labels.insert(0, x)` when `b` holds. */
  function PushIf(b: bool, x: string, labels: seq<string>): (r: seq<string>)
    ensures |r| == |labels| + (if b then 1 else 0)
  {
    if b then [x] + labels else labels
  }

  /**
    The keyword fallback's labels: neutral, with exclusionary-language,
    gender-bias and age-bias inserted at the front, in that order, when
    their counts are positive.
   */
  function FallbackLabels(kr: KeywordResults): (labels: seq<string>)
    ensures 1 <= |labels| <= 4
  {
    PushIf(HasAgeBias(kr), "age-bias",
      PushIf(HasGendered(kr), "gender-bias",
        PushIf(HasExclusionary(kr), "exclusionary-language", ["neutral"])))
  }

  /** The keyword fallback's result: its labels, each with its own score. */
  function InferSpec(kr: KeywordResults): Inference
  {
    var labels := FallbackLabels(kr);
    Inference(labels, ScoresOf(labels))
  }

  /** Each label's score, in the labels' order. */
  function ScoresOf(labels: seq<string>): (scores: seq<int>)
    ensures |scores| == |labels|
    ensures forall i :: 0 <= i < |labels| ==> scores[i] == LabelScore(labels[i])
  {
    if labels == [] then [] else [LabelScore(labels[0])] + ScoresOf(labels[1..])
  }

  lemma ScoresOfPush(x: string, labels: seq<string>)
    ensures ScoresOf([x] + labels) == [LabelScore(x)] + ScoresOf(labels)
  {
    assert ([x] + labels)[1..] == labels;
  }

  /** 1 when the cue fired, 0 otherwise. */
  function Ord(b: bool): nat
  {
    if b then 1 else 0
  }

  /**
    What the fallback reports: age-bias, gender-bias, exclusionary-language
    and neutral in that order, each label present exactly when its cue is,
    at the index given by the cues before it, neutral always last (with
    0.5), and neutral first exactly when no cue fired.
   */
  lemma InferShape(kr: KeywordResults)
    ensures var r := InferSpec(kr);
      var a, g, e := HasAgeBias(kr), HasGendered(kr), HasExclusionary(kr);
      |r.labels| == |r.scores| == 1 + Ord(a) + Ord(g) + Ord(e)
      && (a ==> r.labels[0] == "age-bias")
      && (g ==> r.labels[Ord(a)] == "gender-bias")
      && (e ==> r.labels[Ord(a) + Ord(g)] == "exclusionary-language")
      && r.labels[|r.labels| - 1] == "neutral" && r.scores[|r.scores| - 1] == 50
      && ("age-bias" in r.labels <==> HasAgeBias(kr))
      && ("gender-bias" in r.labels <==> HasGendered(kr))
      && ("exclusionary-language" in r.labels <==> HasExclusionary(kr))
      && (r.labels[0] == "neutral" <==> !HasAgeBias(kr) && !HasGendered(kr) && !HasExclusionary(kr))
      && (forall i :: 0 <= i < |r.labels| ==> r.scores[i] == LabelScore(r.labels[i]))
      && (forall i, j :: 0 <= i < j < |r.labels| ==> r.labels[i] != r.labels[j])
  {
  }

  /**
    The block written out three times in the Python code: start from
    neutral/0.5, push exclusionary-language, gender-bias and age-bias to the
    front when their counts are positive, keep the first six.
   */
  method InferFromKeywords(kr: KeywordResults) returns (r: Inference)
    ensures r == InferSpec(kr)
  {
    var labels := ["neutral"];
    var scores := [50];
    assert scores == ScoresOf(labels) by { assert labels[1..] == []; }
    if kr.exclusionary.count > 0 {
      ScoresOfPush("exclusionary-language", labels);
      labels := ["exclusionary-language"] + labels;
      scores := [80] + scores;
    }
    if kr.masculine.count > 0 || kr.feminine.count > 0 {
      ScoresOfPush("gender-bias", labels);
      labels := ["gender-bias"] + labels;
      scores := [70] + scores;
    }
    if kr.age.count > 0 {
      ScoresOfPush("age-bias", labels);
      labels := ["age-bias"] + labels;
      scores := [70] + scores;
    }
    r := Inference(Slice(labels, 6), Slice(scores, 6));
  }

  /**
    A classification result. `error` is `None` both where the dictionary
    holds `"error": None` and where it has no `"error"` key; `fallback` is
    false where the key is absent.
   */
  datatype Classification = Classification(labels: seq<string>, scores: seq<int>, error: Option<string>, fallback: bool)

  /** The zero-shot classifier's answer: labels ranked with scores in hundredths, or the message of what it raised. */
  datatype ClassifierReply = Ranked(labels: seq<string>, scores: seq<int>) | Raised(message: string)

  /** Texts longer than this are cut before classification. */
  const MAX_CLASSIFIER_INPUT := 500

  /** Python's message for `[][0]`. */
  const INDEX_ERROR := "list index out of range"

  /** The dictionary built in `analyze_with_classifier`'s exception handler. */
  function FallbackFrom(text: string, error: string): Classification
  {
    var inf := InferSpec(DetectSpec(text));
    Classification(inf.labels, inf.scores, Some(error), true)
  }

  /**
    `analyze_with_classifier`, with the classifier as the function
    `classify`: a blank text is neutral with certainty; otherwise the first
    500 characters are classified, and an exception (including the
    `IndexError` of an empty ranking) leads to the keyword fallback.
   */
  function ClassifySpec(text: string, classify: string -> ClassifierReply): (r: Classification)
    ensures |r.labels| > 0 && |r.scores| > 0
    ensures r.fallback <==> r.error.Some?
    ensures r.fallback ==> Inference(r.labels, r.scores) == InferSpec(DetectSpec(text))
    ensures IsBlank(text) ==> !r.fallback && r.labels == ["neutral"]
  {
    if IsBlank(text) then Classification(["neutral"], [100], None, false)
    else
      match classify(Slice(text, MAX_CLASSIFIER_INPUT))
      case Raised(message) => FallbackFrom(text, message)
      case Ranked(labels, scores) =>
        if labels == [] || scores == [] then FallbackFrom(text, INDEX_ERROR)
        else Classification(labels, scores, None, false)
  }

  /** `analyze_with_classifier` */
  method AnalyzeWithClassifier(text: string, classify: string -> ClassifierReply) returns (r: Classification)
    ensures r == ClassifySpec(text, classify)
  {
    if IsBlank(text) {
      return Classification(["neutral"], [100], None, false);
    }
    var error: string;
    match classify(Slice(text, MAX_CLASSIFIER_INPUT)) {
      case Ranked(labels, scores) =>
        if labels != [] && scores != [] {
          return Classification(labels, scores, None, false);
        }
        error := INDEX_ERROR;
      case Raised(message) =>
        error := message;
    }
    var keywordResults := DetectBiasKeywords(text);
    var inferred := InferFromKeywords(keywordResults);
    r := Classification(inferred.labels, inferred.scores, Some(error), true);
  }

  /* ---------- Scores ---------- */

  /** `calculate_bias_score`'s weights, in the order it visits them. */
  const WEIGHTS: seq<(Category, nat)> :=
    [(Exclusionary, 15), (Masculine, 8), (Feminine, 8), (Age, 10), (CulturalFit, 5), (Disability, 12)]

  const CATEGORY_CAP := 30
  const SCORE_CAP := 100

  /** Each listed category's count times its weight, capped at 30, summed. */
  function KeywordPoints(kr: KeywordResults, ws: seq<(Category, nat)>): (p: nat)
    ensures p <= CATEGORY_CAP * |ws|
    decreases |ws|
  {
    if ws == [] then 0
    else
      var (c, w) := ws[|ws| - 1];
      KeywordPoints(kr, ws[..|ws| - 1]) + Min(kr.Get(c).count * w, CATEGORY_CAP)
  }

  /** `int(top_score * 20)` for a score of `h` hundredths: `h / 5` truncated toward zero. */
  function TopScoreBonus(h: int): int
  {
    if h >= 0 then h / 5 else -((-h) / 5)
  }

  /** A classifier's top score, when it has one, is a probability. */
  predicate TopScoreInRange(cls: Classification)
  {
    |cls.scores| > 0 ==> 0 <= cls.scores[0] <= 100
  }

  /** The classifier term: only when there is a score and the top label is not neutral. */
  function ClassifierBonus(cls: Classification): (b: int)
    requires |cls.scores| > 0 ==> |cls.labels| > 0
    ensures TopScoreInRange(cls) ==> 0 <= b <= 20
  {
    if |cls.scores| > 0 && cls.labels[0] != "neutral" then TopScoreBonus(cls.scores[0]) else 0
  }

  function BiasScore(kr: KeywordResults, cls: Classification): (r: int)
    requires |cls.scores| > 0 ==> |cls.labels| > 0
    ensures r <= SCORE_CAP
    ensures TopScoreInRange(cls) ==> 0 <= r
  {
    Min(KeywordPoints(kr, WEIGHTS) + ClassifierBonus(cls), SCORE_CAP)
  }

  /** `calculate_bias_score` */
  method CalculateBiasScore(kr: KeywordResults, cls: Classification) returns (score: int)
    requires |cls.scores| > 0 ==> |cls.labels| > 0
    ensures score == BiasScore(kr, cls)
  {
    score := 0;
    for k := 0 to |WEIGHTS|
      invariant score == KeywordPoints(kr, WEIGHTS[..k])
    {
      var (category, weight) := WEIGHTS[k];
      assert WEIGHTS[..k + 1][..k] == WEIGHTS[..k];
      score := score + Min(kr.Get(category).count * weight, CATEGORY_CAP);
    }
    assert WEIGHTS[..|WEIGHTS|] == WEIGHTS;
    if |cls.scores| > 0 {
      var top := cls.scores[0];
      if cls.labels[0] != "neutral" {
        score := score + TopScoreBonus(top);
      }
    }
    score := Min(score, SCORE_CAP);
  }

  /** The bias score written out with its weights. */
  lemma BiasScoreFormula(kr: KeywordResults, cls: Classification)
    requires |cls.scores| > 0 ==> |cls.labels| > 0
    ensures BiasScore(kr, cls) == Min(
      Min(kr.exclusionary.count * 15, 30) + Min(kr.masculine.count * 8, 30)
      + Min(kr.feminine.count * 8, 30) + Min(kr.age.count * 10, 30)
      + Min(kr.culturalFit.count * 5, 30) + Min(kr.disability.count * 12, 30)
      + ClassifierBonus(cls), 100)
  {
    var w: seq<(Category, nat)> := WEIGHTS;
    assert w[..1][..0] == [];
    assert KeywordPoints(kr, w[..1]) == Min(kr.exclusionary.count * 15, 30);
    assert w[..2][..1] == w[..1];
    assert KeywordPoints(kr, w[..2]) == KeywordPoints(kr, w[..1]) + Min(kr.masculine.count * 8, 30);
    assert w[..3][..2] == w[..2];
    assert KeywordPoints(kr, w[..3]) == KeywordPoints(kr, w[..2]) + Min(kr.feminine.count * 8, 30);
    assert w[..4][..3] == w[..3];
    assert KeywordPoints(kr, w[..4]) == KeywordPoints(kr, w[..3]) + Min(kr.age.count * 10, 30);
    assert w[..5][..4] == w[..4];
    assert KeywordPoints(kr, w[..5]) == KeywordPoints(kr, w[..4]) + Min(kr.culturalFit.count * 5, 30);
    assert w[..6][..5] == w[..5] && w[..6] == w;
  }

  /** A match counts as a visa issue. */
  predicate IsVisaMatch(m: string)
  {
    var l := Lower(m);
    Contains(l, "visa") || Contains(l, "sponsorship") || Contains(l, "eligible to work")
  }

  /** A match counts as language bias. */
  predicate IsLanguageMatch(m: string)
  {
    var l := Lower(m);
    Contains(l, "native") || Contains(l, "english")
  }

  /** `sum(1 for m in ms if p(m))` */
  function CountWhere(ms: seq<string>, p: string -> bool): (n: nat)
    ensures n <= |ms|
    ensures n == 0 <==> forall i :: 0 <= i < |ms| ==> !p(ms[i])
    decreases |ms|
  {
    if ms == [] then 0
    else CountWhere(ms[..|ms| - 1], p) + (if p(ms[|ms| - 1]) then 1 else 0)
  }

  /** `count_visa_issues` */
  function CountVisaIssues(kr: KeywordResults): nat
  {
    CountWhere(kr.exclusionary.matches, IsVisaMatch)
  }

  /** `count_language_bias` */
  function CountLanguageBias(kr: KeywordResults): nat
  {
    CountWhere(kr.exclusionary.matches, IsLanguageMatch)
  }

  /** `calculate_international_bias_score` */
  function InternationalScore(kr: KeywordResults): (r: int)
    ensures 0 <= r <= SCORE_CAP
  {
    Min(CountVisaIssues(kr) * 30 + CountLanguageBias(kr) * 20 + kr.culturalFit.count * 12 + kr.age.count * 10, SCORE_CAP)
  }

  /** Masculine, feminine and disability matches never change the international score. */
  lemma InternationalIgnores(kr: KeywordResults, m: CategoryResult, f: CategoryResult, d: CategoryResult)
    ensures InternationalScore(kr.(masculine := m, feminine := f, disability := d)) == InternationalScore(kr)
  {
  }

  /* ---------- Red flags ---------- */

  datatype Severity = High | Medium

  datatype RedFlag = RedFlag(text: string, severity: Severity, icon: string)

  const HIGH_ICON := "\U{2757}"
  const MEDIUM_ICON := "\U{26A0}\U{FE0F}"

  /** The flag added when any cultural-fit phrase was found. */
  const LOCAL_EXPERIENCE_FLAG := RedFlag("Local experience required", High, HIGH_ICON)

  predicate IsHighMatch(m: string)
  {
    Contains(Lower(m), "no sponsorship") || Contains(Lower(m), "visa")
  }

  predicate IsMediumMatch(m: string)
  {
    !IsHighMatch(m) && Contains(Lower(m), "native")
  }

  /** The flag one exclusionary match raises, if any. */
  function FlagOf(m: string): seq<RedFlag>
  {
    if IsHighMatch(m) then [RedFlag(m, High, HIGH_ICON)]
    else if IsMediumMatch(m) then [RedFlag(m, Medium, MEDIUM_ICON)]
    else []
  }

  /**
    The flags for the exclusionary matches `ms`, in order: high for a match
    about sponsorship or visas, otherwise medium for one about native
    speakers, otherwise none.
   */
  function MatchFlags(ms: seq<string>): (flags: seq<RedFlag>)
    ensures |flags| <= |ms|
    ensures forall m :: RedFlag(m, High, HIGH_ICON) in flags <==> m in ms && IsHighMatch(m)
    ensures forall m :: RedFlag(m, Medium, MEDIUM_ICON) in flags <==> m in ms && IsMediumMatch(m)
    ensures forall i :: 0 <= i < |flags| ==> flags[i] == RedFlag(flags[i].text, High, HIGH_ICON) || flags[i] == RedFlag(flags[i].text, Medium, MEDIUM_ICON)
    decreases |ms|
  {
    if ms == [] then []
    else
      var init, m := ms[..|ms| - 1], ms[|ms| - 1];
      assert ms == init + [m];
      MatchFlags(init) + FlagOf(m)
  }

  /**
    The flags follow the matches: those of `a + b` are those of `a`
    followed by those of `b`, and a single match `m` raises exactly `FlagOf(m)`; so each
    match contributes its own flag, at most one, in the matches' order.
   */
  lemma {:induction false} MatchFlagsAppend(a: seq<string>, b: seq<string>)
    ensures MatchFlags(a + b) == MatchFlags(a) + MatchFlags(b)
    ensures MatchFlags([]) == [] && forall m :: MatchFlags([m]) == FlagOf(m)
    decreases |b|
  {
    MatchFlagsSingle();
    if b == [] {
      assert a + b == a;
    } else {
      var init, m := b[..|b| - 1], b[|b| - 1];
      MatchFlagsAppend(a, init);
      var ab := a + b;
      SnocSplit(a, b);
      MatchFlagsSnoc(ab);
      MatchFlagsSnoc(b);
      ConcatAssoc(MatchFlags(a), MatchFlags(init), FlagOf(m));
    }
  }

  /** The last match's flag comes last. */
  lemma MatchFlagsSnoc(ms: seq<string>)
    requires ms != []
    ensures MatchFlags(ms) == MatchFlags(ms[..|ms| - 1]) + FlagOf(ms[|ms| - 1])
  {
  }

  lemma SnocSplit<T>(a: seq<T>, b: seq<T>)
    requires b != []
    ensures (a + b)[..|a + b| - 1] == a + b[..|b| - 1] && (a + b)[|a + b| - 1] == b[|b| - 1]
  {
  }

  lemma ConcatAssoc<T>(x: seq<T>, y: seq<T>, z: seq<T>)
    ensures (x + y) + z == x + (y + z)
  {
  }

  lemma MatchFlagsSingle()
    ensures forall m :: MatchFlags([m]) == FlagOf(m)
  {
    forall m ensures MatchFlags([m]) == FlagOf(m) {
      assert [m][..0] == [];
    }
  }

  function RedFlagsSpec(kr: KeywordResults): seq<RedFlag>
  {
    MatchFlags(kr.exclusionary.matches) + if kr.culturalFit.count > 0 then [LOCAL_EXPERIENCE_FLAG] else []
  }

  /** `generate_red_flags` */
  method GenerateRedFlags(kr: KeywordResults) returns (flags: seq<RedFlag>)
    ensures flags == RedFlagsSpec(kr)
  {
    flags := [];
    var exclusionary := kr.exclusionary.matches;
    for k := 0 to |exclusionary|
      invariant flags == MatchFlags(exclusionary[..k])
    {
      var m := exclusionary[k];
      assert exclusionary[..k + 1][..k] == exclusionary[..k];
      if Contains(Lower(m), "no sponsorship") || Contains(Lower(m), "visa") {
        flags := flags + [RedFlag(m, High, HIGH_ICON)];
      } else if Contains(Lower(m), "native") {
        flags := flags + [RedFlag(m, Medium, MEDIUM_ICON)];
      }
    }
    assert exclusionary[..|exclusionary|] == exclusionary;
    if kr.culturalFit.count > 0 {
      flags := flags + [LOCAL_EXPERIENCE_FLAG];
    }
  }

  /** A character of `t` that `s` lacks keeps `t` out of `s`. */
  lemma MissingChar(s: string, t: string, c: char)
    requires c in t && c !in s
    ensures !Contains(s, t)
  {
  }

  /** "Local experience required" is about neither visas, sponsorship nor native speakers. */
  lemma LocalTextRaisesNoFlag()
    ensures !IsHighMatch(LOCAL_EXPERIENCE_FLAG.text) && !IsMediumMatch(LOCAL_EXPERIENCE_FLAG.text)
  {
    var t := LOCAL_EXPERIENCE_FLAG.text;
    var l := Lower(t);
    assert forall i :: 0 <= i < |t| ==> t[i] != 'v' && t[i] != 'V' && t[i] != 'h' && t[i] != 'H';
    AbsentAfterLower(t, 'v');
    AbsentAfterLower(t, 'h');
    MissingChar(l, "visa", 'v');
    MissingChar(l, "native", 'v');
    MissingChar(l, "no sponsorship", 'h');
  }

  /**
    At most one flag per exclusionary match plus one, and the last flag is
    "Local experience required" exactly when a cultural-fit phrase was found.
   */
  lemma RedFlagsShape(kr: KeywordResults)
    ensures var flags := RedFlagsSpec(kr);
      && |flags| <= |kr.exclusionary.matches| + 1
      && (|flags| > 0 && flags[|flags| - 1] == LOCAL_EXPERIENCE_FLAG <==> kr.culturalFit.count > 0)
  {
    var mf := MatchFlags(kr.exclusionary.matches);
    if kr.culturalFit.count == 0 && |mf| > 0 && mf[|mf| - 1] == LOCAL_EXPERIENCE_FLAG {
      LocalTextRaisesNoFlag();
      assert false;
    }
  }

  /* ---------- Full analysis ---------- */

  datatype Breakdown = Breakdown(visaRequirements: nat, languageBias: nat, culturalAssumptions: nat, otherExclusionary: nat)

  /** The dictionary `analyze_full` returns. */
  datatype FullAnalysis = FullAnalysis(
    biasScore: int, internationalScore: int, keywordAnalysis: KeywordResults,
    classification: Classification, redFlags: seq<RedFlag>, breakdown: Breakdown,
    analysisType: string, nlpUsed: bool)

  /** The keyword-only classification `analyze_full` uses when NLP is off. */
  function KeywordClassification(kr: KeywordResults): Classification
  {
    var inf := InferSpec(kr);
    Classification(inf.labels, inf.scores, None, true)
  }

  function ClassificationFor(text: string, useNlp: bool, classify: string -> ClassifierReply): (r: Classification)
    ensures |r.labels| > 0 && |r.scores| > 0
  {
    if useNlp then ClassifySpec(text, classify) else KeywordClassification(DetectSpec(text))
  }

  /** The report `analyze_full` assembles from the keyword results and the classification. */
  function Report(kr: KeywordResults, cls: Classification): FullAnalysis
    requires |cls.scores| > 0 ==> |cls.labels| > 0
  {
    FullAnalysis(
      BiasScore(kr, cls), InternationalScore(kr), kr, cls, RedFlagsSpec(kr),
      Breakdown(CountVisaIssues(kr), CountLanguageBias(kr), kr.culturalFit.count, kr.masculine.count + kr.age.count),
      "real", !cls.fallback)
  }

  function FullSpec(text: string, useNlp: bool, classify: string -> ClassifierReply): FullAnalysis
  {
    Report(DetectSpec(text), ClassificationFor(text, useNlp, classify))
  }

  /** `analyze_full`, with the classifier as the function `classify`. */
  method AnalyzeFull(text: string, useNlp: bool, classify: string -> ClassifierReply) returns (r: FullAnalysis)
    ensures r == FullSpec(text, useNlp, classify)
  {
    var keywordResults := DetectBiasKeywords(text);
    var classification := ChooseClassification(text, useNlp, classify, keywordResults);
    r := AssembleReport(keywordResults, classification);
  }

  /** The classification step of `analyze_full`. */
  method ChooseClassification(text: string, useNlp: bool, classify: string -> ClassifierReply, kr: KeywordResults)
    returns (cls: Classification)
    requires kr == DetectSpec(text)
    ensures cls == ClassificationFor(text, useNlp, classify)
  {
    if useNlp {
      cls := AnalyzeWithClassifier(text, classify);
    } else {
      var inferred := InferFromKeywords(kr);
      cls := Classification(inferred.labels, inferred.scores, None, true);
    }
  }

  /** The scoring and reporting steps of `analyze_full`. */
  method AssembleReport(kr: KeywordResults, cls: Classification) returns (r: FullAnalysis)
    requires |cls.scores| > 0 ==> |cls.labels| > 0
    ensures r == Report(kr, cls)
  {
    var biasScore := CalculateBiasScore(kr, cls);
    var internationalScore := InternationalScore(kr);
    var redFlags := GenerateRedFlags(kr);
    var breakdown := Breakdown(
      CountVisaIssues(kr), CountLanguageBias(kr),
      kr.culturalFit.count, kr.masculine.count + kr.age.count);
    r := FullAnalysis(biasScore, internationalScore, kr, cls, redFlags, breakdown,
                      "real", !cls.fallback);
  }

  /** A blank posting scores 0 on both scales and raises no flag, with or without NLP. */
  lemma BlankPostingScoresZero(text: string, useNlp: bool, classify: string -> ClassifierReply)
    requires IsBlank(text)
    ensures var r := FullSpec(text, useNlp, classify);
      r.biasScore == 0 && r.internationalScore == 0 && r.redFlags == []
  {
    var kr := DetectSpec(text);
    assert KeywordPoints(kr, WEIGHTS) == 0 by {
      BiasScoreFormula(kr, ClassificationFor(text, useNlp, classify));
    }
  }

  /**
    The keyword-derived classification is the same wherever the code builds
    it: when the classifier fails, `analyze_full` with NLP reports the
    labels and scores, the bias score and the breakdown of the NLP-free path.
   */
  lemma FailedClassifierFallsBack(text: string, classify: string -> ClassifierReply)
    requires ClassifySpec(text, classify).fallback
    ensures var withNlp, without := FullSpec(text, true, classify), FullSpec(text, false, classify);
      && withNlp.classification.labels == without.classification.labels
      && withNlp.classification.scores == without.classification.scores
      && withNlp.biasScore == without.biasScore
      && withNlp.breakdown == without.breakdown
      && !withNlp.nlpUsed && !without.nlpUsed
  {
    var kr := DetectSpec(text);
    SameRankingSameScore(kr, ClassifySpec(text, classify), KeywordClassification(kr));
  }

  /** The report's score depends on the classification only through its labels and scores. */
  lemma SameRankingSameScore(kr: KeywordResults, c1: Classification, c2: Classification)
    requires |c1.scores| > 0 ==> |c1.labels| > 0
    requires c1.labels == c2.labels && c1.scores == c2.scores
    ensures Report(kr, c1).biasScore == Report(kr, c2).biasScore
    ensures Report(kr, c1).breakdown == Report(kr, c2).breakdown
  {
  }

  /** The fallback adds 14 points when age or gender terms were found, 16 for exclusionary terms alone, else nothing. */
  lemma KeywordBonus(kr: KeywordResults)
    ensures ClassifierBonus(KeywordClassification(kr)) ==
      if HasAgeBias(kr) || HasGendered(kr) then 14
      else if HasExclusionary(kr) then 16
      else 0
  {
  }

  /** NLP counts as used exactly when it was asked for and no exception fell back to keywords. */
  lemma NlpUsed(text: string, useNlp: bool, classify: string -> ClassifierReply)
    ensures FullSpec(text, useNlp, classify).nlpUsed <==>
      useNlp && (IsBlank(text)
        || (classify(Slice(text, MAX_CLASSIFIER_INPUT)).Ranked?
            && classify(Slice(text, MAX_CLASSIFIER_INPUT)).labels != []
            && classify(Slice(text, MAX_CLASSIFIER_INPUT)).scores != []))
  {
  }
}
