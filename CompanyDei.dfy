/**
  The company DEI lookups of `backend/company_dei.py` over the static table
  `DEI_DATA`: the insights of one company, better-scoring alternatives, the
  job cards built from them, and the top companies.

  Scores on the 0-5 scale are integer tenths (4.2 is 42); the code only
  copies and compares them.
 */
module CompanyDei {
  import opened Wrappers
  import opened Text

  /** One row of `DEI_DATA`. */
  datatype Company = Company(
    name: string, inclusivity: nat, leadership: nat, international: nat, workLife: nat,
    sponsorship: string, diversityReport: Option<string>, glassdoor: nat,
    eeocCertified: bool, ergAvailable: bool, footprint: seq<string>, sentiment: nat)

  const DEI_DATA: seq<Company> := [
    Company("GreenSpark Software", 42, 38, 45, 40, "Active", Some("https://example.com/diversity-report"),
      41, true, true, ["US", "Canada", "UK"], 43),
    Company("Valore Partners", 38, 35, 32, 36, "Limited", None,
      37, true, false, ["US"], 35),
    Company("Augment", 45, 43, 48, 42, "Very Active", Some("https://example.com/augment-diversity"),
      44, true, true, ["US", "Canada", "UK", "Germany", "India"], 46),
    Company("TechFlow Systems", 35, 32, 28, 34, "Rare", None,
      33, true, true, ["US"], 32),
    Company("DataVault", 40, 39, 42, 38, "Active", Some("https://example.com/datavault-diversity"),
      40, true, true, ["US", "Canada"], 41),
    Company("CloudScale Inc", 47, 46, 49, 45, "Very Active", Some("https://example.com/cloudscale-diversity"),
      46, true, true, ["US", "Canada", "UK", "Germany", "India", "Australia"], 47),
    Company("SecureNet Solutions", 39, 37, 35, 37, "Moderate", None,
      38, true, false, ["US", "Canada"], 39),
    Company("InnovateAI", 43, 41, 44, 41, "Active", Some("https://example.com/innovateai-diversity"),
      42, true, true, ["US", "Canada", "UK", "India"], 43),
    Company("GlobalTech Corp", 46, 44, 47, 43, "Very Active", Some("https://example.com/globaltech-diversity"),
      45, true, true, ["US", "Canada", "UK", "Germany", "India", "Australia", "Singapore"], 45),
    Company("StartupXYZ", 32, 29, 25, 30, "None", None,
      31, false, false, ["US"], 30)
  ]

  /* ---------- Lookup ---------- */

  /** The index of the first row whose lowercased name is `nameLower`. */
  function FindIndex(rows: seq<Company>, nameLower: string): (r: Option<nat>)
    ensures r.Some? ==> r.value < |rows| && Lower(rows[r.value].name) == nameLower
    ensures forall k :: 0 <= k < |rows| && (r.None? || k < r.value) ==> Lower(rows[k].name) != nameLower
    decreases |rows|
  {
    if rows == [] then None
    else if Lower(rows[0].name) == nameLower then Some(0)
    else match FindIndex(rows[1..], nameLower)
      case None => None
      case Some(k) => Some(k + 1)
  }

  /** The search loop shared by `get_company_insights` and `get_alternatives`: the first match, or none. */
  method FindRow(rows: seq<Company>, nameLower: string) returns (found: Option<nat>)
    ensures found == FindIndex(rows, nameLower)
  {
    for k := 0 to |rows|
      invariant forall j :: 0 <= j < k ==> Lower(rows[j].name) != nameLower
    {
      if Lower(rows[k].name) == nameLower {
        FindIndexFirst(rows, nameLower, k);
        return Some(k);
      }
    }
    FindIndexNone(rows, nameLower);
    return None;
  }

  lemma {:induction false} FindIndexFirst(rows: seq<Company>, nameLower: string, k: nat)
    requires k < |rows| && Lower(rows[k].name) == nameLower
    requires forall j :: 0 <= j < k ==> Lower(rows[j].name) != nameLower
    ensures FindIndex(rows, nameLower) == Some(k)
    decreases k
  {
    if k > 0 {
      FindIndexFirst(rows[1..], nameLower, k - 1);
    }
  }

  lemma {:induction false} FindIndexNone(rows: seq<Company>, nameLower: string)
    requires forall j :: 0 <= j < |rows| ==> Lower(rows[j].name) != nameLower
    ensures FindIndex(rows, nameLower) == None
    decreases |rows|
  {
    if rows != [] {
      FindIndexNone(rows[1..], nameLower);
    }
  }

  /** The dictionary `get_company_insights` returns; `None` fields are JSON nulls, `status` an optional key. */
  datatype Insights = Insights(
    inclusivity: Option<nat>, leadership: Option<nat>, international: Option<nat>, workLife: Option<nat>,
    sponsorship: string, diversityReport: Option<string>, glassdoor: Option<nat>,
    eeocCertified: Option<bool>, ergAvailable: Option<bool>, footprint: seq<string>,
    sentiment: Option<nat>, status: Option<string>)

  function InsightsOf(c: Company): Insights
  {
    Insights(Some(c.inclusivity), Some(c.leadership), Some(c.international), Some(c.workLife),
      c.sponsorship, c.diversityReport, Some(c.glassdoor), Some(c.eeocCertified), Some(c.ergAvailable),
      c.footprint, Some(c.sentiment), None)
  }

  const NOT_FOUND := Insights(None, None, None, None, "Unknown", None, None, None, None, [], None,
    Some("DEI data unavailable"))

  function InsightsIn(rows: seq<Company>, companyName: string): Insights
  {
    match FindIndex(rows, Lower(companyName))
    case Some(i) => InsightsOf(rows[i])
    case None => NOT_FOUND
  }

  /** `get_company_insights` */
  method GetCompanyInsights(companyName: string) returns (r: Insights)
    ensures r == InsightsIn(DEI_DATA, companyName)
  {
    var found := FindRow(DEI_DATA, Lower(companyName));
    match found {
      case Some(i) => r := InsightsOf(DEI_DATA[i]);
      case None => r := NOT_FOUND;
    }
  }

  /**
    Names are compared by case-insensitive equality: the insights are those
    of the first row whose name equals `companyName` up to case, and only a
    name no row has gets the "DEI data unavailable" answer, which is never
    missing its sponsorship history or footprint.
   */
  lemma InsightsByName(rows: seq<Company>, companyName: string)
    ensures var r := InsightsIn(rows, companyName);
      && (r.status.None? <==> exists i :: 0 <= i < |rows| && Lower(rows[i].name) == Lower(companyName))
      && (r.status.None? ==> exists i :: 0 <= i < |rows| && Lower(rows[i].name) == Lower(companyName)
                                       && r.inclusivity == Some(rows[i].inclusivity)
                                       && r.sponsorship == rows[i].sponsorship && r.footprint == rows[i].footprint)
      && (r.status.Some? ==> r.sponsorship == "Unknown" && r.footprint == [] && r.inclusivity.None?
                             && r.status == Some("DEI data unavailable"))
  {
    match FindIndex(rows, Lower(companyName))
    case Some(i) =>
    case None =>
  }

  /* ---------- Sorting ---------- */

  /** The sort key of `get_alternatives`. */
  function InclusivityKey(c: Company): int
  {
    c.inclusivity
  }

  /** The sort key of `get_top_companies`: the pair (inclusivity, international friendliness) as one number. */
  function RankKey(c: Company): int
  {
    c.inclusivity * 100 + c.international
  }

  /** Comparing `RankKey`s is comparing the pairs lexicographically, while scores stay below 100. */
  lemma RankKeyIsLexicographic(a: Company, b: Company)
    requires a.international < 100 && b.international < 100
    ensures RankKey(a) >= RankKey(b) <==>
      a.inclusivity > b.inclusivity || (a.inclusivity == b.inclusivity && a.international >= b.international)
  {
    if a.inclusivity > b.inclusivity {
      assert a.inclusivity * 100 >= b.inclusivity * 100 + 100;
    } else if a.inclusivity < b.inclusivity {
      assert b.inclusivity * 100 >= a.inclusivity * 100 + 100;
    }
  }

  predicate SortedDesc(xs: seq<Company>, key: Company -> int)
  {
    forall i, j :: 0 <= i < j < |xs| ==> key(xs[i]) >= key(xs[j])
  }

  /** `x` placed after every entry whose key is at least its own. */
  function InsertDesc(x: Company, s: seq<Company>, key: Company -> int): (r: seq<Company>)
    ensures |r| == |s| + 1
    ensures r[0] == if s != [] && key(s[0]) >= key(x) then s[0] else x
    decreases |s|
  {
    if s == [] then [x]
    else if key(s[0]) >= key(x) then [s[0]] + InsertDesc(x, s[1..], key)
    else [x] + s
  }

  /**
    `sorted(xs, key=key, reverse=True)`: each entry, in list order, inserted
    after the entries already placed whose key is at least its own, so equal
    keys keep their order, as Python's stable sort does.
   */
  function SortDesc(xs: seq<Company>, key: Company -> int): (r: seq<Company>)
    ensures |r| == |xs|
    decreases |xs|
  {
    if xs == [] then []
    else InsertDesc(xs[|xs| - 1], SortDesc(xs[..|xs| - 1], key), key)
  }

  lemma {:induction false} InsertDescSorted(x: Company, s: seq<Company>, key: Company -> int)
    requires SortedDesc(s, key)
    ensures SortedDesc(InsertDesc(x, s, key), key)
    decreases |s|
  {
    if s != [] && key(s[0]) >= key(x) {
      var rest := InsertDesc(x, s[1..], key);
      InsertDescSorted(x, s[1..], key);
      assert key(s[0]) >= key(rest[0]) by {
        if |s| > 1 && key(s[1]) >= key(x) { assert rest[0] == s[1]; }
      }
      var r := [s[0]] + rest;
      forall i, j | 0 <= i < j < |r| ensures key(r[i]) >= key(r[j]) {
        if i == 0 && j > 1 {
          assert key(rest[0]) >= key(rest[j - 1]);
        }
      }
    }
  }

  lemma {:induction false} InsertDescPerm(x: Company, s: seq<Company>, key: Company -> int)
    ensures multiset(InsertDesc(x, s, key)) == multiset(s) + multiset{x}
    decreases |s|
  {
    if s != [] && key(s[0]) >= key(x) {
      InsertDescPerm(x, s[1..], key);
      assert s == [s[0]] + s[1..];
    }
  }

  /** The sort orders by key, highest first, and keeps exactly the entries it was given. */
  lemma {:induction false} SortDescProps(xs: seq<Company>, key: Company -> int)
    ensures SortedDesc(SortDesc(xs, key), key)
    ensures multiset(SortDesc(xs, key)) == multiset(xs)
    decreases |xs|
  {
    if xs != [] {
      var init := xs[..|xs| - 1];
      SortDescProps(init, key);
      InsertDescSorted(xs[|xs| - 1], SortDesc(init, key), key);
      InsertDescPerm(xs[|xs| - 1], SortDesc(init, key), key);
      assert xs == init + [xs[|xs| - 1]];
    }
  }

  /**
    The first `n` entries of the sorted list: still ordered, drawn from
    `xs`, and all of `xs` when `n` does not cut the list.
   */
  lemma SortedPrefix(xs: seq<Company>, key: Company -> int, n: int)
    ensures var t := Slice(SortDesc(xs, key), n);
      && SortedDesc(t, key)
      && (forall k :: 0 <= k < |t| ==> t[k] in xs)
      && (n >= |xs| ==> forall c :: c in xs ==> c in t)
  {
    var sorted := SortDesc(xs, key);
    SortDescProps(xs, key);
    var t := Slice(sorted, n);
    PrefixOfSorted(sorted, |t|, key);
    forall k | 0 <= k < |t| ensures t[k] in xs {
      assert t[k] in multiset(t);
    }
    if n >= |xs| {
      forall c | c in xs ensures c in t {
        assert c in multiset(sorted);
      }
    }
  }

  /**
    The first `n` entries of the sorted list are the top `n`: they form a
    sub-multiset of `xs`, and every entry left out has a key no higher than
    any entry kept.
   */
  lemma SortedPrefixLeftOut(xs: seq<Company>, key: Company -> int, n: int)
    ensures var t := Slice(SortDesc(xs, key), n);
      && multiset(t) <= multiset(xs)
      && (forall c :: c in multiset(xs) - multiset(t) ==> forall k :: 0 <= k < |t| ==> key(t[k]) >= key(c))
  {
    var sorted := SortDesc(xs, key);
    SortDescProps(xs, key);
    PrefixOfSorted(sorted, |Slice(sorted, n)|, key);
  }

  /** A prefix of a list sorted by key is sorted, and keeps no entry ranking below one it leaves out. */
  lemma PrefixOfSorted(sorted: seq<Company>, m: nat, key: Company -> int)
    requires SortedDesc(sorted, key) && m <= |sorted|
    ensures var t := sorted[..m];
      && SortedDesc(t, key)
      && multiset(t) <= multiset(sorted)
      && (forall c :: c in multiset(sorted) - multiset(t) ==> forall k :: 0 <= k < m ==> key(t[k]) >= key(c))
  {
    var t := sorted[..m];
    var rest := sorted[m..];
    assert sorted == t + rest;
    assert multiset(sorted) == multiset(t) + multiset(rest);
    forall c | c in multiset(sorted) - multiset(t) ensures forall k :: 0 <= k < m ==> key(t[k]) >= key(c) {
      assert c in rest;
      var j :| 0 <= j < |rest| && rest[j] == c;
      assert sorted[m + j] == c;
    }
  }

  /* ---------- get_alternatives ---------- */

  /** The rows, other than the named company, that score strictly higher than `score`. */
  function Better(rows: seq<Company>, nameLower: string, score: nat): (r: seq<Company>)
    ensures forall c :: c in r <==> c in rows && Lower(c.name) != nameLower && c.inclusivity > score
    decreases |rows|
  {
    if rows == [] then []
    else
      var init, last := rows[..|rows| - 1], rows[|rows| - 1];
      assert rows == init + [last];
      Better(init, nameLower, score)
        + (if Lower(last.name) != nameLower && last.inclusivity > score then [last] else [])
  }

  /** One entry of `get_alternatives`' result; `badges` is absent for an unknown company. */
  datatype Alternative = Alternative(
    company: string, inclusivity: nat, international: nat, sponsorship: string, badges: Option<seq<string>>)

  const INTERNATIONAL_FRIENDLY := "International Friendly"
  const VERIFIED_SPONSORSHIP := "Verified Sponsorship"

  function Badges(c: Company): seq<string>
  {
    if c.international >= 40 then [INTERNATIONAL_FRIENDLY, VERIFIED_SPONSORSHIP] else [INTERNATIONAL_FRIENDLY]
  }

  function Summary(c: Company, withBadges: bool): Alternative
  {
    Alternative(c.name, c.inclusivity, c.international, c.sponsorship, if withBadges then Some(Badges(c)) else None)
  }

  function Summaries(cs: seq<Company>, withBadges: bool): (r: seq<Alternative>)
    ensures |r| == |cs|
    ensures forall k :: 0 <= k < |cs| ==> r[k] == Summary(cs[k], withBadges)
  {
    seq(|cs|, k requires 0 <= k < |cs| => Summary(cs[k], withBadges))
  }

  /** The first `limit` entries of `cs` by descending inclusivity. */
  function Ranked(cs: seq<Company>, limit: int): seq<Company>
  {
    Slice(SortDesc(cs, InclusivityKey), limit)
  }

  function AlternativesIn(rows: seq<Company>, companyName: string, limit: int): seq<Alternative>
  {
    var nameLower := Lower(companyName);
    match FindIndex(rows, nameLower)
    case None => Summaries(Ranked(rows, limit), false)
    case Some(i) => Summaries(Ranked(Better(rows, nameLower, rows[i].inclusivity), limit), true)
  }

  /** `get_alternatives` */
  method GetAlternatives(companyName: string, limit: int) returns (r: seq<Alternative>)
    ensures r == AlternativesIn(DEI_DATA, companyName, limit)
  {
    var companyLower := Lower(companyName);
    var current := FindRow(DEI_DATA, companyLower);
    if current.None? {
      var sorted := SortDesc(DEI_DATA, InclusivityKey);
      return Summaries(Slice(sorted, limit), false);
    }
    var alternatives := Better(DEI_DATA, companyLower, DEI_DATA[current.value].inclusivity);
    alternatives := SortDesc(alternatives, InclusivityKey);
    r := Summaries(Slice(alternatives, limit), true);
  }

  /**
    The summaries of the top `limit` entries of `cs` by inclusivity: each
    summarises an entry of `cs`, the scores do not increase, there are
    `limit` of them (or all when there are fewer), every entry is
    summarised when `limit` does not cut the list, and an entry left out
    scores no higher than any entry listed.
   */
  lemma RankedSummaries(cs: seq<Company>, limit: int, withBadges: bool)
    ensures var r := Summaries(Ranked(cs, limit), withBadges);
      && (forall k :: 0 <= k < |r| ==> exists c :: c in cs && r[k] == Summary(c, withBadges))
      && (forall k, l :: 0 <= k < l < |r| ==> r[k].inclusivity >= r[l].inclusivity)
      && (limit >= 0 ==> |r| == Min(limit, |cs|))
      && (limit >= |cs| ==> forall c :: c in cs ==> Summary(c, withBadges) in r)
      && (forall c :: c in cs && Summary(c, withBadges) !in r ==>
            forall k :: 0 <= k < |r| ==> r[k].inclusivity >= c.inclusivity)
  {
    var t := Ranked(cs, limit);
    var r := Summaries(t, withBadges);
    SortedPrefix(cs, InclusivityKey, limit);
    forall k | 0 <= k < |r| ensures exists c :: c in cs && r[k] == Summary(c, withBadges) {
      assert t[k] in cs;
    }
    forall k, l | 0 <= k < l < |r| ensures r[k].inclusivity >= r[l].inclusivity {
      assert InclusivityKey(t[k]) >= InclusivityKey(t[l]);
    }
    if limit >= |cs| {
      forall c | c in cs ensures Summary(c, withBadges) in r {
        var k :| 0 <= k < |t| && t[k] == c;
        assert r[k] == Summary(c, withBadges);
      }
    }
    RankedLeftOut(cs, limit, withBadges);
  }

  /** An entry of `cs` whose summary is not listed scores no higher than any listed one. */
  lemma RankedLeftOut(cs: seq<Company>, limit: int, withBadges: bool)
    ensures var r := Summaries(Ranked(cs, limit), withBadges);
      forall c :: c in cs && Summary(c, withBadges) !in r ==>
        forall k :: 0 <= k < |r| ==> r[k].inclusivity >= c.inclusivity
  {
    var t := Ranked(cs, limit);
    var r := Summaries(t, withBadges);
    SortedPrefixLeftOut(cs, InclusivityKey, limit);
    forall c | c in cs && Summary(c, withBadges) !in r
      ensures forall k :: 0 <= k < |r| ==> r[k].inclusivity >= c.inclusivity
    {
      forall k | 0 <= k < |t| ensures t[k] != c {
        assert r[k] == Summary(t[k], withBadges);
      }
      assert c in multiset(cs) - multiset(t);
      forall k | 0 <= k < |r| ensures r[k].inclusivity >= c.inclusivity {
        assert InclusivityKey(t[k]) >= InclusivityKey(c);
      }
    }
  }

  /**
    For a company the table knows: every alternative is another company that
    scores strictly higher, each carries its badges, the scores do not
    increase, and the list is the top `limit` of those better companies:
    `limit` of them (or all when there are fewer), every one when `limit`
    does not cut the list, and any better company left out scores no
    higher than every one listed.
   */
  lemma AlternativesOfKnown(rows: seq<Company>, companyName: string, limit: int, i: nat)
    requires FindIndex(rows, Lower(companyName)) == Some(i)
    ensures var r := AlternativesIn(rows, companyName, limit);
      var better := Better(rows, Lower(companyName), rows[i].inclusivity);
      && (forall k :: 0 <= k < |r| ==>
            r[k].inclusivity > rows[i].inclusivity && r[k].badges.Some?
            && exists c :: c in rows && Lower(c.name) != Lower(companyName) && r[k] == Summary(c, true))
      && (forall k, l :: 0 <= k < l < |r| ==> r[k].inclusivity >= r[l].inclusivity)
      && (limit >= 0 ==> |r| == Min(limit, |better|) && |r| <= limit)
      && (limit >= |better| ==> forall c :: (c in rows && Lower(c.name) != Lower(companyName)
                                             && c.inclusivity > rows[i].inclusivity) ==> Summary(c, true) in r)
      && (forall c :: (c in rows && Lower(c.name) != Lower(companyName) && c.inclusivity > rows[i].inclusivity
                       && Summary(c, true) !in r) ==> forall k :: 0 <= k < |r| ==> r[k].inclusivity >= c.inclusivity)
  {
    var nameLower := Lower(companyName);
    var better := Better(rows, nameLower, rows[i].inclusivity);
    var r := Summaries(Ranked(better, limit), true);
    RankedSummaries(better, limit, true);
    forall k | 0 <= k < |r|
      ensures r[k].inclusivity > rows[i].inclusivity
      ensures exists c :: c in rows && Lower(c.name) != nameLower && r[k] == Summary(c, true)
    {
      var c :| c in better && r[k] == Summary(c, true);
    }
    forall c | c in rows && Lower(c.name) != nameLower && c.inclusivity > rows[i].inclusivity
      ensures c in better
    {
    }
  }

  lemma {:induction false} BetterShorter(rows: seq<Company>, nameLower: string, score: nat)
    ensures |Better(rows, nameLower, score)| <= |rows|
    decreases |rows|
  {
    if rows != [] {
      BetterShorter(rows[..|rows| - 1], nameLower, score);
    }
  }

  /**
    For a name the table does not know: the top `limit` companies by
    inclusivity, without badges: ordered, `limit` of them (or all when
    there are fewer), all of them when `limit` does not cut the list, and
    any company left out scores no higher than every one listed.
   */
  lemma AlternativesOfUnknown(rows: seq<Company>, companyName: string, limit: int)
    requires FindIndex(rows, Lower(companyName)).None?
    ensures var r := AlternativesIn(rows, companyName, limit);
      && (forall k :: 0 <= k < |r| ==> r[k].badges.None? && exists c :: c in rows && r[k] == Summary(c, false))
      && (forall k, l :: 0 <= k < l < |r| ==> r[k].inclusivity >= r[l].inclusivity)
      && (limit >= 0 ==> |r| == Min(limit, |rows|))
      && (limit >= |rows| ==> forall c :: c in rows ==> Summary(c, false) in r)
      && (forall c :: c in rows && Summary(c, false) !in r ==>
            forall k :: 0 <= k < |r| ==> r[k].inclusivity >= c.inclusivity)
  {
    RankedSummaries(rows, limit, false);
  }

  /** The highest-scoring company of a table has no better alternative. */
  lemma TopScorerHasNoAlternative(rows: seq<Company>, companyName: string, limit: int, i: nat)
    requires FindIndex(rows, Lower(companyName)) == Some(i)
    requires forall c :: c in rows ==> c.inclusivity <= rows[i].inclusivity
    ensures AlternativesIn(rows, companyName, limit) == []
  {
    NoneBetter(rows, Lower(companyName), rows[i].inclusivity);
  }

  lemma {:induction false} NoneBetter(rows: seq<Company>, nameLower: string, score: nat)
    requires forall c :: c in rows ==> c.inclusivity <= score
    ensures Better(rows, nameLower, score) == []
    decreases |rows|
  {
    if rows != [] {
      NoneBetter(rows[..|rows| - 1], nameLower, score);
    }
  }

  /** Two badges exactly when international friendliness is at least 4.0; "International Friendly" always comes first. */
  lemma BadgeRule(c: Company)
    ensures Badges(c)[0] == INTERNATIONAL_FRIENDLY
    ensures |Badges(c)| == 2 <==> c.international >= 40
  {
  }

  /* ---------- get_alternative_jobs ---------- */

  /** One job card of `get_alternative_jobs`. */
  datatype Job = Job(
    jobTitle: string, company: string, location: string, inclusivity: nat, international: nat,
    sponsorship: string, badges: seq<string>)

  const ANY_LOCATION := "Remote / Various locations"

  /** `job_title.strip() or "Role"` */
  function TitleOr(jobTitle: string): string
  {
    if Strip(jobTitle) == [] then "Role" else Strip(jobTitle)
  }

  /** The footprint of the first row named exactly `company`, or none. */
  function FootprintOf(rows: seq<Company>, company: string): seq<string>
    decreases |rows|
  {
    if rows == [] then []
    else if rows[0].name == company then rows[0].footprint
    else FootprintOf(rows[1..], company)
  }

  function LocationOf(regions: seq<string>): string
  {
    if regions == [] then ANY_LOCATION else JoinWith(regions, ", ")
  }

  function JobFor(rows: seq<Company>, title: string, alt: Alternative): Job
  {
    Job(title, alt.company, LocationOf(FootprintOf(rows, alt.company)), alt.inclusivity, alt.international,
      alt.sponsorship, alt.badges.GetOr([]))
  }

  /** One card per alternative, in the alternatives' order. */
  function JobsFor(rows: seq<Company>, title: string, alts: seq<Alternative>): (r: seq<Job>)
    ensures |r| == |alts|
    decreases |alts|
  {
    if alts == [] then []
    else JobsFor(rows, title, alts[..|alts| - 1]) + [JobFor(rows, title, alts[|alts| - 1])]
  }

  function JobsIn(rows: seq<Company>, jobTitle: string, companyName: Option<string>, limit: int): seq<Job>
  {
    JobsFor(rows, TitleOr(jobTitle), AlternativesIn(rows, companyName.GetOr(""), limit))
  }

  /** `get_alternative_jobs`; `companyName` is `None` when the caller passes none. */
  method GetAlternativeJobs(jobTitle: string, companyName: Option<string>, limit: int) returns (jobs: seq<Job>)
    ensures jobs == JobsIn(DEI_DATA, jobTitle, companyName, limit)
  {
    var title := if Strip(jobTitle) == [] then "Role" else Strip(jobTitle);
    var baseAlternatives := GetAlternatives(companyName.GetOr(""), limit);
    jobs := CardsFor(DEI_DATA, title, baseAlternatives);
  }

  /** The loop of `get_alternative_jobs`: one card appended per alternative. */
  method CardsFor(rows: seq<Company>, title: string, alts: seq<Alternative>) returns (jobs: seq<Job>)
    ensures jobs == JobsFor(rows, title, alts)
  {
    jobs := [];
    for k := 0 to |alts|
      invariant jobs == JobsFor(rows, title, alts[..k])
    {
      var alt := alts[k];
      var regions := FootprintOf(rows, alt.company);
      var location := if regions != [] then JoinWith(regions, ", ") else ANY_LOCATION;
      assert alts[..k + 1][..k] == alts[..k];
      jobs := jobs + [Job(title, alt.company, location, alt.inclusivity, alt.international, alt.sponsorship,
                          alt.badges.GetOr([]))];
    }
    assert alts[..|alts|] == alts;
  }

  lemma {:induction false} JobsForIndex(rows: seq<Company>, title: string, alts: seq<Alternative>, k: nat)
    requires k < |alts|
    ensures JobsFor(rows, title, alts)[k] == JobFor(rows, title, alts[k])
    decreases |alts|
  {
    if k < |alts| - 1 {
      JobsForIndex(rows, title, alts[..|alts| - 1], k);
    }
  }

  /** A company of the table, when names are distinct, has its own footprint. */
  lemma {:induction false} FootprintOfRow(rows: seq<Company>, c: Company)
    requires c in rows
    requires forall i, j :: 0 <= i < j < |rows| ==> rows[i].name != rows[j].name
    ensures FootprintOf(rows, c.name) == c.footprint
    decreases |rows|
  {
    if rows[0] != c {
      assert c in rows[1..];
      FootprintOfRow(rows[1..], c);
    }
  }

  /** Every alternative names a company of the table. */
  lemma AlternativeFromRow(rows: seq<Company>, companyName: string, limit: int, k: nat)
    requires k < |AlternativesIn(rows, companyName, limit)|
    ensures exists c :: c in rows && c.name == AlternativesIn(rows, companyName, limit)[k].company
  {
    match FindIndex(rows, Lower(companyName)) {
      case Some(i) => AlternativesOfKnown(rows, companyName, limit, i);
      case None => AlternativesOfUnknown(rows, companyName, limit);
    }
  }

  /**
    One card per alternative, in order, each with the stripped title (or
    "Role"), the alternative's company and badges (none when the company was
    unknown), and, as location, the footprint of that company of the table.
   */
  lemma JobsShape(rows: seq<Company>, jobTitle: string, companyName: Option<string>, limit: int)
    requires forall i, j :: 0 <= i < j < |rows| ==> rows[i].name != rows[j].name
    ensures var alts := AlternativesIn(rows, companyName.GetOr(""), limit);
      var jobs := JobsIn(rows, jobTitle, companyName, limit);
      && |jobs| == |alts|
      && forall k :: 0 <= k < |jobs| ==>
        && jobs[k].jobTitle == TitleOr(jobTitle) && jobs[k].jobTitle != []
        && jobs[k].company == alts[k].company
        && jobs[k].badges == alts[k].badges.GetOr([])
        && exists c :: c in rows && c.name == alts[k].company && jobs[k].location == LocationOf(c.footprint)
  {
    var name := companyName.GetOr("");
    var alts := AlternativesIn(rows, name, limit);
    var jobs := JobsIn(rows, jobTitle, companyName, limit);
    forall k | 0 <= k < |jobs|
      ensures jobs[k] == JobFor(rows, TitleOr(jobTitle), alts[k])
      ensures exists c :: c in rows && c.name == alts[k].company && jobs[k].location == LocationOf(c.footprint)
    {
      JobsForIndex(rows, TitleOr(jobTitle), alts, k);
      AlternativeFromRow(rows, name, limit, k);
      var c :| c in rows && c.name == alts[k].company;
      FootprintOfRow(rows, c);
    }
  }

  /* ---------- get_top_companies ---------- */

  const UNBIASED_EXAMPLE :=
    "Inclusive job descriptions focus on skills and impact, avoid visa and age restrictions, "
    + "and welcome candidates from diverse backgrounds."

  /** One entry of `get_top_companies`. */
  datatype TopCompany = TopCompany(
    company: string, inclusivity: nat, international: nat, sponsorship: string, footprint: seq<string>,
    unbiasedExample: string)

  function TopEntry(c: Company): TopCompany
  {
    TopCompany(c.name, c.inclusivity, c.international, c.sponsorship, c.footprint, UNBIASED_EXAMPLE)
  }

  function TopEntries(cs: seq<Company>): (r: seq<TopCompany>)
    ensures |r| == |cs|
    decreases |cs|
  {
    if cs == [] then [] else TopEntries(cs[..|cs| - 1]) + [TopEntry(cs[|cs| - 1])]
  }

  function TopIn(rows: seq<Company>, limit: int): seq<TopCompany>
  {
    TopEntries(Slice(SortDesc(rows, RankKey), limit))
  }

  /** `get_top_companies` */
  method GetTopCompanies(limit: int) returns (top: seq<TopCompany>)
    ensures top == TopIn(DEI_DATA, limit)
  {
    var sortedCompanies := SortDesc(DEI_DATA, RankKey);
    top := TopEntriesOf(Slice(sortedCompanies, limit));
  }

  /** The loop of `get_top_companies`: one entry appended per company. */
  method TopEntriesOf(taken: seq<Company>) returns (top: seq<TopCompany>)
    ensures top == TopEntries(taken)
  {
    top := [];
    for k := 0 to |taken|
      invariant top == TopEntries(taken[..k])
    {
      var company := taken[k];
      assert taken[..k + 1][..k] == taken[..k];
      top := top + [TopCompany(company.name, company.inclusivity, company.international, company.sponsorship,
                               company.footprint, UNBIASED_EXAMPLE)];
    }
    assert taken[..|taken|] == taken;
  }

  lemma {:induction false} TopEntriesIndex(cs: seq<Company>, k: nat)
    requires k < |cs|
    ensures TopEntries(cs)[k] == TopEntry(cs[k])
    decreases |cs|
  {
    if k < |cs| - 1 {
      TopEntriesIndex(cs[..|cs| - 1], k);
    }
  }

  /**
    The top companies come ordered by inclusivity, then international
    friendliness, both descending; there are `limit` of them (or all when
    there are fewer), each with the fixed example text; a `limit` that does
    not cut the list lists every company; and a company left out ranks no
    higher, in that order, than any company listed.
   */
  lemma TopShape(rows: seq<Company>, limit: int)
    requires forall c :: c in rows ==> c.international < 100
    ensures var r := TopIn(rows, limit);
      && (forall k, l :: 0 <= k < l < |r| ==>
            r[k].inclusivity > r[l].inclusivity
            || (r[k].inclusivity == r[l].inclusivity && r[k].international >= r[l].international))
      && (forall k :: 0 <= k < |r| ==> r[k].unbiasedExample == UNBIASED_EXAMPLE
                                       && exists c :: c in rows && r[k] == TopEntry(c))
      && (limit >= 0 ==> |r| == Min(limit, |rows|))
      && (limit >= |rows| ==> forall c :: c in rows ==> TopEntry(c) in r)
      && (forall c :: c in rows && TopEntry(c) !in r ==> forall k :: 0 <= k < |r| ==>
            r[k].inclusivity > c.inclusivity
            || (r[k].inclusivity == c.inclusivity && r[k].international >= c.international))
  {
    var t := Slice(SortDesc(rows, RankKey), limit);
    var r := TopIn(rows, limit);
    SortedPrefix(rows, RankKey, limit);
    forall k | 0 <= k < |r| ensures r[k] == TopEntry(t[k]) && t[k] in rows {
      TopEntriesIndex(t, k);
    }
    forall k, l | 0 <= k < l < |r|
      ensures r[k].inclusivity > r[l].inclusivity
        || (r[k].inclusivity == r[l].inclusivity && r[k].international >= r[l].international)
    {
      RankKeyIsLexicographic(t[k], t[l]);
    }
    if limit >= |rows| {
      forall c | c in rows ensures TopEntry(c) in r {
        var k :| 0 <= k < |t| && t[k] == c;
        assert r[k] == TopEntry(c);
      }
    }
    TopLeftOut(rows, limit);
  }

  /** A company whose entry is not listed ranks no higher than any listed one. */
  lemma TopLeftOut(rows: seq<Company>, limit: int)
    requires forall c :: c in rows ==> c.international < 100
    ensures var r := TopIn(rows, limit);
      forall c :: c in rows && TopEntry(c) !in r ==> forall k :: 0 <= k < |r| ==>
        r[k].inclusivity > c.inclusivity
        || (r[k].inclusivity == c.inclusivity && r[k].international >= c.international)
  {
    var t := Slice(SortDesc(rows, RankKey), limit);
    var r := TopIn(rows, limit);
    SortedPrefixLeftOut(rows, RankKey, limit);
    forall k | 0 <= k < |r| ensures r[k] == TopEntry(t[k]) {
      TopEntriesIndex(t, k);
    }
    forall c | c in rows && TopEntry(c) !in r
      ensures forall k :: 0 <= k < |r| ==>
        r[k].inclusivity > c.inclusivity || (r[k].inclusivity == c.inclusivity && r[k].international >= c.international)
    {
      forall k | 0 <= k < |t| ensures t[k] != c {
        assert r[k] == TopEntry(t[k]);
      }
      assert c in multiset(rows) - multiset(t);
      forall k | 0 <= k < |r|
        ensures r[k].inclusivity > c.inclusivity || (r[k].inclusivity == c.inclusivity && r[k].international >= c.international)
      {
        assert RankKey(t[k]) >= RankKey(c);
        RankKeyIsLexicographic(t[k], c);
      }
    }
  }

  /* ---------- The table itself ---------- */

  /** The lengths and lowercased initials of the table's names, in table order. */
  const NAME_LENGTHS: seq<nat> := [19, 15, 7, 16, 9, 14, 19, 10, 15, 10]
  const NAME_INITIALS: string := "gvatdcsigs"

  lemma TableNameKeys()
    ensures forall i :: 0 <= i < |DEI_DATA| ==>
      DEI_DATA[i].name != [] && |DEI_DATA[i].name| == NAME_LENGTHS[i]
      && LowerChar(DEI_DATA[i].name[0]) == NAME_INITIALS[i]
  {
  }

  /** No two companies of the table share a name, even up to case. */
  lemma TableNamesDistinct()
    ensures forall i, j :: 0 <= i < j < |DEI_DATA| ==> Lower(DEI_DATA[i].name) != Lower(DEI_DATA[j].name)
    ensures forall i, j :: 0 <= i < j < |DEI_DATA| ==> DEI_DATA[i].name != DEI_DATA[j].name
  {
    TableNameKeys();
    forall i, j | 0 <= i < j < |DEI_DATA|
      ensures Lower(DEI_DATA[i].name) != Lower(DEI_DATA[j].name)
    {
      assert NAME_LENGTHS[i] != NAME_LENGTHS[j] || NAME_INITIALS[i] != NAME_INITIALS[j];
      assert Lower(DEI_DATA[i].name)[0] == NAME_INITIALS[i];
    }
  }

  /** Every company of the table has a footprint and an international score below 10.0. */
  lemma TableFootprintsAndScores()
    ensures forall c :: c in DEI_DATA ==> c.footprint != [] && c.international < 100
  {
  }

  /** The lookup of "CloudScale Inc", in either casing, finds the table's sixth row. */
  lemma CloudScaleFound()
    ensures FindIndex(DEI_DATA, Lower("CloudScale Inc")) == Some(5)
    ensures FindIndex(DEI_DATA, Lower("cloudscale inc")) == Some(5)
  {
    CaseFolds("cloudscale inc", "CloudScale Inc");
    var name := Lower("CloudScale Inc");
    TableNameKeys();
    forall j | 0 <= j < 5 ensures Lower(DEI_DATA[j].name) != name {
      assert Lower(DEI_DATA[j].name)[0] == NAME_INITIALS[j];
    }
    FindIndexFirst(DEI_DATA, name, 5);
  }

  /** Two strings that agree character by character up to case lower to the same string. */
  lemma CaseFolds(a: string, b: string)
    requires |a| == |b| && forall i :: 0 <= i < |a| ==> LowerChar(a[i]) == LowerChar(b[i])
    ensures Lower(a) == Lower(b)
  {
  }

  lemma TableBestScore()
    ensures forall c :: c in DEI_DATA ==> c.inclusivity <= DEI_DATA[5].inclusivity
  {
  }

  /**
    CloudScale Inc, the table's best-scoring company, gets no alternatives,
    however the name is cased.
   */
  lemma CloudScaleHasNoAlternative(limit: int)
    ensures AlternativesIn(DEI_DATA, "CloudScale Inc", limit) == []
    ensures AlternativesIn(DEI_DATA, "cloudscale inc", limit) == []
  {
    CloudScaleFound();
    TableBestScore();
    TopScorerHasNoAlternative(DEI_DATA, "CloudScale Inc", limit, 5);
    TopScorerHasNoAlternative(DEI_DATA, "cloudscale inc", limit, 5);
  }

  /**
    For the table, every job card names a company of the table and lists
    its footprint: the "Remote / Various locations" default is never used.
   */
  lemma TableJobsListFootprints(jobTitle: string, companyName: Option<string>, limit: int)
    ensures var jobs := JobsIn(DEI_DATA, jobTitle, companyName, limit);
      forall k :: 0 <= k < |jobs| ==>
        exists c :: c in DEI_DATA && c.name == jobs[k].company && c.footprint != []
                    && jobs[k].location == JoinWith(c.footprint, ", ")
  {
    TableNamesDistinct();
    TableFootprintsAndScores();
    JobsShape(DEI_DATA, jobTitle, companyName, limit);
  }

  /** `get_top_companies` over the table ranks by inclusivity, then international friendliness. */
  lemma TableTopCompaniesRanked(limit: int)
    ensures var r := TopIn(DEI_DATA, limit);
      && (forall k, l :: 0 <= k < l < |r| ==>
            r[k].inclusivity > r[l].inclusivity
            || (r[k].inclusivity == r[l].inclusivity && r[k].international >= r[l].international))
      && (limit >= 10 ==> |r| == 10)
  {
    TableFootprintsAndScores();
    TopShape(DEI_DATA, limit);
  }
}
