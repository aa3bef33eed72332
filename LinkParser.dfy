/**
  The string logic of `backend/link_parser.py`: the job id of a LinkedIn
  URL, the choice of scraper for a URL, the whitespace cleanup of scraped
  text, the `raw_text` of a LinkedIn posting, and the plain-text fallback.
  Fetching pages and reading HTML are not modelled: the scraped title,
  company, description, location and page text are inputs.
 */
module LinkParser {
  import opened Wrappers
  import opened Text
  import opened Pattern

  /* ---------- Query strings ---------- */

  /** `urlparse(url).query`: what follows the first `?` that comes before the first `#`. */
  function QueryOf(url: string): string
  {
    var beforeFragment := match IndexOf(url, '#') case None => url case Some(k) => url[..k];
    match IndexOf(beforeFragment, '?')
    case None => ""
    case Some(k) => beforeFragment[k + 1..]
  }

  /** The `+` to space step `parse_qs` applies to names and values. */
  function PlusToSpace(s: string): (r: string)
    ensures |r| == |s|
    ensures '+' !in r
    ensures forall k :: 0 <= k < |s| && s[k] != '+' ==> r[k] == s[k]
    ensures forall k :: 0 <= k < |s| && s[k] == '+' ==> r[k] == ' '
  {
    seq(|s|, k requires 0 <= k < |s| => if s[k] == '+' then ' ' else s[k])
  }

  /** One `name=value` field of a query; a field without `=` or with an empty value is dropped. */
  function Field(f: string): Option<(string, string)>
  {
    match IndexOf(f, '=')
    case None => None
    case Some(k) => if f[k + 1..] == [] then None else Some((PlusToSpace(f[..k]), PlusToSpace(f[k + 1..])))
  }

  /** The first value listed for `key` among the fields, in order. */
  function FirstValue(fields: seq<string>, key: string): Option<string>
    decreases |fields|
  {
    if fields == [] then None
    else match Field(fields[0])
      case Some((name, value)) => if name == key then Some(value) else FirstValue(fields[1..], key)
      case None => FirstValue(fields[1..], key)
  }

  /** `parse_qs(urlparse(url).query)[key][0]`, when `key` is present. */
  function QueryValue(url: string, key: string): Option<string>
  {
    FirstValue(SplitOn(QueryOf(url), '&'), key)
  }

  /* ---------- extract_job_id_from_linkedin_url ---------- */

  const CURRENT_JOB_ID := "currentJobId"

  /** `/jobs/view/(\d+)`: the prefix before the group, and the pattern. */
  const VIEW_PREFIX: Alt := Lit("/jobs/view/")
  const VIEW: Regex := [VIEW_PREFIX + [Run(Digit, 1)]]

  /** `/jobs/collections/[^/]+/\?currentJobId=(\d+)` */
  const COLLECTION_PREFIX: Alt := Lit("/jobs/collections/") + [Run(Except('/'), 1)] + Lit("/?currentJobId=")
  const COLLECTION: Regex := [COLLECTION_PREFIX + [Run(Digit, 1)]]

  /** `(\d{8,})` */
  const LONG_RUN: Regex := [[Run(Digit, 8)]]

  /** The text of the group that ends a match `m` of `prefix` followed by the group. */
  function Group(prefix: Alt, s: string, m: Span): string
    requires m.start <= m.end <= |s|
  {
    match MatchSeq(prefix, s, m.start, false)
    case Some(k) => if k <= m.end then s[k..m.end] else []
    case None => []
  }

  /** `extract_job_id_from_linkedin_url`: the first of its four rules that applies. */
  function ExtractJobId(url: string): Option<string>
  {
    match QueryValue(url, CURRENT_JOB_ID)
    case Some(v) => Some(v)
    case None =>
      match SearchFrom(VIEW, url, 0, false)
      case Some(m) => Some(Group(VIEW_PREFIX, url, m))
      case None =>
        match SearchFrom(COLLECTION, url, 0, false)
        case Some(m) => Some(Group(COLLECTION_PREFIX, url, m))
        case None =>
          match SearchFrom(LONG_RUN, url, 0, false)
          case Some(m) => Some(url[m.start..m.end])
          case None => None
  }

  predicate AllDigits(s: string)
  {
    forall k :: 0 <= k < |s| ==> IsDigit(s[k])
  }

  /** A match of `prefix` then `\d+` is the prefix up to `k`, then the whole digit run from `k` to the end. */
  lemma PrefixThenDigits(prefix: Alt, s: string, m: Span)
    requires m.start <= m.end <= |s|
    requires MatchAt([prefix + [Run(Digit, 1)]], s, m.start, false) == Some(m.end)
    ensures MatchSeq(prefix, s, m.start, false).Some?
    ensures var k := MatchSeq(prefix, s, m.start, false).value; ClassRunEnd(Digit, s, k) == m.end && k < m.end
  {
    var alt := prefix + [Run(Digit, 1)];
    assert [alt][0] == alt;
    assert MatchSeq(alt, s, m.start, false) == Some(m.end);
    ThenRun(prefix, Digit, 1, s, m.start, false);
  }

  /** The group is the text from where the prefix stops to the end of the match. */
  lemma GroupFollowsPrefix(prefix: Alt, s: string, m: Span, k: nat)
    requires m.start <= m.end <= |s|
    requires MatchSeq(prefix, s, m.start, false) == Some(k) && k <= m.end
    ensures Group(prefix, s, m) == s[k..m.end]
  {
  }

  /** The group `(\d+)` closing a match is a non-empty run of digits that ends the match and is not followed by a digit. */
  lemma GroupIsDigitRun(prefix: Alt, s: string, m: Span)
    requires m.start <= m.end <= |s|
    requires MatchAt([prefix + [Run(Digit, 1)]], s, m.start, false) == Some(m.end)
    ensures var g := Group(prefix, s, m);
      && g != [] && AllDigits(g) && g == s[m.end - |g|..m.end]
      && (m.end == |s| || !IsDigit(s[m.end]))
  {
    PrefixThenDigits(prefix, s, m);
    var k := MatchSeq(prefix, s, m.start, false).value;
    GroupFollowsPrefix(prefix, s, m, k);
    var g := s[k..m.end];
    assert forall x :: 0 <= x < |g| ==> g[x] == s[k + x];
  }

  /**
    When the query has no `currentJobId`, a job id is a non-empty string of
    digits: the digits after `/jobs/view/`, after a collection's
    `/?currentJobId=`, or a run of at least 8 digits.
   */
  lemma PathIdsAreDigits(url: string)
    requires QueryValue(url, CURRENT_JOB_ID).None?
    ensures ExtractJobId(url).Some? ==> ExtractJobId(url).value != [] && AllDigits(ExtractJobId(url).value)
  {
    match SearchFrom(VIEW, url, 0, false) {
      case Some(m) => GroupIsDigitRun(VIEW_PREFIX, url, m);
      case None =>
        match SearchFrom(COLLECTION, url, 0, false) {
          case Some(m) => GroupIsDigitRun(COLLECTION_PREFIX, url, m);
          case None =>
            match SearchFrom(LONG_RUN, url, 0, false) {
              case Some(m) => RunMatch(Digit, 8, url, m.start, false);
              case None =>
            }
        }
    }
  }

  /** Eight digits in a row at `p`. */
  predicate DigitsAt(s: string, p: nat)
  {
    p + 8 <= |s| && forall k :: p <= k < p + 8 ==> IsDigit(s[k])
  }

  /** The digits on `[p, e)` are a whole run of at least 8: no digit right before or after. */
  predicate WholeDigitRun(s: string, p: nat, e: nat)
  {
    p + 8 <= e <= |s| && (forall k :: p <= k < e ==> IsDigit(s[k]))
    && (p == 0 || !IsDigit(s[p - 1])) && (e == |s| || !IsDigit(s[e]))
  }

  /** `(\d{8,})` finds the leftmost place with 8 digits in a row and takes the whole run there. */
  lemma LongRunSearch(url: string)
    ensures match SearchFrom(LONG_RUN, url, 0, false)
      case None => forall p :: 0 <= p <= |url| ==> !DigitsAt(url, p)
      case Some(m) => WholeDigitRun(url, m.start, m.end) && forall q :: 0 <= q < m.start ==> !DigitsAt(url, q)
  {
    match SearchFrom(LONG_RUN, url, 0, false) {
      case Some(m) => LongRunFound(url, m);
      case None =>
        forall p | 0 <= p <= |url| ensures !DigitsAt(url, p) {
          RunMatch(Digit, 8, url, p, false);
        }
    }
  }

  lemma LongRunFound(url: string, m: Span)
    requires SearchFrom(LONG_RUN, url, 0, false) == Some(m)
    ensures WholeDigitRun(url, m.start, m.end) && forall q :: 0 <= q < m.start ==> !DigitsAt(url, q)
  {
    RunMatch(Digit, 8, url, m.start, false);
    forall q | 0 <= q < m.start ensures !DigitsAt(url, q) {
      RunMatch(Digit, 8, url, q, false);
    }
    if m.start > 0 {
      RunMatch(Digit, 8, url, m.start - 1, false);
    }
  }

  /**
    The last rule returns the leftmost run of at least 8 digits, whole: no
    such run starts earlier, and no digit comes right before or after it.
   */
  lemma LongestLeftmostRun(url: string)
    requires QueryValue(url, CURRENT_JOB_ID).None?
    requires !Found(VIEW, url, false) && !Found(COLLECTION, url, false)
    ensures match ExtractJobId(url)
      case None => forall p :: 0 <= p <= |url| ==> !DigitsAt(url, p)
      case Some(r) => exists p: nat, e: nat :: (
        && WholeDigitRun(url, p, e) && r == url[p..e]
        && forall q :: 0 <= q < p ==> !DigitsAt(url, q))
  {
    LongRunSearch(url);
    assert ExtractJobId(url) == match SearchFrom(LONG_RUN, url, 0, false)
      case Some(m) => Some(url[m.start..m.end])
      case None => None;
  }

  /** The function gives up only on a URL with no `currentJobId`, no path rule match and no 8-digit run. */
  lemma NoIdOnlyWhenNothingApplies(url: string)
    ensures ExtractJobId(url).None? <==>
      && QueryValue(url, CURRENT_JOB_ID).None?
      && !Found(VIEW, url, false) && !Found(COLLECTION, url, false)
      && forall p :: 0 <= p <= |url| ==> !DigitsAt(url, p)
  {
    if QueryValue(url, CURRENT_JOB_ID).None? && !Found(VIEW, url, false) && !Found(COLLECTION, url, false) {
      LongestLeftmostRun(url);
      match SearchFrom(LONG_RUN, url, 0, false) {
        case Some(m) =>
          RunMatch(Digit, 8, url, m.start, false);
          assert DigitsAt(url, m.start);
        case None =>
      }
    }
  }

  lemma IndexOfAbsent(s: string, c: char)
    requires c !in s
    ensures IndexOf(s, c) == None
  {
  }

  lemma IndexOfAfter(a: string, b: string, c: char)
    requires c !in a && b != [] && b[0] == c
    ensures IndexOf(a + b, c) == Some(|a|)
  {
    assert (a + b)[|a|] == c;
    assert forall k :: 0 <= k < |a| ==> (a + b)[k] == a[k];
  }

  lemma PlusToSpaceKeeps(s: string)
    requires '+' !in s
    ensures PlusToSpace(s) == s
  {
  }

  /** The query of `base?q`, when `base` holds no `?` or `#` and `q` no `#`. */
  lemma QueryOfPlain(base: string, q: string)
    requires '?' !in base && '#' !in base && '#' !in q
    ensures QueryOf(base + "?" + q) == q
  {
    var url := base + "?" + q;
    assert '#' !in url;
    IndexOfAbsent(url, '#');
    IndexOfAfter(base, "?" + q, '?');
    assert base + ("?" + q) == url;
    assert url[|base| + 1..] == q;
  }

  /** The field `key=v` names `key` and holds `v`. */
  lemma FieldOf(key: string, v: string, field: string)
    requires field == key + "=" + v
    requires v != [] && '=' !in key && '+' !in key && '+' !in v
    ensures Field(field) == Some((key, v))
  {
    IndexOfAfter(key, "=" + v, '=');
    assert key + ("=" + v) == field;
    assert field[..|key|] == key && field[|key| + 1..] == v;
    PlusToSpaceKeeps(v);
    PlusToSpaceKeeps(key);
  }

  /** A query made of the one field `key=v` gives `v` for `key`. */
  lemma SingleField(key: string, v: string, field: string)
    requires field == key + "=" + v
    requires v != [] && '=' !in key && '&' !in key && '&' !in v && '+' !in key && '+' !in v
    ensures FirstValue(SplitOn(field, '&'), key) == Some(v)
  {
    assert '&' !in field;
    IndexOfAbsent(field, '&');
    assert SplitOn(field, '&') == [field];
    FieldOf(key, v, field);
  }

  /** A `currentJobId` value decides the id before any path rule. */
  lemma ByQuery(url: string, v: string)
    requires QueryValue(url, CURRENT_JOB_ID) == Some(v)
    ensures ExtractJobId(url) == Some(v)
  {
  }

  /**
    A `currentJobId` query parameter is returned as it stands, before any
    path rule is tried: `base?currentJobId=id` gives `id` whatever the path
    in `base` holds.
   */
  lemma JobIdFromQuery(base: string, id: string)
    requires '?' !in base && '#' !in base
    requires id != [] && '&' !in id && '#' !in id && '+' !in id
    ensures ExtractJobId(base + "?currentJobId=" + id) == Some(id)
  {
    var url := base + "?currentJobId=" + id;
    var field := CURRENT_JOB_ID + "=" + id;
    assert url == base + "?" + field;
    QueryOfPlain(base, field);
    ByField(url, field, id);
  }

  /** A URL whose whole query is `currentJobId=id` has the id `id`. */
  lemma ByField(url: string, field: string, id: string)
    requires QueryOf(url) == field && field == CURRENT_JOB_ID + "=" + id
    requires id != [] && '&' !in id && '+' !in id
    ensures ExtractJobId(url) == Some(id)
  {
    SingleField(CURRENT_JOB_ID, id, field);
    ByQuery(url, id);
  }

  /** The example of the source's own comment: a collection URL whose query names the job. */
  lemma CollectionExample(url: string)
    requires url == "https://www.linkedin.com" + "/jobs/collections/recommended/" + "?currentJobId=" + "4323080682"
    ensures ExtractJobId(url) == Some("4323080682")
  {
    var base := "https://www.linkedin.com" + "/jobs/collections/recommended/";
    assert '?' !in base && '#' !in base;
    JobIdFromQuery(base, "4323080682");
  }

  /** A URL without `?` has no query, so no `currentJobId`. */
  lemma NoQuery(url: string, key: string)
    requires '?' !in url
    ensures QueryValue(url, key).None?
  {
    match IndexOf(url, '#') {
      case None => IndexOfAbsent(url, '?');
      case Some(j) =>
        assert forall x :: 0 <= x < j ==> url[..j][x] == url[x];
        IndexOfAbsent(url[..j], '?');
    }
    assert QueryOf(url) == "";
    assert SplitOn("", '&') == [""];
    assert Field("") == None;
    assert FirstValue([""], key) == FirstValue([], key);
  }

  /** `/jobs/view/(\d+)` matches at `k` exactly when `/jobs/view/` and a digit stand there, and then takes all the digits. */
  lemma ViewMatch(url: string, k: nat)
    requires k <= |url|
    ensures MatchAt(VIEW, url, k, false) ==
      if LitAt(url, "/jobs/view/", k, false) then
        var j := ClassRunEnd(Digit, url, k + 11); if j - (k + 11) >= 1 then Some(j) else None
      else None
  {
    var alt := VIEW_PREFIX + [Run(Digit, 1)];
    assert VIEW[0] == alt;
    assert MatchAt(VIEW, url, k, false) == MatchSeq(alt, url, k, false);
    ThenRun(VIEW_PREFIX, Digit, 1, url, k, false);
    MatchLit("/jobs/view/", url, k, false);
  }

  /** Before the end of `base`, `/jobs/view/` can only stand where it already stands in `base + "/jobs/view"`. */
  lemma ViewBeforeEnd(base: string, tail: string, k: nat)
    requires k < |base| && LitAt(base + "/jobs/view/" + tail, "/jobs/view/", k, false)
    ensures ContainsAt(base + "/jobs/view", "/jobs/view/", k)
  {
    var w := "/jobs/view/";
    var url := base + w + tail;
    var t := base + "/jobs/view";
    assert url[k..k + 11] == t[k..k + 11] by {
      forall x | k <= x < k + 11 ensures url[x] == t[x] {
        if x < |base| { assert url[x] == base[x] && t[x] == base[x]; }
        else { assert url[x] == w[x - |base|] && t[x] == w[x - |base|]; }
      }
    }
    assert url[k..k + 11] == w by {
      forall x | 0 <= x < 11 ensures url[k + x] == w[x] { assert SameChar(url[k + x], w[x], false); }
    }
  }

  /** `w` stands right after `a` in `a + w + b`. */
  lemma LitAtJoin(a: string, w: string, b: string)
    ensures LitAt(a + w + b, w, |a|, false)
  {
    var u := a + w + b;
    forall k | 0 <= k < |w| ensures SameChar(u[|a| + k], w[k], false) {
      assert u[|a| + k] == w[k];
    }
  }

  /** The digit run at the start of `id + rest` is all of `id` when `rest` does not start with a digit. */
  lemma DigitRunEnd(a: string, id: string, rest: string)
    requires AllDigits(id) && (rest == [] || !IsDigit(rest[0]))
    ensures ClassRunEnd(Digit, a + id + rest, |a|) == |a| + |id|
  {
    var u := a + id + rest;
    var e := |a| + |id|;
    assert forall x :: |a| <= x < e ==> u[x] == id[x - |a|];
    assert e < |u| ==> u[e] == rest[0];
  }

  /** When `base + "/jobs/view"` holds no `/jobs/view/`, the view pattern matches nowhere inside `base`. */
  lemma NoViewInBase(url: string, base: string, tail: string)
    requires url == base + "/jobs/view/" + tail
    requires !Contains(base + "/jobs/view", "/jobs/view/")
    ensures forall k :: 0 <= k < |base| ==> MatchAt(VIEW, url, k, false).None?
  {
    forall k | 0 <= k < |base| ensures MatchAt(VIEW, url, k, false).None? {
      if LitAt(url, "/jobs/view/", k, false) {
        ViewBeforeEnd(base, tail, k);
      }
      ViewMatch(url, k);
    }
  }

  /** Digits `id` after `/jobs/view/` at the end of `base`, not followed by a digit: the pattern matches there and takes exactly `id`. */
  lemma ViewAtEnd(url: string, base: string, id: string, rest: string)
    requires url == base + "/jobs/view/" + id + rest
    requires id != [] && AllDigits(id) && (rest == [] || !IsDigit(rest[0]))
    ensures MatchAt(VIEW, url, |base|, false) == Some(|base| + 11 + |id|)
    ensures url[|base| + 11..|base| + 11 + |id|] == id
  {
    var w := "/jobs/view/";
    LitAtJoin(base, w, id + rest);
    assert url == base + w + (id + rest);
    ViewMatch(url, |base|);
    DigitRunEnd(base + w, id, rest);
    assert url[|base| + 11..|base| + 11 + |id|] == id;
  }

  /**
    A URL without a query whose first `/jobs/view/` is followed by digits
    gives those digits, all of them.
   */
  lemma JobIdFromViewPath(base: string, id: string, rest: string)
    requires '?' !in base && '?' !in rest
    requires !Contains(base + "/jobs/view", "/jobs/view/")
    requires id != [] && AllDigits(id) && (rest == [] || !IsDigit(rest[0]))
    ensures ExtractJobId(base + "/jobs/view/" + id + rest) == Some(id)
  {
    var url := base + "/jobs/view/" + id + rest;
    var m := Span(|base|, |base| + 11 + |id|);
    assert '?' !in id;
    assert '?' !in url;
    NoViewInBase(url, base, id + rest);
    ViewAtEnd(url, base, id, rest);
    LitAtJoin(base, "/jobs/view/", id + rest);
    MatchLit("/jobs/view/", url, |base|, false);
    GroupFollowsPrefix(VIEW_PREFIX, url, m, |base| + 11);
    ByView(url, m);
  }

  /** Without a `currentJobId`, the first match of the view rule decides. */
  lemma ByView(url: string, m: Span)
    requires '?' !in url && m.start <= m.end <= |url|
    requires forall k :: 0 <= k < m.start ==> MatchAt(VIEW, url, k, false).None?
    requires MatchAt(VIEW, url, m.start, false) == Some(m.end)
    ensures ExtractJobId(url) == Some(Group(VIEW_PREFIX, url, m))
  {
    NoQuery(url, CURRENT_JOB_ID);
    SearchFinds(VIEW, url, 0, m.start, false);
  }

  /* ---------- parse_job_link: choosing a scraper ---------- */

  datatype Site = LinkedIn | Indeed | Glassdoor | OtherSite

  /** The scraper `parse_job_link` picks, by substrings of the lowercased URL; the first test that holds wins. */
  function Route(url: string): Site
  {
    var u := Lower(url);
    if Contains(u, "linkedin.com") && Contains(u, "/jobs/") then LinkedIn
    else if Contains(u, "indeed.com") then Indeed
    else if Contains(u, "glassdoor.com") then Glassdoor
    else OtherSite
  }

  /** The choice does not depend on case. */
  lemma RouteIgnoresCase(url: string)
    ensures Route(Lower(url)) == Route(url)
  {
    LowerIdempotent(url);
  }

  /**
    A LinkedIn job URL goes to the LinkedIn scraper even when it also names
    another site, and a LinkedIn URL outside `/jobs/` is never sent there;
    in full, each scraper is chosen exactly when its own test holds and
    every earlier test fails.
   */
  lemma RoutePriority(url: string)
    ensures Contains(Lower(url), "linkedin.com") && Contains(Lower(url), "/jobs/") ==> Route(url) == LinkedIn
    ensures !Contains(Lower(url), "/jobs/") ==> Route(url) != LinkedIn
    ensures Route(url) == Indeed ==> Contains(Lower(url), "indeed.com")
    ensures Route(url) == OtherSite ==>
      !Contains(Lower(url), "indeed.com") && !Contains(Lower(url), "glassdoor.com")
    ensures var u := Lower(url);
      var onLinkedInJobs := Contains(u, "linkedin.com") && Contains(u, "/jobs/");
      && (Route(url) == LinkedIn <==> onLinkedInJobs)
      && (Route(url) == Indeed <==> !onLinkedInJobs && Contains(u, "indeed.com"))
      && (Route(url) == Glassdoor <==> !onLinkedInJobs && !Contains(u, "indeed.com") && Contains(u, "glassdoor.com"))
      && (Route(url) == OtherSite <==>
            !onLinkedInJobs && !Contains(u, "indeed.com") && !Contains(u, "glassdoor.com"))
  {
  }

  /* ---------- Whitespace cleanup ---------- */

  /** `\n{3,}` and ` {2,}` */
  const NEWLINE_RUN: Regex := [[Run(Only('\n'), 3)]]
  const SPACE_RUN: Regex := [[Run(Only(' '), 2)]]

  /** The two `re.sub` calls both cleanups make: newline runs to two newlines, space runs to one space. */
  function CollapseWhitespace(s: string): string
  {
    Sub(SPACE_RUN, " ", Sub(NEWLINE_RUN, "\n\n", s, false), false)
  }

  /** The cleanup of a scraped description: collapsed, then stripped. */
  function CleanDescription(description: string): string
  {
    Strip(CollapseWhitespace(description))
  }

  function Repeat(c: char, n: nat): (r: string)
    ensures |r| == n && forall k :: 0 <= k < n ==> r[k] == c
  {
    seq(n, _ => c)
  }

  /** `n` copies of `c` in a row at `p`. */
  predicate RunOf(t: string, c: char, p: nat, n: nat)
  {
    p + n <= |t| && forall k :: p <= k < p + n ==> t[k] == c
  }

  ghost predicate NoRun(t: string, c: char, n: nat)
  {
    forall p: nat :: !RunOf(t, c, p, n)
  }

  lemma NoRunConcat(x: string, y: string, c: char, n: nat)
    requires n >= 1 && NoRun(x, c, n) && NoRun(y, c, n)
    requires x == [] || y == [] || x[|x| - 1] != c || y[0] != c
    ensures NoRun(x + y, c, n)
  {
    var t := x + y;
    forall p: nat | RunOf(t, c, p, n) ensures false {
      if p + n <= |x| {
        assert RunOf(x, c, p, n) by {
          forall k | p <= k < p + n ensures x[k] == c { assert t[k] == x[k]; }
        }
      } else if p >= |x| {
        assert RunOf(y, c, p - |x|, n) by {
          forall k | p - |x| <= k < p - |x| + n ensures y[k] == c { assert t[k + |x|] == y[k]; }
        }
      } else {
        RunOfPair(t, c, p, n, |x| - 1);
      }
    }
  }

  lemma RunOfPair(t: string, c: char, p: nat, n: nat, k: nat)
    requires RunOf(t, c, p, n) && p <= k && k + 1 < p + n
    ensures t[k] == c && t[k + 1] == c
  {
  }

  lemma RunOfAt(t: string, c: char, p: nat, n: nat, k: nat)
    requires RunOf(t, c, p, n) && p <= k < p + n
    ensures t[k] == c
  {
  }

  /** Copies of `c` hold no run of another character. */
  lemma RepeatHasNoRun(c: char, m: nat, d: char, nd: nat)
    requires d != c && nd >= 1
    ensures NoRun(Repeat(c, m), d, nd)
  {
    forall p: nat | RunOf(Repeat(c, m), d, p, nd) ensures false {
      RunOfAt(Repeat(c, m), d, p, nd, p);
    }
  }

  /** A run inside `t[a..b]` is a run of `t`, shifted by `a`. */
  lemma RunOfSlice(t: string, c: char, n: nat, a: nat, b: nat, p: nat)
    requires a <= b <= |t| && RunOf(t[a..b], c, p, n)
    ensures RunOf(t, c, a + p, n)
  {
    forall k | a + p <= k < a + p + n ensures t[k] == c { assert t[k] == t[a..b][k - a]; }
  }

  lemma NoRunSlice(t: string, c: char, n: nat, a: nat, b: nat)
    requires a <= b <= |t| && NoRun(t, c, n)
    ensures NoRun(t[a..b], c, n)
  {
    forall p: nat | RunOf(t[a..b], c, p, n) ensures false {
      RunOfSlice(t, c, n, a, b, p);
    }
  }

  /** Where a run pattern does not match, fewer than `n` copies of `c` follow. */
  lemma NoMatchNoRun(c: char, n: nat, s: string, p: nat)
    requires p <= |s| && MatchAt([[Run(Only(c), n)]], s, p, false).None?
    ensures !RunOf(s, c, p, n)
  {
    RunMatch(Only(c), n, s, p, false);
  }

  /** Text the search has passed over holds no `n` copies of `c` in a row. */
  lemma NoRunBeforeMatch(c: char, n: nat, s: string, i: nat, j: nat)
    requires n >= 1 && i <= j <= |s|
    requires forall k :: i <= k < j ==> MatchAt([[Run(Only(c), n)]], s, k, false).None?
    ensures NoRun(s[i..j], c, n)
  {
    forall p: nat | RunOf(s[i..j], c, p, n) ensures false {
      RunOfSlice(s, c, n, i, j, p);
      NoMatchNoRun(c, n, s, i + p);
    }
  }

  /** The character just before the leftmost match of a run of `c` is not `c`. */
  lemma RunStartsClean(c: char, n: nat, s: string, q: nat)
    requires n >= 1 && q < |s|
    requires MatchAt([[Run(Only(c), n)]], s, q, false).None?
    requires MatchAt([[Run(Only(c), n)]], s, q + 1, false).Some?
    ensures s[q] != c
  {
    RunMatch(Only(c), n, s, q + 1, false);
    RunExtendsLeft(s, c, q, n);
    NoMatchNoRun(c, n, s, q);
  }

  lemma RunExtendsLeft(s: string, c: char, q: nat, n: nat)
    requires RunOf(s, c, q + 1, n)
    ensures s[q] == c ==> RunOf(s, c, q, n)
  {
  }

  /**
    Replacing every run of at least `n` copies of `c` by `n - 1` copies
    leaves no `n` copies in a row, and does not start with `c` when the
    text does not.
   */
  lemma {:induction false} SubCollapses(c: char, n: nat, s: string, i: nat)
    requires n >= 2 && i <= |s|
    ensures var out := SubFrom([[Run(Only(c), n)]], Repeat(c, n - 1), s, i, false);
      && NoRun(out, c, n)
      && (i < |s| && s[i] != c ==> out != [] && out[0] == s[i])
    decreases |s| - i
  {
    var re := [[Run(Only(c), n)]];
    var repl := Repeat(c, n - 1);
    var out := SubFrom(re, repl, s, i, false);
    match SearchFrom(re, s, i, false) {
      case None =>
        NoRunBeforeMatch(c, n, s, i, |s|);
        assert s[i..|s|] == s[i..];
      case Some(m) =>
        RunMatch(Only(c), n, s, m.start, false);
        SubCollapses(c, n, s, m.end);
        RunMatch(Only(c), n, s, m.end, false);
        var seg := s[i..m.start];
        var rest := SubFrom(re, repl, s, m.end, false);
        assert out == seg + repl + rest;
        NoRunBeforeMatch(c, n, s, i, m.start);
        SegmentEndsClean(c, n, s, i, m.start);
        CollapseJoin(c, n, seg, rest);
    }
  }

  /** The text between the search start and a match does not end with `c`. */
  lemma SegmentEndsClean(c: char, n: nat, s: string, i: nat, j: nat)
    requires n >= 1 && i <= j < |s|
    requires forall k :: i <= k < j ==> MatchAt([[Run(Only(c), n)]], s, k, false).None?
    requires MatchAt([[Run(Only(c), n)]], s, j, false).Some?
    ensures i == j || s[i..j][j - i - 1] != c
  {
    if i < j {
      RunStartsClean(c, n, s, j - 1);
    }
  }

  /** A replacement of `n - 1` copies between two run-free pieces that do not touch it with `c` leaves no run. */
  lemma CollapseJoin(c: char, n: nat, seg: string, rest: string)
    requires n >= 2 && NoRun(seg, c, n) && NoRun(rest, c, n)
    requires seg == [] || seg[|seg| - 1] != c
    requires rest == [] || rest[0] != c
    ensures NoRun(seg + Repeat(c, n - 1) + rest, c, n)
  {
    var repl := Repeat(c, n - 1);
    RepeatRunFree(c, n);
    NoRunConcat(seg, repl, c, n);
    assert (seg + repl)[|seg + repl| - 1] == c;
    NoRunConcat(seg + repl, rest, c, n);
  }

  /** `n - 1` copies are not a run of `n`. */
  lemma RepeatRunFree(c: char, n: nat)
    requires n >= 1
    ensures NoRun(Repeat(c, n - 1), c, n)
  {
  }

  /** The same replacement never creates a run of another character `d`. */
  lemma {:induction false} SubKeepsNoRun(c: char, n: nat, d: char, nd: nat, s: string, i: nat)
    requires n >= 2 && nd >= 1 && d != c && i <= |s| && NoRun(s, d, nd)
    ensures NoRun(SubFrom([[Run(Only(c), n)]], Repeat(c, n - 1), s, i, false), d, nd)
    decreases |s| - i
  {
    var re := [[Run(Only(c), n)]];
    var repl := Repeat(c, n - 1);
    match SearchFrom(re, s, i, false) {
      case None =>
        NoRunSlice(s, d, nd, i, |s|);
        assert s[i..|s|] == s[i..];
      case Some(m) =>
        RunMatch(Only(c), n, s, m.start, false);
        var seg := s[i..m.start];
        var rest := SubFrom(re, repl, s, m.end, false);
        SubKeepsNoRun(c, n, d, nd, s, m.end);
        NoRunSlice(s, d, nd, i, m.start);
        SandwichNoRun(seg, c, n - 1, rest, d, nd);
    }
  }

  /** A block of `c`s between two pieces free of `d`-runs adds no `d`-run. */
  lemma SandwichNoRun(seg: string, c: char, k: nat, rest: string, d: char, nd: nat)
    requires k >= 1 && nd >= 1 && d != c && NoRun(seg, d, nd) && NoRun(rest, d, nd)
    ensures NoRun(seg + Repeat(c, k) + rest, d, nd)
  {
    var repl := Repeat(c, k);
    RepeatHasNoRun(c, k, d, nd);
    NoRunConcat(seg, repl, d, nd);
    assert (seg + repl)[|seg + repl| - 1] == c;
    NoRunConcat(seg + repl, rest, d, nd);
  }

  lemma NoRunNotContained(t: string, c: char, n: nat)
    requires NoRun(t, c, n)
    ensures !Contains(t, Repeat(c, n))
  {
    forall p: nat | p <= |t| && ContainsAt(t, Repeat(c, n), p) ensures false {
      assert RunOf(t, c, p, n) by {
        forall k | p <= k < p + n ensures t[k] == c { assert t[k] == t[p..p + n][k - p]; }
      }
    }
  }

  /** After the collapse no three newlines and no two spaces are adjacent. */
  lemma CollapseWhitespaceRuns(s: string)
    ensures NoRun(CollapseWhitespace(s), '\n', 3) && NoRun(CollapseWhitespace(s), ' ', 2)
  {
    assert Repeat('\n', 2) == "\n\n";
    assert Repeat(' ', 1) == " ";
    var t := Sub(NEWLINE_RUN, "\n\n", s, false);
    SubCollapses('\n', 3, s, 0);
    SubCollapses(' ', 2, t, 0);
    SubKeepsNoRun(' ', 2, '\n', 3, t, 0);
  }

  /** A cleaned description holds no "\n\n\n" and no double space. */
  lemma CleanDescriptionRuns(description: string)
    ensures !Contains(CleanDescription(description), "\n\n\n")
    ensures !Contains(CleanDescription(description), "  ")
  {
    var t := CollapseWhitespace(description);
    CollapseWhitespaceRuns(description);
    var a, b := StripIsSlice(t);
    NoRunSlice(t, '\n', 3, a, b);
    NoRunSlice(t, ' ', 2, a, b);
    NoRunNotContained(Strip(t), '\n', 3);
    NoRunNotContained(Strip(t), ' ', 2);
    assert Repeat('\n', 3) == "\n\n\n";
    assert Repeat(' ', 2) == "  ";
  }

  /* ---------- The posting text ---------- */

  const JOB_POSTING := "Job Posting"
  const NO_DESCRIPTION := "Job description not available."

  /** The header line: the title (or "Job Posting") and " at " the company when there is one. */
  function Header(title: string, company: string): string
  {
    (if title != [] then title else JOB_POSTING) + (if company != [] then " at " + company else "")
  }

  /** The description, or a placeholder when none was found. */
  function Body(description: string): string
  {
    if description != [] then description else NO_DESCRIPTION
  }

  /** The closing location line, only when there is a location. */
  function LocationLine(location: string): string
  {
    if location != [] then "\n\nLocation: " + location else ""
  }

  /**
    The `raw_text` of a LinkedIn posting, from the scraped title, company,
    cleaned description and location (each empty when missing).
   */
  function LinkedInRawText(title: string, company: string, description: string, location: string): string
  {
    Header(title, company) + "\n\n" + Body(description) + LocationLine(location)
  }

  /** The first line of `h + rest` is `h` when `h` has no newline and `rest` starts with one. */
  lemma FirstLine(h: string, rest: string)
    requires '\n' !in h && rest != [] && rest[0] == '\n'
    ensures SplitOn(h + rest, '\n')[0] == h
  {
    IndexOfAfter(h, rest, '\n');
    assert (h + rest)[..|h|] == h;
  }

  /** The middle and the end of `a + b + c`, by position. */
  lemma Pieces(a: string, b: string, c: string)
    ensures (a + b + c)[|a|..|a| + |b|] == b && (a + b + c)[|a| + |b|..] == c
  {
  }

  /** A header, a blank line, a body and a tail: where each one stands. */
  lemma Layout(h: string, body: string, tail: string)
    ensures var raw := h + "\n\n" + body + tail;
      && raw[|h|..|h| + 2 + |body|] == "\n\n" + body
      && raw[|raw| - |tail|..] == tail
      && (tail == [] ==> raw[|raw| - |body|..] == body)
  {
    var mid := "\n\n" + body;
    assert h + "\n\n" + body + tail == h + mid + tail;
    Pieces(h, mid, tail);
    Pieces(h + "\n\n", body, tail);
  }

  /** The first line of the raw text is the header, when title and company are single lines. */
  lemma RawTextFirstLine(title: string, company: string, description: string, location: string)
    requires '\n' !in title && '\n' !in company
    ensures SplitOn(LinkedInRawText(title, company, description, location), '\n')[0] == Header(title, company)
  {
    var h := Header(title, company);
    assert '\n' !in h;
    var rest := "\n\n" + Body(description) + LocationLine(location);
    assert LinkedInRawText(title, company, description, location) == h + rest;
    FirstLine(h, rest);
  }

  /**
    The description (or its placeholder) follows the header after a blank
    line, and the text ends with the location line when there is a
    location, with the description otherwise.
   */
  lemma RawTextLayout(title: string, company: string, description: string, location: string)
    ensures var raw := LinkedInRawText(title, company, description, location);
      var h := Header(title, company);
      var body := if description != [] then description else NO_DESCRIPTION;
      && raw[|h|..|h| + 2 + |body|] == "\n\n" + body
      && (location != [] ==> raw[|raw| - |location| - 12..] == "\n\nLocation: " + location)
      && (location == [] ==> raw[|raw| - |body|..] == body)
  {
    Layout(Header(title, company), Body(description), LocationLine(location));
  }

  /* ---------- The plain-text fallback ---------- */

  const COMPANY := "Company"
  const NO_LOCATION := "Location not specified"
  const FULL_TIME := "Full-Time"
  const TEXT_LIMIT := 5000

  /** The success dictionary of a scrape, less its URL and message. */
  datatype Posting = Posting(
    jobTitle: string, company: string, description: string, location: string, jobType: string, rawText: string)

  /**
    The last attempt of `parse_job_link` on the page's main text: the text
    collapsed, kept only when longer than 200 characters, and cut to 5000.
   */
  function GenericFallback(text: string): Option<Posting>
  {
    var cleaned := CollapseWhitespace(text);
    if |cleaned| > 200 then
      Some(Posting(JOB_POSTING, COMPANY, Slice(cleaned, TEXT_LIMIT), NO_LOCATION, FULL_TIME, Slice(cleaned, TEXT_LIMIT)))
    else None
  }

  /**
    The fallback succeeds exactly when the collapsed text is longer than 200
    characters; its description and raw text are then the same prefix of
    that text, of between 201 and 5000 characters, without "\n\n\n" or a
    double space.
   */
  lemma FallbackShape(text: string)
    ensures var cleaned := CollapseWhitespace(text);
      && (GenericFallback(text).Some? <==> |cleaned| > 200)
      && (GenericFallback(text).Some? ==>
            var p := GenericFallback(text).value;
            && p.description == p.rawText
            && 200 < |p.description| <= TEXT_LIMIT
            && |p.description| == Min(|cleaned|, TEXT_LIMIT)
            && p.description == cleaned[..|p.description|]
            && !Contains(p.description, "\n\n\n") && !Contains(p.description, "  "))
  {
    var cleaned := CollapseWhitespace(text);
    if |cleaned| > 200 {
      var d := Slice(cleaned, TEXT_LIMIT);
      CollapseWhitespaceRuns(text);
      NoRunSlice(cleaned, '\n', 3, 0, |d|);
      NoRunSlice(cleaned, ' ', 2, 0, |d|);
      NoRunNotContained(d, '\n', 3);
      NoRunNotContained(d, ' ', 2);
      assert Repeat('\n', 3) == "\n\n\n";
      assert Repeat(' ', 2) == "  ";
    }
  }
}
