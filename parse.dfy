/**
 * The mention extractor: turns the text of a submission title, a submission body or a
 * comment into an ordered list of search queries for the Crom API.
 *
 * The pipeline, in order: `[[...]]` requests (kept verbatim and routed to a wiki by the
 * branch table), deletion of every `[[...]]` span, deletion of false positives (spoilers,
 * URLs, decimals, user mentions), the nineteen international branch patterns (each
 * emitting queries and deleting its own matches before the next one runs), the primary
 * `SCP-xxx` pattern, and the 1 April "2" rule.
 */
module Parse {
  import opened Wrappers
  import opened Text
  import opened Seqs
  import opened Patterns

  datatype ParseContext = SubmissionTitle | SubmissionSelftext | CommentBody

  datatype QueryType = Url | Freeform | Bare

  /** A query for the search service; `siteUrl` is `None` only for URL queries. */
  datatype SearchQuery = SearchQuery(kind: QueryType, value: string, siteUrl: Option<string>)

  /** The calendar day the extractor runs on (the wall clock is an input). */
  datatype Date = Date(day: nat, month: nat)

  const PrimarySite: string := "http://scp-wiki.wikidot.com"

  /** One international branch: the shape of its capture group and the wiki it routes to. */
  datatype Branch = Branch(shape: Intl, siteUrl: string)

  /** The branch table, in priority order. */
  const Branches: seq<Branch> := [
    Branch(DigitsThenCode("FR", Required), "http://fondationscp.wikidot.com"),
    // "it" is an English word, so the Italian code only takes an optional hyphen
    Branch(DigitsThenCode("IT", OptionalHyphen), "http://fondazionescp.wikidot.com"),
    Branch(CodeThenDigits("ES"), "http://lafundacionscp.wikidot.com"),
    Branch(DigitsThenCode("CS", Required), "http://scp-cs.wikidot.com"),
    Branch(DigitsThenCode("SK", Required), "http://scp-cs.wikidot.com"),
    Branch(DigitsThenCode("EL", Required), "http://scp-el.wikidot.com"),
    Branch(DigitsThenCode("ID", Required), "http://scp-id.wikidot.com"),
    Branch(DigitsThenCode("INT", Required), "http://scp-int.wikidot.com"),
    Branch(DigitsThenCode("JP", Required), "http://scp-jp.wikidot.com"),
    Branch(CodeThenDigits("PL"), "http://scp-pl.wikidot.com"),
    Branch(DigitsThenCode("PT", Required), "http://scp-pt-br.wikidot.com"),
    Branch(DigitsThenCode("RU", Required), "http://scp-ru.wikidot.com"),
    Branch(DigitsThenCode("TH", OptionalEither), "http://scp-th.wikidot.com"),
    Branch(DigitsThenCode("UA", Required), "http://scp-ukrainian.wikidot.com"),
    Branch(DigitsThenCode("VN", Required), "http://scp-vn.wikidot.com"),
    Branch(CodeThenDigits("CN"), "http://scp-wiki-cn.wikidot.com"),
    Branch(DigitsThenCode("DE", Required), "http://scp-wiki-de.wikidot.com"),
    Branch(CodeThenDigits("ZH"), "http://scp-zh-tr.wikidot.com"),
    Branch(DigitsThenCode("KO", Required), "http://scpko.wikidot.com")
  ]

  /** False positives, deleted in this order, highest priority first. */
  const FalsePositives: seq<Pattern> := [Spoiler, HttpUrl, Decimal, UserMention]

  // ---------------------------------------------------------------- [[...]] routing

  /** `re.fullmatch` of an international pattern: its match at 0 spans the whole text. */
  predicate FullMatch(shape: Intl, t: string)
  {
    var m := IntlAt(shape, t, 0);
    m.Some? && m.value.end == |t|
  }

  /** Branch `k` is the first in the table whose pattern fully matches `t`. */
  ghost predicate FirstFullMatch(t: string, k: int)
  {
    0 <= k < |Branches| && FullMatch(Branches[k].shape, t)
    && forall j :: 0 <= j < k ==> !FullMatch(Branches[j].shape, t)
  }

  /** The site of the first branch from `k` on whose pattern fully matches `t`, else the primary site. */
  function SiteFrom(t: string, k: nat): (r: string)
    requires k <= |Branches|
    ensures (forall j :: k <= j < |Branches| ==> !FullMatch(Branches[j].shape, t)) ==> r == PrimarySite
    ensures forall j :: (k <= j < |Branches| && FullMatch(Branches[j].shape, t)
                         && (forall i :: k <= i < j ==> !FullMatch(Branches[i].shape, t)))
                        ==> r == Branches[j].siteUrl
    decreases |Branches| - k
  {
    if k == |Branches| then PrimarySite
    else if FullMatch(Branches[k].shape, t) then Branches[k].siteUrl
    else SiteFrom(t, k + 1)
  }

  /** The site a `[[...]]` request is routed to. */
  function BracketSite(t: string): (r: string)
    ensures (forall k :: 0 <= k < |Branches| ==> !FullMatch(Branches[k].shape, t)) ==> r == PrimarySite
    ensures forall k :: FirstFullMatch(t, k) ==> r == Branches[k].siteUrl
  {
    SiteFrom(t, 0)
  }

  /** Nothing is left once `\s` is deleted. */
  predicate IsBlank(t: string)
  {
    forall k :: 0 <= k < |t| ==> IsSpace(t[k])
  }

  /** One FREEFORM query per `[[...]]` span whose contents are not blank, in order. */
  function BracketQueries(s: string, spans: seq<Span>): (r: seq<SearchQuery>)
    requires forall sp :: sp in spans ==> sp.groupStart <= sp.groupEnd <= |s|
    ensures |r| <= |spans|
  {
    if spans == [] then []
    else
      var g := Group(s, spans[0]);
      (if IsBlank(g) then [] else [SearchQuery(Freeform, g, Some(BracketSite(g)))])
      + BracketQueries(s, spans[1..])
  }

  /** One query per span, valued with the span's capture group. */
  function SpanQueries(s: string, spans: seq<Span>, kind: QueryType, site: string): (r: seq<SearchQuery>)
    requires forall sp :: sp in spans ==> sp.groupStart <= sp.groupEnd <= |s|
    ensures |r| == |spans|
  {
    seq(|spans|, k requires 0 <= k < |spans| => SearchQuery(kind, Group(s, spans[k]), Some(site)))
  }

  // ---------------------------------------------------------------- the pipeline as functions

  /** Markdown sanitisation runs for every context but a submission title. */
  function Cleaned(text: string, ctx: ParseContext, sanitize: string -> string): string
  {
    if ctx == SubmissionTitle then text else sanitize(text)
  }

  /** The text after the first `n` false-positive patterns have been deleted. */
  function StripFalsePositives(t: string, n: nat): string
    requires n <= |FalsePositives|
  {
    if n == 0 then t else Sub(FalsePositives[n - 1], StripFalsePositives(t, n - 1), 0)
  }

  /** The queries of each branch so far, and the text still to be read. */
  datatype Stage = Stage(parts: seq<seq<SearchQuery>>, rest: string)

  /** The state after the first `n` branches of `table` have run. */
  function IntlPass(table: seq<Branch>, t: string, n: nat): (r: Stage)
    requires n <= |table|
    ensures |r.parts| == n
  {
    if n == 0 then Stage([], t)
    else
      var prev := IntlPass(table, t, n - 1);
      var b := table[n - 1];
      var spans := Scan(International(b.shape), prev.rest, 0);
      Stage(prev.parts + [BranchPart(b, prev.rest)],
            if spans == [] then prev.rest else Sub(International(b.shape), prev.rest, 0))
  }

  /** The queries branch `b` contributes when it reads `rest`: one per match, none without a match. */
  function BranchPart(b: Branch, rest: string): seq<SearchQuery>
  {
    var spans := Scan(International(b.shape), rest, 0);
    if spans == [] then [] else SpanQueries(rest, spans, Bare, b.siteUrl)
  }

  /** The regex `(?:^|[^0-9])(2)(?:[^0-9]|$)` matches with its group at `j`. */
  predicate StandaloneTwoAt(t: string, j: nat)
  {
    j < |t| && t[j] == '2' && (j == 0 || !IsDigit(t[j - 1])) && (j + 1 == |t| || !IsDigit(t[j + 1]))
  }

  /** `re.search` of the "2" pattern from position `i` on. */
  function StandaloneTwoFrom(t: string, i: nat): (r: bool)
    requires i <= |t|
    ensures r <==> exists j :: i <= j < |t| && StandaloneTwoAt(t, j)
    decreases |t| - i
  {
    if i == |t| then false
    else StandaloneTwoAt(t, i) || StandaloneTwoFrom(t, i + 1)
  }

  function AprilQueries(ctx: ParseContext, today: Date, t: string): seq<SearchQuery>
  {
    if ctx == CommentBody && today.day == 1 && today.month == 4 && StandaloneTwoFrom(t, 0)
    then [SearchQuery(Bare, "2", Some(PrimarySite))]
    else []
  }

  /** The four blocks of the result, in output order, and the text each later stage reads. */
  datatype Blocks = Blocks(
    brackets: seq<SearchQuery>,
    international: Stage,
    primary: seq<SearchQuery>,
    april: seq<SearchQuery>,
    afterBrackets: string,
    afterFalsePositives: string)

  function ParseBlocks(text: string, ctx: ParseContext, sanitize: string -> string, today: Date): Blocks
  {
    var c := Cleaned(text, ctx, sanitize);
    var afterBrackets := Sub(Bracket, c, 0);
    var t := StripFalsePositives(afterBrackets, |FalsePositives|);
    var intl := IntlPass(Branches, t, |Branches|);
    Blocks(
      BracketQueries(c, Scan(Bracket, c, 0)),
      intl,
      SpanQueries(intl.rest, Scan(BareMention, intl.rest, 0), Freeform, PrimarySite),
      AprilQueries(ctx, today, intl.rest),
      afterBrackets,
      t)
  }

  /** What the extractor returns. */
  function ParseSpec(text: string, ctx: ParseContext, sanitize: string -> string, today: Date): seq<SearchQuery>
  {
    var b := ParseBlocks(text, ctx, sanitize, today);
    b.brackets + Flatten(b.international.parts) + b.primary + b.april
  }

  // ---------------------------------------------------------------- the extractor

  /** The loop over the false-positive patterns, each deleting its matches in turn. */
  method DeleteFalsePositives(text: string) returns (remaining: string)
    ensures remaining == StripFalsePositives(text, |FalsePositives|)
  {
    remaining := text;
    for n := 0 to |FalsePositives|
      invariant remaining == StripFalsePositives(text, n)
    {
      remaining := Sub(FalsePositives[n], remaining, 0);
    }
  }

  /**
   * The loop over the branch table: a branch whose pattern matches adds one BARE query
   * per match and deletes its matches before the next branch runs.
   */
  method MatchBranches(text: string) returns (found: seq<SearchQuery>, remaining: string)
    ensures remaining == IntlPass(Branches, text, |Branches|).rest
    ensures found == Flatten(IntlPass(Branches, text, |Branches|).parts)
  {
    var table := Branches;
    remaining := text;
    found := [];
    for n := 0 to |table|
      invariant remaining == IntlPass(table, text, n).rest
      invariant found == Flatten(IntlPass(table, text, n).parts)
    {
      var b := table[n];
      var matches := Scan(International(b.shape), remaining, 0);
      var part: seq<SearchQuery> := [];
      if matches != [] {
        part := SpanQueries(remaining, matches, Bare, b.siteUrl);
        remaining := Sub(International(b.shape), remaining, 0);
      }
      FlattenAppend(IntlPass(table, text, n).parts, part);
      found := found + part;
    }
  }

  /**
   * The extractor as the program runs it: `remaining` is rewritten stage by stage
   * while `queries` grows.
   */
  method Parse(text: string, ctx: ParseContext, sanitize: string -> string, today: Date)
    returns (queries: seq<SearchQuery>)
    ensures queries == ParseSpec(text, ctx, sanitize, today)
  {
    ghost var blocks := ParseBlocks(text, ctx, sanitize, today);
    var remaining := text;
    if ctx != SubmissionTitle {
      remaining := sanitize(text);
    }
    queries := BracketQueries(remaining, Scan(Bracket, remaining, 0));
    assert queries == blocks.brackets;
    remaining := Sub(Bracket, remaining, 0);
    remaining := DeleteFalsePositives(remaining);
    assert remaining == blocks.afterFalsePositives;

    var found;
    found, remaining := MatchBranches(remaining);
    queries := queries + found;
    assert remaining == blocks.international.rest;

    queries := queries + SpanQueries(remaining, Scan(BareMention, remaining, 0), Freeform, PrimarySite);

    if ctx == CommentBody && today.day == 1 && today.month == 4 {
      if StandaloneTwoFrom(remaining, 0) {
        queries := queries + [SearchQuery(Bare, "2", Some(PrimarySite))];
      }
    }
  }

  // ---------------------------------------------------------------- properties

  /**
   * A bracket query is FREEFORM, holds the verbatim contents of a `[[...]]` span that
   * is not blank, and goes to that text's branch site; every such span yields one.
   */
  lemma {:induction false} BracketQueriesExact(s: string, spans: seq<Span>)
    requires forall sp :: sp in spans ==> sp.groupStart <= sp.groupEnd <= |s|
    ensures forall q :: q in BracketQueries(s, spans) ==>
      q.kind == Freeform && !IsBlank(q.value) && q.siteUrl == Some(BracketSite(q.value))
      && exists sp :: sp in spans && Group(s, sp) == q.value
    ensures forall sp :: sp in spans && !IsBlank(Group(s, sp)) ==>
      SearchQuery(Freeform, Group(s, sp), Some(BracketSite(Group(s, sp)))) in BracketQueries(s, spans)
  {
    if spans != [] {
      BracketQueriesExact(s, spans[1..]);
    }
  }

  /** Every span an international scan yields captures a group of that pattern's shape. */
  lemma IntlScanGroups(shape: Intl, s: string)
    ensures forall sp :: sp in Scan(International(shape), s, 0) ==> IntlGroup(shape, Group(s, sp))
  {
    ScanMatches(International(shape), s, 0);
    forall sp | sp in Scan(International(shape), s, 0) ensures IntlGroup(shape, Group(s, sp)) {
      IntlAtMeaning(shape, s, sp.start);
    }
  }

  /** Every query in `part` is BARE, goes to branch `b`'s site and holds a capture group of its shape. */
  predicate BranchQueries(b: Branch, part: seq<SearchQuery>)
  {
    forall q :: q in part ==> q.kind == Bare && q.siteUrl == Some(b.siteUrl) && IntlGroup(b.shape, q.value)
  }

  /** The queries made from an international scan are BARE, routed to the branch's site, valued with a group of its shape. */
  lemma IntlQueriesShape(b: Branch, s: string)
    ensures BranchQueries(b, BranchPart(b, s))
  {
    var spans := Scan(International(b.shape), s, 0);
    if spans != [] {
      IntlScanGroups(b.shape, s);
      forall q | q in SpanQueries(s, spans, Bare, b.siteUrl)
        ensures q.kind == Bare && q.siteUrl == Some(b.siteUrl) && IntlGroup(b.shape, q.value)
      {
        var k :| 0 <= k < |spans| && q == SpanQueries(s, spans, Bare, b.siteUrl)[k];
        assert spans[k] in spans;
      }
    }
  }

  /** Branch `k`'s queries are BARE, hold exactly an international capture group of its shape, and go to its site. */
  lemma {:induction false} IntlPartsShape(table: seq<Branch>, t: string, n: nat)
    requires n <= |table|
    ensures forall k :: 0 <= k < n ==> BranchQueries(table[k], IntlPass(table, t, n).parts[k])
  {
    if n > 0 {
      var prev := IntlPass(table, t, n - 1);
      var parts := IntlPass(table, t, n).parts;
      IntlPartsShape(table, t, n - 1);
      assert parts == prev.parts + [BranchPart(table[n - 1], prev.rest)];
      IntlQueriesShape(table[n - 1], prev.rest);
      forall k | 0 <= k < n - 1
        ensures BranchQueries(table[k], parts[k])
      {
        assert parts[k] == prev.parts[k];
      }
    }
  }

  /** After branch `k` runs, the text no later stage reads has lost exactly branch `k`'s matches. */
  lemma IntlPassConsumes(table: seq<Branch>, t: string, n: nat)
    requires n < |table|
    ensures var prev := IntlPass(table, t, n).rest;
      var p := International(table[n].shape);
      Ordered(Scan(p, prev, 0), prev, 0)
      && IntlPass(table, t, n + 1).rest == Gaps(prev, 0, Scan(p, prev, 0))
  {
    var prev := IntlPass(table, t, n).rest;
    var p := International(table[n].shape);
    SubIsGaps(p, prev, 0);
    if Scan(p, prev, 0) == [] {
      SubWithoutMatches(p, prev);
    }
  }

  /** `v` has the form the primary pattern captures: `SCP`, a separator, 3 or 4 digits, a `-<alnums>` chain. */
  predicate BareValue(v: string)
  {
    8 <= |v| + 1 && CiMatchAt(v, 0, "SCP") && IsSeparator(v[3])
    && ((AllDigits(v, 4, 7) && !DigitAt(v, 7) && Chain(v, 7, |v|))
        || (8 <= |v| && AllDigits(v, 4, 8) && !DigitAt(v, 8) && Chain(v, 8, |v|)))
  }

  lemma {:induction false} ChainSlice(s: string, a: nat, k: nat, e: nat)
    requires a <= k <= e <= |s| && Chain(s, k, e)
    ensures Chain(s[a..e], k - a, e - a)
    decreases e - k
  {
    if k < e {
      var n := Run(s, k + 1, Alnums);
      var v := s[a..e];
      RunSlice(s, a, e, k + 1, n);
      ChainSlice(s, a, k + 1 + n, e);
    }
  }

  lemma {:induction false} RunSlice(s: string, a: nat, e: nat, k: nat, n: nat)
    requires a <= k <= e <= |s| && k + n <= e && n == Run(s, k, Alnums)
    ensures Run(s[a..e], k - a, Alnums) == n
    decreases n
  {
    if n > 0 {
      RunSlice(s, a, e, k + 1, n - 1);
    }
  }

  /** A primary-site match's text has the shape of the pattern, its case preserved. */
  lemma BareMatchValue(s: string, sp: Span)
    requires sp.start <= |s| && BareAt(s, sp.start) == Some(sp)
    ensures BareValue(Group(s, sp)) && NotWordAt(s, sp.end)
  {
    var i := sp.start;
    BareAtMeaning(s, i);
    DigitsEndMeaning(s, i + 4);
    var d := DigitsEnd(s, i + 4).value;
    BareSliceValue(s, i, d, sp.end);
  }

  /** The text from `i` to `e` is `SCP`, a separator, the digits up to `d` and a chain: it has the bare shape. */
  lemma BareSliceValue(s: string, i: nat, d: nat, e: nat)
    requires d <= e <= |s| && (d == i + 7 || d == i + 8)
    requires CiMatchAt(s, i, "SCP") && SeparatorAt(s, i + 3) && AllDigits(s, i + 4, d) && !DigitAt(s, d) && Chain(s, d, e)
    ensures BareValue(s[i..e])
  {
    var v := s[i..e];
    ChainSlice(s, i, d, e);
    forall j | 4 <= j < d - i ensures IsDigit(v[j]) {
      assert v[j] == s[i + j];
    }
    assert v[3] == s[i + 3];
    CiMatchSlice(s, i, e, i, "SCP");
    assert !DigitAt(v, d - i) by {
      if d < e {
        assert v[d - i] == s[d];
      }
    }
  }

  /** Primary-site queries are FREEFORM, routed to the primary site, and hold a text of the pattern's shape. */
  lemma PrimaryQueriesShape(t: string)
    ensures forall q :: q in SpanQueries(t, Scan(BareMention, t, 0), Freeform, PrimarySite) ==>
      q.kind == Freeform && q.siteUrl == Some(PrimarySite) && BareValue(q.value)
  {
    var spans := Scan(BareMention, t, 0);
    ScanMatches(BareMention, t, 0);
    forall q | q in SpanQueries(t, spans, Freeform, PrimarySite)
      ensures q.kind == Freeform && q.siteUrl == Some(PrimarySite) && BareValue(q.value)
    {
      var k :| 0 <= k < |spans| && q == SpanQueries(t, spans, Freeform, PrimarySite)[k];
      assert spans[k] in spans;
      BareMatchValue(t, spans[k]);
    }
  }

  /** `SCP-` followed by five or more digits is not a primary-site mention. */
  lemma FiveDigitsNoBareMatch(s: string, i: nat)
    requires i + 9 <= |s| && AllDigits(s, i + 4, i + 9)
    ensures BareAt(s, i).None?
  {
    BareAtMeaning(s, i);
    DigitsEndMeaning(s, i + 4);
    assert DigitAt(s, i + 7) && DigitAt(s, i + 8);
  }

  /**
   * The result is the bracket queries, then the branch queries in table order, then the
   * primary-site queries, then at most one "2".
   */
  lemma ParseOrder(text: string, ctx: ParseContext, sanitize: string -> string, today: Date)
    ensures var b := ParseBlocks(text, ctx, sanitize, today);
      && ParseSpec(text, ctx, sanitize, today) == b.brackets + Flatten(b.international.parts) + b.primary + b.april
      && |b.international.parts| == |Branches|
      && (forall q :: q in b.brackets ==> q.kind == Freeform && !IsBlank(q.value) && q.siteUrl == Some(BracketSite(q.value)))
      && (forall k :: 0 <= k < |Branches| ==> BranchQueries(Branches[k], b.international.parts[k]))
      && (forall q :: q in b.primary ==> q.kind == Freeform && q.siteUrl == Some(PrimarySite) && BareValue(q.value))
      && (forall q :: q in b.april ==> q == SearchQuery(Bare, "2", Some(PrimarySite)))
      && |b.april| <= 1
  {
    var b := ParseBlocks(text, ctx, sanitize, today);
    var c := Cleaned(text, ctx, sanitize);
    BracketQueriesExact(c, Scan(Bracket, c, 0));
    IntlPartsShape(Branches, b.afterFalsePositives, |Branches|);
    PrimaryQueriesShape(b.international.rest);
  }

  /** Every `[[...]]` span is deleted before the false-positive and mention stages read the text. */
  lemma BracketsDeleted(text: string, ctx: ParseContext, sanitize: string -> string, today: Date)
    ensures var c := Cleaned(text, ctx, sanitize);
      Ordered(Scan(Bracket, c, 0), c, 0)
      && ParseBlocks(text, ctx, sanitize, today).afterBrackets == Gaps(c, 0, Scan(Bracket, c, 0))
  {
    SubIsGaps(Bracket, Cleaned(text, ctx, sanitize), 0);
  }

  /** The false positives are deleted spoilers first, then URLs, then decimals, then user mentions. */
  lemma FalsePositiveOrder(t: string)
    ensures StripFalsePositives(t, |FalsePositives|)
      == Sub(UserMention, Sub(Decimal, Sub(HttpUrl, Sub(Spoiler, t, 0), 0), 0), 0)
  {
    var s1 := Sub(Spoiler, t, 0);
    var s2 := Sub(HttpUrl, s1, 0);
    var s3 := Sub(Decimal, s2, 0);
    assert StripFalsePositives(t, 1) == s1;
    assert StripFalsePositives(t, 2) == s2;
    assert StripFalsePositives(t, 3) == s3;
  }

  /** A title is read as written; every other text is sanitised first, and only once. */
  lemma SanitizerUse(text: string, ctx: ParseContext, f: string -> string, g: string -> string, today: Date)
    ensures ctx == SubmissionTitle ==> ParseSpec(text, ctx, f, today) == ParseSpec(text, ctx, g, today)
    ensures ctx != SubmissionTitle ==> ParseSpec(text, ctx, f, today) == ParseSpec(f(text), ctx, s => s, today)
  {
  }

  /**
   * The "2" query appears at most once, last, and exactly for a comment read on 1 April
   * whose remaining text holds a 2 with no ASCII digit on either side.
   */
  lemma AprilRule(text: string, ctx: ParseContext, sanitize: string -> string, today: Date)
    ensures var b := ParseBlocks(text, ctx, sanitize, today);
      |b.april| <= 1
      && (b.april != [] <==>
          ctx == CommentBody && today.day == 1 && today.month == 4
          && exists j :: 0 <= j < |b.international.rest| && StandaloneTwoAt(b.international.rest, j))
  {
  }

  /** Every query the extractor returns names the site it goes to. */
  lemma QueriesHaveSite(text: string, ctx: ParseContext, sanitize: string -> string, today: Date)
    ensures forall q :: q in ParseSpec(text, ctx, sanitize, today) ==> q.siteUrl.Some?
  {
    var b := ParseBlocks(text, ctx, sanitize, today);
    ParseOrder(text, ctx, sanitize, today);
    FlattenMembers(b.international.parts);
  }
}
