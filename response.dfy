/**
 * The reply formatter: Markdown text for a list of search results, one line per page or
 * user (a page with a translation gets a second, nested line), or a single short line
 * when a comment mentions more than ten things.
 */
module Response {
  import opened Wrappers
  import opened Text
  import opened Seqs
  import opened Crom

  // ---------------------------------------------------------------- small formatters

  /** A rating as the bot shows it: an explicit "+" for zero and above, Python's `str` otherwise. */
  function FormatRating(n: int): (r: string)
    ensures |r| >= 2
    ensures r[0] == (if n >= 0 then '+' else '-')
    ensures forall k :: 1 <= k < |r| ==> IsDigit(r[k])
  {
    if n >= 0 then "+" + NatToString(n) else IntToString(n)
  }

  /** The texts `FormatRating` can produce: a sign followed by digits. */
  predicate IsRatingText(s: string)
  {
    |s| >= 2 && (s[0] == '+' || s[0] == '-') && forall k :: 1 <= k < |s| ==> IsDigit(s[k])
  }

  /** Reads a signed rating back. */
  function ParseRating(s: string): int
    requires IsRatingText(s)
  {
    var magnitude: int := DigitsValue(s[1..]);
    if s[0] == '+' then magnitude else -magnitude
  }

  /** Reading a formatted rating back gives the rating. */
  lemma RatingRoundTrip(n: int)
    ensures IsRatingText(FormatRating(n)) && ParseRating(FormatRating(n)) == n
  {
    var r := FormatRating(n);
    var m: nat := if n >= 0 then n else -n;
    assert r[1..] == NatToString(m);
    DigitsValueOfNatToString(m);
  }

  /** Only a leading "http://" is rewritten, to "https://". */
  function Httpsify(url: string): (r: string)
    ensures StartsWith(url, "http://") ==> r == "https://" + url[7..]
    ensures !StartsWith(url, "http://") ==> r == url
    ensures !StartsWith(r, "http://")
  {
    if StartsWith(url, "http://") then
      var r := "https://" + url[7..];
      assert r[..7][4] == 's';
      r
    else url
  }

  lemma HttpsifyIdempotent(url: string)
    ensures Httpsify(Httpsify(url)) == Httpsify(url)
  {
  }

  /** Python's truth value of an optional string: present and not empty. */
  predicate Truthy(o: Option<string>)
  {
    o.Some? && o.value != ""
  }

  // ---------------------------------------------------------------- attributions

  const AttributionOrder: seq<AttributionType> := [Submitter, Translator, Rewrite, Author, Maintainer]

  /** The position of a type in `AttributionOrder`, the sort key. */
  function Rank(t: AttributionType): (r: nat)
    ensures r < |AttributionOrder| && AttributionOrder[r] == t
  {
    match t
    case Submitter => 0
    case Translator => 1
    case Rewrite => 2
    case Author => 3
    case Maintainer => 4
  }

  /** The attributions of one type, in their original order. */
  function OfKind(attrs: seq<Attribution>, t: AttributionType): (r: seq<Attribution>)
    ensures |r| <= |attrs|
  {
    if attrs == [] then []
    else (if attrs[0].kind == t then [attrs[0]] else []) + OfKind(attrs[1..], t)
  }

  /** Each type's attributions in turn, for the types of `order`, in that order. */
  function Grouped(attrs: seq<Attribution>, order: seq<AttributionType>): seq<Attribution>
    decreases |order|
  {
    if order == [] then [] else OfKind(attrs, order[0]) + Grouped(attrs, order[1..])
  }

  /** The attributions sorted stably by `Rank`: each type's attributions, types in `AttributionOrder`. */
  function SortedAttributions(attrs: seq<Attribution>): seq<Attribution>
  {
    Grouped(attrs, AttributionOrder)
  }

  predicate DistinctTypes(order: seq<AttributionType>)
  {
    forall i, j :: 0 <= i < j < |order| ==> order[i] != order[j]
  }

  predicate RankOrdered(s: seq<Attribution>)
  {
    forall i, j :: 0 <= i < j < |s| ==> Rank(s[i].kind) <= Rank(s[j].kind)
  }

  lemma {:induction false} OfKindMembers(attrs: seq<Attribution>, t: AttributionType)
    ensures forall a :: a in OfKind(attrs, t) <==> a in attrs && a.kind == t
  {
    if attrs != [] {
      OfKindMembers(attrs[1..], t);
      assert attrs == [attrs[0]] + attrs[1..];
    }
  }

  lemma {:induction false} OfKindAppend(a: seq<Attribution>, b: seq<Attribution>, t: AttributionType)
    ensures OfKind(a + b, t) == OfKind(a, t) + OfKind(b, t)
  {
    if a != [] {
      var h := if a[0].kind == t then [a[0]] else [];
      assert (a + b)[0] == a[0] && (a + b)[1..] == a[1..] + b;
      OfKindAppend(a[1..], b, t);
      assert OfKind(a + b, t) == h + OfKind(a[1..] + b, t);
      assert OfKind(a, t) == h + OfKind(a[1..], t);
    } else {
      assert a + b == b;
    }
  }

  lemma {:induction false} OfKindOfKind(a: seq<Attribution>, t: AttributionType, u: AttributionType)
    ensures OfKind(OfKind(a, u), t) == if t == u then OfKind(a, t) else []
  {
    if a != [] {
      OfKindOfKind(a[1..], t, u);
      OfKindAppend(if a[0].kind == u then [a[0]] else [], OfKind(a[1..], u), t);
    }
  }

  /** How often `y` occurs among the attributions of type `t`. */
  lemma {:induction false} OfKindCount(a: seq<Attribution>, t: AttributionType, y: Attribution)
    ensures multiset(OfKind(a, t))[y] == if y.kind == t then multiset(a)[y] else 0
  {
    if a != [] {
      var h := if a[0].kind == t then [a[0]] else [];
      OfKindCount(a[1..], t, y);
      assert a == [a[0]] + a[1..];
      assert multiset(a) == multiset([a[0]]) + multiset(a[1..]);
      assert multiset(OfKind(a, t)) == multiset(h) + multiset(OfKind(a[1..], t));
    }
  }

  /** How often `y` occurs in the grouping: as in `attrs` when its type is grouped, else never. */
  lemma {:induction false} GroupedCount(attrs: seq<Attribution>, order: seq<AttributionType>, y: Attribution)
    requires DistinctTypes(order)
    ensures multiset(Grouped(attrs, order))[y] == if y.kind in order then multiset(attrs)[y] else 0
    decreases |order|
  {
    if order != [] {
      assert DistinctTypes(order[1..]);
      GroupedCount(attrs, order[1..], y);
      OfKindCount(attrs, order[0], y);
      assert y.kind in order <==> y.kind == order[0] || y.kind in order[1..];
      assert y.kind == order[0] ==> y.kind !in order[1..];
    }
  }

  /** The sort is a permutation. */
  lemma SortedAttributionsPermutation(a: seq<Attribution>)
    ensures multiset(SortedAttributions(a)) == multiset(a)
  {
    var g := Grouped(a, AttributionOrder);
    AttributionOrderDistinct();
    forall y ensures multiset(g)[y] == multiset(a)[y] {
      GroupedCount(a, AttributionOrder, y);
      assert AttributionOrder[Rank(y.kind)] == y.kind;
    }
    assert multiset(g) == multiset(a);
  }

  lemma AttributionOrderDistinct()
    ensures DistinctTypes(AttributionOrder)
  {
    forall i, j | 0 <= i < j < |AttributionOrder| ensures AttributionOrder[i] != AttributionOrder[j] {
      assert Rank(AttributionOrder[i]) == i && Rank(AttributionOrder[j]) == j;
    }
  }

  lemma OfKindRankOrdered(a: seq<Attribution>, t: AttributionType)
    ensures RankOrdered(OfKind(a, t))
    ensures forall x :: x in OfKind(a, t) ==> Rank(x.kind) == Rank(t)
  {
    OfKindMembers(a, t);
    var s := OfKind(a, t);
    forall i, j | 0 <= i < j < |s| ensures Rank(s[i].kind) <= Rank(s[j].kind) {
      assert s[i] in s && s[j] in s;
    }
  }

  /** Attributions of rank `r` put before ordered attributions of higher rank stay ordered. */
  lemma ConcatRankOrdered(s: seq<Attribution>, t: seq<Attribution>, r: nat)
    requires RankOrdered(s) && RankOrdered(t)
    requires forall x :: x in s ==> Rank(x.kind) == r
    requires forall y :: y in t ==> r < Rank(y.kind)
    ensures RankOrdered(s + t)
    ensures forall x :: x in s + t ==> r <= Rank(x.kind)
  {
    forall i, j | 0 <= i < j < |s + t| ensures Rank((s + t)[i].kind) <= Rank((s + t)[j].kind) {
      if j < |s| {
        assert (s + t)[i] == s[i] && (s + t)[j] == s[j];
      } else if i >= |s| {
        assert (s + t)[i] == t[i - |s|] && (s + t)[j] == t[j - |s|];
      } else {
        assert (s + t)[i] == s[i] && (s + t)[j] == t[j - |s|];
        assert s[i] in s && t[j - |s|] in t;
      }
    }
  }

  /** Grouping by the types of `AttributionOrder` from position `n` on orders by rank, all ranks at least `n`. */
  lemma {:induction false} GroupedOrdered(attrs: seq<Attribution>, n: nat)
    requires n <= |AttributionOrder|
    ensures RankOrdered(Grouped(attrs, AttributionOrder[n..]))
    ensures forall x :: x in Grouped(attrs, AttributionOrder[n..]) ==> n <= Rank(x.kind)
    decreases |AttributionOrder| - n
  {
    if n < |AttributionOrder| {
      var t := AttributionOrder[n];
      assert AttributionOrder[n..][1..] == AttributionOrder[n + 1..];
      GroupedOrdered(attrs, n + 1);
      OfKindRankOrdered(attrs, t);
      assert Rank(t) == n;
      ConcatRankOrdered(OfKind(attrs, t), Grouped(attrs, AttributionOrder[n + 1..]), n);
    }
  }

  /** The sort orders by `Rank`. */
  lemma SortedAttributionsOrdered(attrs: seq<Attribution>)
    ensures RankOrdered(SortedAttributions(attrs))
  {
    GroupedOrdered(attrs, 0);
    assert AttributionOrder[0..] == AttributionOrder;
  }

  /** Grouping keeps each grouped type's attributions in their original order. */
  lemma {:induction false} GroupedStable(attrs: seq<Attribution>, order: seq<AttributionType>, t: AttributionType)
    requires DistinctTypes(order)
    ensures OfKind(Grouped(attrs, order), t) == if t in order then OfKind(attrs, t) else []
    decreases |order|
  {
    if order != [] {
      assert DistinctTypes(order[1..]);
      GroupedStable(attrs, order[1..], t);
      OfKindAppend(OfKind(attrs, order[0]), Grouped(attrs, order[1..]), t);
      OfKindOfKind(attrs, t, order[0]);
      assert t in order <==> t == order[0] || t in order[1..];
      assert t == order[0] ==> t !in order[1..];
    }
  }

  /** The sort keeps the relative order of attributions of the same type. */
  lemma SortedAttributionsStable(attrs: seq<Attribution>, t: AttributionType)
    ensures OfKind(SortedAttributions(attrs), t) == OfKind(attrs, t)
  {
    AttributionOrderDistinct();
    GroupedStable(attrs, AttributionOrder, t);
    assert AttributionOrder[Rank(t)] == t;
  }

  function Name(a: Attribution): string
  {
    a.displayName
  }

  /** The display names of `attrs`, each once, in order of first occurrence (the keys of an insertion-ordered dict). */
  function UniqueNames(attrs: seq<Attribution>): seq<string>
  {
    UniqBy(Keys(attrs, Name), Id, {})
  }

  /**
   * The names credited on a page line (`attrs` already sorted): in a translation line the
   * translators, unless there are none, in which case (and on every other line) everyone.
   */
  function CreditedNames(attrs: seq<Attribution>, isTranslation: bool): seq<string>
  {
    var translators := if isTranslation then UniqueNames(OfKind(attrs, Translator)) else [];
    if translators != [] then translators else UniqueNames(attrs)
  }

  lemma UniqueNamesMeaning(attrs: seq<Attribution>)
    ensures DistinctKeys(UniqueNames(attrs), Id)
    ensures forall n :: n in UniqueNames(attrs) <==> exists a :: a in attrs && a.displayName == n
    ensures IsSubsequence(UniqueNames(attrs), Keys(attrs, Name))
    ensures var u := UniqueNames(attrs);
      forall i, j :: 0 <= i < j < |u| ==> FirstIndex(attrs, Name, u[i]) < FirstIndex(attrs, Name, u[j])
  {
    var names := Keys(attrs, Name);
    UniqByDistinct(names, Id, {});
    UniqByMembers(names, Id, {});
    UniqByCovers(names, Id, {});
    UniqByIsSubsequence(names, Id, {});
    UniqByOrder(names, Id, {});
    var u := UniqueNames(attrs);
    forall i, j | 0 <= i < j < |u| ensures FirstIndex(attrs, Name, u[i]) < FirstIndex(attrs, Name, u[j]) {
      FirstIndexOfKeys(attrs, Name, u[i]);
      FirstIndexOfKeys(attrs, Name, u[j]);
    }
    forall n ensures n in UniqueNames(attrs) <==> exists a :: a in attrs && a.displayName == n {
      if n in UniqueNames(attrs) {
        var i :| 0 <= i < |names| && names[i] == n;
        assert attrs[i] in attrs;
      }
      if a :| a in attrs && a.displayName == n {
        var i :| 0 <= i < |attrs| && attrs[i] == a;
        assert names[i] in names;
      }
    }
  }

  /** A translation line credits exactly the translators when there are any; otherwise every line credits everyone, each name once. */
  lemma CreditedNamesMeaning(attrs: seq<Attribution>, isTranslation: bool)
    ensures DistinctKeys(CreditedNames(attrs, isTranslation), Id)
    ensures isTranslation && OfKind(attrs, Translator) != [] ==>
      forall n :: n in CreditedNames(attrs, isTranslation) <==> exists a :: a in attrs && a.kind == Translator && a.displayName == n
    ensures !isTranslation || OfKind(attrs, Translator) == [] ==>
      forall n :: n in CreditedNames(attrs, isTranslation) <==> exists a :: a in attrs && a.displayName == n
    ensures attrs != [] <==> CreditedNames(attrs, isTranslation) != []
  {
    UniqueNamesMeaning(attrs);
    UniqueNamesMeaning(OfKind(attrs, Translator));
    OfKindMembers(attrs, Translator);
    if attrs != [] {
      assert attrs[0] in attrs;
      if isTranslation && OfKind(attrs, Translator) != [] {
        assert OfKind(attrs, Translator)[0] in OfKind(attrs, Translator);
      }
    }
  }

  // ---------------------------------------------------------------- page lines

  /** A word joiner between a space and the hyphen that separates the alternate title. */
  const AltSeparator: string := " ⁠- "

  /** The alternate title that is shown: the first one, when it is not empty and differs from the title. */
  function ShownAlternateTitle(p: Page): (r: Option<string>)
    ensures r.Some? <==> |p.alternateTitles| > 0 && p.alternateTitles[0] != "" && p.alternateTitles[0] != p.title
    ensures r.Some? ==> r.value == p.alternateTitles[0]
  {
    if |p.alternateTitles| > 0 && p.alternateTitles[0] != "" && p.alternateTitles[0] != p.title
    then Some(p.alternateTitles[0]) else None
  }

  function ListMarker(asListItem: bool): string
  {
    if asListItem then "- " else ""
  }

  /**
   * The bold title link: the first alternate title follows the title, after the separator,
   * exactly when it is non-empty and differs from the title.
   */
  function PageLink(p: Page): (r: string)
    ensures |r| >= 2 && r[0] == '['
    ensures |p.alternateTitles| > 0 && p.alternateTitles[0] != "" && p.alternateTitles[0] != p.title ==>
      r == "[**" + p.title + AltSeparator + p.alternateTitles[0] + "**](" + Httpsify(p.url) + ")"
    ensures !(|p.alternateTitles| > 0 && p.alternateTitles[0] != "" && p.alternateTitles[0] != p.title) ==>
      r == "[**" + p.title + "**](" + Httpsify(p.url) + ")"
  {
    var alt := ShownAlternateTitle(p);
    "[**" + p.title + (if alt.Some? then AltSeparator + alt.value else "") + "**](" + Httpsify(p.url) + ")"
  }

  function RatingPart(p: Page, isSubmissionUrl: bool): string
  {
    if isSubmissionUrl then "" else " (" + FormatRating(p.rating) + ")"
  }

  /**
   * The credits: nothing without attributions; else "posted ... " when the page is recent
   * (`posted` gives the relative time then) and the credited names in italics.
   */
  function Byline(p: Page, isTranslation: bool, posted: Page -> Option<string>): string
  {
    if p.attributions == [] then ""
    else
      " " + (if posted(p).Some? then "posted " + posted(p).value + " " else "")
      + "by *" + Join(CreditedNames(SortedAttributions(p.attributions), isTranslation), ", ") + "*"
  }

  const EnglishWiki: string := "scp-wiki.wikidot.com"
  const InternationalWiki: string := "scp-int.wikidot.com"

  function Host(netloc: string -> string): Page -> string
  {
    (p: Page) => netloc(p.url)
  }

  /**
   * The English version of a page not on the English wiki: the first matching page on the
   * English wiki, else the first on the international wiki.
   */
  function Translation(p: Page, matching: Option<seq<Page>>, netloc: string -> string): (r: Option<Page>)
    ensures r.Some? ==> matching.Some?
  {
    if netloc(p.url) == EnglishWiki || matching.None? then None
    else match FirstWithKey(matching.value, Host(netloc), EnglishWiki)
      case Some(t) => Some(t)
      case None => FirstWithKey(matching.value, Host(netloc), InternationalWiki)
  }

  /** The translation comes from the matching pages, prefers the English wiki, and exists iff one of the two wikis has one. */
  lemma TranslationPreference(p: Page, matching: Option<seq<Page>>, netloc: string -> string)
    ensures var r := Translation(p, matching, netloc);
      && (r.Some? ==> (matching.Some? && r.value in matching.value
            && (netloc(r.value.url) == EnglishWiki || netloc(r.value.url) == InternationalWiki)))
      && (r.Some? ==> netloc(p.url) != EnglishWiki)
      && (matching.Some? && r.Some? && (exists t :: t in matching.value && netloc(t.url) == EnglishWiki) ==>
            netloc(r.value.url) == EnglishWiki)
      && (r.None? <==> (netloc(p.url) == EnglishWiki || matching.None?
            || forall t :: t in matching.value ==> netloc(t.url) != EnglishWiki && netloc(t.url) != InternationalWiki))
  {
  }

  /** The separator before a translation: a nested list item, or a new paragraph. */
  function TranslationLead(asListItem: bool): string
  {
    "\n" + (if asListItem then "  - " else "\n") + "Translated: "
  }

  /** A page's own line, without the translation and the final newline. */
  function MainLine(p: Page, asListItem: bool, isSubmissionUrl: bool, isTranslation: bool,
                    posted: Page -> Option<string>): (r: string)
    ensures |r| >= 2 && (r[..2] == "- " <==> asListItem)
  {
    var link := PageLink(p);
    MarkedLine(asListItem, link, RatingPart(p, isSubmissionUrl) + Byline(p, isTranslation, posted));
    ListMarker(asListItem) + link + RatingPart(p, isSubmissionUrl) + Byline(p, isTranslation, posted)
  }

  /** A line whose link starts with `[` begins with "- " exactly when the list marker was put before it. */
  lemma MarkedLine(asListItem: bool, link: string, tail: string)
    requires |link| >= 2 && link[0] == '['
    ensures var r := ListMarker(asListItem) + link + tail;
      |r| >= 2 && (r[..2] == "- " <==> asListItem)
  {
    var r := ListMarker(asListItem) + link + tail;
    if asListItem {
      assert r[..2] == "- ";
    } else {
      assert r[0] == link[0] != "- "[0];
    }
  }

  /** The line (or two) for a page; a translation is rendered as a non-list, non-submission translation line. */
  function PageLine(p: Page, matching: Option<seq<Page>>, asListItem: bool, isSubmissionUrl: bool, isTranslation: bool,
                    netloc: string -> string, posted: Page -> Option<string>): string
    decreases if matching.Some? then 1 else 0, 1
  {
    MainLine(p, asListItem, isSubmissionUrl, isTranslation, posted) + TranslationPart(p, matching, asListItem, netloc, posted) + "\n"
  }

  /** The nested line of the English version, if there is one. */
  function TranslationPart(p: Page, matching: Option<seq<Page>>, asListItem: bool,
                           netloc: string -> string, posted: Page -> Option<string>): string
    decreases if matching.Some? then 1 else 0, 0
  {
    match Translation(p, matching, netloc)
    case None => ""
    case Some(t) => TranslationLead(asListItem) + PageLine(t, None, false, false, true, netloc, posted)
  }

  /** A page line begins with "- " iff it is a list item, and ends in a newline. */
  lemma PageLineShape(p: Page, matching: Option<seq<Page>>, asListItem: bool, isSubmissionUrl: bool, isTranslation: bool,
                      netloc: string -> string, posted: Page -> Option<string>)
    ensures var r := PageLine(p, matching, asListItem, isSubmissionUrl, isTranslation, netloc, posted);
      |r| >= 2 && (r[..2] == "- " <==> asListItem) && r[|r| - 1] == '\n'
  {
    var m := MainLine(p, asListItem, isSubmissionUrl, isTranslation, posted);
    var t := TranslationPart(p, matching, asListItem, netloc, posted);
    EndsAndStarts(m, t, "\n");
  }

  lemma EndsAndStarts<T>(m: seq<T>, t: seq<T>, n: seq<T>)
    requires |m| >= 2 && |n| == 1
    ensures (m + t + n)[..2] == m[..2] && (m + t + n)[|m + t + n| - 1] == n[0]
  {
    assert (m + t + n)[..2] == m[..2];
  }

  lemma InsertAfter<T>(a: seq<T>, r: seq<T>, e: seq<T>, b: seq<T>, c: seq<T>)
    requires e == []
    ensures var x := a + r + b + c;
      var y := a + e + b + c;
      |a| <= |x| && |a| <= |y| && x[..|a|] == y[..|a|] && x[|a|..] == r + y[|a|..]
  {
    var x := a + r + b + c;
    var y := a + e + b + c;
    assert y == a + (b + c) && x == a + (r + (b + c));
    assert x[..|a|] == a && y[..|a|] == a;
    assert x[|a|..] == r + (b + c) && y[|a|..] == b + c;
  }

  /** A page URL equal to the submission's drops exactly the rating, " (+n)", after the link. */
  lemma RatingOmittedIffSubmissionUrl(p: Page, matching: Option<seq<Page>>, asListItem: bool, isTranslation: bool,
                                      netloc: string -> string, posted: Page -> Option<string>)
    ensures var shown := PageLine(p, matching, asListItem, false, isTranslation, netloc, posted);
      var omitted := PageLine(p, matching, asListItem, true, isTranslation, netloc, posted);
      var k := |ListMarker(asListItem) + PageLink(p)|;
      k <= |omitted| && k <= |shown|
      && shown[..k] == omitted[..k] && shown[k..] == " (" + FormatRating(p.rating) + ")" + omitted[k..]
  {
    var head := ListMarker(asListItem) + PageLink(p);
    var credits := Byline(p, isTranslation, posted);
    var tail := TranslationPart(p, matching, asListItem, netloc, posted) + "\n";
    InsertAfter(head, " (" + FormatRating(p.rating) + ")", "", credits, tail);
    AppendAssoc(MainLine(p, asListItem, false, isTranslation, posted), TranslationPart(p, matching, asListItem, netloc, posted), "\n");
    AppendAssoc(MainLine(p, asListItem, true, isTranslation, posted), TranslationPart(p, matching, asListItem, netloc, posted), "\n");
  }

  /** Translations nest one level: the translation's own line has no translation part. */
  lemma TranslationDepthOne(p: Page, matching: Option<seq<Page>>, asListItem: bool, isSubmissionUrl: bool, isTranslation: bool,
                            netloc: string -> string, posted: Page -> Option<string>)
    requires Translation(p, matching, netloc).Some?
    ensures var t := Translation(p, matching, netloc).value;
      PageLine(p, matching, asListItem, isSubmissionUrl, isTranslation, netloc, posted)
        == MainLine(p, asListItem, isSubmissionUrl, isTranslation, posted) + TranslationLead(asListItem)
           + MainLine(t, false, false, true, posted) + "\n" + "\n"
  {
    var t := Translation(p, matching, netloc).value;
    assert Translation(t, None, netloc) == None;
    assert TranslationPart(t, None, false, netloc, posted) == "";
    assert PageLine(p, matching, asListItem, isSubmissionUrl, isTranslation, netloc, posted)
      == MainLine(p, asListItem, isSubmissionUrl, isTranslation, posted) + TranslationPart(p, matching, asListItem, netloc, posted) + "\n";
    assert TranslationPart(p, matching, asListItem, netloc, posted) == TranslationLead(asListItem) + PageLine(t, None, false, false, true, netloc, posted);
    assert PageLine(t, None, false, false, true, netloc, posted)
      == MainLine(t, false, false, true, posted) + TranslationPart(t, None, false, netloc, posted) + "\n";
    NestedAssoc(MainLine(p, asListItem, isSubmissionUrl, isTranslation, posted), TranslationLead(asListItem),
      MainLine(t, false, false, true, posted), TranslationPart(t, None, false, netloc, posted), "\n");
  }

  lemma NestedAssoc<T>(a: seq<T>, l: seq<T>, b: seq<T>, e: seq<T>, n: seq<T>)
    requires e == []
    ensures a + (l + (b + e + n)) + n == a + l + b + n + n
  {
    assert b + e == b;
  }

  // ---------------------------------------------------------------- user lines

  function UserLine(u: User, asListItem: bool): string
  {
    ListMarker(asListItem) + "**"
    + (if Truthy(u.userPageUrl) then "[" + u.displayName + "](" + Httpsify(u.userPageUrl.value) + ")" else u.displayName)
    + "** (*ranked #" + IntToString(u.rank) + ", total rating: " + FormatRating(u.totalRating)
    + ", mean rating: " + FormatRating(u.meanRating) + ")*" + "\n"
  }

  /** A user line begins with "- " iff it is a list item, and ends in a newline. */
  lemma UserLineShape(u: User, asListItem: bool)
    ensures var r := UserLine(u, asListItem);
      |r| >= 2 && (r[..2] == "- " <==> asListItem) && r[|r| - 1] == '\n'
  {
    var r := UserLine(u, asListItem);
    if !asListItem {
      assert r[0] == '*';
    }
  }

  // ---------------------------------------------------------------- the reply

  /** The short form's text for one result. */
  function ShortPart(e: Entity): (r: string)
    ensures e.UserEntity? && !Truthy(e.user.userPageUrl) ==> r == e.user.displayName
    ensures e.PageEntity? || Truthy(e.user.userPageUrl) ==> |r| >= 2 && r[0] == '[' && r[|r| - 1] == ')'
    ensures e.PageEntity? ==> r == "[" + e.page.title + "](" + Httpsify(e.page.url) + ")"
    ensures e.UserEntity? && Truthy(e.user.userPageUrl) ==>
      r == "[*" + e.user.displayName + "*](" + Httpsify(e.user.userPageUrl.value) + ")"
  {
    match e
    case PageEntity(p, _) => "[" + p.title + "](" + Httpsify(p.url) + ")"
    case UserEntity(u) =>
      if Truthy(u.userPageUrl) then "[*" + u.displayName + "*](" + Httpsify(u.userPageUrl.value) + ")"
      else u.displayName
  }

  function ShortParts(results: seq<Entity>): (r: seq<string>)
    ensures |r| == |results| && forall k :: 0 <= k < |results| ==> r[k] == ShortPart(results[k])
  {
    seq(|results|, k requires 0 <= k < |results| => ShortPart(results[k]))
  }

  /** Every result on one line, separated by commas, with a full stop. */
  function FormatShort(results: seq<Entity>): (r: string)
    ensures |r| >= 1 && r[|r| - 1] == '.'
  {
    Join(ShortParts(results), ", ") + "."
  }

  /**
   * The short form lists the results' parts in order, separated by `", "`, and closes with `.`:
   * a single result is its part and a dot; a longer list is its first part, a comma, and the
   * short form of the rest.
   */
  lemma FormatShortShape(results: seq<Entity>)
    ensures results == [] ==> FormatShort(results) == "."
    ensures |results| == 1 ==> FormatShort(results) == ShortPart(results[0]) + "."
    ensures |results| >= 2 ==> FormatShort(results) == ShortPart(results[0]) + ", " + FormatShort(results[1..])
  {
    if |results| >= 2 {
      var parts := ShortParts(results);
      assert parts[1..] == ShortParts(results[1..]);
      assert Join(parts, ", ") == parts[0] + ", " + Join(parts[1..], ", ");
    }
  }

  const Header: string := "**Articles mentioned in this submission**\n\n"

  function EntityLine(e: Entity, asListItem: bool, submissionUrl: Option<string>,
                      netloc: string -> string, posted: Page -> Option<string>): string
  {
    match e
    case PageEntity(p, m) => PageLine(p, m, asListItem, submissionUrl == Some(p.url), false, netloc, posted)
    case UserEntity(u) => UserLine(u, asListItem)
  }

  /** One entry per result, in order. */
  function EntityLines(results: seq<Entity>, asListItem: bool, submissionUrl: Option<string>,
                       netloc: string -> string, posted: Page -> Option<string>): (r: seq<string>)
    ensures |r| == |results|
    ensures forall k :: 0 <= k < |results| ==> r[k] == EntityLine(results[k], asListItem, submissionUrl, netloc, posted)
  {
    seq(|results|, k requires 0 <= k < |results| => EntityLine(results[k], asListItem, submissionUrl, netloc, posted))
  }

  /** The reply text: short for more than ten results outside a submission, else the header (for a submission) and one entry per result. */
  function ResponseText(results: seq<Entity>, isSubmission: bool, submissionUrl: Option<string>,
                        netloc: string -> string, posted: Page -> Option<string>): string
  {
    if |results| > 10 && !isSubmission then FormatShort(results)
    else LongForm(results, isSubmission, submissionUrl, netloc, posted)
  }

  /** One entry per result, each ending in a newline, after the header for a submission. */
  function LongForm(results: seq<Entity>, isSubmission: bool, submissionUrl: Option<string>,
                    netloc: string -> string, posted: Page -> Option<string>): (r: string)
    ensures results != [] ==> |r| >= 1 && r[|r| - 1] == '\n'
  {
    var head := if isSubmission then Header else "";
    var lines := EntityLines(results, |results| > 1, submissionUrl, netloc, posted);
    if results != [] then LongFormEnd(results, head, lines, submissionUrl, netloc, posted); head + Flatten(lines)
    else head + Flatten(lines)
  }

  lemma EntityLineShape(e: Entity, asListItem: bool, submissionUrl: Option<string>,
                        netloc: string -> string, posted: Page -> Option<string>)
    ensures var r := EntityLine(e, asListItem, submissionUrl, netloc, posted);
      |r| >= 2 && (r[..2] == "- " <==> asListItem) && r[|r| - 1] == '\n'
  {
    match e
    case PageEntity(p, m) => PageLineShape(p, m, asListItem, submissionUrl == Some(p.url), false, netloc, posted);
    case UserEntity(u) => UserLineShape(u, asListItem);
  }

  /**
   * With results, the reply ends in "." exactly when it is the short form, that is for
   * more than ten results outside a submission; the long form ends in a newline.
   */
  lemma ShortFormIff(results: seq<Entity>, isSubmission: bool, submissionUrl: Option<string>,
                     netloc: string -> string, posted: Page -> Option<string>)
    requires results != []
    ensures var r := ResponseText(results, isSubmission, submissionUrl, netloc, posted);
      |r| >= 1 && (r[|r| - 1] == '.' <==> |results| > 10 && !isSubmission)
  {
    if |results| > 10 && !isSubmission {
      assert ResponseText(results, isSubmission, submissionUrl, netloc, posted) == FormatShort(results);
    } else {
      LongFormLast(results, isSubmission, submissionUrl, netloc, posted);
    }
  }

  lemma LongFormLast(results: seq<Entity>, isSubmission: bool, submissionUrl: Option<string>,
                     netloc: string -> string, posted: Page -> Option<string>)
    requires results != [] && !(|results| > 10 && !isSubmission)
    ensures var r := ResponseText(results, isSubmission, submissionUrl, netloc, posted);
      |r| >= 1 && r[|r| - 1] == '\n'
  {
    LongFormIs(results, isSubmission, submissionUrl, netloc, posted);
  }

  lemma LongFormIs(results: seq<Entity>, isSubmission: bool, submissionUrl: Option<string>,
                     netloc: string -> string, posted: Page -> Option<string>)
    requires results != [] && !(|results| > 10 && !isSubmission)
    ensures ResponseText(results, isSubmission, submissionUrl, netloc, posted) == LongForm(results, isSubmission, submissionUrl, netloc, posted)
  {
  }

  /** The last entry ends in a newline, so the long form does. */
  lemma LongFormEnd(results: seq<Entity>, head: string, lines: seq<string>, submissionUrl: Option<string>,
                    netloc: string -> string, posted: Page -> Option<string>)
    requires results != [] && lines == EntityLines(results, |results| > 1, submissionUrl, netloc, posted)
    ensures |head + Flatten(lines)| >= 1 && (head + Flatten(lines))[|head + Flatten(lines)| - 1] == '\n'
  {
    var n := |results| - 1;
    EntityLineShape(results[n], |results| > 1, submissionUrl, netloc, posted);
    FlattenSplit(lines, n);
    assert lines[n + 1..] == [];
    LastOfAppend(head, Flatten(lines), Flatten(lines[..n]), lines[n], Flatten(lines[n + 1..]));
  }

  lemma LastOfAppend<T>(h: seq<T>, f: seq<T>, x: seq<T>, b: seq<T>, c: seq<T>)
    requires f == x + b + c && c == [] && b != []
    ensures |h + f| >= 1 && (h + f)[|h + f| - 1] == b[|b| - 1]
  {
    assert h + f == (h + x) + b;
  }

  /** No results: an empty reply, or the bare header for a submission. */
  lemma EmptyResponse(isSubmission: bool, submissionUrl: Option<string>,
                      netloc: string -> string, posted: Page -> Option<string>)
    ensures ResponseText([], isSubmission, submissionUrl, netloc, posted) == if isSubmission then Header else ""
  {
  }

  /** In the long form the entry of result `k` is a list item exactly when there are several results. */
  lemma ListItemsIffSeveral(results: seq<Entity>, isSubmission: bool, submissionUrl: Option<string>,
                            netloc: string -> string, posted: Page -> Option<string>, k: nat)
    requires !(|results| > 10 && !isSubmission) && k < |results|
    ensures var lines := EntityLines(results, |results| > 1, submissionUrl, netloc, posted);
      var r := ResponseText(results, isSubmission, submissionUrl, netloc, posted);
      var start := |(if isSubmission then Header else "") + Flatten(lines[..k])|;
      start + 2 <= |r| && (r[start..start + 2] == "- " <==> |results| > 1)
  {
    var lines := EntityLines(results, |results| > 1, submissionUrl, netloc, posted);
    EntityLineShape(results[k], |results| > 1, submissionUrl, netloc, posted);
    FlattenSplit(lines, k);
    SliceAfter((if isSubmission then Header else ""), Flatten(lines), Flatten(lines[..k]), lines[k], Flatten(lines[k + 1..]));
  }

  lemma SliceAfter<T>(h: seq<T>, f: seq<T>, x: seq<T>, b: seq<T>, c: seq<T>)
    requires f == x + b + c && |b| >= 2
    ensures |h + x| + 2 <= |h + f| && (h + f)[|h + x|..|h + x| + 2] == b[..2]
  {
    assert h + f == (h + x) + b + c;
  }

  // ---------------------------------------------------------------- the program's loops

  /** Fills the insertion-ordered name dictionary from `attrs`. */
  method CollectNames(attrs: seq<Attribution>) returns (names: seq<string>)
    ensures names == UniqueNames(attrs)
  {
    var seen: set<string> := {};
    names := [];
    var all := Keys(attrs, Name);
    for i := 0 to |attrs|
      invariant names + UniqBy(all[i..], Id, seen) == UniqueNames(attrs)
    {
      assert all[i..][1..] == all[i + 1..];
      var n := attrs[i].displayName;
      if n !in seen {
        seen := seen + {n};
        names := names + [n];
      }
    }
  }

  /** The credits, with the insertion-ordered name dictionary filled as the program does. */
  method Credits(p: Page, isTranslation: bool, posted: Page -> Option<string>) returns (credit: string)
    requires p.attributions != []
    ensures credit == Byline(p, isTranslation, posted)
  {
    var attributions := SortedAttributions(p.attributions);
    credit := " ";
    var formatted := posted(p);
    if formatted.Some? {
      credit := credit + ("posted " + formatted.value + " ");
    } else {
      credit := credit + "";
    }
    var names: seq<string> := [];
    if isTranslation {
      names := CollectNames(OfKind(attributions, Translator));
    }
    if names == [] {
      names := CollectNames(attributions);
    }
    credit := credit + "by *" + Join(names, ", ") + "*";
  }

  /** A page's own line, piece by piece. */
  method MainResponse(p: Page, asListItem: bool, isSubmissionUrl: bool, isTranslation: bool,
                      posted: Page -> Option<string>) returns (comment: string)
    ensures comment == MainLine(p, asListItem, isSubmissionUrl, isTranslation, posted)
  {
    comment := "";
    if asListItem {
      comment := comment + "- ";
    }
    assert comment == ListMarker(asListItem);
    comment := comment + PageLink(p);
    if !isSubmissionUrl {
      comment := comment + (" (" + FormatRating(p.rating) + ")");
    } else {
      comment := comment + "";
    }
    if p.attributions != [] {
      var credit := Credits(p, isTranslation, posted);
      comment := comment + credit;
    } else {
      comment := comment + "";
    }
  }

  /** Builds a page's line, then the translation's, as the program does. */
  method PageResponse(p: Page, matching: Option<seq<Page>>, asListItem: bool, isSubmissionUrl: bool, isTranslation: bool,
                      netloc: string -> string, posted: Page -> Option<string>) returns (comment: string)
    ensures comment == PageLine(p, matching, asListItem, isSubmissionUrl, isTranslation, netloc, posted)
    decreases if matching.Some? then 1 else 0
  {
    comment := MainResponse(p, asListItem, isSubmissionUrl, isTranslation, posted);
    var english := Translation(p, matching, netloc);
    if english.Some? {
      var lead := "\n";
      if asListItem {
        lead := lead + "  - ";
      } else {
        lead := lead + "\n";
      }
      lead := lead + "Translated: ";
      var nested := PageResponse(english.value, None, false, false, true, netloc, posted);
      comment := comment + (lead + nested);
    } else {
      comment := comment + "";
    }
    comment := comment + "\n";
  }

  method EntityResponse(e: Entity, asListItem: bool, submissionUrl: Option<string>,
                        netloc: string -> string, posted: Page -> Option<string>) returns (line: string)
    ensures line == EntityLine(e, asListItem, submissionUrl, netloc, posted)
  {
    match e
    case PageEntity(p, m) =>
      line := PageResponse(p, m, asListItem, submissionUrl == Some(p.url), false, netloc, posted);
    case UserEntity(u) =>
      line := UserLine(u, asListItem);
  }

  lemma AppendAssoc<T>(a: seq<T>, b: seq<T>, c: seq<T>)
    ensures (a + b) + c == a + (b + c)
  {
  }

  /** Appends the entries of all results to `head`, one by one. */
  method AppendLines(head: string, results: seq<Entity>, asListItem: bool, submissionUrl: Option<string>,
                     netloc: string -> string, posted: Page -> Option<string>) returns (comment: string)
    ensures comment == head + Flatten(EntityLines(results, asListItem, submissionUrl, netloc, posted))
  {
    comment := head;
    ghost var lines := EntityLines(results, asListItem, submissionUrl, netloc, posted);
    for i := 0 to |results|
      invariant comment == head + Flatten(lines[..i])
    {
      TakeOneMore(lines, i);
      FlattenAppend(lines[..i], lines[i]);
      var line := EntityResponse(results[i], asListItem, submissionUrl, netloc, posted);
      AppendAssoc(head, Flatten(lines[..i]), line);
      comment := comment + line;
    }
    assert lines[..|results|] == lines;
  }

  /** Builds the reply: the short form, or the header and the entries. */
  method GenerateResponse(results: seq<Entity>, isSubmission: bool, submissionUrl: Option<string>,
                          netloc: string -> string, posted: Page -> Option<string>) returns (comment: string)
    ensures comment == ResponseText(results, isSubmission, submissionUrl, netloc, posted)
  {
    if |results| > 10 && !isSubmission {
      return FormatShort(results);
    }
    var head := "";
    if isSubmission {
      head := Header;
    }
    comment := AppendLines(head, results, |results| > 1, submissionUrl, netloc, posted);
  }
}
