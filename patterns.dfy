/**
 * The regular expressions of the mention extractor, each written as a deterministic
 * matcher at a fixed position, and the leftmost, non-overlapping scan that
 * `re.finditer` and `re.sub(pattern, "", text)` perform with them.
 *
 * Every pattern here can only match in one way at a given position (the greedy
 * choices that backtracking could undo never lead to another match), so a matcher
 * returns at most one span.
 */
module Patterns {
  import opened Wrappers
  import opened Text
  import Seqs

  /** One match: `start..end` is the whole match, `groupStart..groupEnd` is capture group 1. */
  datatype Span = Span(start: nat, end: nat, groupStart: nat, groupEnd: nat)

  /** `sp` is a non-empty match of `s` that begins at `i`. */
  predicate SpanAt(sp: Span, s: string, i: nat)
  {
    sp.start == i && sp.start <= sp.groupStart <= sp.groupEnd <= sp.end <= |s| && sp.start < sp.end
  }

  function Group(s: string, sp: Span): string
    requires sp.groupStart <= sp.groupEnd <= |s|
  {
    s[sp.groupStart..sp.groupEnd]
  }

  /** The lookahead `(?!\w)` at position `k`. */
  predicate NotWordAt(s: string, k: nat)
  {
    k >= |s| || !IsWordChar(s[k])
  }

  predicate IsSeparator(c: char) { c == '-' || c == ' ' }

  predicate SeparatorAt(s: string, k: nat) { k < |s| && IsSeparator(s[k]) }

  predicate DigitAt(s: string, k: nat) { k < |s| && IsDigit(s[k]) }

  predicate AllDigits(s: string, k: nat, e: nat)
    requires k <= e <= |s|
  {
    forall j :: k <= j < e ==> IsDigit(s[j])
  }

  lemma {:induction false} RunOfDigits(s: string, k: nat, e: nat)
    requires k <= e <= |s| && AllDigits(s, k, e) && !DigitAt(s, e)
    ensures Run(s, k, Digits) == e - k
    decreases e - k
  {
    if k < e {
      RunOfDigits(s, k + 1, e);
    }
  }

  /**
   * `\d{3,4}` at `k`: the greedy quantifier can only succeed when the whole digit run
   * has 3 or 4 digits, since every pattern here needs a non-digit after it, and giving
   * a digit back leaves a digit there.
   */
  function DigitsEnd(s: string, k: nat): (r: Option<nat>)
    requires k <= |s|
    ensures r.Some? ==> k + 3 <= r.value <= k + 4 && r.value <= |s|
  {
    var n := Run(s, k, Digits);
    if 3 <= n <= 4 then Some(k + n) else None
  }

  /** `DigitsEnd` finds exactly a run of three or four digits with no digit after it. */
  lemma DigitsEndMeaning(s: string, k: nat)
    requires k <= |s|
    ensures var r := DigitsEnd(s, k);
      r.Some? ==> AllDigits(s, k, r.value) && !DigitAt(s, r.value)
    ensures forall e :: k + 3 <= e <= k + 4 && e <= |s| && AllDigits(s, k, e) && !DigitAt(s, e) ==> DigitsEnd(s, k) == Some(e)
  {
    forall e | k + 3 <= e <= k + 4 && e <= |s| && AllDigits(s, k, e) && !DigitAt(s, e)
      ensures DigitsEnd(s, k) == Some(e)
    {
      RunOfDigits(s, k, e);
    }
  }

  // ---------------------------------------------------------------- [[...]]

  /** The character `c` twice, at `k` and `k + 1`. */
  predicate PairAt(s: string, k: nat, c: char)
  {
    k + 1 < |s| && s[k] == c && s[k + 1] == c
  }

  /**
   * `\[\[([^\]]*?)\]\]`: the group cannot contain `]`, so the lazy group stops at the
   * first `]` after the opening brackets, and the match exists exactly when a second
   * `]` follows it.
   */
  function BracketAt(s: string, i: nat): (r: Option<Span>)
    requires i <= |s|
    ensures r.Some? ==> SpanAt(r.value, s, i)
  {
    if i + 2 <= |s| && s[i] == '[' && s[i + 1] == '[' then
      match FindChar(s, i + 2, ']')
      case Some(p) => if p + 1 < |s| && s[p + 1] == ']' then Some(Span(i, p + 2, i + 2, p)) else None
      case None => None
    else None
  }

  /** A `[[...]]` match opens with `[[`, closes at the first `]` after them, and needs a second `]` there; any such text is matched. */
  lemma BracketAtMeaning(s: string, i: nat)
    requires i <= |s|
    ensures var r := BracketAt(s, i);
      r.Some? ==> (SpanAt(r.value, s, i) && PairAt(s, i, '[') && r.value.groupStart == i + 2
      && r.value.end == r.value.groupEnd + 2 && PairAt(s, r.value.groupEnd, ']')
      && (forall k :: i + 2 <= k < r.value.groupEnd ==> s[k] != ']'))
    ensures var r := BracketAt(s, i);
      forall p :: (i + 2 <= p && PairAt(s, i, '[') && PairAt(s, p, ']') && (forall k :: i + 2 <= k < p ==> s[k] != ']'))
                        ==> r == Some(Span(i, p + 2, i + 2, p))
  {
  }

  // ---------------------------------------------------------------- >!...!<

  /** `>!(.+?)!<` with DOTALL: the spoiler closes at the first `!<` that leaves a non-empty group. */
  function SpoilerAt(s: string, i: nat): (r: Option<Span>)
    requires i <= |s|
    ensures r.Some? ==> SpanAt(r.value, s, i)
  {
    if i + 3 <= |s| && s[i] == '>' && s[i + 1] == '!' then
      match Find(s, i + 3, "!<")
      case Some(q) => Some(Span(i, q + 2, i + 2, q))
      case None => None
    else None
  }

  /** A spoiler opens with `>!` and closes at the first `!<` after at least one character. */
  lemma SpoilerAtMeaning(s: string, i: nat)
    requires i <= |s|
    ensures var r := SpoilerAt(s, i);
      r.Some? ==> (SpanAt(r.value, s, i) && OccursAt(s, i, ">!") && r.value.groupStart == i + 2
      && i + 3 <= r.value.groupEnd && OccursAt(s, r.value.groupEnd, "!<") && r.value.end == r.value.groupEnd + 2
      && (forall q :: i + 3 <= q < r.value.groupEnd ==> !OccursAt(s, q, "!<")))
    ensures var r := SpoilerAt(s, i);
      r.None? ==> !OccursAt(s, i, ">!") || forall q :: i + 3 <= q ==> !OccursAt(s, q, "!<")
  {
  }

  // ---------------------------------------------------------------- URLs

  lemma CiMatchWithoutSpace(s: string, i: nat, w: string)
    requires CiMatchAt(s, i, w) && forall j :: 0 <= j < |w| ==> w[j] != ' '
    ensures forall j :: i <= j < i + |w| ==> s[j] != ' '
  {
    forall j | i <= j < i + |w| ensures s[j] != ' ' {
      assert Lower(s[i + (j - i)]) == Lower(w[j - i]);
    }
  }

  /** `(?i)(?:http|https)://[^ ]*`: a scheme, then everything up to the next space. */
  function UrlAt(s: string, i: nat): (r: Option<Span>)
    requires i <= |s|
    ensures r.Some? ==> SpanAt(r.value, s, i)
  {
    var k := if CiMatchAt(s, i, "http://") then i + 7 else i + 8;
    if CiMatchAt(s, i, "http://") || CiMatchAt(s, i, "https://") then
      var e := k + Run(s, k, NonSpaces);
      Some(Span(i, e, i, e))
    else None
  }

  /** A URL match exists exactly where an `http://` or `https://` scheme starts, in any case, and runs to the next space. */
  lemma UrlAtMeaning(s: string, i: nat)
    requires i <= |s|
    ensures var r := UrlAt(s, i);
      r.Some? <==> CiMatchAt(s, i, "http://") || CiMatchAt(s, i, "https://")
    ensures var r := UrlAt(s, i);
      r.Some? ==> (SpanAt(r.value, s, i) && (forall k :: i <= k < r.value.end ==> s[k] != ' ')
      && (r.value.end == |s| || s[r.value.end] == ' '))
  {
    var r := UrlAt(s, i);
    if r.Some? {
      if CiMatchAt(s, i, "http://") {
        CiMatchWithoutSpace(s, i, "http://");
      } else {
        CiMatchWithoutSpace(s, i, "https://");
      }
    }
  }

  // ---------------------------------------------------------------- decimals

  /** `\d+[.,]\d+`: a digit run, a point or comma, and a non-empty digit run taken whole. */
  function DecimalAt(s: string, i: nat): (r: Option<Span>)
    requires i <= |s|
    ensures r.Some? ==> SpanAt(r.value, s, i)
  {
    var n := Run(s, i, Digits);
    if n > 0 && i + n < |s| && (s[i + n] == '.' || s[i + n] == ',') then
      var m := Run(s, i + n + 1, Digits);
      if m > 0 then
        var e := i + n + 1 + m;
        Some(Span(i, e, i, e))
      else None
    else None
  }

  /** A decimal match is a digit run, a point or a comma, and a whole digit run. */
  lemma DecimalAtMeaning(s: string, i: nat)
    requires i <= |s|
    ensures var r := DecimalAt(s, i);
      r.Some? ==> (SpanAt(r.value, s, i) && DigitAt(s, i)
      && (exists m :: i < m < r.value.end - 1 && AllDigits(s, i, m) && (s[m] == '.' || s[m] == ',') && AllDigits(s, m + 1, r.value.end))
      && !DigitAt(s, r.value.end))
  {
    var n := Run(s, i, Digits);
    if DecimalAt(s, i).Some? {
      var e := DecimalAt(s, i).value.end;
      assert AllDigits(s, i, i + n) && AllDigits(s, i + n + 1, e);
    }
  }

  // ---------------------------------------------------------------- u/name

  /** `(?i)/?u/[A-Z0-9_-]+`: an optional slash, `u/`, and a non-empty name taken whole. */
  function UserMentionAt(s: string, i: nat): (r: Option<Span>)
    requires i <= |s|
    ensures r.Some? ==> SpanAt(r.value, s, i)
  {
    var k := if i < |s| && s[i] == '/' then i + 1 else i;
    if CiMatchAt(s, k, "u/") && Run(s, k + 2, NameChars) > 0 then
      var e := k + 2 + Run(s, k + 2, NameChars);
      Some(Span(i, e, i, e))
    else None
  }

  /** A user mention is an optional slash, `u/` in any case, and a whole non-empty run of name characters. */
  lemma UserMentionAtMeaning(s: string, i: nat)
    requires i <= |s|
    ensures var r := UserMentionAt(s, i);
      r.Some? ==> (SpanAt(r.value, s, i)
      && var k := if OccursAt(s, i, "/") then i + 1 else i;
         (CiMatchAt(s, k, "u/") && k + 2 < r.value.end
          && (forall j :: k + 2 <= j < r.value.end ==> InClass(s[j], NameChars))
          && (r.value.end == |s| || !InClass(s[r.value.end], NameChars))))
  {
  }

  // ---------------------------------------------------------------- international mentions

  /** How the two-letter (or three-letter) branch code joins the digits. */
  datatype Joiner =
    | Required        // [- ]
    | OptionalHyphen  // -?
    | OptionalEither  // [- ]?

  /** The capture group of an international pattern. */
  datatype Intl =
    | DigitsThenCode(code: string, joiner: Joiner)   // \d{3,4}<joiner>CODE
    | CodeThenDigits(code: string)                   // CODE[- ]\d{3,4}

  /** `t` is exactly `<joiner>CODE`. */
  predicate JoinedCode(t: string, code: string, joiner: Joiner)
  {
    match joiner
    case Required => |t| == |code| + 1 && IsSeparator(t[0]) && CiMatchAt(t, 1, code)
    case OptionalHyphen =>
      (|t| == |code| && CiMatchAt(t, 0, code)) || (|t| == |code| + 1 && t[0] == '-' && CiMatchAt(t, 1, code))
    case OptionalEither =>
      (|t| == |code| && CiMatchAt(t, 0, code)) || (|t| == |code| + 1 && IsSeparator(t[0]) && CiMatchAt(t, 1, code))
  }

  /** `g` is, as a whole, a capture group of the given shape. */
  predicate IntlGroup(shape: Intl, g: string)
  {
    match shape
    case DigitsThenCode(code, joiner) =>
      (3 <= |g| && AllDigits(g, 0, 3) && JoinedCode(g[3..], code, joiner))
      || (4 <= |g| && AllDigits(g, 0, 4) && JoinedCode(g[4..], code, joiner))
    case CodeThenDigits(code) =>
      |code| + 4 <= |g| <= |code| + 5 && CiMatchAt(g, 0, code) && IsSeparator(g[|code|]) && AllDigits(g, |code| + 1, |g|)
  }

  lemma CiMatchSlice(s: string, a: nat, b: nat, k: nat, w: string)
    requires a <= b <= |s| && a <= k && CiMatchAt(s, k, w) && k + |w| <= b
    ensures CiMatchAt(s[a..b], k - a, w)
  {
    forall j | 0 <= j < |w| ensures Lower(s[a..b][k - a + j]) == Lower(w[j]) {
      assert s[a..b][k - a + j] == s[k + j];
    }
  }

  lemma DigitsThenCodeGroup(s: string, g: nat, d: nat, c: nat, code: string, joiner: Joiner)
    requires g + 3 <= d <= g + 4 && d <= c <= d + 1 && c + |code| <= |s| && AllDigits(s, g, d)
    requires CiMatchAt(s, c, code)
    requires match joiner
      case Required => c == d + 1 && SeparatorAt(s, d)
      case OptionalHyphen => c == d + 1 <==> (d < |s| && s[d] == '-')
      case OptionalEither => c == d + 1 <==> SeparatorAt(s, d)
    ensures IntlGroup(DigitsThenCode(code, joiner), s[g..c + |code|])
  {
    var e := c + |code|;
    var t := s[g..e];
    var n := d - g;
    assert AllDigits(t, 0, n);
    assert t[n..] == s[d..e];
    CiMatchSlice(s, d, e, c, code);
    assert JoinedCode(t[n..], code, joiner);
  }

  /** Where the group of an international pattern ends, when it starts at `g`. */
  function IntlGroupEnd(shape: Intl, s: string, g: nat): (r: Option<nat>)
    requires g <= |s|
    ensures r.Some? ==> g < r.value <= |s|
  {
    match shape
    case DigitsThenCode(code, joiner) =>
      (match DigitsEnd(s, g)
      case None => None
      case Some(d) =>
        var c := match joiner
          case Required => d + 1
          case OptionalHyphen => if d < |s| && s[d] == '-' then d + 1 else d
          case OptionalEither => if SeparatorAt(s, d) then d + 1 else d;
        if (joiner.Required? ==> SeparatorAt(s, d)) && c <= |s| && CiMatchAt(s, c, code) then Some(c + |code|)
        else None)
    case CodeThenDigits(code) =>
      var k := g + |code|;
      if CiMatchAt(s, g, code) && SeparatorAt(s, k) then DigitsEnd(s, k + 1)
      else None
  }

  /** The text `IntlGroupEnd` accepts is a group of the shape. */
  lemma IntlGroupEndMeaning(shape: Intl, s: string, g: nat)
    requires g <= |s|
    ensures var r := IntlGroupEnd(shape, s, g);
      r.Some? ==> IntlGroup(shape, s[g..r.value])
  {
    match shape
    case DigitsThenCode(code, joiner) =>
      if IntlGroupEnd(shape, s, g).Some? {
        DigitsThenCodeEnd(s, g, code, joiner);
      }
    case CodeThenDigits(code) =>
      if IntlGroupEnd(shape, s, g).Some? {
        CodeThenDigitsGroup(s, g, IntlGroupEnd(shape, s, g).value, code);
      }
  }

  lemma DigitsThenCodeEnd(s: string, g: nat, code: string, joiner: Joiner)
    requires g <= |s| && IntlGroupEnd(DigitsThenCode(code, joiner), s, g).Some?
    ensures IntlGroup(DigitsThenCode(code, joiner), s[g..IntlGroupEnd(DigitsThenCode(code, joiner), s, g).value])
  {
    DigitsEndMeaning(s, g);
    var d := DigitsEnd(s, g).value;
    var c := IntlGroupEnd(DigitsThenCode(code, joiner), s, g).value - |code|;
    DigitsThenCodeGroup(s, g, d, c, code, joiner);
  }

  lemma CodeThenDigitsGroup(s: string, g: nat, e: nat, code: string)
    requires g + |code| < |s| && CiMatchAt(s, g, code) && SeparatorAt(s, g + |code|)
    requires DigitsEnd(s, g + |code| + 1) == Some(e)
    ensures IntlGroup(CodeThenDigits(code), s[g..e])
  {
    var k := g + |code|;
    DigitsEndMeaning(s, k + 1);
    CiMatchSlice(s, g, e, g, code);
    assert s[g..e][|code|] == s[k];
    assert AllDigits(s[g..e], |code| + 1, e - g);
  }

  /**
   * `(?i)SCP[- ]?(<group>)(?!\w)`. The separator after `SCP` is taken when present:
   * leaving it out would put a separator where the group needs a digit or a letter.
   */
  function IntlAt(shape: Intl, s: string, i: nat): (r: Option<Span>)
    requires i <= |s|
    ensures r.Some? ==> SpanAt(r.value, s, i)
  {
    if CiMatchAt(s, i, "SCP") then
      var g := if SeparatorAt(s, i + 3) then i + 4 else i + 3;
      match IntlGroupEnd(shape, s, g)
      case Some(e) => if NotWordAt(s, e) then Some(Span(i, e, g, e)) else None
      case None => None
    else None
  }

  /** An international match is `SCP`, an optional separator, a group of the shape, and no word character after it. */
  lemma IntlAtMeaning(shape: Intl, s: string, i: nat)
    requires i <= |s|
    ensures var r := IntlAt(shape, s, i);
      r.Some? ==> (CiMatchAt(s, i, "SCP")
        && r.value.groupStart == (if SeparatorAt(s, i + 3) then i + 4 else i + 3)
        && r.value.groupEnd == r.value.end && NotWordAt(s, r.value.end)
        && IntlGroup(shape, s[r.value.groupStart..r.value.groupEnd]))
  {
    if CiMatchAt(s, i, "SCP") {
      IntlGroupEndMeaning(shape, s, if SeparatorAt(s, i + 3) then i + 4 else i + 3);
    }
  }

  // ---------------------------------------------------------------- bare mentions

  /** `s[k..e]` is a sequence of `-<alnums>` pieces, each piece's alnum run taken whole. */
  predicate Chain(s: string, k: nat, e: nat)
    requires k <= e <= |s|
    decreases e - k
  {
    k == e
    || (s[k] == '-' && Run(s, k + 1, Alnums) > 0 && k + 1 + Run(s, k + 1, Alnums) <= e
        && Chain(s, k + 1 + Run(s, k + 1, Alnums), e))
  }

  /**
   * The end of `(?:-[A-Z0-9]+)*(?!\w)` from `k`: the greedy loop takes one more piece
   * whenever one follows, and backtracks to the last piece end where the lookahead holds.
   */
  function SuffixEnd(s: string, k: nat): (r: Option<nat>)
    requires k <= |s|
    ensures r.Some? ==> k <= r.value <= |s|
    decreases |s| - k
  {
    var n := if k < |s| && s[k] == '-' then Run(s, k + 1, Alnums) else 0;
    if n > 0 then
      match SuffixEnd(s, k + 1 + n)
      case Some(e) => Some(e)
      case None => Some(k)
    else if NotWordAt(s, k) then Some(k) else None
  }

  /** The suffix loop succeeds exactly when the lookahead holds where it starts, and ends on a chain end where it holds. */
  lemma {:induction false} SuffixEndMeaning(s: string, k: nat)
    requires k <= |s|
    ensures SuffixEnd(s, k).Some? <==> NotWordAt(s, k)
    ensures var r := SuffixEnd(s, k);
      r.Some? ==> Chain(s, k, r.value) && NotWordAt(s, r.value)
    decreases |s| - k
  {
    var n := if k < |s| && s[k] == '-' then Run(s, k + 1, Alnums) else 0;
    if n > 0 {
      SuffixEndMeaning(s, k + 1 + n);
    }
  }

  /** The chosen end is the longest chain end after which the lookahead holds. */
  lemma {:induction false} SuffixEndLongest(s: string, k: nat, e: nat)
    requires k <= e <= |s| && Chain(s, k, e) && NotWordAt(s, e)
    ensures SuffixEnd(s, k).Some? && e <= SuffixEnd(s, k).value
    decreases |s| - k
  {
    if k < e {
      var n := Run(s, k + 1, Alnums);
      SuffixEndLongest(s, k + 1 + n, e);
    } else {
      SuffixEndMeaning(s, k);
    }
  }

  /**
   * `(?i)((?:SCP)[- ]\d{3,4}(?:-[A-Z0-9]+)*)(?!\w)`: `SCP`, a required separator,
   * a run of exactly three or four digits, then the longest chain of `-<alnums>`
   * pieces that the lookahead accepts. The group is the whole match.
   */
  function BareAt(s: string, i: nat): (r: Option<Span>)
    requires i <= |s|
    ensures r.Some? ==> SpanAt(r.value, s, i)
  {
    if CiMatchAt(s, i, "SCP") && SeparatorAt(s, i + 3) then
      match DigitsEnd(s, i + 4)
      case Some(d) =>
        (match SuffixEnd(s, d)
        case Some(e) => Some(Span(i, e, i, e))
        case None => None)
      case None => None
    else None
  }

  /** A bare match exists exactly after `SCP`, a separator and a 3-4 digit run not followed by a word character. */
  lemma BareAtMeaning(s: string, i: nat)
    requires i <= |s|
    ensures BareAt(s, i).Some? <==> (CiMatchAt(s, i, "SCP") && SeparatorAt(s, i + 3)
      && DigitsEnd(s, i + 4).Some? && NotWordAt(s, DigitsEnd(s, i + 4).value))
    ensures var r := BareAt(s, i);
      r.Some? ==> (r.value.groupStart == i && r.value.groupEnd == r.value.end
        && DigitsEnd(s, i + 4).value <= r.value.end && Chain(s, DigitsEnd(s, i + 4).value, r.value.end)
        && NotWordAt(s, r.value.end))
  {
    if CiMatchAt(s, i, "SCP") && SeparatorAt(s, i + 3) && DigitsEnd(s, i + 4).Some? {
      SuffixEndMeaning(s, DigitsEnd(s, i + 4).value);
    }
  }

  // ---------------------------------------------------------------- scanning

  datatype Pattern =
    | Bracket
    | Spoiler
    | HttpUrl
    | Decimal
    | UserMention
    | International(shape: Intl)
    | BareMention

  function MatchAt(p: Pattern, s: string, i: nat): (r: Option<Span>)
    requires i <= |s|
    ensures r.Some? ==> SpanAt(r.value, s, i)
  {
    match p
    case Bracket => BracketAt(s, i)
    case Spoiler => SpoilerAt(s, i)
    case HttpUrl => UrlAt(s, i)
    case Decimal => DecimalAt(s, i)
    case UserMention => UserMentionAt(s, i)
    case International(shape) => IntlAt(shape, s, i)
    case BareMention => BareAt(s, i)
  }

  /** `re.finditer(p, s[i..])`: leftmost matches, each search resuming where the last match ended. */
  function Scan(p: Pattern, s: string, i: nat): (r: seq<Span>)
    requires i <= |s|
    ensures forall sp :: sp in r ==> i <= sp.start && SpanAt(sp, s, sp.start)
    decreases |s| - i
  {
    if i == |s| then []
    else match MatchAt(p, s, i)
      case Some(sp) => [sp] + Scan(p, s, sp.end)
      case None => Scan(p, s, i + 1)
  }

  /** `re.sub(p, "", s[i..])`: the same scan, keeping only the text between matches. */
  function Sub(p: Pattern, s: string, i: nat): string
    requires i <= |s|
    decreases |s| - i
  {
    if i == |s| then []
    else match MatchAt(p, s, i)
      case Some(sp) => Sub(p, s, sp.end)
      case None => [s[i]] + Sub(p, s, i + 1)
  }

  /**
   * Non-empty spans that lie inside `s[i..]`, in order and without overlap: each starts at
   * or after the end of the one before it.
   */
  predicate Ordered(spans: seq<Span>, s: string, i: nat)
    decreases |spans|
  {
    spans == [] || (i <= spans[0].start < spans[0].end <= |s| && Ordered(spans[1..], s, spans[0].end))
  }

  /** The text of `s[i..]` outside the given spans. */
  function Gaps(s: string, i: nat, spans: seq<Span>): string
    requires i <= |s| && Ordered(spans, s, i)
    decreases |spans|
  {
    if spans == [] then s[i..]
    else s[i..spans[0].start] + Gaps(s, spans[0].end, spans[1..])
  }

  /** The spans of the scan are ordered and disjoint. */
  lemma {:induction false} ScanOrdered(p: Pattern, s: string, i: nat)
    requires i <= |s|
    ensures Ordered(Scan(p, s, i), s, i)
    decreases |s| - i
  {
    if i < |s| {
      ScanStep(p, s, i);
      var m := MatchAt(p, s, i);
      if m.Some? {
        ScanOrdered(p, s, m.value.end);
        OrderedCons(s, i, m.value, Scan(p, s, m.value.end));
      } else {
        ScanOrdered(p, s, i + 1);
      }
    }
  }

  /** One step of the scan: a match at `i` is yielded and the scan resumes at its end, else it moves on by one. */
  lemma ScanStep(p: Pattern, s: string, i: nat)
    requires i < |s|
    ensures var m := MatchAt(p, s, i);
      && (m.Some? ==> SpanAt(m.value, s, i) && Scan(p, s, i) == [m.value] + Scan(p, s, m.value.end))
      && (m.None? ==> Scan(p, s, i) == Scan(p, s, i + 1))
  {
  }

  lemma OrderedCons(s: string, i: nat, sp: Span, rest: seq<Span>)
    requires i == sp.start < sp.end <= |s| && Ordered(rest, s, sp.end)
    ensures Ordered([sp] + rest, s, i)
  {
    assert ([sp] + rest)[1..] == rest;
  }

  /** Every span of the scan is the match at its own start, at or after `i`. */
  lemma {:induction false} ScanMatches(p: Pattern, s: string, i: nat)
    requires i <= |s|
    ensures forall sp :: sp in Scan(p, s, i) ==> i <= sp.start < |s| && MatchAt(p, s, sp.start) == Some(sp)
    decreases |s| - i
  {
    if i < |s| {
      ScanMatches(p, s, Resume(p, s, i));
      ScanMatchesStep(p, s, i);
    }
  }

  /** Where the scan resumes after looking at position `i`. */
  function Resume(p: Pattern, s: string, i: nat): (r: nat)
    requires i < |s|
    ensures i < r <= |s|
  {
    match MatchAt(p, s, i)
    case Some(m) => m.end
    case None => i + 1
  }

  lemma ScanMatchesStep(p: Pattern, s: string, i: nat)
    requires i < |s|
    requires forall sp :: sp in Scan(p, s, Resume(p, s, i)) ==> Resume(p, s, i) <= sp.start < |s| && MatchAt(p, s, sp.start) == Some(sp)
    ensures forall sp :: sp in Scan(p, s, i) ==> i <= sp.start < |s| && MatchAt(p, s, sp.start) == Some(sp)
  {
    ScanStep(p, s, i);
  }

  /** A position the scan does not cover, from `i` on, is not the start of a match. */
  lemma {:induction false} ScanLeftmost(p: Pattern, s: string, i: nat, j: nat)
    requires i <= j < |s|
    requires forall sp :: sp in Scan(p, s, i) ==> !(sp.start <= j < sp.end)
    ensures MatchAt(p, s, j).None?
    decreases |s| - i
  {
    if i < j {
      match MatchAt(p, s, i)
      case Some(sp) =>
        assert sp in Scan(p, s, i);
        ScanLeftmost(p, s, sp.end, j);
      case None =>
        ScanLeftmost(p, s, i + 1, j);
    }
  }

  /** Substitution by the empty string deletes exactly the scanned matches and keeps the rest. */
  lemma {:induction false} SubIsGaps(p: Pattern, s: string, i: nat)
    requires i <= |s|
    ensures Ordered(Scan(p, s, i), s, i)
    ensures Sub(p, s, i) == Gaps(s, i, Scan(p, s, i))
    decreases |s| - i
  {
    ScanOrdered(p, s, i);
    if i < |s| {
      var m := MatchAt(p, s, i);
      if m.Some? {
        SubIsGaps(p, s, m.value.end);
        GapsAfterMatch(s, i, m.value, Scan(p, s, m.value.end));
      } else {
        SubIsGaps(p, s, i + 1);
        GapsAfterKeptChar(s, i, Scan(p, s, i + 1));
      }
    }
  }

  lemma GapsAfterMatch(s: string, i: nat, sp: Span, rest: seq<Span>)
    requires i == sp.start < sp.end <= |s| && Ordered(rest, s, sp.end)
    ensures Ordered([sp] + rest, s, i)
    ensures Gaps(s, i, [sp] + rest) == Gaps(s, sp.end, rest)
  {
    var spans := [sp] + rest;
    assert spans[1..] == rest;
    assert s[i..sp.start] == [];
  }

  lemma GapsAfterKeptChar(s: string, i: nat, spans: seq<Span>)
    requires i < |s| && Ordered(spans, s, i + 1)
    ensures Ordered(spans, s, i)
    ensures Gaps(s, i, spans) == [s[i]] + Gaps(s, i + 1, spans)
  {
    if spans != [] {
      var a, rest := spans[0].start, Gaps(s, spans[0].end, spans[1..]);
      calc {
        Gaps(s, i, spans);
        s[i..a] + rest;
        { assert s[i..a] == [s[i]] + s[i + 1..a]; }
        ([s[i]] + s[i + 1..a]) + rest;
        [s[i]] + (s[i + 1..a] + rest);
        [s[i]] + Gaps(s, i + 1, spans);
      }
    } else {
      assert s[i..] == [s[i]] + s[i + 1..];
    }
  }

  /** When nothing matches, substitution leaves the text unchanged: the `if matches:` guard changes nothing. */
  lemma SubWithoutMatches(p: Pattern, s: string)
    requires Scan(p, s, 0) == []
    ensures Sub(p, s, 0) == s
  {
    SubIsGaps(p, s, 0);
  }

  /** Substitution only deletes characters. */
  lemma {:induction false} SubIsSubsequence(p: Pattern, s: string, i: nat)
    requires i <= |s|
    ensures Seqs.IsSubsequence(Sub(p, s, i), s[i..])
    decreases |s| - i
  {
    if i < |s| {
      SubIsSubsequence(p, s, Resume(p, s, i));
      SubsequenceStep(p, s, i);
    }
  }

  lemma SubsequenceStep(p: Pattern, s: string, i: nat)
    requires i < |s|
    requires Seqs.IsSubsequence(Sub(p, s, Resume(p, s, i)), s[Resume(p, s, i)..])
    ensures Seqs.IsSubsequence(Sub(p, s, i), s[i..])
  {
    var e := Resume(p, s, i);
    if MatchAt(p, s, i).Some? {
      assert s[i..][e - i..] == s[e..];
      Seqs.SubsequenceOfSuffix(Sub(p, s, e), s[i..], e - i);
    } else {
      assert Sub(p, s, i) == [s[i]] + Sub(p, s, e);
      assert s[i..][1..] == s[e..];
      assert s[i..][0] == s[i];
    }
  }
}
