/**
 * Character classes, case folding and string helpers shared by the whole model.
 * Python's regex classes `\d`, `\w`, `\s` and its `lower()` are Unicode-aware;
 * this model gives them their ASCII meaning.
 */
module Text {
  import opened Wrappers

  predicate IsDigit(c: char) { '0' <= c <= '9' }

  predicate IsLetter(c: char) { 'a' <= c <= 'z' || 'A' <= c <= 'Z' }

  predicate IsAlnum(c: char) { IsDigit(c) || IsLetter(c) }

  /** Regex `\w`. */
  predicate IsWordChar(c: char) { IsAlnum(c) || c == '_' }

  /** Regex `\s` on ASCII: space, tab, the line and page breaks, and the separators 0x1C-0x1F. */
  predicate IsSpace(c: char)
  {
    c == ' ' || c == '\t' || c == '\n' || c == '\r' || c == '\U{000B}' || c == '\U{000C}'
    || '\U{001C}' <= c <= '\U{001F}'
  }

  /** ASCII lower-casing of one character: an upper-case letter becomes its lower-case partner. */
  function Lower(c: char): (d: char)
    ensures IsLetter(c) ==> 'a' <= d <= 'z'
    ensures 'A' <= c <= 'Z' ==> d as int == c as int + 32
    ensures !('A' <= c <= 'Z') ==> d == c
    ensures !('A' <= d <= 'Z')
  {
    if 'A' <= c <= 'Z' then (c as int + 32) as char else c
  }

  /**
   * Python's `str.lower()` on ASCII: the result has no upper-case letter, each upper-case
   * letter of `s` becomes its lower-case partner and every other character is kept.
   */
  function LowerStr(s: string): (r: string)
    ensures |r| == |s|
    ensures forall k :: 0 <= k < |r| ==> !('A' <= r[k] <= 'Z')
    ensures forall k :: 0 <= k < |s| && 'A' <= s[k] <= 'Z' ==> r[k] as int == s[k] as int + 32
    ensures forall k :: 0 <= k < |s| && !('A' <= s[k] <= 'Z') ==> r[k] == s[k]
    ensures forall k :: 0 <= k < |s| ==> r[k] == Lower(s[k])
  {
    seq(|s|, k requires 0 <= k < |s| => Lower(s[k]))
  }

  /** Lower-casing twice is lower-casing once. */
  lemma LowerStrIdempotent(s: string)
    ensures LowerStr(LowerStr(s)) == LowerStr(s)
  {
  }

  /** `a.lower() == b.lower()`. */
  predicate EqualsIgnoreCase(a: string, b: string)
  {
    LowerStr(a) == LowerStr(b)
  }

  /** `w` occurs at position `i` of `s`, letters compared case-insensitively (regex flag `(?i)`). */
  predicate CiMatchAt(s: string, i: nat, w: string)
  {
    i + |w| <= |s| && forall k :: 0 <= k < |w| ==> Lower(s[i + k]) == Lower(w[k])
  }

  /** `w` occurs at position `i` of `s`, exactly. */
  predicate OccursAt(s: string, i: nat, w: string)
  {
    i + |w| <= |s| && s[i..i + |w|] == w
  }

  predicate StartsWith(s: string, w: string)
  {
    OccursAt(s, 0, w)
  }

  ghost predicate Contains(s: string, w: string)
  {
    exists i: nat :: OccursAt(s, i, w)
  }

  /** The classes whose maximal runs the patterns consume. */
  datatype CharClass =
    | Digits       // \d
    | Alnums       // [A-Z0-9] under (?i)
    | NameChars    // [A-Z0-9_-] under (?i)
    | NonSpaces    // [^ ]

  predicate InClass(c: char, cls: CharClass)
  {
    match cls
    case Digits => IsDigit(c)
    case Alnums => IsAlnum(c)
    case NameChars => IsAlnum(c) || c == '_' || c == '-'
    case NonSpaces => c != ' '
  }

  /** Length of the longest run of `cls` characters starting at `i`: what a greedy `cls*` consumes. */
  function Run(s: string, i: nat, cls: CharClass): (n: nat)
    requires i <= |s|
    ensures i + n <= |s|
    ensures forall k :: i <= k < i + n ==> InClass(s[k], cls)
    ensures i + n == |s| || !InClass(s[i + n], cls)
    decreases |s| - i
  {
    if i < |s| && InClass(s[i], cls) then 1 + Run(s, i + 1, cls) else 0
  }

  /** First position `q >= i` holding `c`. */
  function FindChar(s: string, i: nat, c: char): (r: Option<nat>)
    requires i <= |s|
    ensures r.Some? ==> i <= r.value < |s| && s[r.value] == c
    ensures r.Some? ==> forall k :: i <= k < r.value ==> s[k] != c
    ensures r.None? ==> forall k :: i <= k < |s| ==> s[k] != c
    decreases |s| - i
  {
    if i == |s| then None
    else if s[i] == c then Some(i)
    else FindChar(s, i + 1, c)
  }

  /** First position `q >= i` at which `w` occurs. */
  function Find(s: string, i: nat, w: string): (r: Option<nat>)
    requires i <= |s|
    ensures r.Some? ==> i <= r.value && OccursAt(s, r.value, w)
    ensures r.Some? ==> forall k :: i <= k < r.value ==> !OccursAt(s, k, w)
    ensures r.None? ==> forall k :: i <= k ==> !OccursAt(s, k, w)
    decreases |s| - i
  {
    if OccursAt(s, i, w) then Some(i)
    else if i == |s| then None
    else Find(s, i + 1, w)
  }

  /** Python's `s.replace(q, r)`: every non-overlapping occurrence of `q`, left to right. */
  function ReplaceAll(s: string, q: string, r: string): string
    requires q != []
    decreases |s|
  {
    if s == [] then []
    else if StartsWith(s, q) then r + ReplaceAll(s[|q|..], q, r)
    else [s[0]] + ReplaceAll(s[1..], q, r)
  }

  /**
   * If the replacement can only begin with a piece of `w` where the pattern also does,
   * a `w` at the front of the output was already at the front of the input.
   */
  lemma {:induction false} PrefixSurvivesReplace(x: string, q: string, r: string, w: string)
    requires q != [] && |w| <= |r|
    requires forall k :: 0 <= k < |w| && StartsWith(r, w[k..]) ==> StartsWith(q, w[k..])
    requires StartsWith(ReplaceAll(x, q, r), w)
    ensures StartsWith(x, w)
    decreases |x|
  {
    if w == [] {
    } else if x == [] {
    } else if StartsWith(x, q) {
      var out := ReplaceAll(x, q, r);
      assert out == r + ReplaceAll(x[|q|..], q, r);
      assert out[..|w|] == r[..|w|];
      assert w[0..] == w;
      assert StartsWith(r, w[0..]);
      assert StartsWith(q, w);
      assert x[..|w|] == q[..|w|];
    } else {
      var tail := ReplaceAll(x[1..], q, r);
      assert ReplaceAll(x, q, r) == [x[0]] + tail;
      assert w[0] == x[0];
      assert StartsWith(tail, w[1..]) by {
        assert tail[..|w| - 1] == ReplaceAll(x, q, r)[1..|w|];
      }
      forall k | 0 <= k < |w[1..]| && StartsWith(r, w[1..][k..])
        ensures StartsWith(q, w[1..][k..])
      {
        assert w[1..][k..] == w[k + 1..];
      }
      PrefixSurvivesReplace(x[1..], q, r, w[1..]);
      assert x == [x[0]] + x[1..];
      assert x[..|w|] == [x[0]] + x[1..][..|w| - 1];
    }
  }

  lemma AbsentFromSuffix(s: string, n: nat, p: string)
    requires n <= |s| && !Contains(s, p)
    ensures !Contains(s[n..], p)
  {
    forall i: nat | OccursAt(s[n..], i, p) ensures false {
      assert s[n + i..n + i + |p|] == s[n..][i..i + |p|];
      assert OccursAt(s, n + i, p);
    }
  }

  /** No occurrence of `p` can begin inside `r`, whatever text follows `r`. */
  ghost predicate NoStartInside(r: string, p: string)
  {
    forall k :: 0 <= k < |r| ==> MismatchFrom(r, p, k)
  }

  /** Read from position `k`, `r` differs from `p` before either ends. */
  ghost predicate MismatchFrom(r: string, p: string, k: nat)
  {
    exists i :: 0 <= i < |p| && k + i < |r| && r[k + i] != p[i]
  }

  /** Whatever piece of `p` the replacement `r` can begin with, the pattern `q` begins with too. */
  ghost predicate LeadsLikePattern(r: string, p: string, q: string)
  {
    forall k :: 1 <= k < |p| && StartsWith(r, p[k..]) ==> StartsWith(q, p[k..])
  }

  lemma AbsentAfterReplacement(r: string, tail: string, p: string)
    requires p != [] && !Contains(tail, p) && NoStartInside(r, p)
    ensures !Contains(r + tail, p)
  {
    var out := r + tail;
    forall i: nat | i + |p| <= |out| ensures !OccursAt(out, i, p) {
      if i < |r| {
        assert MismatchFrom(r, p, i);
        var j :| 0 <= j < |p| && i + j < |r| && r[i + j] != p[j];
        assert out[i..i + |p|][j] != p[j];
      } else {
        assert out[i..i + |p|] == tail[i - |r|..i - |r| + |p|];
        assert !OccursAt(tail, i - |r|, p);
      }
    }
  }

  /**
   * Replacing `q` by `r` cannot create an occurrence of `p` when none can begin inside `r`
   * and `r` can only begin with a piece of `p` where `q` also does.
   */
  lemma {:induction false} ReplaceKeepsAbsent(s: string, q: string, r: string, p: string)
    requires q != [] && p != [] && |p| - 1 <= |r|
    requires !Contains(s, p)
    requires NoStartInside(r, p) && LeadsLikePattern(r, p, q)
    ensures !Contains(ReplaceAll(s, q, r), p)
    decreases |s|
  {
    if s == [] {
      assert ReplaceAll(s, q, r) == [];
    } else if StartsWith(s, q) {
      AbsentFromSuffix(s, |q|, p);
      ReplaceKeepsAbsent(s[|q|..], q, r, p);
      AbsentAfterReplacement(r, ReplaceAll(s[|q|..], q, r), p);
    } else {
      AbsentFromSuffix(s, 1, p);
      ReplaceKeepsAbsent(s[1..], q, r, p);
      CopiedHeadStartsNoMatch(s, q, r, p);
      AbsentAfterCopiedHead(s[0], ReplaceAll(s[1..], q, r), p);
    }
  }

  /** Replacing `q` leaves no `q` when none can begin inside the replacement. */
  lemma {:induction false} ReplaceRemoves(s: string, q: string, r: string)
    requires q != [] && |q| - 1 <= |r|
    requires NoStartInside(r, q) && LeadsLikePattern(r, q, q)
    ensures !Contains(ReplaceAll(s, q, r), q)
    decreases |s|
  {
    if s == [] {
      assert ReplaceAll(s, q, r) == [];
    } else if StartsWith(s, q) {
      ReplaceRemoves(s[|q|..], q, r);
      AbsentAfterReplacement(r, ReplaceAll(s[|q|..], q, r), q);
    } else {
      ReplaceRemoves(s[1..], q, r);
      var out := [s[0]] + ReplaceAll(s[1..], q, r);
      if OccursAt(out, 0, q) {
        CopiedHeadOccurrence(s, q, r, q);
      }
      AbsentAfterCopiedHead(s[0], ReplaceAll(s[1..], q, r), q);
    }
  }

  lemma AbsentAfterCopiedHead(c: char, tail: string, p: string)
    requires p != [] && !Contains(tail, p) && !OccursAt([c] + tail, 0, p)
    ensures !Contains([c] + tail, p)
  {
    var out := [c] + tail;
    forall i: nat | OccursAt(out, i, p) ensures false {
      assert i != 0;
      assert out[i..i + |p|] == tail[i - 1..i - 1 + |p|];
      assert OccursAt(tail, i - 1, p);
    }
  }

  lemma CopiedHeadStartsNoMatch(s: string, q: string, r: string, p: string)
    requires q != [] && p != [] && |p| - 1 <= |r| && s != [] && !StartsWith(s, q)
    requires !Contains(s, p)
    requires LeadsLikePattern(r, p, q)
    ensures !OccursAt([s[0]] + ReplaceAll(s[1..], q, r), 0, p)
  {
    if OccursAt([s[0]] + ReplaceAll(s[1..], q, r), 0, p) {
      CopiedHeadOccurrence(s, q, r, p);
    }
  }

  lemma CopiedHeadOccurrence(s: string, q: string, r: string, p: string)
    requires q != [] && p != [] && |p| - 1 <= |r| && s != []
    requires LeadsLikePattern(r, p, q)
    requires OccursAt([s[0]] + ReplaceAll(s[1..], q, r), 0, p)
    ensures OccursAt(s, 0, p)
  {
    var rest := s[1..];
    var tail := ReplaceAll(rest, q, r);
    var out := [s[0]] + tail;
    assert out[..|p|] == p;
    assert out[1..] == tail;
    assert StartsWith(tail, p[1..]) by {
      assert tail[..|p| - 1] == out[1..][..|p| - 1] == out[..|p|][1..];
    }
    forall k | 0 <= k < |p[1..]| && StartsWith(r, p[1..][k..])
      ensures StartsWith(q, p[1..][k..])
    {
      assert p[1..][k..] == p[k + 1..];
    }
    PrefixSurvivesReplace(rest, q, r, p[1..]);
    assert s[..|p|] == [s[0]] + rest[..|p| - 1];
  }

  /** Python's `sep.join(parts)`. */
  function Join(parts: seq<string>, sep: string): (r: string)
    ensures parts == [] ==> r == []
    ensures |parts| == 1 ==> r == parts[0]
  {
    if parts == [] then []
    else if |parts| == 1 then parts[0]
    else parts[0] + sep + Join(parts[1..], sep)
  }

  function DigitChar(d: nat): char
    requires d < 10
  {
    ('0' as int + d) as char
  }

  /** Decimal digits of `n`, most significant first, no leading zeros: Python's `str(n)` for n >= 0. */
  function NatToString(n: nat): (r: string)
    ensures |r| >= 1
    ensures forall k :: 0 <= k < |r| ==> IsDigit(r[k])
    decreases n
  {
    if n < 10 then [DigitChar(n)] else NatToString(n / 10) + [DigitChar(n % 10)]
  }

  /** Python's `str(n)` / `f"{n}"` for an int. */
  function IntToString(n: int): (r: string)
    ensures n >= 0 ==> r == NatToString(n)
    ensures n < 0 ==> r == "-" + NatToString(-n)
  {
    if n >= 0 then NatToString(n) else "-" + NatToString(-n)
  }

  /** The value of a string of decimal digits: the inverse of NatToString. */
  function DigitValue(c: char): nat
    requires IsDigit(c)
  {
    c as int - '0' as int
  }

  function DigitsValue(s: string): nat
    requires forall k :: 0 <= k < |s| ==> IsDigit(s[k])
  {
    if s == [] then 0 else 10 * DigitsValue(s[..|s| - 1]) + DigitValue(s[|s| - 1])
  }

  lemma {:induction false} DigitsValueOfNatToString(n: nat)
    ensures DigitsValue(NatToString(n)) == n
    decreases n
  {
    var s := NatToString(n);
    if n >= 10 {
      DigitsValueOfNatToString(n / 10);
      assert s[..|s| - 1] == NatToString(n / 10);
    }
  }
}
