/** The fragment of JavaScript regular expressions that the schedule screens use: character
    ranges (`\d`, `[01]`, `[0-5]`, a literal character), concatenation and alternation,
    matched against a whole string (a pattern framed by `^` and `$`, without the multiline flag). */
module Regex {

  datatype Re =
    | Range(lo: char, hi: char)   // one character c with lo <= c <= hi
    | Cat(left: Re, right: Re)
    | Alt(left: Re, right: Re)

  /** `s` as a whole belongs to the language of `re`. */
  predicate FullMatch(re: Re, s: string)
    decreases re, |s| + 1
  {
    match re
    case Range(lo, hi) => |s| == 1 && lo <= s[0] <= hi
    case Cat(a, b) => CutFrom(a, b, s, 0)
    case Alt(a, b) => FullMatch(a, s) || FullMatch(b, s)
  }

  /** Backtracking over the cut points of a concatenation: some cut at `k` or later splits `s`
      into a match of `a` followed by a match of `b`. */
  predicate CutFrom(a: Re, b: Re, s: string, k: nat)
    requires k <= |s|
    decreases Cat(a, b), |s| - k
  {
    (FullMatch(a, s[..k]) && FullMatch(b, s[k..])) || (k < |s| && CutFrom(a, b, s, k + 1))
  }

  function Width(re: Re): nat
  {
    match re
    case Range(_, _) => 1
    case Cat(a, b) => Width(a) + Width(b)
    case Alt(a, _) => Width(a)
  }

  /** Every string the pattern matches has the same length. */
  predicate FixedWidth(re: Re)
  {
    match re
    case Range(_, _) => true
    case Cat(a, b) => FixedWidth(a) && FixedWidth(b)
    case Alt(a, b) => FixedWidth(a) && FixedWidth(b) && Width(a) == Width(b)
  }

  lemma {:induction false} MatchHasWidth(re: Re, s: string)
    requires FixedWidth(re) && FullMatch(re, s)
    ensures |s| == Width(re)
    decreases re, |s| + 1
  {
    match re
    case Range(_, _) =>
    case Cat(a, b) => CutHasWidth(a, b, s, 0);
    case Alt(a, b) =>
      if FullMatch(a, s) { MatchHasWidth(a, s); } else { MatchHasWidth(b, s); }
  }

  lemma {:induction false} CutHasWidth(a: Re, b: Re, s: string, k: nat)
    requires FixedWidth(a) && FixedWidth(b) && k <= |s| && CutFrom(a, b, s, k)
    ensures |s| == Width(a) + Width(b)
    decreases Cat(a, b), |s| - k
  {
    if FullMatch(a, s[..k]) && FullMatch(b, s[k..]) {
      MatchHasWidth(a, s[..k]);
      MatchHasWidth(b, s[k..]);
    } else {
      CutHasWidth(a, b, s, k + 1);
    }
  }

  /** With a fixed-width left operand the only cut that can succeed is at its width. */
  lemma {:induction false} CutAtWidth(a: Re, b: Re, s: string, k: nat)
    requires FixedWidth(a) && k <= |s|
    ensures CutFrom(a, b, s, k) <==>
      k <= Width(a) <= |s| && FullMatch(a, s[..Width(a)]) && FullMatch(b, s[Width(a)..])
    decreases |s| - k
  {
    if FullMatch(a, s[..k]) {
      MatchHasWidth(a, s[..k]);
    }
    if k < |s| {
      CutAtWidth(a, b, s, k + 1);
    }
  }

  lemma CatMatch(a: Re, b: Re, s: string)
    requires FixedWidth(a)
    ensures FullMatch(Cat(a, b), s) <==>
      Width(a) <= |s| && FullMatch(a, s[..Width(a)]) && FullMatch(b, s[Width(a)..])
  {
    CutAtWidth(a, b, s, 0);
  }
}
