/**
 * The label-and-figure regular expressions of the conditions scraper, written
 * as token sequences with one capture group and matched by hand.
 *
 * Every expression carries the `i` flag; a literal is compared ignoring ASCII
 * case, which for literals made of ASCII characters is exactly what a
 * non-Unicode `/i` expression accepts.  `\s*`, `\d+` and `[-+]?` take as much
 * as they can and never give any back: in these expressions the token after a
 * `\s*` never starts with white space and the token after a `\d+` never starts
 * with a digit, so giving characters back could never let the rest match.
 */
module Patterns {
  import opened Wrappers
  import opened Strings
  import opened Numerals

  /** One token: a literal, `\s*`, or a figure `\d+` (`[-+]?\d+` when signed). */
  datatype Token = Lit(text: string) | Blank | Figure(signed: bool)

  /** An expression with one capture group, a figure, between the tokens `before` and `after`. */
  datatype Pattern = Pattern(before: seq<Token>, signed: bool, after: seq<Token>)

  /** Where token `t` ends when it starts at `pos`, or `None` when it does not match there. */
  function Step(t: Token, s: string, pos: nat): (r: Option<nat>)
    requires pos <= |s|
    ensures r.Some? ==> pos <= r.value <= |s| && (t.Figure? ==> pos < r.value)
  {
    match t
    case Lit(text) => if CiAt(s, pos, text) then Some(pos + |text|) else None
    case Blank => Some(RunEnd(s, pos, WhiteSpace))
    case Figure(signed) =>
      var a := if signed && pos < |s| && (s[pos] == '-' || s[pos] == '+') then pos + 1 else pos;
      var e := RunEnd(s, a, Digits);
      if a < e then Some(e) else None
  }

  /** Where the tokens `ts` from index `i` on end when they start at `pos`. */
  function Steps(ts: seq<Token>, i: nat, s: string, pos: nat): (r: Option<nat>)
    requires i <= |ts| && pos <= |s|
    ensures r.Some? ==> pos <= r.value <= |s|
    decreases |ts| - i
  {
    if i == |ts| then Some(pos)
    else
      match Step(ts[i], s, pos)
      case None => None
      case Some(e) => Steps(ts, i + 1, s, e)
  }

  /** The pattern anchored at `pos`: the end of the match and the span of the figure, which is never empty. */
  function MatchAt(p: Pattern, s: string, pos: nat): (r: Option<(nat, (nat, nat))>)
    requires pos <= |s|
    ensures r.Some? ==> pos <= r.value.1.0 < r.value.1.1 <= r.value.0 <= |s|
  {
    match Steps(p.before, 0, s, pos)
    case None => None
    case Some(a) =>
      match Step(Figure(p.signed), s, a)
      case None => None
      case Some(b) =>
        match Steps(p.after, 0, s, b)
        case None => None
        case Some(e) => Some((e, (a, b)))
  }

  /** The start positions at which the pattern matches. */
  function MatchesAt(p: Pattern, s: string): nat -> bool {
    (q: nat) => q <= |s| && MatchAt(p, s, q).Some?
  }

  /** `s.match(p)`: the leftmost start position of a match. */
  function Leftmost(p: Pattern, s: string, from: nat): (q: Option<nat>)
    ensures q.Some? ==> from <= q.value <= |s| && MatchAt(p, s, q.value).Some?
  {
    FirstWhere(MatchesAt(p, s), from, |s| + 1)
  }

  /** No match starts before the leftmost one, and none at all when the search fails. */
  lemma {:induction false} LeftmostLeast(p: Pattern, s: string, from: nat)
    ensures Leftmost(p, s, from).Some? ==>
      forall q :: from <= q < Leftmost(p, s, from).value ==> MatchAt(p, s, q).None?
    ensures Leftmost(p, s, from).None? ==> forall q :: from <= q <= |s| ==> MatchAt(p, s, q).None?
  {
    FirstWhereLeast(MatchesAt(p, s), from, |s| + 1);
    if Leftmost(p, s, from).Some? {
      forall q | from <= q < Leftmost(p, s, from).value ensures MatchAt(p, s, q).None? {
        assert !MatchesAt(p, s)(q);
      }
    } else {
      forall q | from <= q <= |s| ensures MatchAt(p, s, q).None? {
        assert !MatchesAt(p, s)(q);
      }
    }
  }

  // ---------------------------------------------------------------------------
  // Figures

  /** The text a figure token matches: digits, after a sign when signed. */
  predicate FigureText(signed: bool, g: string) {
    IsSignedDigits(g) && (!signed ==> IsDigits(g))
  }

  lemma {:induction false} StepFigure(signed: bool, s: string, pos: nat)
    requires pos <= |s| && Step(Figure(signed), s, pos).Some?
    ensures FigureText(signed, s[pos..Step(Figure(signed), s, pos).value])
  {
    var a := if signed && pos < |s| && (s[pos] == '-' || s[pos] == '+') then pos + 1 else pos;
    var e := Step(Figure(signed), s, pos).value;
    RunEndSpan(s, a, Digits);
    var g := s[pos..e];
    forall i | a - pos <= i < |g| ensures IsDigit(g[i]) {
      assert g[i] == s[pos + i];
    }
    if a > pos {
      assert g[1..] == s[a..e];
      forall i | 0 <= i < |g| - 1 ensures IsDigit(g[1..][i]) {
        assert g[1..][i] == g[i + 1];
      }
    }
  }

  /** The captured figure of the match at `q`. */
  function GroupAt(p: Pattern, s: string, q: nat): (g: string)
    requires q <= |s| && MatchAt(p, s, q).Some?
    ensures FigureText(p.signed, g)
  {
    var c := MatchAt(p, s, q).value.1;
    StepFigure(p.signed, s, c.0);
    s[c.0..c.1]
  }

  /** `m ? Number(m[1]) : null` for `m = s.match(p)`. */
  function Reading(p: Pattern, s: string): (r: Option<int>)
  {
    match Leftmost(p, s, 0)
    case None => None
    case Some(q) => Some(SignedValue(GroupAt(p, s, q)))
  }

  /**
   * The figures of `[...s.matchAll(p)].map(m => Number(m[1]))`, searching from
   * `from`: each search resumes where the previous match ended, and as no match
   * is empty it never has to step over one.
   */
  function ReadingsFrom(p: Pattern, s: string, from: nat): (rs: seq<int>)
    decreases |s| + 1 - from
  {
    match Leftmost(p, s, from)
    case None => []
    case Some(q) =>
      var end := MatchAt(p, s, q).value.0;
      [SignedValue(GroupAt(p, s, q))] + ReadingsFrom(p, s, end)
  }

  function Readings(p: Pattern, s: string): (rs: seq<int>)
  {
    ReadingsFrom(p, s, 0)
  }

  // ---------------------------------------------------------------------------
  // Properties of readings

  /** A reading is absent exactly when the pattern matches nowhere. */
  lemma {:induction false} ReadingAbsent(p: Pattern, s: string)
    ensures Reading(p, s).None? <==> forall q: nat :: q <= |s| ==> MatchAt(p, s, q).None?
  {
    LeftmostLeast(p, s, 0);
  }

  /** A figure without a sign is never negative. */
  lemma {:induction false} UnsignedValue(g: string)
    requires FigureText(false, g)
    ensures SignedValue(g) == DigitsValue(g) >= 0
  {
    assert IsDigit(g[0]);
  }

  /** An unsigned figure pattern reads a non-negative number, and every match-all reading too. */
  lemma {:induction false} ReadingNonNegative(p: Pattern, s: string)
    requires !p.signed
    ensures Reading(p, s).Some? ==> Reading(p, s).value >= 0
  {
    if Reading(p, s).Some? {
      UnsignedValue(GroupAt(p, s, Leftmost(p, s, 0).value));
    }
  }

  lemma {:induction false} ReadingsNonNegative(p: Pattern, s: string, from: nat, i: nat)
    requires !p.signed
    requires i < |ReadingsFrom(p, s, from)|
    ensures ReadingsFrom(p, s, from)[i] >= 0
    decreases |s| + 1 - from
  {
    var q := Leftmost(p, s, from).value;
    var end := MatchAt(p, s, q).value.0;
    if i == 0 {
      UnsignedValue(GroupAt(p, s, q));
    } else {
      ReadingsNonNegative(p, s, end, i - 1);
    }
  }

  /** The first of all the matches is the one `match` finds: `matchAll` and `match` agree on it. */
  lemma {:induction false} FirstReading(p: Pattern, s: string)
    ensures Readings(p, s) == [] <==> Reading(p, s).None?
    ensures Readings(p, s) != [] ==> Readings(p, s)[0] == Reading(p, s).value
  {
  }

  /** Tokens that match from `i` on still match when the sequence is cut short at `k`, and end no later. */
  lemma {:induction false} StepsPrefix(ts: seq<Token>, k: nat, i: nat, s: string, pos: nat)
    requires i <= k <= |ts| && pos <= |s| && Steps(ts, i, s, pos).Some?
    ensures Steps(ts[..k], i, s, pos).Some?
    ensures Steps(ts[..k], i, s, pos).value <= Steps(ts, i, s, pos).value
    decreases k - i
  {
    if i < k {
      assert ts[..k][i] == ts[i];
      StepsPrefix(ts, k, i + 1, s, Step(ts[i], s, pos).value);
    }
  }

  /**
   * Whenever the pattern reads a figure, the first `k` tokens before it match
   * from the start of the leftmost match, and end at or before the figure read.
   */
  lemma {:induction false} ReadingAfter(p: Pattern, s: string, k: nat)
    requires k <= |p.before| && Reading(p, s).Some?
    ensures Leftmost(p, s, 0).Some?
    ensures var q := Leftmost(p, s, 0).value;
      && Reading(p, s) == Some(SignedValue(GroupAt(p, s, q)))
      && Steps(p.before[..k], 0, s, q).Some?
      && Steps(p.before[..k], 0, s, q).value <= MatchAt(p, s, q).value.1.0
  {
    var q := Leftmost(p, s, 0).value;
    StepsPrefix(p.before, k, 0, s, q);
  }

  /** A match starts with the pattern's leading literal. */
  lemma {:induction false} LeadingLiteral(p: Pattern, s: string, q: nat)
    requires q <= |s| && p.before != [] && p.before[0].Lit?
    requires MatchAt(p, s, q).Some?
    ensures CiAt(s, q, p.before[0].text)
  {
  }

  /** A pattern that begins with a literal reads nothing from a text that lacks the literal. */
  lemma {:induction false} ReadingNeedsLiteral(p: Pattern, s: string)
    requires p.before != [] && p.before[0].Lit?
    requires !ContainsCi(s, p.before[0].text)
    ensures Reading(p, s).None? && Readings(p, s) == []
  {
    if Leftmost(p, s, 0).Some? {
      LeadingLiteral(p, s, Leftmost(p, s, 0).value);
      assert false;
    }
  }
}
