/**
 * Character classes and the string rewrites that the JavaScript sources express
 * with `toLowerCase`, `replace(/…/g, …)` and `trim`, written as functions over
 * `seq<char>`.  Case conversion is ASCII only.
 */
module Strings {
  import opened Wrappers

  const Nbsp: char := '\U{00A0}'
  const RightQuote: char := '\U{2019}'

  /** The characters in JavaScript's `\s` class; `String.prototype.trim` removes the same set. */
  predicate IsSpace(c: char) {
    || c == ' ' || c == '\t' || c == '\n' || c == '\U{000B}' || c == '\U{000C}' || c == '\r'
    || c == '\U{00A0}' || c == '\U{1680}' || ('\U{2000}' <= c <= '\U{200A}')
    || c == '\U{2028}' || c == '\U{2029}' || c == '\U{202F}' || c == '\U{205F}'
    || c == '\U{3000}' || c == '\U{FEFF}'
  }

  predicate IsUpper(c: char) { 'A' <= c <= 'Z' }

  predicate IsDigit(c: char) { '0' <= c <= '9' }

  /** JavaScript's `\w`, used by the word boundary `\b`. */
  predicate IsWordChar(c: char) { 'a' <= c <= 'z' || 'A' <= c <= 'Z' || IsDigit(c) || c == '_' }

  function LowerChar(c: char): (r: char)
    ensures !IsUpper(r)
    ensures !IsUpper(c) ==> r == c
  {
    if IsUpper(c) then (c as int + 32) as char else c
  }

  /** The character classes whose runs the sources match with `+` or `*`. */
  datatype CharClass = WhiteSpace | Dashes | Digits | NoneOf(excluded: char) {
    predicate Has(c: char) {
      match this
      case WhiteSpace => IsSpace(c)
      case Dashes => c == '_' || c == '-'
      case Digits => IsDigit(c)
      case NoneOf(x) => c != x
    }
  }

  // ---------------------------------------------------------------------------
  // Character-wise rewrites

  /** `toLowerCase()`, restricted to ASCII letters. */
  function Lower(s: string): (r: string)
    ensures |r| == |s|
    ensures forall i :: 0 <= i < |s| ==> r[i] == LowerChar(s[i])
  {
    seq(|s|, i requires 0 <= i < |s| => LowerChar(s[i]))
  }

  /** `replace(/[…]/g, to)`: every character of `from` becomes `to`. */
  function ReplaceChars(s: string, from: set<char>, to: char): (r: string)
    ensures |r| == |s|
    ensures forall i :: 0 <= i < |s| ==> r[i] == if s[i] in from then to else s[i]
  {
    seq(|s|, i requires 0 <= i < |s| => if s[i] in from then to else s[i])
  }

  /** Every character of class `k` becomes `rep`. */
  function ReplaceClass(s: string, k: CharClass, rep: char): (r: string)
    ensures |r| == |s|
    ensures forall i :: 0 <= i < |s| ==> r[i] == if k.Has(s[i]) then rep else s[i]
  {
    seq(|s|, i requires 0 <= i < |s| => if k.Has(s[i]) then rep else s[i])
  }

  /** `replace(/c/g, "")`: every occurrence of `c` is deleted. */
  function RemoveChar(s: string, c: char): (r: string)
    ensures c !in r
    ensures |r| <= |s|
    ensures forall i :: 0 <= i < |r| ==> r[i] in s
  {
    if s == [] then []
    else (if s[0] == c then [] else [s[0]]) + RemoveChar(s[1..], c)
  }

  lemma {:induction false} RemoveCharAbsent(s: string, c: char)
    requires c !in s
    ensures RemoveChar(s, c) == s
  {
    if s != [] {
      RemoveCharAbsent(s[1..], c);
    }
  }

  // ---------------------------------------------------------------------------
  // Runs of a class

  /** The end of the run of class-`k` characters that starts at `pos`. */
  function RunEnd(s: string, pos: nat, k: CharClass): (e: nat)
    requires pos <= |s|
    ensures pos <= e <= |s|
    ensures e == |s| || !k.Has(s[e])
    decreases |s| - pos
  {
    if pos < |s| && k.Has(s[pos]) then RunEnd(s, pos + 1, k) else pos
  }

  /** Every character of the run is in the class. */
  lemma {:induction false} RunEndSpan(s: string, pos: nat, k: CharClass)
    requires pos <= |s|
    ensures forall i :: pos <= i < RunEnd(s, pos, k) ==> k.Has(s[i])
    decreases |s| - pos
  {
    if pos < |s| && k.Has(s[pos]) {
      RunEndSpan(s, pos + 1, k);
    }
  }

  /**
   * `replace(/K+/g, rep)` applied to `s[pos..]`: a global greedy match of `K+`
   * replaces each maximal run of class-`k` characters by the one character `rep`.
   */
  function CollapseFrom(s: string, k: CharClass, rep: char, pos: nat): (r: string)
    requires pos <= |s|
    ensures |r| <= |s| - pos
    ensures pos < |s| ==> r != [] && r[0] == if k.Has(s[pos]) then rep else s[pos]
    decreases |s| - pos
  {
    if pos == |s| then []
    else if k.Has(s[pos]) then [rep] + CollapseFrom(s, k, rep, RunEnd(s, pos, k))
    else [s[pos]] + CollapseFrom(s, k, rep, pos + 1)
  }

  /** `s.replace(/K+/g, rep)`. */
  function CollapseRuns(s: string, k: CharClass, rep: char): (r: string)
    ensures |r| <= |s|
    ensures s == [] <==> r == []
  {
    CollapseFrom(s, k, rep, 0)
  }

  /** Where collapsing resumes after the character at `pos`: past its run, or just past it. */
  function NextPos(s: string, k: CharClass, pos: nat): (q: nat)
    requires pos < |s|
    ensures pos < q <= |s|
  {
    if k.Has(s[pos]) then RunEnd(s, pos, k) else pos + 1
  }

  lemma CollapseFromCons(s: string, k: CharClass, rep: char, pos: nat)
    requires pos < |s|
    ensures CollapseFrom(s, k, rep, pos) == [CollapseFrom(s, k, rep, pos)[0]] + CollapseFrom(s, k, rep, NextPos(s, k, pos))
  {
  }

  /** Every character left by collapsing is `rep` or an original character outside class `k`. */
  lemma {:induction false} CollapseFromChars(s: string, k: CharClass, rep: char, pos: nat)
    requires pos <= |s|
    ensures forall i :: 0 <= i < |CollapseFrom(s, k, rep, pos)| ==>
      CollapseFrom(s, k, rep, pos)[i] == rep || (!k.Has(CollapseFrom(s, k, rep, pos)[i]) && CollapseFrom(s, k, rep, pos)[i] in s)
    decreases |s| - pos
  {
    if pos < |s| {
      var r, rest := CollapseFrom(s, k, rep, pos), CollapseFrom(s, k, rep, NextPos(s, k, pos));
      CollapseFromChars(s, k, rep, NextPos(s, k, pos));
      CollapseFromCons(s, k, rep, pos);
      assert forall i :: 1 <= i < |r| ==> r[i] == rest[i - 1];
    }
  }

  lemma CollapseRunsChars(s: string, k: CharClass, rep: char)
    ensures forall i :: 0 <= i < |CollapseRuns(s, k, rep)| ==>
      CollapseRuns(s, k, rep)[i] == rep || (!k.Has(CollapseRuns(s, k, rep)[i]) && CollapseRuns(s, k, rep)[i] in s)
  {
    CollapseFromChars(s, k, rep, 0);
  }

  /** When `rep` is itself in class `k`, collapsing never leaves two `rep`s side by side. */
  lemma {:induction false} CollapseFromSeparated(s: string, k: CharClass, rep: char, pos: nat)
    requires k.Has(rep) && pos <= |s|
    ensures forall i :: 0 <= i < |CollapseFrom(s, k, rep, pos)| - 1 ==>
      !(CollapseFrom(s, k, rep, pos)[i] == rep && CollapseFrom(s, k, rep, pos)[i + 1] == rep)
    decreases |s| - pos
  {
    if pos < |s| {
      var q := NextPos(s, k, pos);
      var r, rest := CollapseFrom(s, k, rep, pos), CollapseFrom(s, k, rep, q);
      CollapseFromSeparated(s, k, rep, q);
      CollapseFromCons(s, k, rep, pos);
      assert forall i :: 1 <= i < |r| ==> r[i] == rest[i - 1];
      assert rest != [] && r[0] == rep ==> rest[0] != rep;
    }
  }

  lemma CollapseRunsSeparated(s: string, k: CharClass, rep: char)
    requires k.Has(rep)
    ensures forall i :: 0 <= i < |CollapseRuns(s, k, rep)| - 1 ==>
      !(CollapseRuns(s, k, rep)[i] == rep && CollapseRuns(s, k, rep)[i + 1] == rep)
  {
    CollapseFromSeparated(s, k, rep, 0);
  }

  /** A string in which no two class-`k` characters are adjacent. */
  predicate SingletonRuns(s: string, k: CharClass) {
    forall i :: 0 <= i < |s| - 1 ==> !(k.Has(s[i]) && k.Has(s[i + 1]))
  }

  /** When every run of class `k` has length one, collapsing replaces character by character. */
  lemma {:induction false} CollapseFromSingletons(s: string, k: CharClass, rep: char, pos: nat)
    requires SingletonRuns(s, k) && pos <= |s|
    ensures |CollapseFrom(s, k, rep, pos)| == |s| - pos
    ensures forall i :: 0 <= i < |s| - pos ==>
      CollapseFrom(s, k, rep, pos)[i] == if k.Has(s[pos + i]) then rep else s[pos + i]
    decreases |s| - pos
  {
    if pos < |s| {
      assert NextPos(s, k, pos) == pos + 1 by {
        if k.Has(s[pos]) {
          assert pos + 1 == |s| || !k.Has(s[pos + 1]);
          assert RunEnd(s, pos, k) == RunEnd(s, pos + 1, k) == pos + 1;
        }
      }
      CollapseFromSingletons(s, k, rep, pos + 1);
      CollapseFromCons(s, k, rep, pos);
      var r, rest := CollapseFrom(s, k, rep, pos), CollapseFrom(s, k, rep, pos + 1);
      forall i | 1 <= i < |s| - pos
        ensures r[i] == if k.Has(s[pos + i]) then rep else s[pos + i]
      {
        assert r[i] == rest[i - 1] && pos + i == (pos + 1) + (i - 1);
      }
    }
  }

  lemma CollapseSingletons(s: string, k: CharClass, rep: char)
    requires SingletonRuns(s, k)
    ensures CollapseRuns(s, k, rep) == ReplaceClass(s, k, rep)
  {
    CollapseFromSingletons(s, k, rep, 0);
  }

  // ---------------------------------------------------------------------------
  // Trimming

  /** The first index at or after `a` that does not hold white space, or `|s|`. */
  function TrimFront(s: string, a: nat): (b: nat)
    requires a <= |s|
    ensures a <= b <= |s|
    ensures b == |s| || !IsSpace(s[b])
    decreases |s| - a
  {
    if a < |s| && IsSpace(s[a]) then TrimFront(s, a + 1) else a
  }

  /** The end of the text in `s[a..e]` once trailing white space is dropped. */
  function TrimBack(s: string, a: nat, e: nat): (b: nat)
    requires a <= e <= |s|
    ensures a <= b <= e
    ensures b == a || !IsSpace(s[b - 1])
    decreases e
  {
    if a < e && IsSpace(s[e - 1]) then TrimBack(s, a, e - 1) else e
  }

  /** `String.prototype.trim`. */
  function Trim(s: string): (r: string)
    ensures |r| <= |s|
    ensures Trimmed(r)
  {
    var a := TrimFront(s, 0);
    s[a..TrimBack(s, a, |s|)]
  }

  lemma {:induction false} TrimFrontSpaces(s: string, a: nat)
    requires a <= |s|
    ensures forall i :: a <= i < TrimFront(s, a) ==> IsSpace(s[i])
    decreases |s| - a
  {
    if a < |s| && IsSpace(s[a]) {
      TrimFrontSpaces(s, a + 1);
    }
  }

  lemma {:induction false} TrimBackSpaces(s: string, a: nat, e: nat)
    requires a <= e <= |s|
    ensures forall i :: TrimBack(s, a, e) <= i < e ==> IsSpace(s[i])
    decreases e
  {
    if a < e && IsSpace(s[e - 1]) {
      TrimBackSpaces(s, a, e - 1);
    }
  }

  /** `trim` keeps one slice of `s` and drops white space, and nothing else, on either side of it. */
  lemma TrimDropsOnlySpace(s: string)
    ensures var a := TrimFront(s, 0);
      a + |Trim(s)| <= |s| && Trim(s) == s[a..a + |Trim(s)|]
      && (forall i :: 0 <= i < a ==> IsSpace(s[i]))
      && (forall i :: a + |Trim(s)| <= i < |s| ==> IsSpace(s[i]))
  {
    var a := TrimFront(s, 0);
    TrimFrontSpaces(s, 0);
    TrimBackSpaces(s, a, |s|);
  }

  // ---------------------------------------------------------------------------
  // Canonical spacing: the shape `.replace(/\s+/g, " ").trim()` leaves behind

  predicate NoUpper(s: string) {
    forall i :: 0 <= i < |s| ==> !IsUpper(s[i])
  }

  predicate Lacks(s: string, cs: set<char>) {
    forall i :: 0 <= i < |s| ==> s[i] !in cs
  }

  /** Every white-space character is a plain space. */
  predicate BlanksOnly(s: string) {
    forall i :: 0 <= i < |s| ==> IsSpace(s[i]) ==> s[i] == ' '
  }

  predicate NoDoubleBlank(s: string) {
    forall i :: 0 <= i < |s| - 1 ==> !(s[i] == ' ' && s[i + 1] == ' ')
  }

  predicate Trimmed(s: string) {
    s == [] || (!IsSpace(s[0]) && !IsSpace(s[|s| - 1]))
  }

  /** Only single plain spaces between words, none at either end. */
  predicate SingleSpaced(s: string) {
    BlanksOnly(s) && NoDoubleBlank(s) && Trimmed(s)
  }

  lemma SingleSpacedRuns(s: string)
    requires BlanksOnly(s) && NoDoubleBlank(s)
    ensures SingletonRuns(s, WhiteSpace)
  {
  }

  /** A slice of a string without double or non-plain spaces has none either. */
  lemma SliceKeepsSpacing(s: string, a: nat, b: nat)
    requires a <= b <= |s|
    requires BlanksOnly(s) && NoDoubleBlank(s)
    ensures BlanksOnly(s[a..b]) && NoDoubleBlank(s[a..b])
  {
    var t := s[a..b];
    forall i | 0 <= i < |t| ensures t[i] == s[a + i] { }
  }

  /** Trimming a string without double or non-plain spaces makes it single-spaced. */
  lemma TrimSingleSpaced(s: string)
    requires BlanksOnly(s) && NoDoubleBlank(s)
    ensures SingleSpaced(Trim(s))
  {
    var a := TrimFront(s, 0);
    SliceKeepsSpacing(s, a, TrimBack(s, a, |s|));
  }

  /** Collapsing white space and then trimming always yields a single-spaced string. */
  lemma CollapseTrimSingleSpaced(s: string)
    ensures SingleSpaced(Trim(CollapseRuns(s, WhiteSpace, ' ')))
  {
    var c := CollapseRuns(s, WhiteSpace, ' ');
    CollapseRunsChars(s, WhiteSpace, ' ');
    CollapseRunsSeparated(s, WhiteSpace, ' ');
    TrimSingleSpaced(c);
  }

  /** Collapsing white space leaves a string without double or non-plain spaces as it is. */
  lemma CollapseSpacesIdentity(s: string)
    requires BlanksOnly(s) && NoDoubleBlank(s)
    ensures CollapseRuns(s, WhiteSpace, ' ') == s
  {
    CollapseSingletons(s, WhiteSpace, ' ');
    assert ReplaceClass(s, WhiteSpace, ' ') == s;
  }

  lemma CollapseAbsentIdentity(s: string, k: CharClass, rep: char)
    requires forall i :: 0 <= i < |s| ==> !k.Has(s[i])
    ensures CollapseRuns(s, k, rep) == s
  {
    CollapseSingletons(s, k, rep);
    assert ReplaceClass(s, k, rep) == s;
  }

  /** Trimming keeps the absence of upper-case letters and of the characters `cs`. */
  lemma TrimKeepsChars(s: string, cs: set<char>)
    ensures NoUpper(s) ==> NoUpper(Trim(s))
    ensures Lacks(s, cs) ==> Lacks(Trim(s), cs)
  {
    var a := TrimFront(s, 0);
    var t := Trim(s);
    forall i | 0 <= i < |t| ensures t[i] == s[a + i] { }
  }

  /** Collapsing runs keeps the absence of upper-case letters and of `cs`, when `rep` is not one of them. */
  lemma CollapseKeepsChars(s: string, k: CharClass, rep: char, cs: set<char>)
    ensures NoUpper(s) && !IsUpper(rep) ==> NoUpper(CollapseRuns(s, k, rep))
    ensures Lacks(s, cs) && rep !in cs ==> Lacks(CollapseRuns(s, k, rep), cs)
  {
    var r := CollapseRuns(s, k, rep);
    CollapseRunsChars(s, k, rep);
    if NoUpper(s) && !IsUpper(rep) {
      forall i | 0 <= i < |r| ensures !IsUpper(r[i]) {
        if r[i] != rep {
          var j :| 0 <= j < |s| && s[j] == r[i];
        }
      }
    }
    if Lacks(s, cs) && rep !in cs {
      forall i | 0 <= i < |r| ensures r[i] !in cs {
        if r[i] != rep {
          var j :| 0 <= j < |s| && s[j] == r[i];
        }
      }
    }
  }

  lemma TrimIdentity(s: string)
    requires Trimmed(s)
    ensures Trim(s) == s
  {
  }

  lemma ReplaceAbsentIdentity(s: string, from: set<char>, to: char)
    requires Lacks(s, from)
    ensures ReplaceChars(s, from, to) == s
  {
  }

  lemma LowerIdentity(s: string)
    requires NoUpper(s)
    ensures Lower(s) == s
  {
  }

  /** `toLowerCase` keeps the length, leaves no upper-case letter, and a second application changes nothing. */
  lemma LowerLowers(s: string)
    ensures |Lower(s)| == |s| && NoUpper(Lower(s))
    ensures Lower(Lower(s)) == Lower(s)
  {
    LowerIdentity(Lower(s));
  }

  /**
   * A global replace of the class `from` keeps the length and every character
   * outside the class, leaves none of the class when `to` is outside it, and a
   * second application changes nothing.
   */
  lemma ReplaceCharsMeaning(s: string, from: set<char>, to: char)
    ensures |ReplaceChars(s, from, to)| == |s|
    ensures forall i :: 0 <= i < |s| && s[i] !in from ==> ReplaceChars(s, from, to)[i] == s[i]
    ensures to !in from ==> Lacks(ReplaceChars(s, from, to), from)
    ensures ReplaceChars(ReplaceChars(s, from, to), from, to) == ReplaceChars(s, from, to)
  {
  }

  // ---------------------------------------------------------------------------
  // Literal matching

  /** `lit` occurs in `s` at `p`, comparing exactly (a regex literal without the `i` flag). */
  predicate At(s: string, p: nat, lit: string) {
    p + |lit| <= |s| && s[p..p + |lit|] == lit
  }

  /** `lit` occurs in `s` at `p`, comparing ASCII letters without regard to case (the `i` flag). */
  predicate CiAt(s: string, p: nat, lit: string) {
    p + |lit| <= |s| && CiFrom(s, p, lit, p)
  }

  /** The characters of `s` from `q` up to `p + |lit|` agree with `lit`'s without regard to case. */
  predicate CiFrom(s: string, p: nat, lit: string, q: nat)
    requires p <= q <= p + |lit| <= |s|
    decreases p + |lit| - q
  {
    q == p + |lit| || (LowerChar(s[q]) == LowerChar(lit[q - p]) && CiFrom(s, p, lit, q + 1))
  }

  lemma {:induction false} CiFromPointwise(s: string, p: nat, lit: string, q: nat)
    requires p <= q <= p + |lit| <= |s|
    ensures CiFrom(s, p, lit, q) <==> forall j :: q - p <= j < |lit| ==> LowerChar(s[p + j]) == LowerChar(lit[j])
    decreases p + |lit| - q
  {
    if q < p + |lit| {
      CiFromPointwise(s, p, lit, q + 1);
    }
  }

  /** The case-insensitive comparison, character by character. */
  lemma CiAtPointwise(s: string, p: nat, lit: string)
    ensures CiAt(s, p, lit) <==> p + |lit| <= |s| && forall j :: 0 <= j < |lit| ==> LowerChar(s[p + j]) == LowerChar(lit[j])
  {
    if p + |lit| <= |s| {
      CiFromPointwise(s, p, lit, p);
    }
  }

  /** A literal that occurs exactly also occurs ignoring case. */
  lemma AtCiAt(s: string, p: nat, lit: string)
    requires At(s, p, lit)
    ensures CiAt(s, p, lit)
  {
    CiAtPointwise(s, p, lit);
    forall j | 0 <= j < |lit| ensures s[p + j] == lit[j] {
      assert s[p..p + |lit|][j] == s[p + j];
    }
  }

  /** The first position in `[from, end)` that satisfies `ok`: a leftmost search. */
  function FirstWhere(ok: nat -> bool, from: nat, end: nat): (k: Option<nat>)
    ensures k.Some? ==> from <= k.value < end && ok(k.value)
    decreases end - from
  {
    if from >= end then None
    else if ok(from) then Some(from)
    else FirstWhere(ok, from + 1, end)
  }

  /** No earlier position satisfies `ok`, and none at all when the search fails. */
  lemma {:induction false} FirstWhereLeast(ok: nat -> bool, from: nat, end: nat)
    ensures FirstWhere(ok, from, end).Some? ==> forall j :: from <= j < FirstWhere(ok, from, end).value ==> !ok(j)
    ensures FirstWhere(ok, from, end).None? ==> forall j :: from <= j < end ==> !ok(j)
    decreases end - from
  {
    if from < end && !ok(from) {
      FirstWhereLeast(ok, from + 1, end);
    }
  }

  /** The leftmost exact occurrence of `lit` at or after `from`. */
  function Find(s: string, lit: string, from: nat): (r: Option<nat>)
    ensures r.Some? ==> from <= r.value && At(s, r.value, lit)
    ensures r.Some? ==> forall q :: from <= q < r.value ==> !At(s, q, lit)
    ensures r.None? ==> forall q :: from <= q ==> !At(s, q, lit)
    decreases |s| + 1 - from
  {
    if from + |lit| > |s| then None
    else if At(s, from, lit) then Some(from)
    else Find(s, lit, from + 1)
  }

  /** The leftmost case-insensitive occurrence of `lit` at or after `from`. */
  function FindCi(s: string, lit: string, from: nat): (r: Option<nat>)
    ensures r.Some? ==> from <= r.value && CiAt(s, r.value, lit)
    ensures r.Some? ==> forall q :: from <= q < r.value ==> !CiAt(s, q, lit)
    ensures r.None? ==> forall q :: from <= q ==> !CiAt(s, q, lit)
    decreases |s| + 1 - from
  {
    if from + |lit| > |s| then None
    else if CiAt(s, from, lit) then Some(from)
    else FindCi(s, lit, from + 1)
  }

  /** `/lit/.test(s)` and `s.includes(lit)`. */
  predicate Contains(s: string, lit: string)
    ensures Contains(s, lit) <==> exists p :: At(s, p, lit)
  {
    Find(s, lit, 0).Some?
  }

  /** `/lit/i.test(s)`. */
  predicate ContainsCi(s: string, lit: string)
    ensures ContainsCi(s, lit) <==> exists p :: CiAt(s, p, lit)
  {
    FindCi(s, lit, 0).Some?
  }

  /** A string that contains `big` (ignoring case) contains every part of `big`. */
  lemma ContainsCiPart(s: string, front: string, mid: string, back: string)
    requires ContainsCi(s, front + mid + back)
    ensures ContainsCi(s, mid)
  {
    var big := front + mid + back;
    var p: nat :| CiAt(s, p, big);
    CiAtPointwise(s, p, big);
    CiAtPointwise(s, p + |front|, mid);
    forall i | 0 <= i < |mid|
      ensures LowerChar(s[p + |front| + i]) == LowerChar(mid[i])
    {
      assert big[|front| + i] == mid[i];
    }
    assert CiAt(s, p + |front|, mid);
  }
}
