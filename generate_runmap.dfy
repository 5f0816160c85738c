/**
 * The build script `generate-runmap.js`: it collects the element ids of
 * the trail-map SVG, keys them by `keyify`, harvests the run names of the
 * conditions page's status table, and maps each run's key to the SVG id whose
 * key matches it (directly, or once apostrophes are ignored), listing the
 * names it could not place.  Reading the SVG file, fetching the page and
 * writing `runMap.json` are left to the caller: the model starts from the SVG
 * text and the table rows and ends with the map and the list of missing names.
 */
module RunMapGenerator {
  import opened Wrappers
  import opened Strings
  import opened Folds
  import opened TrailTable

  // ---------------------------------------------------------------------------
  // keyify

  /** What `keyify` leaves: no upper-case letter, no `[â€™]`, `_` or `-`, single spaces between words only. */
  predicate Keyed(s: string) {
    NoUpper(s) && Lacks(s, Mojibake + {'_', '-'}) && SingleSpaced(s)
  }

  /**
   * `keyify(s)`: lower case, each of `â`, `€`, `™` to `'`, runs of `_`/`-` to a
   * space, NBSP to a space, runs of white space to one space, then trim.
   */
  function Keyify(s: string): string {
    Trim(CollapseRuns(ReplaceChars(CollapseRuns(ReplaceChars(Lower(s), Mojibake, '\''), Dashes, ' '), {Nbsp}, ' '), WhiteSpace, ' '))
  }

  lemma {:induction false} KeyifyKeyed(s: string)
    ensures Keyed(Keyify(s))
  {
    var cs := Mojibake + {'_', '-'};
    var quoted := ReplaceChars(Lower(s), Mojibake, '\'');
    assert NoUpper(quoted) && Lacks(quoted, Mojibake);
    var undashed := CollapseRuns(quoted, Dashes, ' ');
    CollapseKeepsChars(quoted, Dashes, ' ', Mojibake);
    CollapseRunsChars(quoted, Dashes, ' ');
    assert Lacks(undashed, cs);
    var spaced := ReplaceChars(undashed, {Nbsp}, ' ');
    assert NoUpper(spaced) && Lacks(spaced, cs);
    var collapsed := CollapseRuns(spaced, WhiteSpace, ' ');
    CollapseKeepsChars(spaced, WhiteSpace, ' ', cs);
    TrimKeepsChars(collapsed, cs);
    CollapseTrimSingleSpaced(spaced);
  }

  /** A key is its own key. */
  lemma {:induction false} KeyedFixed(s: string)
    requires Keyed(s)
    ensures Keyify(s) == s
  {
    LowerIdentity(s);
    ReplaceAbsentIdentity(s, Mojibake, '\'');
    CollapseAbsentIdentity(s, Dashes, ' ');
    assert IsSpace(Nbsp);
    assert Lacks(s, {Nbsp});
    ReplaceAbsentIdentity(s, {Nbsp}, ' ');
    CollapseSpacesIdentity(s);
    TrimIdentity(s);
  }

  lemma {:induction false} KeyifyIdempotent(s: string)
    ensures Keyify(Keyify(s)) == Keyify(s)
  {
    KeyifyKeyed(s);
    KeyedFixed(Keyify(s));
  }

  // ---------------------------------------------------------------------------
  // extractSvgIds

  const IdOpen: string := "id=\""

  /** `\b` in front of the `i` of `id=`: the text starts there or the character before is not a word character. */
  predicate WordStart(s: string, q: nat)
    requires q <= |s|
  {
    q == 0 || !IsWordChar(s[q - 1])
  }

  /** Where the run of `[^"]` characters from `pos` ends: at the next `"`, or at the end of the text. */
  function QuoteEnd(s: string, pos: nat): (e: nat)
    requires pos <= |s|
    ensures pos <= e <= |s|
    ensures e == |s| || s[e] == '"'
    decreases |s| - pos
  {
    if pos < |s| && s[pos] != '"' then QuoteEnd(s, pos + 1) else pos
  }

  lemma {:induction false} QuoteEndSpan(s: string, pos: nat)
    requires pos <= |s|
    ensures forall i :: pos <= i < QuoteEnd(s, pos) ==> s[i] != '"'
    decreases |s| - pos
  {
    if pos < |s| && s[pos] != '"' {
      QuoteEndSpan(s, pos + 1);
    }
  }

  /**
   * The rest of `id="([^"]+)"` anchored at `q`, once its first `i` characters
   * have matched: the position of the closing quote.  `[^"]+` cannot give back
   * a character that would let the closing `"` match, so the longest run is
   * the only candidate.
   */
  function IdTail(s: string, q: nat, i: nat): (f: Option<nat>)
    requires i <= |IdOpen| && q + i <= |s|
    ensures f.Some? ==> q + |IdOpen| < f.value < |s|
    decreases |IdOpen| - i
  {
    if i < |IdOpen| then
      if q + i < |s| && s[q + i] == IdOpen[i] then IdTail(s, q, i + 1) else None
    else
      var f := QuoteEnd(s, q + |IdOpen|);
      if f == q + |IdOpen| || f == |s| then None else Some(f)
  }

  /** `/\bid="([^"]+)"/` anchored at `q`: the position of the closing quote. */
  function IdAt(s: string, q: nat): (f: Option<nat>)
    ensures f.Some? ==> q + |IdOpen| < f.value < |s|
  {
    if q <= |s| && WordStart(s, q) then IdTail(s, q, 0) else None
  }

  /**
   * An anchored matcher of the `id="…"` shape: at a position, nothing, or the
   * position of a closing quote past `id="` and a non-empty capture.  The
   * search loop below is stated for any such matcher; the script's regex is `IdAt`.
   */
  type Matcher = m: (string, nat) -> Option<nat> | forall s: string, q: nat :: m(s, q).Some? ==> q + |IdOpen| < m(s, q).value < |s|
    witness (s: string, q: nat) => None

  /** What the tail match means: the rest of `id="` is there, then a run of `[^"]`, then `"`. */
  lemma {:induction false} IdTailMeaning(s: string, q: nat, i: nat)
    requires i <= |IdOpen| && q + i <= |s|
    ensures IdTail(s, q, i).Some? <==>
      q + |IdOpen| <= |s| && (forall k :: i <= k < |IdOpen| ==> s[q + k] == IdOpen[k]) &&
      q + |IdOpen| < QuoteEnd(s, q + |IdOpen|) < |s|
    ensures IdTail(s, q, i).Some? ==> IdTail(s, q, i).value == QuoteEnd(s, q + |IdOpen|)
    decreases |IdOpen| - i
  {
    if i < |IdOpen| && q + i < |s| {
      IdTailMeaning(s, q, i + 1);
    }
  }

  /**
   * `re.exec` with `lastIndex` at `from`: where the leftmost match at or after
   * `from` starts, and where its closing quote is (the next `lastIndex` is one past it).
   */
  function FindId(matchAt: Matcher, s: string, from: nat): (m: Option<(nat, nat)>)
    ensures m.Some? ==> from <= m.value.0 && m.value.0 + |IdOpen| < m.value.1 < |s|
    decreases |s| + 1 - from
  {
    if from > |s| then None
    else
      match matchAt(s, from)
      case Some(f) => Some((from, f))
      case None => FindId(matchAt, s, from + 1)
  }

  /** The search finds a match, and it is the leftmost one; when it finds none, there is none. */
  lemma {:induction false} FindIdLeftmost(matchAt: Matcher, s: string, from: nat)
    ensures FindId(matchAt, s, from).Some? ==>
      matchAt(s, FindId(matchAt, s, from).value.0) == Some(FindId(matchAt, s, from).value.1)
    ensures FindId(matchAt, s, from).Some? ==>
      forall p :: from <= p < FindId(matchAt, s, from).value.0 ==> matchAt(s, p).None?
    ensures FindId(matchAt, s, from).None? ==> forall p :: from <= p <= |s| ==> matchAt(s, p).None?
    decreases |s| + 1 - from
  {
    if from <= |s| && matchAt(s, from).None? {
      FindIdLeftmost(matchAt, s, from + 1);
    }
  }

  /**
   * The captures of the `re.exec` loop from `from` on, in order: each search
   * resumes at `lastIndex`, just after the closing quote of the previous match.
   */
  function IdMatches(matchAt: Matcher, s: string, from: nat): (ids: seq<string>)
    decreases |s| + 1 - from
  {
    match FindId(matchAt, s, from)
    case None => []
    case Some((q, f)) => [s[q + |IdOpen|..f]] + IdMatches(matchAt, s, f + 1)
  }

  /**
   * The set `ids` after the `exec` loop has run from `from` on: each capture
   * is added as the search finds it.
   */
  function Gathered(matchAt: Matcher, ids: seq<string>, s: string, from: nat): seq<string>
    decreases |s| + 1 - from
  {
    match FindId(matchAt, s, from)
    case None => ids
    case Some((q, f)) => Gathered(matchAt, SetAdd(ids, s[q + |IdOpen|..f]), s, f + 1)
  }

  /**
   * `extractSvgIds(svgText)` with the regex as `matchAt`: the captures of the
   * `exec` loop, each once, in first-occurrence order.
   */
  method ExtractSvgIds(svgText: string, matchAt: Matcher) returns (ids: seq<string>)
    ensures ids == Dedup(IdMatches(matchAt, svgText, 0))
  {
    ids := [];
    var last: nat := 0;
    var m := FindId(matchAt, svgText, last);
    GatheredDedup(matchAt, svgText);
    while m.Some?
      invariant last <= |svgText| + 1
      invariant m == FindId(matchAt, svgText, last)
      invariant Gathered(matchAt, ids, svgText, last) == Dedup(IdMatches(matchAt, svgText, 0))
      decreases |svgText| + 1 - last
    {
      var (q, f) := m.value;
      GatheredStep(matchAt, ids, svgText, last, q, f);
      ids := SetAdd(ids, svgText[q + |IdOpen|..f]);
      last := f + 1;
      m := FindId(matchAt, svgText, last);
    }
  }

  /** One turn of the loop: the capture found at `from` is added, and the search resumes after its closing quote. */
  lemma {:induction false} GatheredStep(matchAt: Matcher, ids: seq<string>, s: string, from: nat, q: nat, f: nat)
    requires FindId(matchAt, s, from) == Some((q, f))
    ensures Gathered(matchAt, SetAdd(ids, s[q + |IdOpen|..f]), s, f + 1) == Gathered(matchAt, ids, s, from)
  {
  }

  /** Adding the captures as they are found is adding the list of all captures in order. */
  lemma {:induction false} GatheredAddAll(matchAt: Matcher, ids: seq<string>, s: string, from: nat)
    ensures Gathered(matchAt, ids, s, from) == AddAll(ids, IdMatches(matchAt, s, from), 0)
    decreases |s| + 1 - from
  {
    match FindId(matchAt, s, from)
    case None =>
    case Some((q, f)) =>
      var x := s[q + |IdOpen|..f];
      GatheredAddAll(matchAt, SetAdd(ids, x), s, f + 1);
      AddAllCons(ids, x, IdMatches(matchAt, s, f + 1), IdMatches(matchAt, s, from));
  }

  /** From the start, with nothing seen: the captures' first occurrences. */
  lemma {:induction false} GatheredDedup(matchAt: Matcher, s: string)
    ensures Gathered(matchAt, [], s, 0) == Dedup(IdMatches(matchAt, s, 0))
  {
    GatheredAddAll(matchAt, [], s, 0);
    AddAllDedup([], IdMatches(matchAt, s, 0), 0);
    assert [] + IdMatches(matchAt, s, 0)[0..] == IdMatches(matchAt, s, 0);
  }

  /** A match spells `id="`, the id and a closing `"` in the text, after a word boundary. */
  lemma {:induction false} IdAtSpelled(s: string, q: nat)
    requires q <= |s| && IdAt(s, q).Some?
    ensures var x := s[q + |IdOpen|..IdAt(s, q).value];
      x != [] && '"' !in x && WordStart(s, q) && At(s, q, IdOpen + x + "\"")
  {
    var f := IdAt(s, q).value;
    var x := s[q + |IdOpen|..f];
    QuoteEndSpan(s, q + |IdOpen|);
    IdTailMeaning(s, q, 0);
    assert s[q..q + |IdOpen|] == IdOpen;
    forall i | 0 <= i < |x| ensures x[i] != '"' {
      assert x[i] == s[q + |IdOpen| + i];
    }
    assert s[q..f + 1] == s[q..q + |IdOpen|] + x + s[f..f + 1];
  }

  /** Every id the loop captures is non-empty, free of `"`, and written `id="…"` in the text after a word boundary. */
  lemma {:induction false} IdMatchesSpelled(s: string, from: nat, x: string)
    requires x in IdMatches(IdAt, s, from)
    ensures x != [] && '"' !in x && exists q: nat :: q <= |s| && WordStart(s, q) && At(s, q, IdOpen + x + "\"")
    decreases |s| + 1 - from
  {
    var (q, f) := FindId(IdAt, s, from).value;
    FindIdLeftmost(IdAt, s, from);
    if x == s[q + |IdOpen|..f] {
      IdAtSpelled(s, q);
    } else {
      IdMatchesSpelled(s, f + 1, x);
    }
  }

  /** The SVG ids: distinct, each spelled `id="…"` in the text, in the order they first occur. */
  lemma {:induction false} SvgIdsMeaning(s: string, i: nat, j: nat)
    requires i < j < |SvgIds(s)|
    ensures SvgIds(s)[i] != SvgIds(s)[j]
    ensures SvgIds(s)[i] in IdMatches(IdAt, s, 0) && SvgIds(s)[j] in IdMatches(IdAt, s, 0)
    ensures FirstIndex(IdMatches(IdAt, s, 0), SvgIds(s)[i]) < FirstIndex(IdMatches(IdAt, s, 0), SvgIds(s)[j])
  {
    DedupMeaning(IdMatches(IdAt, s, 0));
    DedupOrder(IdMatches(IdAt, s, 0), i, j);
  }

  lemma {:induction false} SvgIdSpelled(s: string, x: string)
    requires x in SvgIds(s)
    ensures x != [] && '"' !in x && exists q: nat :: q <= |s| && WordStart(s, q) && At(s, q, IdOpen + x + "\"")
  {
    DedupMeaning(IdMatches(IdAt, s, 0));
    IdMatchesSpelled(s, 0, x);
  }

  // ---------------------------------------------------------------------------
  // idByKey

  /** The key an SVG id is filed under, or nothing when `keyify` gives `""` (`if (!k) continue;`). */
  function IdKey(id: string): (k: Option<string>)
    ensures k.Some? ==> k.value != "" && k.value == Keyify(id)
    ensures k.None? ==> Keyify(id) == ""
  {
    var k := Keyify(id);
    if k == "" then None else Some(k)
  }

  /** The `idByKey` loop, with the `Map` as its insertion-ordered entries. */
  method BuildIdByKey(svgIds: seq<string>) returns (idByKey: seq<(string, string)>)
    ensures idByKey == FirstSeen(svgIds, IdKey)
  {
    idByKey := FoldFirstSeen(svgIds, IdKey);
  }

  /**
   * `idByKey.get(k)` is the first SVG id whose key is `k`, and there is one
   * exactly when some id has key `k`, which is never `""`.
   */
  lemma {:induction false} IdByKeyFirstSeen(svgIds: seq<string>, k: string)
    ensures Lookup(FirstSeen(svgIds, IdKey), k).Some? <==>
      k != "" && exists i :: 0 <= i < |svgIds| && Keyify(svgIds[i]) == k
    ensures Lookup(FirstSeen(svgIds, IdKey), k).Some? ==>
      exists i :: 0 <= i < |svgIds| && Keyify(svgIds[i]) == k && svgIds[i] == Lookup(FirstSeen(svgIds, IdKey), k).value &&
        forall j :: 0 <= j < i ==> Keyify(svgIds[j]) != k
  {
    FirstSeenLookup(svgIds, IdKey, k);
    if Lookup(FirstSeen(svgIds, IdKey), k).Some? {
      var i :| 0 <= i < |svgIds| && IdKey(svgIds[i]) == Some(k) && svgIds[i] == Lookup(FirstSeen(svgIds, IdKey), k).value &&
        forall j :: 0 <= j < i ==> IdKey(svgIds[j]) != Some(k);
      assert k != "" && Keyify(svgIds[i]) == k;
      forall j | 0 <= j < i ensures Keyify(svgIds[j]) != k {
        assert IdKey(svgIds[j]) != Some(k);
      }
    }
  }

  /** Every entry files an SVG id under its own non-empty key, and no key is filed twice. */
  lemma {:induction false} IdByKeyEntries(svgIds: seq<string>, i: nat)
    requires i < |FirstSeen(svgIds, IdKey)|
    ensures var e := FirstSeen(svgIds, IdKey)[i];
      e.1 in svgIds && e.0 == Keyify(e.1) && e.0 != ""
    ensures forall j :: 0 <= j < |FirstSeen(svgIds, IdKey)| && j != i ==>
      FirstSeen(svgIds, IdKey)[j].0 != FirstSeen(svgIds, IdKey)[i].0
  {
    FirstSeenEntries(svgIds, IdKey);
  }

  // ---------------------------------------------------------------------------
  // Matching run names to ids

  /** `k.replace(/'/g, "")` */
  function Unquoted(k: string): string {
    RemoveChar(k, '\'')
  }

  /** The entry indices the fallback `find` accepts: keys equal to `k2` once their apostrophes are dropped. */
  function SameUnquoted(idByKey: seq<(string, string)>, k2: string): nat -> bool {
    (j: nat) => j < |idByKey| && Unquoted(idByKey[j].0) == k2
  }

  /**
   * The id a run key resolves to: `idByKey.get(k)` when the key is present,
   * otherwise the id of the first entry, in insertion order, whose key equals
   * `k` once apostrophes are dropped from both.
   */
  function Resolve(idByKey: seq<(string, string)>, k: string): Option<string> {
    match Lookup(idByKey, k)
    case Some(id) => Some(id)
    case None =>
      match FirstWhere(SameUnquoted(idByKey, Unquoted(k)), 0, |idByKey|)
      case Some(j) => Some(idByKey[j].1)
      case None => None
  }

  /**
   * A key resolves exactly when some entry's key agrees with it up to
   * apostrophes; an exact key wins, and otherwise the earliest agreeing entry
   * does.
   */
  lemma {:induction false} ResolveMeaning(idByKey: seq<(string, string)>, k: string)
    ensures Resolve(idByKey, k).Some? <==>
      exists j :: 0 <= j < |idByKey| && Unquoted(idByKey[j].0) == Unquoted(k)
    ensures Lookup(idByKey, k).Some? ==> Resolve(idByKey, k) == Lookup(idByKey, k)
    ensures Lookup(idByKey, k).None? && Resolve(idByKey, k).Some? ==>
      exists j :: 0 <= j < |idByKey| && idByKey[j].1 == Resolve(idByKey, k).value &&
        Unquoted(idByKey[j].0) == Unquoted(k) &&
        forall i :: 0 <= i < j ==> Unquoted(idByKey[i].0) != Unquoted(k)
    ensures Resolve(idByKey, k).Some? ==>
      exists j :: 0 <= j < |idByKey| && idByKey[j].1 == Resolve(idByKey, k).value
  {
    var ok := SameUnquoted(idByKey, Unquoted(k));
    FirstWhereLeast(ok, 0, |idByKey|);
    if Lookup(idByKey, k).Some? {
      var j :| 0 <= j < |idByKey| && idByKey[j] == (k, Lookup(idByKey, k).value);
      assert Unquoted(idByKey[j].0) == Unquoted(k);
    } else {
      var r := FirstWhere(ok, 0, |idByKey|);
      if r.Some? {
        var j := r.value;
        assert ok(j);
        forall i | 0 <= i < j ensures Unquoted(idByKey[i].0) != Unquoted(k) {
          assert !ok(i);
        }
      } else {
        forall j | 0 <= j < |idByKey| ensures Unquoted(idByKey[j].0) != Unquoted(k) {
          assert !ok(j);
        }
      }
    }
  }

  /*
   * The matching loop and its lemmas take `keyify` as a parameter: the script
   * passes `Keyify`, and the proofs about matching hold for any key function.
   */

  /** What the loop body stores for one run name: `runMap[k] = id` for its key `k`, or nothing. */
  function MatchEntry(idByKey: seq<(string, string)>, keyify: string -> string): string -> Option<(string, string)> {
    (name: string) =>
      var k := keyify(name);
      match Resolve(idByKey, k)
      case Some(id) => Some((k, id))
      case None => None
  }

  /** What the loop body pushes onto `missing` for one run name. */
  function Unmatched(idByKey: seq<(string, string)>, keyify: string -> string): string -> Option<string> {
    (name: string) => if Resolve(idByKey, keyify(name)).None? then Some(name) else None
  }

  /** The matching loop over the run names. */
  method MatchRuns(idByKey: seq<(string, string)>, runNames: seq<string>, keyify: string -> string)
    returns (runMap: map<string, string>, missing: seq<string>)
    ensures runMap == FoldLast(Collect(runNames, MatchEntry(idByKey, keyify)))
    ensures missing == Kept(runNames, Unmatched(idByKey, keyify))
  {
    runMap := map[];
    missing := [];
    var i := 0;
    while i < |runNames|
      invariant 0 <= i <= |runNames|
      invariant runMap == AssignedBy(runNames[..i], MatchEntry(idByKey, keyify))
      invariant missing == Kept(runNames[..i], Unmatched(idByKey, keyify))
    {
      CollectSnoc(runNames, MatchEntry(idByKey, keyify), i);
      KeptSnoc(runNames, Unmatched(idByKey, keyify), i);
      var name := runNames[i];
      var k := keyify(name);
      var direct := Lookup(idByKey, k);
      if direct.Some? {
        runMap := runMap[k := direct.value];
      } else {
        var k2 := Unquoted(k);
        var match2 := FirstWhere(SameUnquoted(idByKey, k2), 0, |idByKey|);
        if match2.Some? {
          runMap := runMap[k := idByKey[match2.value].1];
        } else {
          missing := missing + [name];
        }
      }
      i := i + 1;
    }
    assert runNames[..i] == runNames;
    AssignedByFold(runNames, MatchEntry(idByKey, keyify));
  }

  /**
   * The run map holds exactly the keys of the run names that resolve, each
   * with the id it resolves to: a later run name with the same key stores the
   * same id again.
   */
  lemma {:induction false} RunMapMeaning(idByKey: seq<(string, string)>, runNames: seq<string>, keyify: string -> string, k: string)
    ensures k in FoldLast(Collect(runNames, MatchEntry(idByKey, keyify))) <==>
      Resolve(idByKey, k).Some? && exists j :: 0 <= j < |runNames| && keyify(runNames[j]) == k
    ensures k in FoldLast(Collect(runNames, MatchEntry(idByKey, keyify))) ==>
      Resolve(idByKey, k) == Some(FoldLast(Collect(runNames, MatchEntry(idByKey, keyify)))[k])
  {
    var f := MatchEntry(idByKey, keyify);
    var m := FoldLast(Collect(runNames, f));
    if k in m {
      CollectedValue(runNames, f, k);
      var j :| 0 <= j < |runNames| && f(runNames[j]) == Some((k, m[k]));
      assert keyify(runNames[j]) == k;
    } else if Resolve(idByKey, k).Some? && exists j :: 0 <= j < |runNames| && keyify(runNames[j]) == k {
      var j :| 0 <= j < |runNames| && keyify(runNames[j]) == k;
      assert f(runNames[j]).Some?;
      CollectHas(runNames, f, j);
      assert false;
    }
  }

  /** A run name is placed or listed as missing, never both: its key is in the map exactly when it is not missing. */
  lemma {:induction false} PlacedOrMissing(idByKey: seq<(string, string)>, runNames: seq<string>, keyify: string -> string, name: string)
    requires name in runNames
    ensures keyify(name) in FoldLast(Collect(runNames, MatchEntry(idByKey, keyify))) <==>
      name !in Kept(runNames, Unmatched(idByKey, keyify))
  {
    var j :| 0 <= j < |runNames| && runNames[j] == name;
    RunMapMeaning(idByKey, runNames, keyify, keyify(name));
    KeptMembers(runNames, Unmatched(idByKey, keyify), name);
    if name in Kept(runNames, Unmatched(idByKey, keyify)) {
      var i :| 0 <= i < |runNames| && Unmatched(idByKey, keyify)(runNames[i]) == Some(name);
      assert runNames[i] == name;
    } else {
      assert Unmatched(idByKey, keyify)(runNames[j]) != Some(name);
    }
  }

  // ---------------------------------------------------------------------------
  // fetchRunNames

  /**
   * What the `$("tr").each` callback pushes for one row: nothing without a
   * `td.trail_name` cell, when the icon class names neither `open-icon` nor
   * `close-icon`, or when the name's key is empty; otherwise the trimmed name.
   */
  function RunName(row: TrailRow): (r: Option<string>)
    ensures r.Some? ==> Trimmed(r.value)
  {
    if !row.hasTrailNameCell then None
    else
      var iconClass := IconClass(row);
      if !Contains(iconClass, "open-icon") && !Contains(iconClass, "close-icon") then None
      else if Keyify(row.nameText) == "" then None
      else Some(Trim(row.nameText))
  }

  /** `fetchRunNames()` once the page is parsed: the callback's names, in document order. */
  method FetchRunNames(rows: seq<TrailRow>) returns (names: seq<string>)
    ensures names == Kept(rows, RunName)
  {
    names := FoldKept(rows, RunName);
  }

  /**
   * A name is harvested exactly when some row with a `td.trail_name` cell and
   * an open or closed icon carries it, untrimmed, with a non-empty key.
   */
  lemma {:induction false} HarvestedNames(rows: seq<TrailRow>, name: string)
    ensures name in Kept(rows, RunName) <==>
      exists j :: 0 <= j < |rows| && rows[j].hasTrailNameCell &&
        (Contains(IconClass(rows[j]), "open-icon") || Contains(IconClass(rows[j]), "close-icon")) &&
        Keyify(rows[j].nameText) != "" && Trim(rows[j].nameText) == name
  {
    KeptMembers(rows, RunName, name);
  }

  // ---------------------------------------------------------------------------
  // The whole script

  /** The ids `extractSvgIds` returns for the script's regex. */
  function SvgIds(svgText: string): seq<string> {
    Dedup(IdMatches(IdAt, svgText, 0))
  }

  function RunMap(svgText: string, rows: seq<TrailRow>): map<string, string> {
    FoldLast(Collect(Kept(rows, RunName), MatchEntry(FirstSeen(SvgIds(svgText), IdKey), Keyify)))
  }

  function Missing(svgText: string, rows: seq<TrailRow>): seq<string> {
    Kept(Kept(rows, RunName), Unmatched(FirstSeen(SvgIds(svgText), IdKey), Keyify))
  }

  /** The script from the SVG text and the table rows to the map it writes and the names it reports missing. */
  method GenerateRunMap(svgText: string, rows: seq<TrailRow>) returns (runMap: map<string, string>, missing: seq<string>)
    ensures runMap == RunMap(svgText, rows)
    ensures missing == Missing(svgText, rows)
  {
    var svgIds := ExtractSvgIds(svgText, IdAt);
    var idByKey := BuildIdByKey(svgIds);
    var runNames := FetchRunNames(rows);
    runMap, missing := MatchRuns(idByKey, runNames, Keyify);
  }

  /** Every id the run map points at is an id of the SVG, written `id="…"` in its text. */
  lemma {:induction false} RunMapTargetsSvgIds(svgText: string, rows: seq<TrailRow>, k: string)
    requires k in RunMap(svgText, rows)
    ensures RunMap(svgText, rows)[k] in SvgIds(svgText)
    ensures exists q: nat :: q <= |svgText| && WordStart(svgText, q) && At(svgText, q, IdOpen + RunMap(svgText, rows)[k] + "\"")
  {
    var idByKey := FirstSeen(SvgIds(svgText), IdKey);
    var id := RunMap(svgText, rows)[k];
    RunMapMeaning(idByKey, Kept(rows, RunName), Keyify, k);
    ResolveMeaning(idByKey, k);
    var j :| 0 <= j < |idByKey| && idByKey[j].1 == id;
    IdByKeyEntries(SvgIds(svgText), j);
    SvgIdSpelled(svgText, id);
  }

  /** Every key of the run map is a key, as `keyify` leaves it, of a harvested run name. */
  lemma {:induction false} RunMapKeys(svgText: string, rows: seq<TrailRow>, k: string)
    requires k in RunMap(svgText, rows)
    ensures Keyed(k)
    ensures exists j :: 0 <= j < |Kept(rows, RunName)| && Keyify(Kept(rows, RunName)[j]) == k
  {
    var names := Kept(rows, RunName);
    RunMapMeaning(FirstSeen(SvgIds(svgText), IdKey), names, Keyify, k);
    var j :| 0 <= j < |names| && Keyify(names[j]) == k;
    KeyifyKeyed(names[j]);
  }
}
