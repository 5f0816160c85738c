/**
 * The browser client (public/app.js): it canonicalises run and lift names,
 * builds the normalised run-name → SVG-id table from runMap.json, resolves each
 * scraped run to an element id of the trail map, and decides the small display
 * rules of the conditions overlay.  The SVG document is the set of element ids
 * it contains; painting an element is recorded as the state given to its id.
 */
module App {
  import opened Wrappers
  import opened Strings
  import opened Numerals
  import opened Folds
  import opened Json
  import ConditionsFunction

  // ---------------------------------------------------------------------------
  // Names

  /** The characters `norm` never leaves in its output. */
  predicate Canonical(s: string) {
    NoUpper(s) && Lacks(s, {'_', '-', RightQuote}) && SingleSpaced(s)
  }

  /** The character-wise steps of `norm`: lower case, `’` to `'`, NBSP to a space. */
  function FoldChars(s: string): (r: string)
    ensures |r| == |s|
  {
    ReplaceChars(ReplaceChars(Lower(s), {RightQuote}, '\''), {Nbsp}, ' ')
  }

  /**
   * `norm(s)` for a string: lower-case it, fold `’` to `'` and NBSP to a space,
   * turn runs of `_`/`-` into a space, collapse white space and trim.
   */
  function Norm(s: string): string {
    Trim(CollapseRuns(CollapseRuns(FoldChars(s), Dashes, ' '), WhiteSpace, ' '))
  }

  /** `norm` output is lower-case, has no `_`, `-` or `’`, and is single-spaced with no space at either end. */
  lemma NormCanonical(s: string)
    ensures Canonical(Norm(s))
  {
    var folded := FoldChars(s);
    assert NoUpper(folded) && Lacks(folded, {RightQuote});
    var undashed := CollapseRuns(folded, Dashes, ' ');
    CollapseKeepsChars(folded, Dashes, ' ', {RightQuote});
    CollapseRunsChars(folded, Dashes, ' ');
    assert Lacks(undashed, {'_', '-', RightQuote});
    var collapsed := CollapseRuns(undashed, WhiteSpace, ' ');
    CollapseKeepsChars(undashed, WhiteSpace, ' ', {'_', '-', RightQuote});
    TrimKeepsChars(collapsed, {'_', '-', RightQuote});
    CollapseTrimSingleSpaced(undashed);
  }

  /** `norm(v)` for any value: `(v ?? "").toString()` first, so null, undefined and `""` all give `""`. */
  function NormOf(v: JsValue): (r: string)
    ensures v.Undefined? || v.Null? || v == Str("") ==> r == ""
    ensures v.Str? ==> r == Norm(v.s)
  {
    Norm(CoerceString(v))
  }

  /** A name that is already canonical is its own normal form. */
  lemma CanonicalFixed(s: string)
    requires Canonical(s)
    ensures Norm(s) == s
  {
    LowerIdentity(s);
    ReplaceAbsentIdentity(s, {RightQuote}, '\'');
    assert Lacks(s, {Nbsp});
    ReplaceAbsentIdentity(s, {Nbsp}, ' ');
    CollapseAbsentIdentity(s, Dashes, ' ');
    CollapseSpacesIdentity(s);
    TrimIdentity(s);
  }

  lemma NormIdempotent(s: string)
    ensures Norm(Norm(s)) == Norm(s)
  {
    NormCanonical(s);
    CanonicalFixed(Norm(s));
  }

  /** `norm` does not distinguish `’` from `'`. */
  lemma NormFoldsQuote(s: string)
    ensures Norm(ReplaceChars(s, {RightQuote}, '\'')) == Norm(s)
  {
    assert FoldChars(ReplaceChars(s, {RightQuote}, '\'')) == FoldChars(s);
  }

  /** `norm` does not distinguish NBSP from a plain space. */
  lemma NormFoldsNbsp(s: string)
    ensures Norm(ReplaceChars(s, {Nbsp}, ' ')) == Norm(s)
  {
    FoldCharsNbsp(s);
  }

  lemma FoldCharsNbsp(s: string)
    ensures FoldChars(ReplaceChars(s, {Nbsp}, ' ')) == FoldChars(s)
  {
    var t := ReplaceChars(s, {Nbsp}, ' ');
    forall i | 0 <= i < |s| ensures FoldChars(t)[i] == FoldChars(s)[i] { }
  }

  /** `idify(name)`: the normal form with its white space made into `-`. */
  function Idify(name: string): (r: string)
    ensures forall i :: 0 <= i < |r| ==> !IsSpace(r[i])
    ensures r == ReplaceChars(Norm(name), {' '}, '-')
  {
    NormCanonical(name);
    SpacesTo(Norm(name), '-')
  }

  /** `key.replace(/\s+/g, c)` on a normalised key: each single space becomes `c`. */
  function SpacesTo(key: string, c: char): (r: string)
    requires Canonical(key)
    ensures !IsSpace(c) ==> forall i :: 0 <= i < |r| ==> !IsSpace(r[i])
    ensures r == ReplaceChars(key, {' '}, c)
  {
    SingleSpacedRuns(key);
    CollapseSingletons(key, WhiteSpace, c);
    assert ReplaceClass(key, WhiteSpace, c) == ReplaceChars(key, {' '}, c);
    CollapseRuns(key, WhiteSpace, c)
  }

  // ---------------------------------------------------------------------------
  // runMap.json

  /** The object entries `Object.entries(runMapRaw || {})`; anything but an object reads as `{}`. */
  function EntriesOf(raw: JsValue): seq<(string, JsValue)> {
    if raw.Obj? then raw.props else []
  }

  /** The value `(v ?? "").toString().trim()` the `runMap` loop stores. */
  function RunMapValue(v: JsValue): string {
    Trim(CoerceString(v))
  }

  /** `runMap`: every entry of runMap.json under its normalised name, its value as trimmed text. */
  function RunMapOf(runMapRaw: JsValue): map<string, string> {
    FoldLast(Rekeyed(EntriesOf(runMapRaw), Norm, RunMapValue))
  }

  /** Every key of `runMap` is a normalised name and every value is trimmed. */
  lemma RunMapCanonical(runMapRaw: JsValue, k: string)
    requires k in RunMapOf(runMapRaw)
    ensures Canonical(k) && Trimmed(RunMapOf(runMapRaw)[k])
  {
    var entries := EntriesOf(runMapRaw);
    RekeyedValues(entries, Norm, RunMapValue, k);
    var j :| 0 <= j < |entries| && Norm(entries[j].0) == k &&
      RunMapOf(runMapRaw)[k] == RunMapValue(entries[j].1);
    NormCanonical(entries[j].0);
  }

  // ---------------------------------------------------------------------------
  // Resolving a scraped run to an SVG id

  /** `runMap[norm(runName)]`, with a missing entry read as the falsy `""`. */
  function Mapped(runName: string, runMap: map<string, string>): string {
    var key := Norm(runName);
    if key in runMap then runMap[key] else ""
  }

  /** The five candidate slots, before `.filter(Boolean)`; an empty slot stands for `null` or `""`. */
  function CandidateSlots(runName: string, runMap: map<string, string>): seq<string>
  {
    var key := Norm(runName);
    var mapped := Mapped(runName, runMap);
    NormCanonical(runName);
    [mapped, if mapped != "" then Idify(mapped) else "", Idify(runName), SpacesTo(key, '-'), SpacesTo(key, '_')]
  }

  /** The fourth candidate always repeats the third: `norm(runName)` with spaces made `-` is `idify(runName)`. */
  lemma FourthCandidateRepeatsThird(runName: string, runMap: map<string, string>)
    ensures CandidateSlots(runName, runMap)[3] == CandidateSlots(runName, runMap)[2]
  {
  }

  /** `.filter(Boolean)` on strings: the non-empty ones, in order. */
  function NonEmpty(xs: seq<string>): (r: seq<string>)
    ensures |r| <= |xs|
    decreases |xs|
  {
    if xs == [] then []
    else
      var last := xs[|xs| - 1];
      NonEmpty(xs[..|xs| - 1]) + (if last != "" then [last] else [])
  }

  /** `.filter(Boolean)` keeps exactly the non-empty elements. */
  lemma {:induction false} NonEmptyMembers(xs: seq<string>)
    ensures forall i :: 0 <= i < |NonEmpty(xs)| ==> NonEmpty(xs)[i] != "" && NonEmpty(xs)[i] in xs
    ensures forall i :: 0 <= i < |xs| && xs[i] != "" ==> xs[i] in NonEmpty(xs)
    decreases |xs|
  {
    if xs != [] {
      var init := xs[..|xs| - 1];
      NonEmptyMembers(init);
      assert xs == init + [xs[|xs| - 1]];
    }
  }

  function Candidates(runName: string, runMap: map<string, string>): seq<string> {
    NonEmpty(CandidateSlots(runName, runMap))
  }

  /** The index of the first element of `xs` at or after `k` that is an id of the document, or `|xs|`. */
  function PresentFrom(xs: seq<string>, ids: set<string>, k: nat): (i: nat)
    requires k <= |xs|
    ensures k <= i <= |xs|
    ensures i < |xs| ==> xs[i] in ids
    ensures forall j :: k <= j < i ==> xs[j] !in ids
    decreases |xs| - k
  {
    if k == |xs| || xs[k] in ids then k else PresentFrom(xs, ids, k + 1)
  }

  /** The first element of `xs` that is an id of the document, if any. */
  function FirstPresent(xs: seq<string>, ids: set<string>): (r: Option<string>)
    ensures r.Some? ==> r.value in ids
  {
    var i := PresentFrom(xs, ids, 0);
    if i < |xs| then Some(xs[i]) else None
  }

  /** The element at `i` is found when it is an id and no element before it is. */
  lemma FirstPresentAt(xs: seq<string>, ids: set<string>, i: nat)
    requires i < |xs| && xs[i] in ids
    requires forall j :: 0 <= j < i ==> xs[j] !in ids
    ensures FirstPresent(xs, ids) == Some(xs[i])
  {
    var p := PresentFrom(xs, ids, 0);
    assert p <= i;
  }

  /** Nothing is found exactly when no element is an id; what is found is the earliest element that is. */
  lemma FirstPresentMeaning(xs: seq<string>, ids: set<string>)
    ensures FirstPresent(xs, ids).None? <==> forall i :: 0 <= i < |xs| ==> xs[i] !in ids
    ensures FirstPresent(xs, ids).Some? ==>
      exists j :: 0 <= j < |xs| && xs[j] == FirstPresent(xs, ids).value && forall i :: 0 <= i < j ==> xs[i] !in ids
  {
    var p := PresentFrom(xs, ids, 0);
    if p < |xs| {
      assert xs[p] == FirstPresent(xs, ids).value;
    }
  }

  /** Searching `a + b` searches `a`, then `b`. */
  lemma FirstPresentAppend(a: seq<string>, b: seq<string>, ids: set<string>)
    ensures FirstPresent(a + b, ids) == if FirstPresent(a, ids).Some? then FirstPresent(a, ids) else FirstPresent(b, ids)
  {
    FirstPresentMeaning(a, ids);
    FirstPresentMeaning(b, ids);
    var ab := a + b;
    var pa := PresentFrom(a, ids, 0);
    var pb := PresentFrom(b, ids, 0);
    if pa < |a| {
      assert ab[pa] == a[pa];
      FirstPresentAt(ab, ids, pa);
    } else if pb < |b| {
      assert ab[|a| + pb] == b[pb];
      assert forall j :: 0 <= j < |a| + pb ==> ab[j] == if j < |a| then a[j] else b[j - |a|];
      FirstPresentAt(ab, ids, |a| + pb);
    } else {
      assert forall j :: 0 <= j < |ab| ==> ab[j] == if j < |a| then a[j] else b[j - |a|];
      FirstPresentMeaning(ab, ids);
    }
  }

  /** Dropping the empty candidates first is the same as never accepting the empty id. */
  lemma {:induction false} FirstPresentNonEmpty(xs: seq<string>, ids: set<string>)
    ensures FirstPresent(NonEmpty(xs), ids) == FirstPresent(xs, ids - {""})
    decreases |xs|
  {
    if xs != [] {
      var init, last := xs[..|xs| - 1], xs[|xs| - 1];
      var tail := if last != "" then [last] else [];
      FirstPresentNonEmpty(init, ids);
      assert xs == init + [last];
      FirstPresentAppend(NonEmpty(init), tail, ids);
      FirstPresentAppend(init, [last], ids - {""});
      FirstPresentMeaning(tail, ids);
      FirstPresentMeaning([last], ids - {""});
    }
  }

  /** The candidate loop with its `break`: the first candidate the document has. */
  method Resolve(candidates: seq<string>, ids: set<string>) returns (used: Option<string>)
    ensures used == FirstPresent(candidates, ids)
  {
    var i := 0;
    while i < |candidates|
      invariant 0 <= i <= |candidates|
      invariant forall j :: 0 <= j < i ==> candidates[j] !in ids
    {
      if candidates[i] in ids {
        FirstPresentAt(candidates, ids, i);
        return Some(candidates[i]);
      }
      i := i + 1;
    }
    FirstPresentMeaning(candidates, ids);
    return None;
  }

  /**
   * The resolved id is the first of these, in this order, that is non-empty and
   * in the document: the mapped id, the mapped id idified, the run name idified,
   * the key with its spaces made `-`, the key with its spaces made `_`.
   */
  lemma ResolutionOrder(runName: string, runMap: map<string, string>, ids: set<string>)
    ensures var key, mapped := Norm(runName), Mapped(runName, runMap);
      FirstPresent(Candidates(runName, runMap), ids)
      == FirstPresent([mapped, if mapped == "" then "" else Idify(mapped), Idify(runName),
                       ReplaceChars(key, {' '}, '-'), ReplaceChars(key, {' '}, '_')], ids - {""})
  {
    FirstPresentNonEmpty(CandidateSlots(runName, runMap), ids);
  }

  // ---------------------------------------------------------------------------
  // Painting the runs

  datatype RunState = RunOpen | RunClosed | RunUnknown

  /** What the refresh leaves on one element: its run class and whether its groom marker shows. */
  datatype Paint = Paint(state: RunState, groomed: bool)

  /** The sanitiser of `applyState`: only `"open"` and `"closed"` are kept. */
  function SafeStatus(status: JsValue): (r: RunState)
    ensures r == RunOpen <==> status == Str("open")
    ensures r == RunClosed <==> status == Str("closed")
    ensures r == RunUnknown <==> status != Str("open") && status != Str("closed")
  {
    if status == Str("open") then RunOpen
    else if status == Str("closed") then RunClosed
    else RunUnknown
  }

  /** `Object.entries(live.runs || {})`. */
  function RunsOf(live: JsValue): seq<(string, JsValue)> {
    EntriesOf(Prop(live, "runs"))
  }

  /** The state and groom flag `applyState` and `setGroomMarker` give an element for the run data. */
  function PaintOf(data: JsValue): Paint {
    Paint(SafeStatus(Prop(data, "status")), Truthy(Prop(data, "groomed")))
  }

  /** The candidate list of each run name under a given `runMap`. */
  function CandidatesUnder(runMap: map<string, string>): string -> seq<string> {
    runName => Candidates(runName, runMap)
  }

  /**
   * What one scraped run does, given how run names turn into candidate ids:
   * nothing when no candidate is in the document, else the paint of the first one that is.
   */
  function Painting(cands: string -> seq<string>, ids: set<string>, run: (string, JsValue)): Option<(string, Paint)> {
    match FirstPresent(cands(run.0), ids)
    case None => None
    case Some(id) => Some((id, PaintOf(run.1)))
  }

  /** `Painting` as a step function of the run loop. */
  function PaintStep(cands: string -> seq<string>, ids: set<string>): ((string, JsValue)) -> Option<(string, Paint)> {
    run => Painting(cands, ids, run)
  }

  /** The paints of the runs, in order; a run that resolves to no id contributes none. */
  function Paintings(cands: string -> seq<string>, ids: set<string>, runs: seq<(string, JsValue)>): (ps: seq<(string, Paint)>)
    ensures |ps| <= |runs|
  {
    Collect(runs, PaintStep(cands, ids))
  }

  /**
   * The run loop of `refresh`: `applied` counts the runs that resolved to an
   * element (`applyState` succeeds on every element it is given), `notFound`
   * the rest; the painted map says what each touched id was last given.
   */
  method PaintRuns(cands: string -> seq<string>, runs: seq<(string, JsValue)>, ids: set<string>)
      returns (painted: map<string, Paint>, applied: nat, notFound: nat)
    ensures painted == FoldLast(Paintings(cands, ids, runs))
    ensures applied == |Paintings(cands, ids, runs)|
    ensures applied + notFound == |runs|
  {
    ghost var step := PaintStep(cands, ids);
    painted := map[];
    applied, notFound := 0, 0;
    var i := 0;
    while i < |runs|
      invariant 0 <= i <= |runs|
      invariant painted == AssignedBy(runs[..i], step)
      invariant applied == |Collect(runs[..i], step)|
      invariant applied + notFound == i
    {
      var (runName, data) := runs[i];
      var used := Resolve(cands(runName), ids);
      CollectSnoc(runs, step, i);
      if used.None? {
        notFound := notFound + 1;
      } else {
        painted := painted[used.value := PaintOf(data)];
        applied := applied + 1;
      }
      i := i + 1;
    }
    assert runs[..i] == runs;
    AssignedByFold(runs, step);
  }

  /** Every paint goes to an id the document has. */
  lemma PaintingsInDocument(cands: string -> seq<string>, ids: set<string>, runs: seq<(string, JsValue)>, i: nat)
    requires i < |Paintings(cands, ids, runs)|
    ensures Paintings(cands, ids, runs)[i].0 in ids
  {
    CollectFrom(runs, PaintStep(cands, ids), i);
  }

  /** Only ids the document has are ever painted. */
  lemma PaintedInDocument(cands: string -> seq<string>, ids: set<string>, runs: seq<(string, JsValue)>, id: string)
    requires id in FoldLast(Paintings(cands, ids, runs))
    ensures id in ids
  {
    var ps := Paintings(cands, ids, runs);
    FoldLastValues(ps, id);
    var j :| 0 <= j < |ps| && ps[j] == (id, FoldLast(ps)[id]);
    PaintingsInDocument(cands, ids, runs, j);
  }

  /**
   * `refresh` after the fetches.  With a truthy conditions answer it fills the
   * overlay and runs the badge pass as written.  When that pass throws, the
   * `catch` ends the refresh before `runMap` is built, and no run is painted
   * on the freshly loaded map.  Otherwise it builds `runMap` and paints every
   * scraped run.
   */
  method Refresh(runMapRaw: JsValue, live: JsValue, cond: JsValue, ids: set<string>)
      returns (overlay: Option<Overlay>, badges: seq<(char, bool)>, failed: bool,
               runMap: map<string, string>, painted: map<string, Paint>, applied: nat, notFound: nat)
    ensures overlay == if Truthy(cond) then Some(OverlayOf(cond)) else None
    ensures !(Truthy(cond) && Prop(cond, "lifts").Obj?) ==> badges == []
    ensures Truthy(cond) && Prop(cond, "lifts").Obj? ==>
      var normLifts := LiftTable(Prop(cond, "lifts").props);
      && |badges| <= |LiftLetters|
      && (!failed ==> |badges| == |LiftLetters|)
      && (forall i :: 0 <= i < |badges| ==> badges[i] == Badge(normLifts, LiftLetters[i]))
      && (forall j :: 0 <= j < |badges| ==> LiftValue(normLifts, LiftLetters[j].0) != Null)
      && (failed ==> |badges| < |LiftLetters| && LiftValue(normLifts, LiftLetters[|badges|].0) == Null)
    ensures failed <==> Truthy(cond) && BadgePassThrows(cond)
    ensures failed ==> runMap == map[] && painted == map[] && applied == 0 && notFound == 0
    ensures !failed ==> runMap == RunMapOf(runMapRaw)
    ensures !failed ==> painted == FoldLast(Paintings(CandidatesUnder(runMap), ids, RunsOf(live)))
    ensures !failed ==> applied == |Paintings(CandidatesUnder(runMap), ids, RunsOf(live))|
    ensures !failed ==> applied + notFound == |RunsOf(live)|
  {
    overlay, badges, failed := None, [], false;
    runMap, painted, applied, notFound := map[], map[], 0, 0;
    if Truthy(cond) {
      overlay := Some(OverlayOf(cond));
      badges, failed := LiftBadgesAsWritten(cond);
      if failed {
        return;
      }
    }
    runMap := FoldRekeyed(EntriesOf(runMapRaw), Norm, RunMapValue);
    painted, applied, notFound := PaintRuns(CandidatesUnder(runMap), RunsOf(live), ids);
  }

  /** Two runs resolving to the same id: the element shows the later run's state and groom flag. */
  lemma LaterRunWins(cands: string -> seq<string>, ids: set<string>, runs: seq<(string, JsValue)>, i: nat)
    requires i < |Paintings(cands, ids, runs)|
    requires forall j :: i < j < |Paintings(cands, ids, runs)| ==>
      Paintings(cands, ids, runs)[j].0 != Paintings(cands, ids, runs)[i].0
    ensures var ps := Paintings(cands, ids, runs);
      ps[i].0 in FoldLast(ps) && FoldLast(ps)[ps[i].0] == ps[i].1
  {
    FoldLastAt(Paintings(cands, ids, runs), i);
  }

  /**
   * The element a run resolves to, when no later run resolves to it, keeps
   * that run's status: open exactly for `"open"`, closed exactly for
   * `"closed"` and unknown for anything else; its groom marker shows exactly
   * when the run's `groomed` is truthy.
   */
  lemma PaintedStatus(cands: string -> seq<string>, ids: set<string>, runs: seq<(string, JsValue)>, i: nat)
    requires i < |runs| && FirstPresent(cands(runs[i].0), ids).Some?
    requires forall j :: i < j < |runs| ==> FirstPresent(cands(runs[j].0), ids) != FirstPresent(cands(runs[i].0), ids)
    ensures var id, status := FirstPresent(cands(runs[i].0), ids).value, Prop(runs[i].1, "status");
      var painted := FoldLast(Paintings(cands, ids, runs));
      && id in painted
      && (painted[id].state == RunOpen <==> status == Str("open"))
      && (painted[id].state == RunClosed <==> status == Str("closed"))
      && (painted[id].state == RunUnknown <==> status != Str("open") && status != Str("closed"))
      && (painted[id].groomed <==> Truthy(Prop(runs[i].1, "groomed")))
  {
    var step := PaintStep(cands, ids);
    forall j | i < j < |runs| ensures step(runs[j]).None? || step(runs[j]).value.0 != step(runs[i]).value.0 {
    }
    CollectLastWins(runs, step, i);
  }

  // ---------------------------------------------------------------------------
  // Lift badges

  /** `LIFT_NAME_TO_LETTER`, in declaration order. */
  const LiftLetters: seq<(string, char)> := [
    ("north american chair", 'A'), ("cascade lift", 'B'), ("spirit chair", 'C'),
    ("mystic chair", 'D'), ("sundance carpet", 'E'), ("rundle conveyor", 'F'),
    ("tube park carpet", 'G')
  ]

  /** The strings that mark a lift as open once lower-cased and trimmed. */
  const OpenWords: set<string> := {"open", "running", "1", "yes"}

  /** `(raw ?? "").toString().toLowerCase().trim()`. */
  function LiftText(raw: JsValue): string {
    Trim(Lower(CoerceString(raw)))
  }

  /** The object alternative of the lift test: `status === "open"` or `open === true`. */
  predicate ObjectSaysOpen(raw: JsValue) {
    Prop(raw, "status") == Str("open") || Prop(raw, "open") == Bool(true)
  }

  /** The outcome of evaluating the lift test in JavaScript: a boolean, or a thrown TypeError. */
  datatype Evaluation = Value(open: bool) | TypeError

  /**
   * The lift test as written: `typeof null` is `"object"`, so for a `null`
   * entry the object alternative reads `raw.status` and throws.
   */
  function LiftIsOpenAsWritten(raw: JsValue): Evaluation {
    if raw == Bool(true) || LiftText(raw) in OpenWords then Value(true)
    else if raw.Null? then TypeError
    else Value(raw.Obj? && ObjectSaysOpen(raw))
  }

  /** A lift reported as `null` makes the badge pass throw instead of showing the lift closed. */
  lemma NullLiftThrows()
    ensures LiftIsOpenAsWritten(Null) == TypeError
  {
    assert LiftText(Null) == "";
  }

  /**
   * The lift test with a `null` entry read as closed, like a missing one: the
   * raw value `true`, an open word, or an object whose `status` is `"open"` or
   * whose `open` is `true`.
   */
  predicate LiftIsOpen(raw: JsValue) {
    raw == Bool(true) || LiftText(raw) in OpenWords || (raw.Obj? && ObjectSaysOpen(raw))
  }

  /** The correction changes nothing but the `null` case, which it reads as closed. */
  lemma LiftCorrectionOnlyNull(raw: JsValue)
    ensures raw.Null? ==> LiftIsOpenAsWritten(raw) == TypeError && !LiftIsOpen(raw)
    ensures !raw.Null? ==> LiftIsOpenAsWritten(raw) == Value(LiftIsOpen(raw))
  {
    if raw.Null? {
      assert LiftText(raw) == "";
    }
  }

  /** A missing entry (`undefined`) and a `null` one both show the lift closed. */
  lemma LiftMissingIsClosed(raw: JsValue)
    requires raw.Undefined? || raw.Null?
    ensures !LiftIsOpen(raw)
  {
    assert LiftText(raw) == "";
  }

  lemma LiftTextBool(b: bool)
    ensures LiftText(Bool(b)) == if b then "true" else "false"
  {
    var t := if b then "true" else "false";
    LowerIdentity(t);
    TrimIdentity(t);
  }

  lemma LiftTextNumber(n: int)
    ensures LiftText(Num(n)) == IntToDecimal(n)
  {
    var d := IntToDecimal(n);
    SignedDigitsPlain(d);
    LowerIdentity(d);
    TrimIdentity(d);
  }

  lemma LiftTextObject(props: seq<(string, JsValue)>)
    ensures LiftText(Obj(props)) == "[object object]"
  {
    var t := "[object object]";
    assert Lower("[object Object]") == t;
    TrimIdentity(t);
  }

  /** A boolean entry is open exactly when it is `true`. */
  lemma LiftBoolOpen(b: bool)
    ensures LiftIsOpen(Bool(b)) <==> b
  {
    LiftTextBool(b);
  }

  /** A numeric entry is open exactly when it is 1 (its text is then `"1"`). */
  lemma LiftNumberOpen(n: int)
    ensures LiftIsOpen(Num(n)) <==> n == 1
  {
    LiftTextNumber(n);
    DecimalIsOne(n);
    OpenWordsDigits(IntToDecimal(n));
  }

  /** The only open word that is a signed digit string is `"1"`. */
  lemma OpenWordsDigits(d: string)
    requires IsSignedDigits(d)
    ensures d in OpenWords <==> d == "1"
  {
    if d in OpenWords && d != "1" {
      assert false;
    }
  }

  /** An object entry is open exactly when its own fields say so: its text `[object object]` is never an open word. */
  lemma LiftObjectOpen(props: seq<(string, JsValue)>)
    ensures LiftIsOpen(Obj(props)) <==> ObjectSaysOpen(Obj(props))
  {
    LiftTextObject(props);
  }

  /** `normLifts`: the reported lifts under their normalised names (a later duplicate wins). */
  function LiftTable(props: seq<(string, JsValue)>): map<string, JsValue> {
    FoldLast(Rekeyed(props, Norm, (v: JsValue) => v))
  }

  /** `normLifts[name]`: the value reported under a name, `undefined` when there is none. */
  function LiftValue(normLifts: map<string, JsValue>, name: string): (v: JsValue)
    ensures name !in normLifts ==> v == Undefined
  {
    if name in normLifts then normLifts[name] else Undefined
  }

  /** The badge of one table entry: its letter, and whether the reported value reads as open. */
  function Badge(normLifts: map<string, JsValue>, entry: (string, char)): (char, bool) {
    (entry.1, LiftIsOpen(LiftValue(normLifts, entry.0)))
  }

  /**
   * `applyLiftBadgesFromConditions` with the corrected lift test: one badge per
   * letter A–G, in table order, green exactly when the lift reads as open; no
   * badge at all when `cond.lifts` is not an object.
   */
  method LiftBadges(cond: JsValue) returns (badges: seq<(char, bool)>)
    ensures !Prop(cond, "lifts").Obj? ==> badges == []
    ensures Prop(cond, "lifts").Obj? ==> |badges| == |LiftLetters|
    ensures Prop(cond, "lifts").Obj? ==> forall i :: 0 <= i < |badges| ==>
      badges[i] == Badge(LiftTable(Prop(cond, "lifts").props), LiftLetters[i])
  {
    var lifts := Prop(cond, "lifts");
    if !lifts.Obj? {
      return [];
    }
    var normLifts := FoldRekeyed(lifts.props, Norm, (v: JsValue) => v);
    badges := BadgesFor(normLifts, LiftLetters);
  }

  /** Some lift of the table is reported as `null`. */
  predicate NullLiftIn(normLifts: map<string, JsValue>) {
    exists i :: 0 <= i < |LiftLetters| && LiftValue(normLifts, LiftLetters[i].0) == Null
  }

  /** The badge pass as written throws for the conditions answer `cond`. */
  predicate BadgePassThrows(cond: JsValue) {
    Prop(cond, "lifts").Obj? && NullLiftIn(LiftTable(Prop(cond, "lifts").props))
  }

  /**
   * `applyLiftBadgesFromConditions` as written: it colours the badges in table
   * order and throws at the first lift reported as `null`, leaving the badges
   * before it coloured and the rest untouched.
   */
  method LiftBadgesAsWritten(cond: JsValue) returns (badges: seq<(char, bool)>, threw: bool)
    ensures threw <==> BadgePassThrows(cond)
    ensures !Prop(cond, "lifts").Obj? ==> badges == []
    ensures Prop(cond, "lifts").Obj? ==>
      var normLifts := LiftTable(Prop(cond, "lifts").props);
      && |badges| <= |LiftLetters|
      && (!threw ==> |badges| == |LiftLetters|)
      && (forall i :: 0 <= i < |badges| ==> badges[i] == Badge(normLifts, LiftLetters[i]))
      && (forall j :: 0 <= j < |badges| ==> LiftValue(normLifts, LiftLetters[j].0) != Null)
      && (threw ==> |badges| < |LiftLetters| && LiftValue(normLifts, LiftLetters[|badges|].0) == Null)
  {
    var lifts := Prop(cond, "lifts");
    if !lifts.Obj? {
      return [], false;
    }
    var normLifts := FoldRekeyed(lifts.props, Norm, (v: JsValue) => v);
    badges, threw := BadgesForAsWritten(normLifts, LiftLetters);
  }

  /** The badge loop as written: it stops with a TypeError at the first entry whose value is `null`. */
  method BadgesForAsWritten(normLifts: map<string, JsValue>, table: seq<(string, char)>)
      returns (badges: seq<(char, bool)>, threw: bool)
    ensures threw <==> exists i :: 0 <= i < |table| && LiftValue(normLifts, table[i].0) == Null
    ensures |badges| <= |table| && (!threw ==> |badges| == |table|)
    ensures forall i :: 0 <= i < |badges| ==> badges[i] == Badge(normLifts, table[i])
    ensures forall j :: 0 <= j < |badges| ==> LiftValue(normLifts, table[j].0) != Null
    ensures threw ==> |badges| < |table| && LiftValue(normLifts, table[|badges|].0) == Null
  {
    badges := [];
    var i := 0;
    while i < |table|
      invariant 0 <= i <= |table| && |badges| == i
      invariant forall j :: 0 <= j < i ==> badges[j] == Badge(normLifts, table[j])
      invariant forall j :: 0 <= j < i ==> LiftValue(normLifts, table[j].0) != Null
    {
      var raw := LiftValue(normLifts, table[i].0);
      LiftCorrectionOnlyNull(raw);
      var e := LiftIsOpenAsWritten(raw);
      if e.TypeError? {
        return badges, true;
      }
      badges := badges + [(table[i].1, e.open)];
      i := i + 1;
    }
    threw := false;
  }

  /** The loop over `Object.entries(LIFT_NAME_TO_LETTER)`: one badge per table entry, in order. */
  method BadgesFor(normLifts: map<string, JsValue>, table: seq<(string, char)>) returns (badges: seq<(char, bool)>)
    ensures |badges| == |table|
    ensures forall i :: 0 <= i < |table| ==> badges[i] == Badge(normLifts, table[i])
  {
    badges := [];
    var i := 0;
    while i < |table|
      invariant 0 <= i <= |table| && |badges| == i
      invariant forall j :: 0 <= j < i ==> badges[j] == Badge(normLifts, table[j])
    {
      badges := badges + [Badge(normLifts, table[i])];
      i := i + 1;
    }
  }

  // ---------------------------------------------------------------------------
  // Conditions overlay

  /** `Number(v)` where it is an integer; `None` where it is `NaN`. */
  function NumberOf(v: JsValue): (r: Option<int>)
    ensures v.Num? ==> r == Some(v.n)
    ensures v.Null? ==> r == Some(0)
    ensures v.Undefined? || v.Obj? ==> r.None?
    ensures v.Str? && IsSignedDigits(Trim(v.s)) ==> r == Some(SignedValue(Trim(v.s)))
  {
    match v
    case Undefined => None
    case Null => Some(0)
    case Bool(b) => Some(if b then 1 else 0)
    case Num(n) => Some(n)
    case Str(s) =>
      var t := Trim(s);
      if t == "" then Some(0) else if IsSignedDigits(t) then Some(SignedValue(t)) else None
    case Obj(_) => None
  }

  /** `"<n>cm"`: the printed integer, then the unit. */
  predicate ShowsCm(r: string, n: int) {
    |r| > 2 && r[|r| - 2..] == "cm" && IsSignedDigits(r[..|r| - 2]) && SignedValue(r[..|r| - 2]) == n
  }

  /** `fmtCm(n)`: `"--"` for null, undefined and NaN; otherwise the number, read back exactly, then `cm`. */
  function FmtCm(v: JsValue): (r: string)
    ensures r == "--" <==> v.Null? || v.Undefined? || NumberOf(v).None?
    ensures r != "--" ==> ShowsCm(r, NumberOf(v).value)
  {
    if v.Null? || v.Undefined? || NumberOf(v).None? then "--"
    else
      var d := IntToDecimal(NumberOf(v).value);
      assert (d + "cm")[..|d|] == d;
      d + "cm"
  }

  /** `Number` reads back the text `${n}` prints: a number and its text give the same value, and the same tile. */
  lemma NumberOfPrinted(n: int)
    ensures NumberOf(Str(IntToDecimal(n))) == NumberOf(Num(n)) == Some(n)
    ensures FmtCm(Str(IntToDecimal(n))) == FmtCm(Num(n))
  {
    SignedDigitsPlain(IntToDecimal(n));
    TrimIdentity(IntToDecimal(n));
  }

  /** The temperature label: `--°C` for null, else the value's text then `°C`. */
  function TempLabel(tempC: JsValue): (r: string)
    ensures tempC.Null? || tempC.Undefined? ==> r == "--°C"
    ensures tempC.Num? ==>
      |r| > 2 && r[|r| - 2..] == "°C" && IsSignedDigits(r[..|r| - 2]) && SignedValue(r[..|r| - 2]) == tempC.n
  {
    if tempC.Null? || tempC.Undefined? then "--°C"
    else
      var t := CoerceString(tempC);
      assert (t + "°C")[..|t|] == t;
      t + "°C"
  }

  const NoteLimit: nat := 260

  /** The note text: kept whole up to 260 characters, otherwise its first 260 and `…`. */
  function NoteDisplay(note: JsValue): (r: string)
    ensures |r| <= NoteLimit + 1
    ensures |CoerceString(note)| <= NoteLimit ==> r == CoerceString(note)
    ensures |CoerceString(note)| > NoteLimit ==>
      |r| == NoteLimit + 1 && r[..NoteLimit] == CoerceString(note)[..NoteLimit] && r[NoteLimit] == '…'
  {
    var text := CoerceString(note);
    if |text| > NoteLimit then text[..NoteLimit] + "…" else text
  }

  /** The texts `updateOverlayFromData` writes: the temperature, the note, the three new-snow and the three snow-base tiles. */
  datatype Overlay = Overlay(temp: string, note: string, newSnow: seq<string>, snowBase: seq<string>)

  /** The overlay for a conditions answer `d` (the `Updated:` line aside). */
  function OverlayOf(d: JsValue): (o: Overlay)
    ensures |o.newSnow| == 3 && |o.snowBase| == 3
  {
    var ns, sb := Prop(d, "newSnow"), Prop(d, "snowBase");
    Overlay(TempLabel(Prop(d, "tempC")), NoteDisplay(Prop(d, "note")),
      [FmtCm(Prop(ns, "overnightCm")), FmtCm(Prop(ns, "last24Cm")), FmtCm(Prop(ns, "last7DaysCm"))],
      [FmtCm(Prop(sb, "lowerCm")), FmtCm(Prop(sb, "upperCm")), FmtCm(Prop(sb, "ytdSnowfallCm"))])
  }

  /** A tile shows `--` exactly when its figure is null, and otherwise the figure then `cm`. */
  predicate TileShows(tile: string, figure: Option<int>) {
    (figure.None? <==> tile == "--") && (figure.Some? ==> ShowsCm(tile, figure.value))
  }

  /**
   * The conditions function as written sends its snow-base figures under
   * `base`, and the overlay reads them from `snowBase`: every snow-base tile
   * shows `--`, whatever the page reports.
   */
  lemma SnowBaseAlwaysBlank(r: ConditionsFunction.Report)
    ensures OverlayOf(ConditionsFunction.BodyAsWritten(r)).snowBase == ["--", "--", "--"]
  {
    ConditionsFunction.BodyAsWrittenKeys(r);
  }

  /**
   * With the figures under `snowBase`, the overlay shows the report: each tile
   * is `--` exactly when its figure is null and otherwise that figure in cm,
   * the temperature label reads back the temperature, and the note shows
   * whole when it is short.
   */
  lemma OverlayShowsReport(r: ConditionsFunction.Report)
    ensures var o := OverlayOf(ConditionsFunction.Body(r));
      && TileShows(o.newSnow[0], r.newSnow.overnightCm)
      && TileShows(o.newSnow[1], r.newSnow.last24Cm)
      && TileShows(o.newSnow[2], r.newSnow.last7DaysCm)
      && TileShows(o.snowBase[0], r.base.lowerCm)
      && TileShows(o.snowBase[1], r.base.upperCm)
      && TileShows(o.snowBase[2], r.base.ytdSnowfallCm)
      && (r.tempC.None? ==> o.temp == "--°C")
      && (r.tempC.Some? ==>
            (|o.temp| > 2 && o.temp[|o.temp| - 2..] == "°C" &&
             IsSignedDigits(o.temp[..|o.temp| - 2]) && SignedValue(o.temp[..|o.temp| - 2]) == r.tempC.value))
      && (r.note.None? ==> o.note == "")
      && (r.note.Some? && |r.note.value| <= NoteLimit ==> o.note == r.note.value)
  {
    ConditionsFunction.BodyFields(r);
  }

  /**
   * The conditions function sends no `lifts`, as written or corrected, so the
   * badge pass colours no badge and never throws.
   */
  lemma LiftsNeverSent(r: ConditionsFunction.Report)
    ensures !Prop(ConditionsFunction.Body(r), "lifts").Obj?
    ensures !BadgePassThrows(ConditionsFunction.Body(r)) && !BadgePassThrows(ConditionsFunction.BodyAsWritten(r))
  {
    ConditionsFunction.BodyHasNoLifts(r);
    ConditionsFunction.BodyAsWrittenKeys(r);
  }
}
