/**
 * The Netlify function netlify/functions/norquay-runs.js: it cuts the
 * conditions page into table rows with `/<tr[\s\S]*?<\/tr>/gi`, classifies
 * each row by its status icon, reads the trail name out of the row and folds
 * the rows into `runs`, a later row overwriting an earlier one of the same
 * name.
 *
 * As written, the `for (const row of rows) {` begun at line 31 is never
 * closed: the `return new Response(…)` of line 56 sits inside the loop body
 * and the `} catch` of line 71 has no `try` to pair with.  Read literally the
 * module does not parse, and were the brace supplied after the `return`, the
 * function would answer after the first row that yields a name.  This model
 * takes the evident intent, the whole loop over every row (lines 31-54)
 * followed by the response.
 *
 * Each regular expression is a hand-written matcher: a leftmost search over
 * start positions, `[\s\S]*?` as the first position at which the rest
 * matches, and the runs `[^>]*` and `[^<]+` taken whole, which is exact here
 * because the token after each run starts with the character the run
 * excludes.
 */
module RunsFunction {
  import opened Wrappers
  import opened Strings
  import opened Folds

  // ---------------------------------------------------------------------------
  // Rows: html.match(/<tr[\s\S]*?<\/tr>/gi) || []

  const RowOpen := "<tr"
  const RowClose := "</tr>"

  /** A row match: `<tr` at `start`, its `</tr>` at `close`. */
  datatype Span = Span(start: nat, close: nat)

  /** `start` and `close` delimit one match of the row pattern: `close` is the first `</tr>` after the `<tr`. */
  predicate RowAt(html: string, start: nat, close: nat) {
    CiAt(html, start, RowOpen) && start + |RowOpen| <= close && CiAt(html, close, RowClose) &&
    forall q :: start + |RowOpen| <= q < close ==> !CiAt(html, q, RowClose)
  }

  /**
   * The successive matches of the global row pattern, trying each start
   * position from `pos` in turn; after a match the search resumes at its end.
   */
  function RowSpans(html: string, pos: nat): (r: seq<Span>)
    decreases |html| - pos
  {
    if pos + |RowOpen| > |html| then []
    else if !CiAt(html, pos, RowOpen) then RowSpans(html, pos + 1)
    else
      match FindCi(html, RowClose, pos + |RowOpen|)
      case None => RowSpans(html, pos + 1)
      case Some(c) => [Span(pos, c)] + RowSpans(html, c + |RowClose|)
  }

  /** With no `</tr>` left, no row pattern can match. */
  lemma {:induction false} NoCloseNoRows(html: string, pos: nat, from: nat)
    requires from <= pos + |RowOpen|
    requires forall q :: from <= q ==> !CiAt(html, q, RowClose)
    ensures RowSpans(html, pos) == []
    decreases |html| - pos
  {
    if pos + |RowOpen| <= |html| {
      NoCloseNoRows(html, pos + 1, from);
    }
  }

  /** The first row is the first `<tr` from `pos` with its first `</tr>`. */
  lemma {:induction false} RowSpansHead(html: string, pos: nat)
    requires RowSpans(html, pos) != []
    ensures var spans := RowSpans(html, pos);
      pos <= spans[0].start && RowAt(html, spans[0].start, spans[0].close) &&
      (forall q :: pos <= q < spans[0].start ==> !CiAt(html, q, RowOpen))
    decreases |html| - pos
  {
    if !CiAt(html, pos, RowOpen) {
      RowSpansHead(html, pos + 1);
    } else if FindCi(html, RowClose, pos + |RowOpen|).None? {
      NoCloseNoRows(html, pos + 1, pos + |RowOpen|);
      assert false;
    }
  }

  /** After the first row the search resumes at that row's end. */
  lemma {:induction false} RowSpansRest(html: string, pos: nat)
    requires RowSpans(html, pos) != []
    ensures RowSpans(html, pos)[1..] == RowSpans(html, RowSpans(html, pos)[0].close + |RowClose|)
    decreases |html| - pos
  {
    if !CiAt(html, pos, RowOpen) || FindCi(html, RowClose, pos + |RowOpen|).None? {
      RowSpansRest(html, pos + 1);
    }
  }

  /** The texts of the rows, in document order. */
  function Rows(html: string): (rows: seq<string>)
    ensures |rows| == |RowSpans(html, 0)|
  {
    var spans := RowSpans(html, 0);
    seq(|spans|, i requires 0 <= i < |spans| => RowSpanAt(html, 0, i); html[spans[i].start..spans[i].close + |RowClose|])
  }

  /** Where a match may begin after the `i`-th one's predecessor. */
  function GapStart(spans: seq<Span>, pos: nat, i: nat): nat
    requires i < |spans|
  {
    if i == 0 then pos else spans[i - 1].close + |RowClose|
  }

  /** The rows from the `i`-th on are what a search from the end of the row before finds. */
  lemma {:induction false} RowSpansSuffix(html: string, pos: nat, i: nat)
    requires i < |RowSpans(html, pos)|
    ensures RowSpans(html, pos)[i..] == RowSpans(html, GapStart(RowSpans(html, pos), pos, i))
  {
    var spans := RowSpans(html, pos);
    if i > 0 {
      RowSpansSuffix(html, pos, i - 1);
      var before := RowSpans(html, GapStart(spans, pos, i - 1));
      RowSpansRest(html, GapStart(spans, pos, i - 1));
      assert spans[i..] == before[1..];
    }
  }

  /**
   * Each row is a match of the pattern; the rows follow one another without
   * overlap; none begins later than the first `<tr` after the previous row;
   * and the rows after it are those a search from its end finds.
   */
  lemma {:induction false} RowSpanAt(html: string, pos: nat, i: nat)
    requires i < |RowSpans(html, pos)|
    ensures var spans := RowSpans(html, pos);
      GapStart(spans, pos, i) <= spans[i].start && RowAt(html, spans[i].start, spans[i].close) &&
      (forall q :: GapStart(spans, pos, i) <= q < spans[i].start ==> !CiAt(html, q, RowOpen)) &&
      spans[i + 1..] == RowSpans(html, spans[i].close + |RowClose|)
  {
    var spans := RowSpans(html, pos);
    var g := GapStart(spans, pos, i);
    RowSpansSuffix(html, pos, i);
    RowSpansHead(html, g);
    RowSpansRest(html, g);
    assert spans[i] == RowSpans(html, g)[0];
    assert spans[i + 1..] == RowSpans(html, g)[1..];
  }

  /** The search finds no row exactly when no `<tr` at or after `pos` is followed by a `</tr>`. */
  lemma {:induction false} RowSpansEmpty(html: string, pos: nat)
    ensures RowSpans(html, pos) == [] <==>
      forall a, c :: pos <= a && a + |RowOpen| <= c && CiAt(html, a, RowOpen) ==> !CiAt(html, c, RowClose)
    decreases |html| - pos
  {
    if pos + |RowOpen| <= |html| {
      RowSpansEmpty(html, pos + 1);
      if CiAt(html, pos, RowOpen) && FindCi(html, RowClose, pos + |RowOpen|).None? {
        NoCloseNoRows(html, pos + 1, pos + |RowOpen|);
      }
    }
  }

  // ---------------------------------------------------------------------------
  // The trail name of a row

  const TrailNameAttr := "class=\"trail_name\""

  /** The two name patterns: `<div[^>]*>([^<]+)<\/div>` and its fallback `>([^<]+)<\/td>`. */
  datatype NameTail = DivText | CellText

  function TailClose(t: NameTail): string {
    match t
    case DivText => "</div>"
    case CellText => "</td>"
  }

  /** `([^<]+)` at `a` followed by `close`: the capture as a half-open span. */
  function TextUntil(row: string, a: nat, close: string): (r: Option<(nat, nat)>)
    requires a <= |row|
    ensures r.Some? ==> r.value.0 == a < r.value.1 && CiAt(row, r.value.1, close)
  {
    var g := RunEnd(row, a, NoneOf('<'));
    if a < g && CiAt(row, g, close) then Some((a, g)) else None
  }

  /** The part of a name pattern after the lazy gap, anchored at `e`; its capture span. */
  function TailAt(t: NameTail, row: string, e: nat): (r: Option<(nat, nat)>)
    ensures r.Some? ==> e < r.value.0 < r.value.1 < |row| && CiAt(row, r.value.1, TailClose(t))
    ensures r.Some? ==> row[r.value.0 - 1] == '>'
  {
    match t
    case DivText =>
      if !CiAt(row, e, "<div") then None
      else
        var f := RunEnd(row, e + 4, NoneOf('>'));
        if f == |row| then None else TextUntil(row, f + 1, "</div>")
    case CellText =>
      if e < |row| && row[e] == '>' then TextUntil(row, e + 1, "</td>") else None
  }

  /** `[\s\S]*?` then the tail: the first position at or after `e` where the tail matches. */
  function LazyFrom(t: NameTail, row: string, e: nat): (k: Option<nat>)
    ensures k.Some? ==> e <= k.value && TailAt(t, row, k.value).Some?
  {
    FirstWhere((j: nat) => TailAt(t, row, j).Some?, e, |row|)
  }

  /** The lazy gap is as short as it can be: the tail matches at no earlier position, and nowhere when the search fails. */
  lemma {:induction false} LazyFromFirst(t: NameTail, row: string, e: nat)
    ensures LazyFrom(t, row, e).Some? ==> forall j :: e <= j < LazyFrom(t, row, e).value ==> TailAt(t, row, j).None?
    ensures LazyFrom(t, row, e).None? ==> forall j :: e <= j ==> TailAt(t, row, j).None?
  {
    var ok := (j: nat) => TailAt(t, row, j).Some?;
    assert LazyFrom(t, row, e) == FirstWhere(ok, e, |row|);
    FirstWhereLeast(ok, e, |row|);
    if LazyFrom(t, row, e).Some? {
      forall j | e <= j < LazyFrom(t, row, e).value ensures TailAt(t, row, j).None? {
        assert !ok(j);
      }
    } else {
      forall j | e <= j ensures TailAt(t, row, j).None? {
        if j < |row| {
          assert !ok(j);
        }
      }
    }
  }

  /** The leftmost match of `class="trail_name"[\s\S]*?<tail>`, as the attribute's and the tail's positions. */
  function NameSearch(t: NameTail, row: string, from: nat): (m: Option<(nat, nat)>)
    ensures m.Some? ==> from <= m.value.0 && CiAt(row, m.value.0, TrailNameAttr)
    ensures m.Some? ==> m.value.0 + |TrailNameAttr| <= m.value.1 && TailAt(t, row, m.value.1).Some?
    decreases |row| - from
  {
    match FindCi(row, TrailNameAttr, from)
    case None => None
    case Some(p) =>
      match LazyFrom(t, row, p + |TrailNameAttr|)
      case Some(k) => Some((p, k))
      case None => NameSearch(t, row, p + 1)
  }

  /** Group 1 of `row.match(…)` for the name pattern `t`, or `None` when it does not match. */
  function Capture(t: NameTail, row: string): (c: Option<string>)
    ensures c.Some? ==> c.value != []
  {
    match NameSearch(t, row, 0)
    case None => None
    case Some(m) =>
      var (a, b) := TailAt(t, row, m.1).value;
      Some(row[a..b])
  }

  /** `nameMatch[1].trim()`: the `<div>` pattern first, the `</td>` pattern as fallback. */
  function Name(row: string): (name: Option<string>)
    ensures name.Some? ==> Trimmed(name.value)
  {
    match Capture(DivText, row)
    case Some(c) => Some(Trim(c))
    case None =>
      match Capture(CellText, row)
      case Some(c) => Some(Trim(c))
      case None => None
  }

  /** When the tail matches nowhere from `from`, no later `class="trail_name"` helps. */
  lemma {:induction false} NoTailNoName(t: NameTail, row: string, from: nat, e: nat)
    requires e <= from + |TrailNameAttr|
    requires forall j :: e <= j ==> TailAt(t, row, j).None?
    ensures NameSearch(t, row, from) == None
    decreases |row| - from
  {
    match FindCi(row, TrailNameAttr, from)
    case None =>
    case Some(p) =>
      NoTailNoName(t, row, p + 1, e);
  }

  /**
   * Only the first `class="trail_name"` of a row matters: the capture is the
   * first tail match after it, and if there is none the pattern fails.
   */
  lemma {:induction false} FirstAttributeDecides(t: NameTail, row: string)
    ensures NameSearch(t, row, 0) == match FindCi(row, TrailNameAttr, 0)
      case None => None
      case Some(p) =>
        match LazyFrom(t, row, p + |TrailNameAttr|)
        case Some(k) => Some((p, k))
        case None => None
  {
    match FindCi(row, TrailNameAttr, 0)
    case None =>
    case Some(p) =>
      LazyFromFirst(t, row, p + |TrailNameAttr|);
      if LazyFrom(t, row, p + |TrailNameAttr|).None? {
        NoTailNoName(t, row, p + 1, p + |TrailNameAttr|);
      }
  }

  /** The captured text holds no `<`, the character the group `([^<]+)` excludes. */
  lemma {:induction false} TailText(t: NameTail, row: string, e: nat)
    requires TailAt(t, row, e).Some?
    ensures var (a, b) := TailAt(t, row, e).value; Lacks(row[a..b], {'<'})
  {
    var (a, b) := TailAt(t, row, e).value;
    RunEndSpan(row, a, NoneOf('<'));
    forall i | 0 <= i < b - a ensures row[a..b][i] !in {'<'} {
      assert row[a..b][i] == row[a + i];
    }
  }

  /** A name never holds `<`. */
  lemma {:induction false} NameHasNoTag(row: string)
    requires Name(row).Some?
    ensures Lacks(Name(row).value, {'<'})
  {
    var t := if Capture(DivText, row).Some? then DivText else CellText;
    var m := NameSearch(t, row, 0).value;
    TailText(t, row, m.1);
    TrimKeepsChars(Capture(t, row).value, {'<'});
  }

  // ---------------------------------------------------------------------------
  // One row

  datatype RunRecord = RunRecord(status: string, groomed: bool)

  const SnowPlow := "snow-plow-truck"
  const SnowPlowIcon := "icons-" + SnowPlow + ".svg"

  /** `/icons-snow-plow-truck\.svg/i.test(row) || /snow-plow-truck/i.test(row)`. */
  predicate Groomed(row: string) {
    ContainsCi(row, SnowPlowIcon) || ContainsCi(row, SnowPlow)
  }

  /** The first alternative is subsumed by the second: a row is groomed exactly when it mentions `snow-plow-truck`. */
  lemma {:induction false} GroomedIff(row: string)
    ensures Groomed(row) <==> ContainsCi(row, SnowPlow)
  {
    if ContainsCi(row, SnowPlowIcon) {
      ContainsCiPart(row, "icons-", SnowPlow, ".svg");
    }
  }

  /** The body of the row loop: the entry it assigns, or `None` where it `continue`s. */
  function RowEntry(row: string): (r: Option<(string, RunRecord)>)
    ensures r.Some? ==> r.value.1.status == "open" || r.value.1.status == "closed"
  {
    var isOpen := Contains(row, "open-icon");
    var isClosed := Contains(row, "close-icon");
    if !isOpen && !isClosed then None
    else
      match Name(row)
      case None => None
      case Some(name) => Some((name, RunRecord(if isOpen then "open" else "closed", Groomed(row))))
  }

  /**
   * A row yields an entry exactly when it has a status icon and a name; the
   * status is "open" whenever `open-icon` occurs, "closed" only for
   * `close-icon` alone; `groomed` is the snow-plow test, whatever the status.
   */
  lemma {:induction false} RowEntryMeaning(row: string)
    ensures RowEntry(row).Some? <==> (Contains(row, "open-icon") || Contains(row, "close-icon")) && Name(row).Some?
    ensures RowEntry(row).Some? ==> RowEntry(row).value.0 == Name(row).value
    ensures RowEntry(row).Some? ==> (RowEntry(row).value.1.status == "open" <==> Contains(row, "open-icon"))
    ensures RowEntry(row).Some? ==>
      (RowEntry(row).value.1.status == "closed" <==> !Contains(row, "open-icon") && Contains(row, "close-icon"))
    ensures RowEntry(row).Some? ==> (RowEntry(row).value.1.groomed <==> ContainsCi(row, SnowPlow))
  {
    GroomedIff(row);
  }

  // ---------------------------------------------------------------------------
  // The loop over the rows

  /** The `runs` object the loop over the rows of `html` builds. */
  method ScrapeRuns(html: string) returns (runs: map<string, RunRecord>)
    ensures runs == FoldLast(Collect(Rows(html), RowEntry))
  {
    runs := FoldCollect(Rows(html), RowEntry);
  }

  /** Every stored run comes from a row of the page, by that row's rule, with status "open" or "closed". */
  lemma {:induction false} StoredRunFromRow(html: string, name: string)
    requires name in FoldLast(Collect(Rows(html), RowEntry))
    ensures var run := FoldLast(Collect(Rows(html), RowEntry))[name];
      (run.status == "open" || run.status == "closed") &&
      exists i :: 0 <= i < |Rows(html)| && RowEntry(Rows(html)[i]) == Some((name, run))
  {
    CollectedValue(Rows(html), RowEntry, name);
  }

  /** Of the rows that share a name, the last decides the stored entry. */
  lemma {:induction false} LastRowWins(rows: seq<string>, i: nat)
    requires i < |rows| && RowEntry(rows[i]).Some?
    requires forall j :: i < j < |rows| ==> RowEntry(rows[j]).None? || RowEntry(rows[j]).value.0 != RowEntry(rows[i]).value.0
    ensures RowEntry(rows[i]).value.0 in FoldLast(Collect(rows, RowEntry))
    ensures FoldLast(Collect(rows, RowEntry))[RowEntry(rows[i]).value.0] == RowEntry(rows[i]).value.1
  {
    CollectLastWins(rows, RowEntry, i);
  }

  /** A row with neither status icon contributes nothing: leaving it out yields the same `runs`. */
  lemma {:induction false} UnmarkedRowIgnored(rows: seq<string>, i: nat)
    requires i < |rows|
    requires !Contains(rows[i], "open-icon") && !Contains(rows[i], "close-icon")
    ensures FoldLast(Collect(rows[..i] + rows[i + 1..], RowEntry)) == FoldLast(Collect(rows, RowEntry))
  {
    CollectSkips(rows, RowEntry, i);
  }
}
