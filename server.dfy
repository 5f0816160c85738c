/**
 * The Express variant of the run scraper: its `/api/norquay-runs` handler
 * walks the run-status table row by row and records each run's bare status,
 * "open" or "closed", under its cleaned name.
 */
module ExpressServer {
  import opened Wrappers
  import opened Strings
  import opened Folds
  import opened TrailTable

  // ---------------------------------------------------------------------------
  // clean

  /** What `clean` leaves: no `[â€™]` character and single plain spaces between words only. */
  predicate Cleaned(s: string) {
    Lacks(s, Mojibake) && SingleSpaced(s)
  }

  /**
   * `clean(s)`: NBSP becomes a space, each of `â`, `€`, `™` becomes `'`, runs
   * of white space become one space, and the ends are trimmed.
   */
  function Clean(s: string): string {
    Trim(CollapseRuns(ReplaceChars(ReplaceChars(s, {Nbsp}, ' '), Mojibake, '\''), WhiteSpace, ' '))
  }

  lemma {:induction false} CleanCleaned(s: string)
    ensures Cleaned(Clean(s))
  {
    var quoted := ReplaceChars(ReplaceChars(s, {Nbsp}, ' '), Mojibake, '\'');
    assert Lacks(quoted, Mojibake);
    var collapsed := CollapseRuns(quoted, WhiteSpace, ' ');
    CollapseKeepsChars(quoted, WhiteSpace, ' ', Mojibake);
    TrimKeepsChars(collapsed, Mojibake);
    CollapseTrimSingleSpaced(quoted);
  }

  /** A cleaned string is left as it is. */
  lemma {:induction false} CleanFixed(s: string)
    requires Cleaned(s)
    ensures Clean(s) == s
  {
    assert IsSpace(Nbsp);
    assert Lacks(s, {Nbsp});
    ReplaceAbsentIdentity(s, {Nbsp}, ' ');
    ReplaceAbsentIdentity(s, Mojibake, '\'');
    CollapseSpacesIdentity(s);
    TrimIdentity(s);
  }

  lemma {:induction false} CleanIdempotent(s: string)
    ensures Clean(Clean(s)) == Clean(s)
  {
    CleanCleaned(s);
    CleanFixed(Clean(s));
  }

  // ---------------------------------------------------------------------------
  // The row callback

  /**
   * What the `$("tr").each` callback stores for one row, as a (name, status)
   * pair: nothing for a row without a `td.trail_name` cell, for an icon class
   * naming neither `open-icon` nor `close-icon`, or for an empty cleaned name.
   */
  function RowStatus(row: TrailRow): (r: Option<(string, string)>)
    ensures r.Some? ==> r.value.1 == "open" || r.value.1 == "closed"
  {
    if !row.hasTrailNameCell then None
    else
      var ic := IconClass(row);
      var status := if Contains(ic, "open-icon") then Some("open")
                    else if Contains(ic, "close-icon") then Some("closed")
                    else None;
      var name := Clean(row.nameText);
      if status.None? || name == "" then None else Some((name, status.value))
  }

  /** The callback's rule, case by case: `open-icon` is tested first, then `close-icon`. */
  lemma {:induction false} RowStatusMeaning(row: TrailRow)
    ensures RowStatus(row).Some? <==>
      row.hasTrailNameCell && Clean(row.nameText) != [] &&
      (Contains(IconClass(row), "open-icon") || Contains(IconClass(row), "close-icon"))
    ensures RowStatus(row).Some? ==> RowStatus(row).value.0 == Clean(row.nameText)
    ensures RowStatus(row).Some? ==>
      (RowStatus(row).value.1 == "open" <==> Contains(IconClass(row), "open-icon"))
  {
  }

  /** Names stored are cleaned and non-empty. */
  lemma {:induction false} RowNameCleaned(row: TrailRow)
    requires RowStatus(row).Some?
    ensures RowStatus(row).value.0 != [] && Cleaned(RowStatus(row).value.0)
  {
    CleanCleaned(row.nameText);
  }

  // ---------------------------------------------------------------------------
  // The handler's loop

  /** The `runs` object after the callback has run on every row, in document order. */
  method ScrapeRuns(rows: seq<TrailRow>) returns (runs: map<string, string>)
    ensures runs == FoldLast(Collect(rows, RowStatus))
  {
    runs := FoldCollect(rows, RowStatus);
  }

  /** Every stored run comes from some row, with a cleaned name and status "open" or "closed". */
  lemma {:induction false} StoredRunFromRow(rows: seq<TrailRow>, name: string)
    requires name in FoldLast(Collect(rows, RowStatus))
    ensures var status := FoldLast(Collect(rows, RowStatus))[name];
      (status == "open" || status == "closed") && name != [] && Cleaned(name) &&
      exists i :: 0 <= i < |rows| && RowStatus(rows[i]) == Some((name, status))
  {
    CollectedValue(rows, RowStatus, name);
    var i :| 0 <= i < |rows| && RowStatus(rows[i]) == Some((name, FoldLast(Collect(rows, RowStatus))[name]));
    RowNameCleaned(rows[i]);
  }

  /** When two rows share a name, the later one's status is the one kept. */
  lemma {:induction false} LaterRowWins(rows: seq<TrailRow>, i: nat)
    requires i < |rows| && RowStatus(rows[i]).Some?
    requires forall j :: i < j < |rows| ==> RowStatus(rows[j]).None? || RowStatus(rows[j]).value.0 != RowStatus(rows[i]).value.0
    ensures RowStatus(rows[i]).value.0 in FoldLast(Collect(rows, RowStatus))
    ensures FoldLast(Collect(rows, RowStatus))[RowStatus(rows[i]).value.0] == RowStatus(rows[i]).value.1
  {
    CollectLastWins(rows, RowStatus, i);
  }

  /** A row without a `td.trail_name` cell changes nothing. */
  lemma {:induction false} RowWithoutCellIgnored(rows: seq<TrailRow>, i: nat)
    requires i < |rows| && !rows[i].hasTrailNameCell
    ensures FoldLast(Collect(rows[..i] + rows[i + 1..], RowStatus)) == FoldLast(Collect(rows, RowStatus))
  {
    CollectSkips(rows, RowStatus, i);
  }
}
