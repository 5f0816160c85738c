# Norquay interactive trail map, modelled in Dafny

The Norquay map shows the live state of the ski runs and lifts of Mt Norquay
on an SVG trail map. It has four parts:

- Two run scrapers read the resort's conditions page. One is a Netlify
  function that cuts the HTML into `<tr>` rows with regular expressions. The
  other is an Express route that walks the rows with cheerio. Both turn each
  run into a name and a status.
- A conditions scraper reads the temperature, the weather note and the snow
  figures out of the page's text with regular expressions.
- A build script pairs each run name with an element id of the SVG and writes
  the pairs to `runMap.json`.
- The browser client resolves each scraped run to an SVG element through that
  map. It paints the element open, closed or unknown, colours the lift badges
  A–G and fills the conditions overlay.

The model covers what these parts compute from text they have already
received. It models name canonicalisation, the regular-expression searches,
the row folds (a later write of a key wins), the id matching, and the overlay
display rules. Fetching, timers, file I/O and the DOM are not modelled. The
model takes its input where the source would have finished that work: the
page text, the SVG text, the table rows as cheerio returns them, and the
decoded JSON values.

Modules:

- `Wrappers`: `Option`.
- `Strings`: JavaScript's `\s`, `toLowerCase`, `replace(/…/g, …)`, `trim`,
  literal and case-insensitive search.
- `Numerals`: decimal digit strings and numbers.
- `Json`: decoded JSON values, property access, truthiness and `toString`.
- `Folds`: the loops the sources write over objects, `Map`s, `Set`s and
  arrays, each with its specification function.
- `App`: `public/app.js`.
- `RunsFunction`: `netlify/functions/norquay-runs.js`.
- `Patterns` and `ConditionsFunction`: `netlify/functions/conditions.js`.
- `TrailTable`: the table row as cheerio sees it.
- `ExpressServer`: `server.js`.
- `RunMapGenerator`: `generate-runmap.js`.

Each loop is a method proved against the function that specifies it. The
properties the sources rely on are proved as lemmas about those functions.

The model follows the code in these places where a reader might expect
otherwise:

- When a row's icon class names both `open-icon` and `close-icon`, the run is
  open, because `open-icon` is tested first.
- The conditions function sends no `lifts`, although the client has a badge
  pass for them; the client colours no lift badge from it.
- The weather note is cut to 260 characters only for display, in the client.
- The `[â€™]` class replaces three single characters, not every form of the
  right single quote.
- The conditions function sends its snow-base figures under `base`, while the
  client reads them from `snowBase` (see Findings).

## Model

| member | source | states |
|---|---|---|
| Strings.LowerLowers | public/app.js:4 | `toLowerCase` keeps the length, leaves no upper-case letter, and a second application changes nothing |
| Strings.ReplaceCharsMeaning | public/app.js:5-6 | a global replace of a character class keeps the length and every character outside the class, leaves none of the class when the replacement is outside it, and a second application changes nothing |
| Strings.CollapseRunsSeparated | public/app.js:8 | `replace(/\s+/g, " ")` never leaves two spaces side by side |
| Strings.TrimDropsOnlySpace | public/app.js:9 | `trim` keeps one slice of the string and drops only white space on either side of it |
| Strings.CollapseTrimSingleSpaced | server.js:14-15 | collapsing white space and then trimming always gives single spaces between words and none at the ends |
| Strings.FindCi | netlify/functions/norquay-runs.js:28 | a case-insensitive literal search returns the leftmost occurrence at or after the start, and none when there is none |
| Strings.ContainsCiPart | netlify/functions/norquay-runs.js:38-39 | a text that contains a literal, ignoring case, contains each part of that literal |
| Json.PropAt | netlify/functions/conditions.js:59-76 | in an object literal whose keys are distinct, reading a key gives the value written under it |
| Json.PropMissing | public/app.js:535-537 | reading a key that an object does not have gives `undefined` |
| Numerals.IntToDecimal | public/app.js:293 | the printed text of an integer is a signed digit string with no `+` sign, and it reads back to the same integer |
| Numerals.IntToDecimalInjective | public/app.js:293 | two integers print alike exactly when they are equal |
| Folds.FoldLastKeys | public/app.js:171-173 | the keys of an object built by assignment are exactly the keys assigned |
| Folds.FoldLastAt | public/app.js:171-173 | a later assignment of a key overwrites an earlier one: the last entry of a key decides its value |
| Folds.FoldLastValues | public/app.js:171-173 | every value of the object is the value of some assignment to that key |
| Folds.FoldRekeyed | public/app.js:572-575 | the loop `m[key(k)] = val(v)` over the entries builds the last-wins object of the rewritten entries |
| Folds.RekeyedValues | public/app.js:572-575 | every entry of the rewritten object comes from one input entry, as `key(k)` mapped to `val(v)` |
| Folds.FoldCollect | server.js:29-48 | a loop that skips or assigns per element builds the last-wins object of the entries it yields |
| Folds.CollectedValue | server.js:29-48 | every key of the resulting object holds what some element yielded |
| Folds.CollectSkips | server.js:31 | removing an element that yields nothing leaves the entries unchanged |
| Folds.CollectLastWins | server.js:47 | the last element that yields a key decides that key's value |
| Folds.CollectHas | generate-runmap.js:75-86 | every key an element yields ends up in the object |
| Folds.DedupMeaning | generate-runmap.js:19-23 | `[...new Set(s)]` holds every element of `s`, nothing else, and no element twice |
| Folds.DedupOrder | generate-runmap.js:19-23 | the elements of `[...new Set(s)]` appear in the order of their first occurrence in `s` |
| Folds.DedupSnoc | generate-runmap.js:22 | adding one more element appends it when it is new and changes nothing otherwise |
| Folds.DedupAdd | generate-runmap.js:22 | `set.add(x)` on the distinct elements of `s` gives the distinct elements of `s` followed by `x` |
| Folds.AddAllDedup | generate-runmap.js:19-23 | adding the elements one at a time to a `Set` gives the distinct elements in first-occurrence order |
| Folds.Lookup | generate-runmap.js:63 | `Map.get(k)` finds nothing exactly when no entry has key `k`; what it finds is an entry's value under `k` |
| Folds.KeptMembers | generate-runmap.js:46-47 | an element is in a push-when-truthy array exactly when some input element yields it |
| Folds.FoldKept | generate-runmap.js:32-50 | the push loop fills the array with what each element yields, in input order |
| Folds.FoldFirstSeen | generate-runmap.js:58-64 | the loop `if (!m.has(k)) m.set(k, x)` builds the keyed elements, each key from its first element |
| Folds.FirstSeenLookup | generate-runmap.js:58-64 | a key is in the `Map` exactly when some element has it, and its value is the first such element |
| Folds.FirstSeenEntries | generate-runmap.js:58-64 | each entry files an input element under that element's own key, and no key appears twice |
| App.NormCanonical | public/app.js:1-10 | `norm`'s output has no upper-case letter and no `_`, `-` or `’`, and it is single-spaced with no space at either end |
| App.CanonicalFixed | public/app.js:1-10 | a string that is already in that form is its own `norm` |
| App.NormIdempotent | public/app.js:1-10 | `norm(norm(s)) == norm(s)` |
| App.NormFoldsQuote | public/app.js:5 | `norm` gives `’` and `'` the same result |
| App.NormFoldsNbsp | public/app.js:6 | `norm` gives NBSP and a plain space the same result |
| App.NormOf | public/app.js:2-3 | null, undefined and `""` all normalise to `""`; a string normalises as text |
| App.Idify | public/app.js:12-14 | `idify` leaves no white space; its result is the normal form with each space replaced by `-` |
| App.SpacesTo | public/app.js:593-594 | on a normalised key, `replace(/\s+/g, c)` replaces each single space by `c` |
| App.RunMapCanonical | public/app.js:572-575 | every key of `runMap` is a normalised name and every value is trimmed |
| App.FourthCandidateRepeatsThird | public/app.js:592-593 | the fourth candidate id always equals the third (`key` with spaces made `-` is `idify(runName)`) |
| App.NonEmptyMembers | public/app.js:595 | `.filter(Boolean)` keeps exactly the non-empty candidates |
| App.FirstPresentAt | public/app.js:600-603 | the candidate at `i` is used when it is in the document and no earlier one is |
| App.FirstPresentMeaning | public/app.js:600-603 | no element is found exactly when no candidate is in the document; otherwise the earliest candidate in the document is used |
| App.FirstPresentAppend | public/app.js:600-603 | searching `a + b` searches `a` first, then `b` |
| App.FirstPresentNonEmpty | public/app.js:595-603 | filtering out the empty candidates first is the same as never accepting the empty id |
| App.Resolve | public/app.js:597-603 | the candidate loop with its `break` returns the first candidate the document has, or nothing |
| App.ResolutionOrder | public/app.js:586-603 | the id used is the first, in this order, of the mapped id, the mapped id idified, the run name idified, the key with spaces made `-`, and the key with spaces made `_` that is non-empty and in the document |
| App.PaintedStatus | public/app.js:225-263 | the element a run resolves to, when no later run resolves to it, shows open exactly for the status `"open"`, closed exactly for `"closed"` and unknown for any other value, and its groom marker shows exactly when `groomed` is truthy |
| App.PaintRuns | public/app.js:582-611 | each element shows what the last run resolved to it gave it; `applied` counts the runs that resolved; `applied + notFound` is the number of runs |
| App.Refresh | public/app.js:564-618 | with a truthy conditions answer the overlay is filled and the badge pass runs as written: all seven badges when no lift of the table is `null`, otherwise the badges before the first `null` lift, after which the pass throws and nothing is painted; otherwise `runMap` is the normalised table of runMap.json and the runs are painted through it as `PaintRuns` states |
| App.PaintingsInDocument | public/app.js:600-607 | every paint goes to an id the document has |
| App.PaintedInDocument | public/app.js:600-607 | only ids the document has are ever painted |
| App.LaterRunWins | public/app.js:582-611 | when two runs resolve to the same element, the element shows the later run's state and groom flag |
| App.NullLiftThrows | public/app.js:176-187 | the lift test as written throws for a lift reported as `null` |
| App.LiftCorrectionOnlyNull | public/app.js:176-187 | the corrected lift test agrees with the as-written one on every value except `null`, which it reads as closed |
| App.LiftMissingIsClosed | public/app.js:176-187 | in the corrected lift test a missing or `null` lift shows closed (as written, a `null` one throws instead: `App.NullLiftThrows`) |
| App.LiftTextBool | public/app.js:177 | a boolean lift's text is `"true"` or `"false"` |
| App.LiftTextNumber | public/app.js:177 | a numeric lift's text is its decimal form |
| App.LiftTextObject | public/app.js:177 | an object lift's text is `"[object object]"` |
| App.LiftBoolOpen | public/app.js:181-187 | a boolean lift is open exactly when it is `true` |
| App.LiftNumberOpen | public/app.js:177-186 | a numeric lift is open exactly when it is 1 |
| App.OpenWordsDigits | public/app.js:183-186 | `"1"` is the only open word that is a number's text |
| App.LiftObjectOpen | public/app.js:187 | an object lift is open exactly when its `status` is `"open"` or its `open` is `true` |
| App.BadgesFor | public/app.js:175-191 | with the corrected lift test: one badge per table entry, in table order, each coloured by what its lift reads |
| App.BadgesForAsWritten | public/app.js:175-191 | as written: the badges of the entries before the first `null` lift, each coloured by what its lift reads, and a TypeError exactly when some entry's lift is `null` |
| App.LiftBadgesAsWritten | public/app.js:165-192 | as written: no badge when `cond.lifts` is not an object; otherwise the badges A–G in order up to the first lift reported as `null`, where the pass throws, and all seven when there is none |
| App.LiftBadges | public/app.js:165-192 | with the corrected lift test: no badge when `cond.lifts` is not an object; otherwise each of the letters A–G gets one badge, in order, green exactly when its lift reads as open |
| App.NumberOfPrinted | public/app.js:291-294 | `Number` reads back the text `${n}` prints, so a number and its text show the same tile |
| App.FmtCm | public/app.js:291-294 | the result is `"--"` exactly for null, undefined and NaN; otherwise it is a number that reads back to `Number(n)`, followed by `cm` |
| App.TempLabel | public/app.js:515-520 | the label is `--°C` for a missing temperature; for a number it is a number that reads back to the value, followed by `°C` |
| App.NoteDisplay | public/app.js:516-523 | the note is kept whole up to 260 characters; a longer note becomes its first 260 characters followed by `…` |
| App.OverlayOf | public/app.js:512-537 | the overlay has three new-snow tiles and three snow-base tiles |
| App.SnowBaseAlwaysBlank | public/app.js:535-537 | for the answer the conditions function sends as written (its figures under `base`), the three snow-base tiles show `--` whatever the page reports |
| App.OverlayShowsReport | public/app.js:512-537 | for the corrected answer, each snow tile is `--` exactly when its figure is null and otherwise that figure in cm; the temperature label reads back to the temperature or is `--°C` when there is none; the note is empty when there is none and is shown whole when it has at most 260 characters |
| App.LiftsNeverSent | public/app.js:165-167 | the conditions answer, as written or corrected, has no `lifts` object, so the badge pass returns at its guard and never throws |
| RunsFunction.NoCloseNoRows | netlify/functions/norquay-runs.js:28-29 | with no `</tr>` left, no row matches |
| RunsFunction.RowSpansHead | netlify/functions/norquay-runs.js:28-29 | the first row runs from the leftmost `<tr>` to the first `</tr>` after it |
| RunsFunction.RowSpansRest | netlify/functions/norquay-runs.js:28-29 | after a row, the global search resumes where that row's `</tr>` ends |
| RunsFunction.RowSpansSuffix | netlify/functions/norquay-runs.js:28-29 | the rows from the `i`-th on are those found by searching from the end of the row before |
| RunsFunction.RowSpanAt | netlify/functions/norquay-runs.js:28-29 | each row starts at the first `<tr` after the previous row and ends at the first `</tr>` after its own start |
| RunsFunction.RowSpansEmpty | netlify/functions/norquay-runs.js:28-29 | `html.match(...) \|\| []` is empty exactly when no `<tr` is followed by a `</tr>` |
| RunsFunction.Rows | netlify/functions/norquay-runs.js:28-29 | there is one row text per match, in document order |
| RunsFunction.TextUntil | netlify/functions/norquay-runs.js:44-45 | `([^<]+)` captures a non-empty span that is followed by the closing tag |
| RunsFunction.TailAt | netlify/functions/norquay-runs.js:44-45 | the name tail's capture starts right after a `>` and is non-empty, and the closing tag follows it |
| RunsFunction.LazyFrom | netlify/functions/norquay-runs.js:44-45 | `[\s\S]*?` stops at a position where the tail matches |
| RunsFunction.LazyFromFirst | netlify/functions/norquay-runs.js:44-45 | `[\s\S]*?` stops at the first position where the tail matches, and the search fails only when the tail matches nowhere |
| RunsFunction.NameSearch | netlify/functions/norquay-runs.js:44-45 | a name match starts at a `class="trail_name"` followed by a matching tail |
| RunsFunction.NoTailNoName | netlify/functions/norquay-runs.js:44-45 | when the tail matches nowhere after a `class="trail_name"`, no later one yields a match |
| RunsFunction.FirstAttributeDecides | netlify/functions/norquay-runs.js:44-45 | only the first `class="trail_name"` of a row decides the capture |
| RunsFunction.Capture | netlify/functions/norquay-runs.js:43-45 | the captured group is never empty |
| RunsFunction.Name | netlify/functions/norquay-runs.js:43-49 | the name is trimmed |
| RunsFunction.TailText | netlify/functions/norquay-runs.js:44-45 | the captured text holds no `<` |
| RunsFunction.NameHasNoTag | netlify/functions/norquay-runs.js:43-49 | a run name never holds `<` |
| RunsFunction.GroomedIff | netlify/functions/norquay-runs.js:37-39 | a row is groomed exactly when it mentions `snow-plow-truck`, ignoring case (the first alternative adds nothing) |
| RunsFunction.RowEntry | netlify/functions/norquay-runs.js:32-54 | a stored status is `"open"` or `"closed"` |
| RunsFunction.RowEntryMeaning | netlify/functions/norquay-runs.js:32-54 | a row is stored exactly when it has a status icon and a name. The status is `"open"` exactly when `open-icon` occurs, and `"closed"` exactly when only `close-icon` occurs. `groomed` is the snow-plow test |
| RunsFunction.ScrapeRuns | netlify/functions/norquay-runs.js:24-54 | `runs` is the last-wins fold of the rows' entries, in document order |
| RunsFunction.StoredRunFromRow | netlify/functions/norquay-runs.js:31-54 | every stored run comes from a row of the page, by that row's rule, and its status is `"open"` or `"closed"` |
| RunsFunction.LastRowWins | netlify/functions/norquay-runs.js:51-54 | of the rows that share a name, the last one decides the stored entry |
| RunsFunction.UnmarkedRowIgnored | netlify/functions/norquay-runs.js:35 | a row with neither status icon changes nothing |
| Patterns.Step | netlify/functions/conditions.js:42 | a token that matches ends within the text, and a figure `\d+` (or `[-+]?\d+`) takes at least one character |
| Patterns.Steps | netlify/functions/conditions.js:42 | a token sequence that matches ends within the text |
| Patterns.MatchAt | netlify/functions/conditions.js:42 | an anchored match holds a non-empty figure inside the match |
| Patterns.Leftmost | netlify/functions/conditions.js:42 | `s.match(p)` returns a start position at which the pattern matches |
| Patterns.LeftmostLeast | netlify/functions/conditions.js:42 | no match starts before the one `s.match(p)` returns, and the search fails only when the pattern matches nowhere |
| Patterns.StepFigure | netlify/functions/conditions.js:42 | a figure token matches digits, after a sign when signed |
| Patterns.GroupAt | netlify/functions/conditions.js:43 | the captured group is a figure |
| Patterns.ReadingAbsent | netlify/functions/conditions.js:43 | a reading is null exactly when the pattern matches nowhere |
| Patterns.UnsignedValue | netlify/functions/conditions.js:50 | an unsigned figure's value is never negative |
| Patterns.ReadingNonNegative | netlify/functions/conditions.js:50-56 | a pattern with an unsigned figure reads a non-negative number |
| Patterns.ReadingsNonNegative | netlify/functions/conditions.js:57 | every reading of a global unsigned-figure pattern is non-negative |
| Patterns.FirstReading | netlify/functions/conditions.js:57 | `matchAll` finds nothing exactly when `match` finds nothing, and its first reading is the one `match` finds |
| Patterns.StepsPrefix | netlify/functions/conditions.js:51-52 | tokens that match still match when the sequence is cut short, and end no later |
| Patterns.ReadingAfter | netlify/functions/conditions.js:51-52 | whenever a pattern reads a figure, every prefix of the tokens before the figure matches from the start of the leftmost match and ends at or before the figure read |
| Patterns.LeadingLiteral | netlify/functions/conditions.js:42-57 | a match starts with the pattern's leading literal, ignoring case |
| Patterns.ReadingNeedsLiteral | netlify/functions/conditions.js:42-57 | a pattern reads nothing from a text that lacks its leading literal |
| ConditionsFunction.PageText | netlify/functions/conditions.js:40 | the page text holds only plain spaces as white space, never two in a row |
| ConditionsFunction.NoteAt | netlify/functions/conditions.js:46 | an anchored note match starts after the label and ends where a heading starts |
| ConditionsFunction.NoteSpan | netlify/functions/conditions.js:46 | the note's capture ends where `New Snow` or `Snow Base` starts |
| ConditionsFunction.FigureNullIffNoMatch | netlify/functions/conditions.js:42-72 | each figure is null exactly when its own expression matches nowhere in the page text |
| ConditionsFunction.SnowFiguresNonNegative | netlify/functions/conditions.js:50-73 | every snow figure, when present, is non-negative |
| ConditionsFunction.Last24NeedsOvernight | netlify/functions/conditions.js:51 | the last-24-hours figure is the capture of the leftmost match, and an "Overnight N cm" sequence runs from that match's start to at or before the figure |
| ConditionsFunction.Last7NeedsLast24 | netlify/functions/conditions.js:52 | the last-7-days figure is the capture of the leftmost match, and a "Last 24 hours N cm" sequence runs from that match's start to at or before the figure |
| ConditionsFunction.TempExampleLabel | netlify/functions/conditions.js:42 | `Current Temp\s*` covers the example's first 13 characters |
| ConditionsFunction.TempExampleUnit | netlify/functions/conditions.js:42 | `\s*°\s*C` covers the rest of the example after the figure |
| ConditionsFunction.TemperatureExample | netlify/functions/conditions.js:39-43 | "Current Temp -5 °C" reads -5: the sign is part of the figure |
| ConditionsFunction.YearToDateTotals | netlify/functions/conditions.js:57-73 | the two year-to-date totals are the first and second matches; the first is what a plain `match` finds; with fewer than two matches the second is null |
| ConditionsFunction.NoHeadingInBlanks | netlify/functions/conditions.js:46 | no heading starts on a white-space character |
| ConditionsFunction.NoHeadingAfterLabel | netlify/functions/conditions.js:46 | when the note expression matches nowhere, no heading follows any label |
| ConditionsFunction.NoteNullIffNoMatch | netlify/functions/conditions.js:46-47 | the note is null exactly when no "Weather Note:" label is followed, at any distance, by a "New Snow" or "Snow Base" heading |
| ConditionsFunction.NoteStopsAtFirstHeading | netlify/functions/conditions.js:46 | the note starts after a label, ends at a heading, and has no heading inside it |
| ConditionsFunction.NoteSingleSpaced | netlify/functions/conditions.js:47 | a note, when present, is trimmed and single-spaced |
| ConditionsFunction.BodyWithFields | netlify/functions/conditions.js:59-76 | the answer carries the page address, the temperature, the note, the three new-snow figures and the four snow-base figures, each `null` exactly when the figure is missing, whatever key the snow base goes under |
| ConditionsFunction.BodyFields | netlify/functions/conditions.js:59-76 | the corrected answer carries every figure, the snow base under `snowBase` |
| ConditionsFunction.Respond | netlify/functions/conditions.js:59-76 | the answer as written carries every figure read from the page, the snow base under `base`, and has no `snowBase` and no `lifts` |
| ConditionsFunction.RespondCorrected | netlify/functions/conditions.js:59-76 | the corrected answer carries every figure read from the page, the snow base under `snowBase`, and has no `lifts` |
| ConditionsFunction.BodyAsWrittenKeys | netlify/functions/conditions.js:68 | the answer as written has no `snowBase` field and no `lifts` field |
| ConditionsFunction.BodyHasNoLifts | netlify/functions/conditions.js:59-76 | the answer has no `lifts` field |
| TrailTable.IconClass | server.js:33 | the icon class is lower-case, and it is `""` when the row has no icon |
| ExpressServer.CleanCleaned | server.js:10-16 | `clean`'s output has none of `â`, `€`, `™` and is single-spaced with no space at either end |
| ExpressServer.CleanFixed | server.js:10-16 | a string that is already clean is left as it is |
| ExpressServer.CleanIdempotent | server.js:10-16 | `clean(clean(s)) == clean(s)` |
| ExpressServer.RowStatus | server.js:29-48 | a stored status is `"open"` or `"closed"` |
| ExpressServer.RowStatusMeaning | server.js:30-47 | a row is stored exactly when it has a `td.trail_name` cell, a non-empty cleaned name and an `open-icon` or `close-icon` class. It is stored under its cleaned name, as `"open"` exactly when `open-icon` occurs |
| ExpressServer.RowNameCleaned | server.js:40-47 | stored names are clean and non-empty |
| ExpressServer.ScrapeRuns | server.js:26-48 | `runs` is the last-wins fold of the rows' statuses, in document order |
| ExpressServer.StoredRunFromRow | server.js:29-48 | every stored run comes from some row, with a clean non-empty name and the status `"open"` or `"closed"` |
| ExpressServer.LaterRowWins | server.js:47 | when two rows share a name, the later row's status is kept |
| ExpressServer.RowWithoutCellIgnored | server.js:31 | a row without a `td.trail_name` cell changes nothing |
| RunMapGenerator.KeyifyKeyed | generate-runmap.js:8-16 | `keyify`'s output has no upper-case letter and none of `â`, `€`, `™`, `_` or `-`, and it is single-spaced with no space at either end |
| RunMapGenerator.KeyedFixed | generate-runmap.js:8-16 | a key is its own `keyify` |
| RunMapGenerator.KeyifyIdempotent | generate-runmap.js:8-16 | `keyify(keyify(s)) == keyify(s)` |
| RunMapGenerator.QuoteEnd | generate-runmap.js:20 | the run of `[^"]` stops at the next `"` or at the end of the text |
| RunMapGenerator.QuoteEndSpan | generate-runmap.js:20 | no `"` occurs inside that run |
| RunMapGenerator.IdTail | generate-runmap.js:20 | the closing quote of a match comes after a non-empty id |
| RunMapGenerator.IdAt | generate-runmap.js:20 | an anchored match of `\bid="([^"]+)"` ends at a closing quote after a non-empty id |
| RunMapGenerator.IdTailMeaning | generate-runmap.js:20 | the tail matches exactly when the rest of `id="` is there, followed by a non-empty run without `"` and then a `"` |
| RunMapGenerator.FindId | generate-runmap.js:20-22 | `re.exec` finds a match at or after `lastIndex` |
| RunMapGenerator.FindIdLeftmost | generate-runmap.js:20-22 | `re.exec` finds the leftmost match at or after `lastIndex`, and finds none only when there is none |
| RunMapGenerator.ExtractSvgIds | generate-runmap.js:18-24 | the `exec` loop returns the distinct captures in first-occurrence order |
| RunMapGenerator.GatheredStep | generate-runmap.js:22 | one turn of the loop adds the capture and resumes after its closing quote |
| RunMapGenerator.GatheredAddAll | generate-runmap.js:19-23 | adding the captures as they are found is adding the list of all captures in order |
| RunMapGenerator.GatheredDedup | generate-runmap.js:19-23 | from an empty `Set`, the loop leaves the captures' first occurrences |
| RunMapGenerator.IdAtSpelled | generate-runmap.js:20 | a match spells `id="`, a non-empty id without `"`, and a closing `"` in the text, after a word boundary |
| RunMapGenerator.IdMatchesSpelled | generate-runmap.js:20-22 | every captured id is non-empty, free of `"`, and written `id="…"` in the text after a word boundary |
| RunMapGenerator.SvgIdsMeaning | generate-runmap.js:18-24 | the SVG ids are distinct captures, ordered by where they first occur |
| RunMapGenerator.SvgIdSpelled | generate-runmap.js:18-24 | every SVG id is non-empty, free of `"`, and written `id="…"` in the SVG text |
| RunMapGenerator.BuildIdByKey | generate-runmap.js:58-64 | `idByKey` files each non-empty key under the first id that has it, in insertion order |
| RunMapGenerator.IdByKeyFirstSeen | generate-runmap.js:58-64 | a key is in `idByKey` exactly when some id has it, and it maps to the first such id |
| RunMapGenerator.IdByKeyEntries | generate-runmap.js:58-64 | every entry files an SVG id under its own non-empty key, and no key is filed twice |
| RunMapGenerator.ResolveMeaning | generate-runmap.js:75-86 | a key resolves exactly when some entry's key equals it once apostrophes are dropped. The direct match is taken first. The fallback takes the first entry in insertion order whose key without apostrophes matches |
| RunMapGenerator.MatchRuns | generate-runmap.js:68-89 | `runMap` is the last-wins object of each name's key and resolved id; `missing` lists, in order, the names that did not resolve |
| RunMapGenerator.RunMapMeaning | generate-runmap.js:71-89 | a key is in `runMap` exactly when some run name has it and it resolves, and it maps to what it resolves to |
| RunMapGenerator.PlacedOrMissing | generate-runmap.js:71-89 | each run name is either placed in `runMap` or listed as missing, never both |
| RunMapGenerator.RunName | generate-runmap.js:34-48 | a harvested name is trimmed |
| RunMapGenerator.FetchRunNames | generate-runmap.js:32-50 | the callback's names, in document order |
| RunMapGenerator.HarvestedNames | generate-runmap.js:34-48 | a name is harvested exactly when some row with a `td.trail_name` cell and an open or closed icon carries it, with a non-empty key, trimmed |
| RunMapGenerator.GenerateRunMap | generate-runmap.js:53-89 | the script turns the SVG text and the table rows into the run map and the list of missing names |
| RunMapGenerator.RunMapTargetsSvgIds | generate-runmap.js:53-89 | every id in the run map is an SVG id and is written `id="…"` in the SVG text |
| RunMapGenerator.RunMapKeys | generate-runmap.js:68-89 | every key of the run map is a `keyify` key of some harvested run name |

## Left out

- Network and I/O are parameters or are left out. This covers `fetch`, the HTTP responses and their status codes, headers and caching, `fs`, `console`, `setTimeout`/`setInterval` and `withTimeout`. The model starts from the page text, the SVG text and the decoded JSON.
- The DOM and cheerio are left out. Parsing the HTML, `$("body").text()` and the selectors of the row callback are foreign code. A row enters the model as a `TrailTable.TrailRow` and a page as its body text. The SVG document is the set of its element ids.
- The drawing work in `public/app.js` is left out: `ensureSvgStyles`, `getDrawableTarget`, `clearPrevious`, `rememberOriginal`, `restoreOriginal`, the style writes of `applyState`, `setLiftPathRunning`, `setLiftBadge`, `injectOverlay` and `reloadSvgObject`. They are DOM writes with no logic beyond what `App.SafeStatus` and `App.Paint` record. The model takes `getDrawableTarget` to find a target for every element, so `applyState` always succeeds.
- The time stamps are left out: the `updated`/`updatedAt` fields, `new Date()` and `toLocaleString`, because they come from the clock.
- `getSectionValues` in `netlify/functions/conditions.js` is left out, because it is defined but never called.
- Case conversion and `/i` are ASCII only. JavaScript's `toLowerCase` also maps non-ASCII letters; the model leaves those as they are.
- App.NumberOfPrinted: `Number` is modelled for integers and optionally signed digit strings only. Decimal fractions, exponents, hexadecimal text and `Infinity` read as NaN in the model, so `App.FmtCm` shows `"--"` for them.
- The JSON values carry integer numbers only. Floating point is not modelled.
- An object value is taken to be what `JSON.parse` and `Object.entries` give: its property list has distinct keys. The model does not enforce that. A list that repeats a key is read last-wins by `Json.Prop`, but `App.PaintRuns` and `App.Refresh` count each repeat as a run, while JavaScript sees one entry. The order of `Object.entries` (integer-like keys first) is not modelled either.
- `live.runs` is modelled for an object `live`, the shape the runs endpoint always answers with. For a `null` or `undefined` `live`, app.js:582 throws a TypeError, while `App.RunsOf` gives no runs and `App.Refresh` paints nothing without failing. `Object.entries` of a non-empty string yields its characters, while `App.EntriesOf` gives no entries.
- `Json.JsValue` has no arrays. A lift reported as an array such as `["open"]` is open in JavaScript, because its `toString` gives `"open"`; the model cannot express that value.
- Properties inherited from `Object.prototype` are not modelled. A lift or run key such as `constructor` reads `undefined` in the model, while `normLifts["constructor"]` and `runMap["constructor"]` find the inherited function in JavaScript.
- App.NoteDisplay: measures the note in Unicode code points, while `note.length` and `slice(0, 260)` count UTF-16 code units. A note with characters outside the Basic Multilingual Plane, such as 131 emoji (262 code units), is cut in JavaScript but shown whole in the model.
- Keys of object literals are a Dafny `map`. Insertion order is not kept, and a run named `__proto__` is not given JavaScript's special treatment.
- In `netlify/functions/norquay-runs.js`, the `for` loop opened at line 31 is never closed. As written the module does not parse. `RunsFunction.ScrapeRuns` models the evident intent: the loop runs over every row and the response follows it.
- The regular expressions are hand-written matchers. Each quantified run is taken whole, which is exact for these patterns because the character after each run is one the run's class excludes. Backtracking that could never produce a different match is not modelled.
- RunMapGenerator.ExtractSvgIds: the loop is proved for any anchored matcher that ends at a closing quote after a non-empty id (`RunMapGenerator.Matcher`). The script passes `RunMapGenerator.IdAt`, and `GenerateRunMap` calls it that way.
- RunMapGenerator.MatchRuns: the loop takes the key function as a parameter. The script passes `Keyify`, and `GenerateRunMap` calls it that way.
- RunMapGenerator.RunMapKeys: does not state that the keys are non-empty. A harvested name has a non-empty key before it is trimmed, and the model does not prove that trimming leaves the key unchanged.
- The `(s ?? "")` guards of `keyify` and `clean` take strings only. Every caller passes a string; null handling is modelled where it matters, in `App.NormOf` and `Json.CoerceString`.
- The `[â€™]` class of `keyify` and `clean` is modelled as written. It replaces each of the three characters on its own, not the three-character sequence, and it leaves `’` itself unchanged.
- `JSON.stringify` on the server and `res.json()` in the client are taken to give back the same value, so the answer is modelled as a `Json.JsValue`. The `updated` field of the conditions answer is left out with the other time stamps.
- The output of `generate-runmap.js` is left out: `JSON.stringify(runMap, null, 2)`, the file write and the console report of the missing names.

## Findings

| source | as written | input that shows it | evidently intended | confidence | as-written member | corrected member |
|---|---|---|---|---|---|---|
| public/app.js:176-187 | `typeof raw === "object" && (raw.status === "open" \|\| …)`, where `typeof null` is `"object"` | `cond.lifts = {"Spirit Chair": null}`: reading `null.status` throws a TypeError, and `refresh`'s catch then drops the whole refresh | a `null` lift reads as closed, like a missing one | not executed | App.LiftIsOpenAsWritten, App.NullLiftThrows, App.LiftBadgesAsWritten, App.Refresh | App.LiftIsOpen, App.LiftCorrectionOnlyNull, App.LiftBadges |
| netlify/functions/conditions.js:68 | the snow-base figures are written under `base`, and public/app.js:535-537 reads `d.snowBase?.lowerCm` | any page, for example one reporting a lower-mountain base of 150 cm: `d.snowBase` is `undefined`, so all three snow-base tiles show `--` | the client shows the snow-base figures, which the answer carries under `snowBase` | not executed | ConditionsFunction.Respond, App.SnowBaseAlwaysBlank | ConditionsFunction.RespondCorrected, App.OverlayShowsReport |
