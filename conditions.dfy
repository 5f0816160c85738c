/**
 * The conditions function: it reads the resort's conditions page as text,
 * collapses its white space and pulls out the current temperature, the
 * weather note, the new-snow figures and the snow-base figures, each with its
 * own regular expression.  A figure whose expression does not match is null;
 * no figure depends on another.
 */
module ConditionsFunction {
  import opened Wrappers
  import opened Strings
  import opened Numerals
  import opened Patterns
  import opened Json

  /** The new-snow figures, in centimetres. */
  datatype NewSnow = NewSnow(overnightCm: Option<int>, last24Cm: Option<int>, last7DaysCm: Option<int>)

  /** The snow-base figures, in centimetres; the page shows two year-to-date totals. */
  datatype Base = Base(lowerCm: Option<int>, upperCm: Option<int>, ytdSnowfallCm: Option<int>, ytdSnowfall2Cm: Option<int>)

  /** The JSON body the function answers with, without its constant source URL and its time stamp. */
  datatype Report = Report(tempC: Option<int>, note: Option<string>, newSnow: NewSnow, base: Base)

  const Degree: char := '\U{00B0}'

  /** `Overnight\s*\d+\s*cm`, which must come before the last-24-hours figure. */
  const OvernightFigure := [Lit("Overnight"), Blank, Figure(false), Blank, Lit("cm")]
  /** `Last 24 hours\s*\d+\s*cm`, which must come before the last-7-days figure. */
  const Last24Figure := [Lit("Last 24 hours"), Blank, Figure(false), Blank, Lit("cm")]

  /** `/Current Temp\s*([-+]?\d+)\s*°\s*C/i` */
  const TempPattern := Pattern([Lit("Current Temp"), Blank], true, [Blank, Lit([Degree]), Blank, Lit("C")])
  /** `/New Snow\s*(\d+)\s*cm\s*Overnight/i` */
  const OvernightPattern := Pattern([Lit("New Snow"), Blank], false, [Blank, Lit("cm"), Blank, Lit("Overnight")])
  /** `/Overnight\s*\d+\s*cm\s*Last 24 hours\s*(\d+)\s*cm/i` */
  const Last24Pattern := Pattern(OvernightFigure + [Blank, Lit("Last 24 hours"), Blank], false, [Blank, Lit("cm")])
  /** `/Last 24 hours\s*\d+\s*cm\s*Last 7 days\s*(\d+)\s*cm/i` */
  const Last7Pattern := Pattern(Last24Figure + [Blank, Lit("Last 7 days"), Blank], false, [Blank, Lit("cm")])
  /** `/Snow Base\s*(\d+)\s*cm\s*Lower Mountain/i` */
  const LowerPattern := Pattern([Lit("Snow Base"), Blank], false, [Blank, Lit("cm"), Blank, Lit("Lower Mountain")])
  /** `/Upper Mountain\s*(\d+)\s*cm/i` */
  const UpperPattern := Pattern([Lit("Upper Mountain"), Blank], false, [Blank, Lit("cm")])
  /** `/Year to Date Snowfall\s*(\d+)\s*cm/gi` */
  const YtdPattern := Pattern([Lit("Year to Date Snowfall"), Blank], false, [Blank, Lit("cm")])

  /** The page's text with every run of white space replaced by one space. */
  function PageText(body: string): (t: string)
    ensures BlanksOnly(t) && NoDoubleBlank(t)
  {
    CollapseRunsChars(body, WhiteSpace, ' ');
    CollapseRunsSeparated(body, WhiteSpace, ' ');
    CollapseRuns(body, WhiteSpace, ' ')
  }

  // ---------------------------------------------------------------------------
  // The weather note: `/Weather Note:\s*([^]*?)(?:New Snow|Snow Base)/i`

  const NoteLabel := "Weather Note:"

  /** One of the two headings that end the note starts at `e`. */
  predicate NoteEndAt(s: string, e: nat) {
    CiAt(s, e, "New Snow") || CiAt(s, e, "Snow Base")
  }

  function NoteEnds(s: string): nat -> bool {
    (e: nat) => NoteEndAt(s, e)
  }

  /** The note anchored at `q`: the text from after the label's blanks up to the first heading. */
  function NoteAt(s: string, q: nat): (r: Option<(nat, nat)>)
    requires q <= |s|
    ensures r.Some? ==> q + |NoteLabel| <= r.value.0 <= r.value.1 <= |s| && NoteEndAt(s, r.value.1)
  {
    if !CiAt(s, q, NoteLabel) then None
    else
      var a := RunEnd(s, q + |NoteLabel|, WhiteSpace);
      match FirstWhere(NoteEnds(s), a, |s| + 1)
      case None => None
      case Some(e) => Some((a, e))
  }

  function NoteStarts(s: string): nat -> bool {
    (q: nat) => q <= |s| && NoteAt(s, q).Some?
  }

  /** The capture span of `s.match(...)` for the note expression. */
  function NoteSpan(s: string): (r: Option<(nat, nat)>)
    ensures r.Some? ==> r.value.0 <= r.value.1 <= |s| && NoteEndAt(s, r.value.1)
  {
    match FirstWhere(NoteStarts(s), 0, |s| + 1)
    case None => None
    case Some(q) => NoteAt(s, q)
  }

  /** `noteMatch ? noteMatch[1].replace(/\s+/g, " ").trim() : null` */
  function Note(s: string): (n: Option<string>)
  {
    match NoteSpan(s)
    case None => None
    case Some(span) => Some(Trim(CollapseRuns(s[span.0..span.1], WhiteSpace, ' ')))
  }

  // ---------------------------------------------------------------------------
  // The report

  /** The report read from the collapsed page text. */
  function ReportOf(page: string): (r: Report)
  {
    var ytd := Readings(YtdPattern, page);
    Report(
      Reading(TempPattern, page),
      Note(page),
      NewSnow(Reading(OvernightPattern, page), Reading(Last24Pattern, page), Reading(Last7Pattern, page)),
      Base(Reading(LowerPattern, page), Reading(UpperPattern, page),
           if |ytd| > 0 then Some(ytd[0]) else None,
           if |ytd| > 1 then Some(ytd[1]) else None))
  }

  /** The function's answer for the text of the page's body. */
  function Extract(body: string): (r: Report)
  {
    ReportOf(PageText(body))
  }

  // ---------------------------------------------------------------------------
  // The response body

  /** The page the figures are read from, sent back as `source`. */
  const SourceUrl := "https://banffnorquay.com/winter/conditions/"

  /** A figure as the body carries it: the number, or `null`. */
  function FigureJson(f: Option<int>): JsValue {
    if f.Some? then Num(f.value) else Null
  }

  function NoteJson(n: Option<string>): JsValue {
    if n.Some? then Str(n.value) else Null
  }

  function NewSnowJson(n: NewSnow): JsValue {
    Obj([("overnightCm", FigureJson(n.overnightCm)), ("last24Cm", FigureJson(n.last24Cm)),
         ("last7DaysCm", FigureJson(n.last7DaysCm))])
  }

  function BaseJson(b: Base): JsValue {
    Obj([("lowerCm", FigureJson(b.lowerCm)), ("upperCm", FigureJson(b.upperCm)),
         ("ytdSnowfallCm", FigureJson(b.ytdSnowfallCm)), ("ytdSnowfall2Cm", FigureJson(b.ytdSnowfall2Cm))])
  }

  /** The `data` object, its time stamp aside, with the snow-base figures under `baseKey`. */
  function BodyWith(r: Report, baseKey: string): JsValue {
    Obj([("source", Str(SourceUrl)), ("tempC", FigureJson(r.tempC)), ("note", NoteJson(r.note)),
         ("newSnow", NewSnowJson(r.newSnow)), (baseKey, BaseJson(r.base))])
  }

  /** The body as written: the snow-base figures go under the key `base`. */
  function BodyAsWritten(r: Report): JsValue {
    BodyWith(r, "base")
  }

  /** The body with the snow-base figures under `snowBase`, the key the map client reads them from. */
  function Body(r: Report): JsValue {
    BodyWith(r, "snowBase")
  }

  /**
   * The body `b` carries the report: the page address, the temperature, the
   * note and the three new-snow figures at the top level, the four snow-base
   * figures inside the property `baseKey`, each `null` when it is missing.
   */
  predicate Carries(b: JsValue, baseKey: string, r: Report) {
    && Prop(b, "source") == Str(SourceUrl)
    && Prop(b, "tempC") == FigureJson(r.tempC)
    && Prop(b, "note") == NoteJson(r.note)
    && Prop(Prop(b, "newSnow"), "overnightCm") == FigureJson(r.newSnow.overnightCm)
    && Prop(Prop(b, "newSnow"), "last24Cm") == FigureJson(r.newSnow.last24Cm)
    && Prop(Prop(b, "newSnow"), "last7DaysCm") == FigureJson(r.newSnow.last7DaysCm)
    && Prop(Prop(b, baseKey), "lowerCm") == FigureJson(r.base.lowerCm)
    && Prop(Prop(b, baseKey), "upperCm") == FigureJson(r.base.upperCm)
    && Prop(Prop(b, baseKey), "ytdSnowfallCm") == FigureJson(r.base.ytdSnowfallCm)
    && Prop(Prop(b, baseKey), "ytdSnowfall2Cm") == FigureJson(r.base.ytdSnowfall2Cm)
  }

  /** Each figure of the body reads back as its own value, `null` when it is missing, whatever key the snow base goes under. */
  lemma {:induction false} BodyWithFields(r: Report, baseKey: string)
    requires baseKey != "source" && baseKey != "tempC" && baseKey != "note" && baseKey != "newSnow"
    ensures Carries(BodyWith(r, baseKey), baseKey, r)
  {
    var top := BodyWith(r, baseKey).props;
    PropAt(top, 0);
    PropAt(top, 1);
    PropAt(top, 2);
    PropAt(top, 3);
    PropAt(top, 4);
    var ns := NewSnowJson(r.newSnow).props;
    PropAt(ns, 0);
    PropAt(ns, 1);
    PropAt(ns, 2);
    var base := BaseJson(r.base).props;
    PropAt(base, 0);
    PropAt(base, 1);
    PropAt(base, 2);
    PropAt(base, 3);
  }

  /** The corrected body carries every figure, the snow base under `snowBase`. */
  lemma {:induction false} BodyFields(r: Report)
    ensures Carries(Body(r), "snowBase", r)
  {
    BodyWithFields(r, "snowBase");
  }

  /**
   * The function's answer for the text of the page's body, as written: every
   * figure is carried, but the snow base goes under `base`, and there is no
   * `snowBase` and no `lifts`.
   */
  function Respond(body: string): (b: JsValue)
    ensures Carries(b, "base", Extract(body))
    ensures Prop(b, "snowBase") == Undefined && Prop(b, "lifts") == Undefined
  {
    BodyWithFields(Extract(body), "base");
    BodyAsWrittenKeys(Extract(body));
    BodyAsWritten(Extract(body))
  }

  /** The answer with the snow base under `snowBase`, the key the map client reads; it has no `lifts`. */
  function RespondCorrected(body: string): (b: JsValue)
    ensures Carries(b, "snowBase", Extract(body))
    ensures Prop(b, "lifts") == Undefined
  {
    BodyFields(Extract(body));
    BodyHasNoLifts(Extract(body));
    Body(Extract(body))
  }

  /** As written, the body has no `snowBase` and no `lifts` property, whatever the page reports. */
  lemma {:induction false} BodyAsWrittenKeys(r: Report)
    ensures Prop(BodyAsWritten(r), "snowBase") == Undefined
    ensures Prop(BodyAsWritten(r), "lifts") == Undefined
  {
    PropMissing(BodyAsWritten(r).props, "snowBase");
    PropMissing(BodyAsWritten(r).props, "lifts");
  }

  /** The body never carries a `lifts` property. */
  lemma {:induction false} BodyHasNoLifts(r: Report)
    ensures Prop(Body(r), "lifts") == Undefined
  {
    PropMissing(Body(r).props, "lifts");
  }

  // ---------------------------------------------------------------------------
  // Properties

  /** Each figure is null exactly when its own expression matches nowhere in the page text. */
  lemma {:induction false} FigureNullIffNoMatch(page: string)
    ensures var r := ReportOf(page);
      && (r.tempC.None? <==> forall q: nat :: q <= |page| ==> MatchAt(TempPattern, page, q).None?)
      && (r.newSnow.overnightCm.None? <==> forall q: nat :: q <= |page| ==> MatchAt(OvernightPattern, page, q).None?)
      && (r.newSnow.last24Cm.None? <==> forall q: nat :: q <= |page| ==> MatchAt(Last24Pattern, page, q).None?)
      && (r.newSnow.last7DaysCm.None? <==> forall q: nat :: q <= |page| ==> MatchAt(Last7Pattern, page, q).None?)
      && (r.base.lowerCm.None? <==> forall q: nat :: q <= |page| ==> MatchAt(LowerPattern, page, q).None?)
      && (r.base.upperCm.None? <==> forall q: nat :: q <= |page| ==> MatchAt(UpperPattern, page, q).None?)
      && (r.base.ytdSnowfallCm.None? <==> forall q: nat :: q <= |page| ==> MatchAt(YtdPattern, page, q).None?)
  {
    var r := ReportOf(page);
    assert r.tempC == Reading(TempPattern, page);
    assert r.newSnow == NewSnow(Reading(OvernightPattern, page), Reading(Last24Pattern, page), Reading(Last7Pattern, page));
    assert r.base.lowerCm == Reading(LowerPattern, page) && r.base.upperCm == Reading(UpperPattern, page);
    FirstReading(YtdPattern, page);
    assert r.base.ytdSnowfallCm == Reading(YtdPattern, page);
    ReadingAbsent(TempPattern, page);
    ReadingAbsent(OvernightPattern, page);
    ReadingAbsent(Last24Pattern, page);
    ReadingAbsent(Last7Pattern, page);
    ReadingAbsent(LowerPattern, page);
    ReadingAbsent(UpperPattern, page);
    ReadingAbsent(YtdPattern, page);
  }

  /** Snow figures are written without a sign and so are never negative. */
  lemma {:induction false} SnowFiguresNonNegative(page: string)
    ensures var r := ReportOf(page);
      && (r.newSnow.overnightCm.Some? ==> r.newSnow.overnightCm.value >= 0)
      && (r.newSnow.last24Cm.Some? ==> r.newSnow.last24Cm.value >= 0)
      && (r.newSnow.last7DaysCm.Some? ==> r.newSnow.last7DaysCm.value >= 0)
      && (r.base.lowerCm.Some? ==> r.base.lowerCm.value >= 0)
      && (r.base.upperCm.Some? ==> r.base.upperCm.value >= 0)
      && (r.base.ytdSnowfallCm.Some? ==> r.base.ytdSnowfallCm.value >= 0)
      && (r.base.ytdSnowfall2Cm.Some? ==> r.base.ytdSnowfall2Cm.value >= 0)
  {
    ReadingNonNegative(OvernightPattern, page);
    ReadingNonNegative(Last24Pattern, page);
    ReadingNonNegative(Last7Pattern, page);
    ReadingNonNegative(LowerPattern, page);
    ReadingNonNegative(UpperPattern, page);
    if |Readings(YtdPattern, page)| > 0 {
      ReadingsNonNegative(YtdPattern, page, 0, 0);
    }
    if |Readings(YtdPattern, page)| > 1 {
      ReadingsNonNegative(YtdPattern, page, 0, 1);
    }
  }

  /**
   * The last-24-hours figure is read only after an "Overnight N cm" sequence:
   * one starts where the leftmost match starts and ends at or before the
   * figure that is read.
   */
  lemma {:induction false} Last24NeedsOvernight(page: string)
    ensures ReportOf(page).newSnow.last24Cm.Some? ==> Leftmost(Last24Pattern, page, 0).Some?
    ensures ReportOf(page).newSnow.last24Cm.Some? ==>
      var q := Leftmost(Last24Pattern, page, 0).value;
      && ReportOf(page).newSnow.last24Cm == Some(SignedValue(GroupAt(Last24Pattern, page, q)))
      && Steps(OvernightFigure, 0, page, q).Some?
      && Steps(OvernightFigure, 0, page, q).value <= MatchAt(Last24Pattern, page, q).value.1.0
  {
    if Reading(Last24Pattern, page).Some? {
      assert Last24Pattern.before[..|OvernightFigure|] == OvernightFigure;
      ReadingAfter(Last24Pattern, page, |OvernightFigure|);
    }
  }

  /**
   * The last-7-days figure is read only after a "Last 24 hours N cm" sequence:
   * one starts where the leftmost match starts and ends at or before the
   * figure that is read.
   */
  lemma {:induction false} Last7NeedsLast24(page: string)
    ensures ReportOf(page).newSnow.last7DaysCm.Some? ==> Leftmost(Last7Pattern, page, 0).Some?
    ensures ReportOf(page).newSnow.last7DaysCm.Some? ==>
      var q := Leftmost(Last7Pattern, page, 0).value;
      && ReportOf(page).newSnow.last7DaysCm == Some(SignedValue(GroupAt(Last7Pattern, page, q)))
      && Steps(Last24Figure, 0, page, q).Some?
      && Steps(Last24Figure, 0, page, q).value <= MatchAt(Last7Pattern, page, q).value.1.0
  {
    if Reading(Last7Pattern, page).Some? {
      assert Last7Pattern.before[..|Last24Figure|] == Last24Figure;
      ReadingAfter(Last7Pattern, page, |Last24Figure|);
    }
  }

  /** The text the temperature expression was written for: "Current Temp -5 °C". */
  const TempExample := "Current Temp -5 " + [Degree, 'C']

  lemma {:induction false} TempExampleChars()
    ensures var s := TempExample;
      |s| == 18 && s[..12] == "Current Temp" && s[12] == ' ' && s[13] == '-' && s[14] == '5'
      && s[15] == ' ' && s[16] == Degree && s[17] == 'C'
  {
  }

  /** `Current Temp\s*` covers the first 13 characters of the example. */
  lemma {:induction false} TempExampleLabel()
    ensures Steps(TempPattern.before, 0, TempExample, 0) == Some(13)
  {
    var s, before := TempExample, TempPattern.before;
    TempExampleChars();
    AtCiAt(s, 0, "Current Temp");
    assert RunEnd(s, 13, WhiteSpace) == 13 && RunEnd(s, 12, WhiteSpace) == 13;
    assert Step(before[0], s, 0) == Some(12) && Step(before[1], s, 12) == Some(13);
    assert Steps(before, 2, s, 13) == Some(13);
    assert Steps(before, 1, s, 12) == Some(13);
  }

  /** `\s*°\s*C` covers the rest of the example after the figure. */
  lemma {:induction false} TempExampleUnit()
    ensures Steps(TempPattern.after, 0, TempExample, 15) == Some(18)
  {
    var s, after := TempExample, TempPattern.after;
    TempExampleChars();
    AtCiAt(s, 16, [Degree]);
    AtCiAt(s, 17, "C");
    assert RunEnd(s, 16, WhiteSpace) == 16 && RunEnd(s, 15, WhiteSpace) == 16 && RunEnd(s, 17, WhiteSpace) == 17;
    assert Step(after[0], s, 15) == Some(16) && Step(after[1], s, 16) == Some(17);
    assert Step(after[2], s, 17) == Some(17) && Step(after[3], s, 17) == Some(18);
    assert Steps(after, 4, s, 18) == Some(18);
    assert Steps(after, 3, s, 17) == Some(18);
    assert Steps(after, 2, s, 17) == Some(18);
    assert Steps(after, 1, s, 16) == Some(18);
  }

  /** The example reads -5: the sign is part of the figure. */
  lemma {:induction false} TemperatureExample()
    ensures Reading(TempPattern, TempExample) == Some(-5)
  {
    var s := TempExample;
    TempExampleChars();
    TempExampleLabel();
    TempExampleUnit();
    assert RunEnd(s, 15, Digits) == 15 && RunEnd(s, 14, Digits) == 15;
    assert Step(Figure(true), s, 13) == Some(15);
    assert MatchAt(TempPattern, s, 0) == Some((18, (13, 15)));
    assert MatchesAt(TempPattern, s)(0);
    assert Leftmost(TempPattern, s, 0) == Some(0);
    assert s[13..15] == "-5";
    assert "-5"[1..] == "5" && "5"[..0] == [];
    assert DigitsValue("5") == 5;
  }

  /**
   * The two year-to-date totals are the first and second of all the matches;
   * the first is the one a plain `match` finds, and with fewer than two
   * matches the second is null.
   */
  lemma {:induction false} YearToDateTotals(page: string)
    ensures var r := ReportOf(page);
      && r.base.ytdSnowfallCm == Reading(YtdPattern, page)
      && (|Readings(YtdPattern, page)| <= 1 ==> r.base.ytdSnowfall2Cm.None?)
      && (|Readings(YtdPattern, page)| > 1 ==> r.base.ytdSnowfall2Cm == Some(Readings(YtdPattern, page)[1]))
      && (r.base.ytdSnowfallCm.None? ==> r.base.ytdSnowfall2Cm.None?)
  {
    FirstReading(YtdPattern, page);
  }

  /** No heading starts inside a run of white space. */
  lemma {:induction false} NoHeadingInBlanks(s: string, e: nat)
    requires e < |s| && IsSpace(s[e])
    ensures !NoteEndAt(s, e)
  {
    assert LowerChar(s[e]) == s[e];
  }

  /** When the note expression matches nowhere, no label is followed by a heading. */
  lemma {:induction false} NoHeadingAfterLabel(page: string, q: nat, e: nat)
    requires NoteSpan(page).None? && q + |NoteLabel| <= e && CiAt(page, q, NoteLabel)
    ensures !NoteEndAt(page, e)
  {
    FirstWhereLeast(NoteStarts(page), 0, |page| + 1);
    assert !NoteStarts(page)(q);
    var a := RunEnd(page, q + |NoteLabel|, WhiteSpace);
    FirstWhereLeast(NoteEnds(page), a, |page| + 1);
    if e < a {
      RunEndSpan(page, q + |NoteLabel|, WhiteSpace);
      NoHeadingInBlanks(page, e);
    } else if e <= |page| {
      assert !NoteEnds(page)(e);
    }
  }

  /**
   * The note is null exactly when no "Weather Note:" label is followed, at
   * any distance, by a "New Snow" or "Snow Base" heading.
   */
  lemma {:induction false} NoteNullIffNoMatch(page: string)
    ensures ReportOf(page).note.None? <==>
      forall q: nat, e: nat :: q + |NoteLabel| <= e && CiAt(page, q, NoteLabel) ==> !NoteEndAt(page, e)
  {
    if NoteSpan(page).None? {
      forall q: nat, e: nat | q + |NoteLabel| <= e && CiAt(page, q, NoteLabel) ensures !NoteEndAt(page, e) {
        NoHeadingAfterLabel(page, q, e);
      }
    } else {
      var q := FirstWhere(NoteStarts(page), 0, |page| + 1).value;
      assert CiAt(page, q, NoteLabel);
    }
  }

  /**
   * The note's text is the shortest one: it starts after a label and its
   * blanks and stops at the first heading after them, so no heading starts
   * inside it.
   */
  lemma {:induction false} NoteStopsAtFirstHeading(page: string)
    requires NoteSpan(page).Some?
    ensures var span := NoteSpan(page).value;
      && NoteEndAt(page, span.1)
      && (forall j :: span.0 <= j < span.1 ==> !NoteEndAt(page, j))
      && exists q: nat :: q + |NoteLabel| <= span.0 && CiAt(page, q, NoteLabel)
  {
    var q := FirstWhere(NoteStarts(page), 0, |page| + 1).value;
    var a := RunEnd(page, q + |NoteLabel|, WhiteSpace);
    FirstWhereLeast(NoteEnds(page), a, |page| + 1);
    var span := NoteSpan(page).value;
    forall j | span.0 <= j < span.1 ensures !NoteEndAt(page, j) {
      assert !NoteEnds(page)(j);
    }
  }

  /** The note, when there is one, is trimmed and single-spaced. */
  lemma {:induction false} NoteSingleSpaced(page: string)
    ensures ReportOf(page).note.Some? ==> SingleSpaced(ReportOf(page).note.value)
  {
    if NoteSpan(page).Some? {
      var span := NoteSpan(page).value;
      CollapseTrimSingleSpaced(page[span.0..span.1]);
    }
  }
}
