/** What `get_ical` promises about each record and about the whole calendar,
    stated over the model in `NotionIcs`. */
module EventProperties {
  import opened Results
  import opened Text
  import opened IcsDates
  import opened NotionRecords
  import opened NotionIcs

  /** A record with no title runs, or with no `Date` property, is skipped. */
  lemma NoTitleOrDateSkipped(rec: Record, toUtc: string -> Option<Clock>)
    requires HasTitle(rec)
    requires |TitleRuns(rec)| == 0 || "Date" !in rec.properties
    ensures Project(rec, toUtc) == Ok(None)
  {
  }

  /** The skip check itself subscripts `['Name']['title']`, so a record
      without a title-typed `Name` raises `KeyError` instead of being skipped. */
  lemma UnreadableTitleFails(rec: Record, toUtc: string -> Option<Clock>)
    requires !HasTitle(rec)
    ensures Project(rec, toUtc) == Err(KeyError(if "Name" in rec.properties then "title" else "Name"))
  {
  }

  /** The template placeholder is skipped whatever its other properties hold. */
  lemma TemplateSkipped(rec: Record, toUtc: string -> Option<Clock>)
    requires HasTitle(rec) && |TitleRuns(rec)| > 0 && TitleRuns(rec)[0] == TemplateTitle
    ensures Project(rec, toUtc) == Ok(None)
  {
  }

  /** Only the first title run matters: appending runs after it changes nothing. */
  lemma LaterRunsIgnored(rec: Record, extra: seq<string>, toUtc: string -> Option<Clock>)
    requires HasTitle(rec) && |TitleRuns(rec)| > 0
    ensures var first := TitleRuns(rec)[0];
      Project(rec.(properties := rec.properties["Name" := TitleProp([first] + extra)]), toUtc)
      == Project(rec.(properties := rec.properties["Name" := TitleProp([first])]), toUtc)
  {
  }

  /** DTSTART comes from `date.start`; DTEND is present exactly when
      `date.end` is, and then comes from it. */
  lemma StartAndEnd(rec: Record, toUtc: string -> Option<Clock>, e: Event)
    requires Project(rec, toUtc) == Ok(Some(e))
    ensures "Date" in rec.properties && rec.properties["Date"].DateProp?
    ensures rec.properties["Date"].date.Some?
    ensures var range := rec.properties["Date"].date.value;
      ToDateTime(range.start, toUtc) == Ok(e.start)
      && (e.end.Some? <==> range.end.Some?)
      && (range.end.Some? ==> ToDateTime(range.end.value, toUtc) == Ok(e.end.value))
  {
  }

  /** A record that is not skipped, whose `date` is non-null with strings
      `to_datetime` accepts and whose `Location`, if any, is a multi-select,
      yields an event. */
  lemma EligibleYieldsEvent(rec: Record, range: DateRange, toUtc: string -> Option<Clock>)
    requires HasTitle(rec) && !Skipped(rec)
    requires rec.properties["Date"] == DateProp(Some(range))
    requires ToDateTime(range.start, toUtc).Ok?
    requires range.end.Some? ==> ToDateTime(range.end.value, toUtc).Ok?
    requires "Location" in rec.properties ==> rec.properties["Location"].MultiSelectProp?
    ensures Project(rec, toUtc).Ok? && Project(rec, toUtc).value.Some?
  {
  }

  /** A start date `to_datetime` refuses raises its `ValueError` before the
      end date or the location is looked at. */
  lemma BadStartFails(rec: Record, range: DateRange, toUtc: string -> Option<Clock>)
    requires HasTitle(rec) && !Skipped(rec)
    requires rec.properties["Date"] == DateProp(Some(range))
    requires ToDateTime(range.start, toUtc).Err?
    ensures Project(rec, toUtc) == Err(ValueError(range.start))
  {
  }

  /** With the start accepted, a present end date `to_datetime` refuses raises
      its `ValueError`, before the location is looked at. */
  lemma BadEndFails(rec: Record, range: DateRange, toUtc: string -> Option<Clock>)
    requires HasTitle(rec) && !Skipped(rec)
    requires rec.properties["Date"] == DateProp(Some(range))
    requires ToDateTime(range.start, toUtc).Ok?
    requires range.end.Some? && ToDateTime(range.end.value, toUtc).Err?
    ensures Project(rec, toUtc) == Err(ValueError(range.end.value))
  {
  }

  /** With both dates accepted, a `Location` property that is not a
      multi-select raises `KeyError('multi_select')`. */
  lemma WrongLocationKindFails(rec: Record, range: DateRange, toUtc: string -> Option<Clock>)
    requires HasTitle(rec) && !Skipped(rec)
    requires rec.properties["Date"] == DateProp(Some(range))
    requires ToDateTime(range.start, toUtc).Ok?
    requires range.end.Some? ==> ToDateTime(range.end.value, toUtc).Ok?
    requires "Location" in rec.properties && !rec.properties["Location"].MultiSelectProp?
    ensures Project(rec, toUtc) == Err(KeyError("multi_select"))
  {
  }

  /** A `Date` property of another kind has no `date` key: `KeyError('date')`. */
  lemma WrongDateKindFails(rec: Record, toUtc: string -> Option<Clock>)
    requires HasTitle(rec) && !Skipped(rec)
    requires !rec.properties["Date"].DateProp?
    ensures Project(rec, toUtc) == Err(KeyError("date"))
  {
  }

  /** A `Date` property whose `date` is `null` passes the skip check and
      then fails at `date['start']` with `TypeError`. */
  lemma NullDateFails(rec: Record, toUtc: string -> Option<Clock>)
    requires HasTitle(rec) && |TitleRuns(rec)| > 0 && TitleRuns(rec)[0] != TemplateTitle
    requires "Date" in rec.properties && rec.properties["Date"] == DateProp(None)
    ensures Project(rec, toUtc) == Err(TypeError)
  {
  }

  /** LOCATION is set exactly when there is a `Location` property, and is its
      option names in order, joined by ", " (empty when none is selected). */
  lemma LocationJoined(rec: Record, toUtc: string -> Option<Clock>, e: Event)
    requires Project(rec, toUtc) == Ok(Some(e))
    ensures e.location.Some? <==> "Location" in rec.properties
    ensures "Location" in rec.properties ==>
      rec.properties["Location"].MultiSelectProp?
      && e.location.value == Join(rec.properties["Location"].names, LocationSeparator)
      && (rec.properties["Location"].names == [] ==> e.location.value == "")
  {
  }

  /** The names can be read back from LOCATION when none contains a comma
      (Notion does not allow commas in select option names). */
  lemma LocationNamesRecoverable(rec: Record, toUtc: string -> Option<Clock>, e: Event)
    requires Project(rec, toUtc) == Ok(Some(e))
    requires "Location" in rec.properties && rec.properties["Location"].MultiSelectProp?
    requires var names := rec.properties["Location"].names;
      |names| > 0 && forall i :: 0 <= i < |names| ==> ',' !in names[i]
    ensures Split(e.location.value, LocationSeparator) == rec.properties["Location"].names
  {
    SplitJoin(rec.properties["Location"].names, LocationSeparator);
  }

  /** A skipped record adds nothing and the loop goes on to the next record. */
  lemma {:induction false} SkippedContributesNothing(records: seq<Record>, rec: Record, toUtc: string -> Option<Clock>)
    requires Skipped(rec)
    ensures ProjectAll(records + [rec], toUtc) == ProjectAll(records, toUtc)
  {
    assert (records + [rec])[..|records|] == records;
  }

  /** The calendar: fixed metadata, and one event per kept record in input
      order; fewer than two records always fail with `IndexError`. */
  lemma {:induction false} IcalContents(records: seq<Record>, toUtc: string -> Option<Clock>)
    ensures |records| < 2 ==> Ical(records, toUtc) == Err(IndexError)
    ensures Ical(records, toUtc).Ok? ==>
      var cal := Ical(records, toUtc).value;
      cal.summary == CalendarSummary && cal.version == "2.0"
      && |cal.events| == |Kept(records)|
      && forall k :: 0 <= k < |cal.events| ==> Project(Kept(records)[k], toUtc) == Ok(Some(cal.events[k]))
  {
    if Ical(records, toUtc).Ok? {
      ProjectAllEvents(records, toUtc);
    }
  }

  /** The calendar is produced exactly when there are at least two records
      and no record's pass raises. */
  lemma {:induction false} IcalSucceeds(records: seq<Record>, toUtc: string -> Option<Clock>)
    ensures Ical(records, toUtc).Ok? <==>
      |records| >= 2 && forall i :: 0 <= i < |records| ==> Project(records[i], toUtc).Ok?
  {
    ProjectAllOk(records, toUtc);
  }
}
