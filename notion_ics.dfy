/** Notion page records as `get_ical` reads them: a `url` and a property
    bag keyed by property name. Only the property kinds the export looks at
    are told apart. */
module NotionRecords {
  import opened Results

  /** The `date` object of a date property; `end` is `null` for a single day. */
  datatype DateRange = DateRange(start: string, end: Option<string>)

  /** One property value. A title holds the `plain_text` of each rich-text
      run; a date property's `date` may be `null`; a multi-select holds the
      `name` of each selected option, in order. */
  datatype Prop =
    | TitleProp(runs: seq<string>)
    | DateProp(date: Option<DateRange>)
    | MultiSelectProp(names: seq<string>)
    | OtherProp

  datatype Record = Record(url: string, properties: map<string, Prop>)

  /** The record has a title-typed `Name` property, so `['Name']['title']` succeeds. */
  predicate HasTitle(rec: Record)
  {
    "Name" in rec.properties && rec.properties["Name"].TitleProp?
  }

  function TitleRuns(rec: Record): seq<string>
    requires HasTitle(rec)
  {
    rec.properties["Name"].runs
  }
}

/** `get_ical`: the projection of fetched records onto a calendar. */
module NotionIcs {
  import opened Results
  import opened Text
  import opened IcsDates
  import opened NotionRecords

  /** Title of the placeholder page that is never exported. */
  const TemplateTitle := "Event-Template"
  /** The calendar's fixed SUMMARY and VERSION. */
  const CalendarSummary := "Imported from Notion, via notion-export-ics."
  const CalendarVersion := "2.0"
  /** Separator between location names. */
  const LocationSeparator := ", "

  /** One VEVENT: SUMMARY, DTSTART, optional DTEND, optional LOCATION, DESCRIPTION. */
  datatype Event = Event(summary: string, start: DateValue, end: Option<DateValue>,
                         location: Option<string>, description: string)

  /** The VCALENDAR: its two metadata properties and its events in order. */
  datatype Calendar = Calendar(summary: string, version: string, events: seq<Event>)

  /** The skip rules: the record has a readable title, and either the title
      has no runs, there is no `Date` property, or the first run is the
      template placeholder. */
  predicate Skipped(rec: Record)
    ensures Skipped(rec) ==> HasTitle(rec)
  {
    HasTitle(rec)
    && (|TitleRuns(rec)| == 0 || "Date" !in rec.properties || TitleRuns(rec)[0] == TemplateTitle)
  }

  /** The loop body runs to completion on `rec`: the title is readable, and
      unless the record is skipped, `Date` holds a non-null date whose start
      (and end, if any) `to_datetime` accepts, and any `Location` property is
      a multi-select. */
  predicate Completes(rec: Record, toUtc: string -> Option<Clock>)
  {
    HasTitle(rec)
    && (Skipped(rec)
        || (var date := rec.properties["Date"];
            date.DateProp? && date.date.Some?
            && ToDateTime(date.date.value.start, toUtc).Ok?
            && (date.date.value.end.Some? ==> ToDateTime(date.date.value.end.value, toUtc).Ok?)
            && ("Location" in rec.properties ==> rec.properties["Location"].MultiSelectProp?)))
  }

  /** The LOCATION value: present only when the record has a `Location`
      property, and then its option names joined by ", ". */
  function LocationOf(props: map<string, Prop>): (r: Result<Option<string>>)
    ensures r.Ok? ==> (r.value.Some? <==> "Location" in props)
    ensures r.Err? <==> "Location" in props && !props["Location"].MultiSelectProp?
    ensures r.Err? ==> r.error == KeyError("multi_select")
  {
    if "Location" !in props then Ok(None)
    else match props["Location"]
      case MultiSelectProp(names) => Ok(Some(Join(names, LocationSeparator)))
      case _ => Err(KeyError("multi_select"))
  }

  /** One pass of the loop body of `get_ical` over a record: `Ok(None)` when
      the record is skipped, `Ok(Some(e))` when it yields the event `e`, and
      the exception that escapes otherwise. */
  function Project(rec: Record, toUtc: string -> Option<Clock>): (r: Result<Option<Event>>)
    ensures (r.Ok? && r.value.None?) <==> Skipped(rec)
    ensures r.Ok? <==> Completes(rec, toUtc)
    ensures r.Err? ==> (r.error.ValueError? || r.error == TypeError
                        || r.error in {KeyError("Name"), KeyError("title"), KeyError("date"), KeyError("multi_select")})
    ensures r.Ok? && r.value.Some? ==>
      |TitleRuns(rec)| > 0 && r.value.value.summary == TitleRuns(rec)[0] != TemplateTitle
    ensures r.Ok? && r.value.Some? ==> r.value.value.description == rec.url + "\n"
  {
    var props := rec.properties;
    if "Name" !in props then Err(KeyError("Name"))
    else if !props["Name"].TitleProp? then Err(KeyError("title"))
    else
      var titles := props["Name"].runs;
      if |titles| == 0 || "Date" !in props then Ok(None)
      else
        var name := titles[0];
        if name == TemplateTitle then Ok(None)
        else match props["Date"]
          case DateProp(date) => (
            match date
            case None => Err(TypeError)
            case Some(range) => (
              match ToDateTime(range.start, toUtc)
              case Err(e) => Err(e)
              case Ok(start) => (
                var end: Result<Option<DateValue>> := (
                  match range.end
                  case None => Ok(None)
                  case Some(endText) => (
                    match ToDateTime(endText, toUtc)
                    case Err(e) => Err(e)
                    case Ok(v) => Ok(Some(v))));
                if end.Err? then Err(end.error)
                else match LocationOf(props)
                  case Err(e) => Err(e)
                  case Ok(location) =>
                    var desc := "" + (rec.url + "\n");
                    Ok(Some(Event(name, start, end.value, location, desc))))))
          case _ => Err(KeyError("date"))
  }

  /** The whole loop as a specification, left to right: the events of the
      records that are not skipped, or the first exception raised. */
  function ProjectAll(records: seq<Record>, toUtc: string -> Option<Clock>): (r: Result<seq<Event>>)
    ensures r.Ok? ==> |r.value| <= |records|
    ensures r.Ok? ==> forall k :: 0 <= k < |r.value| ==> r.value[k].summary != TemplateTitle
  {
    if records == [] then Ok([])
    else
      match ProjectAll(records[..|records| - 1], toUtc)
      case Err(e) => Err(e)
      case Ok(events) => (
        match Project(records[|records| - 1], toUtc)
        case Err(e) => Err(e)
        case Ok(None) => Ok(events)
        case Ok(Some(event)) => Ok(events + [event]))
  }

  /** `get_ical` after the fetch: the debug read of `calendar_entries[1]`
      fails on fewer than two records; otherwise the fixed metadata and the
      projected events. */
  function Ical(records: seq<Record>, toUtc: string -> Option<Clock>): (r: Result<Calendar>)
    ensures |records| < 2 ==> r == Err(IndexError)
    ensures r.Ok? ==> r.value.summary == CalendarSummary && r.value.version == CalendarVersion
    ensures r.Ok? ==> |r.value.events| <= |records|
  {
    if |records| < 2 then Err(IndexError)
    else match ProjectAll(records, toUtc)
      case Err(e) => Err(e)
      case Ok(events) => Ok(Calendar(CalendarSummary, CalendarVersion, events))
  }

  /** The records that survive the skip rules, in input order. */
  function Kept(records: seq<Record>): (r: seq<Record>)
    ensures |r| <= |records|
    ensures forall rec :: rec in r ==> rec in records && !Skipped(rec)
    ensures forall rec :: rec in records && !Skipped(rec) ==> rec in r
  {
    if records == [] then []
    else
      var last := records[|records| - 1];
      var init := records[..|records| - 1];
      if Skipped(last) then Kept(init) else Kept(init) + [last]
  }

  /** An exception in a prefix is the exception of the whole run. */
  lemma {:induction false} ErrorPersists(records: seq<Record>, i: nat, toUtc: string -> Option<Clock>)
    requires i <= |records|
    requires ProjectAll(records[..i], toUtc).Err?
    ensures ProjectAll(records, toUtc) == ProjectAll(records[..i], toUtc)
    decreases |records| - i
  {
    if i < |records| {
      var n := |records|;
      assert records[..n] == records;
      assert records[..n - 1][..i] == records[..i];
      ErrorPersists(records[..n - 1], i, toUtc);
    } else {
      assert records[..i] == records;
    }
  }

  /** The run succeeds exactly when every record's pass succeeds. */
  lemma {:induction false} ProjectAllOk(records: seq<Record>, toUtc: string -> Option<Clock>)
    ensures ProjectAll(records, toUtc).Ok? <==> forall i :: 0 <= i < |records| ==> Project(records[i], toUtc).Ok?
  {
    if records != [] {
      var init := records[..|records| - 1];
      ProjectAllOk(init, toUtc);
      assert forall i :: 0 <= i < |init| ==> init[i] == records[i];
    }
  }

  /** A failing run fails with the exception of its first failing record. */
  lemma {:induction false} ProjectAllFirstError(records: seq<Record>, toUtc: string -> Option<Clock>)
    requires ProjectAll(records, toUtc).Err?
    ensures exists i :: (0 <= i < |records| && Project(records[i], toUtc) == Err(ProjectAll(records, toUtc).error)
                         && forall j :: 0 <= j < i ==> Project(records[j], toUtc).Ok?)
  {
    var n := |records|;
    var init := records[..n - 1];
    if ProjectAll(init, toUtc).Err? {
      ProjectAllFirstError(init, toUtc);
      var i :| 0 <= i < |init| && Project(init[i], toUtc) == Err(ProjectAll(init, toUtc).error)
        && forall j :: 0 <= j < i ==> Project(init[j], toUtc).Ok?;
      assert forall j :: 0 <= j <= i ==> init[j] == records[j];
    } else {
      ProjectAllOk(init, toUtc);
      assert forall j :: 0 <= j < n - 1 ==> init[j] == records[j];
      assert Project(records[n - 1], toUtc) == Err(ProjectAll(records, toUtc).error);
    }
  }

  /** A successful run holds one event per kept record, in input order: the
      k-th event is what the k-th kept record projects to. */
  lemma {:induction false} ProjectAllEvents(records: seq<Record>, toUtc: string -> Option<Clock>)
    requires ProjectAll(records, toUtc).Ok?
    ensures |ProjectAll(records, toUtc).value| == |Kept(records)|
    ensures forall k :: 0 <= k < |Kept(records)| ==>
      Project(Kept(records)[k], toUtc) == Ok(Some(ProjectAll(records, toUtc).value[k]))
  {
    if records != [] {
      var init := records[..|records| - 1];
      ProjectAllEvents(init, toUtc);
    }
  }

  /** The loop of `get_ical`: one pass per record, appending each projected
      event, and stopping at the first exception. */
  method GetIcal(records: seq<Record>, toUtc: string -> Option<Clock>) returns (r: Result<Calendar>)
    ensures r == Ical(records, toUtc)
    ensures r.Ok? ==> |records| >= 2
    ensures r.Ok? ==> r.value.summary == CalendarSummary && r.value.version == CalendarVersion
  {
    if |records| < 2 {
      return Err(IndexError);
    }
    var events: seq<Event> := [];
    var i := 0;
    while i < |records|
      invariant 0 <= i <= |records|
      invariant ProjectAll(records[..i], toUtc) == Ok(events)
    {
      assert records[..i + 1][..i] == records[..i];
      var projected := Project(records[i], toUtc);
      if projected.Err? {
        ErrorPersists(records, i + 1, toUtc);
        return Err(projected.error);
      }
      if projected.value.Some? {
        events := events + [projected.value.value];
      }
      i := i + 1;
    }
    assert records[..i] == records;
    r := Ok(Calendar(CalendarSummary, CalendarVersion, events));
  }
}
