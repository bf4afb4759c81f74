# notion-calendar: the record-to-event projection of `get_ical`

This project models, in Dafny, the core of the notion-calendar exporter: the
part of `get_ical` that runs once the Notion database pages have been
fetched. Each page record is a property bag plus a `url`. For every record
that passes the skip rules, the exporter builds one iCalendar VEVENT with
these properties (RFC 5545):

- SUMMARY (section 3.8.1.12): the first title run;
- DTSTART (section 3.8.2.4) and, optionally, DTEND (section 3.8.2.2): from the `Date` property;
- LOCATION (section 3.8.1.7): from the `Location` multi-select;
- DESCRIPTION (section 3.8.1.5): the page URL on one line.

The events go into a VCALENDAR with a fixed SUMMARY and VERSION "2.0"
(section 3.7.4).

Files:

- `results.dfy`: `Option`, `Result`, and the Python exceptions the export lets escape (`IndexError`, `KeyError`, `TypeError`, `ValueError`). Each is modelled as a `Failure` value.
- `text.dfy`: `", ".join(...)` as `Join`, with a `Split` that inverts it.
- `dates.dfy`: the nested `to_datetime` helper as `ToDateTime`.
  - A string of exactly ten characters goes through a concrete model of `strptime(s, '%Y-%m-%d')`, including calendar validity and leap years.
  - Any other string goes through the timestamp converter. That converter is a function parameter `toUtc`.
- `notion_ics.dfy`:
  - the record shape (`NotionRecords`);
  - the per-record loop body `Project`;
  - the loop as the specification `ProjectAll` and the calendar as `Ical`;
  - the imperative loop `GetIcal`, which appends to a sequence and is proved equal to `Ical`;
  - lemmas about the loop as a whole.
- `event_properties.dfy`: the per-record and per-calendar properties of the export.

Two details of the code are worth stating, since a reader might expect otherwise:

- The calendar SUMMARY is "Imported from Notion, via notion-export-ics." (`notion_calendar/notion_ics.py:21`), not "... via notion-calendar.".
- The event SUMMARY is the `plain_text` of the first title run only (`notion_calendar/notion_ics.py:131`). It is not the concatenation of all runs.

## Model

| member | source | states |
|---|---|---|
| `Text.Join` | notion_calendar/notion_ics.py:153 | the joined text has the length of all parts plus one separator between each pair of neighbours; joining nothing gives the empty string; the first part is a prefix of the result |
| `Text.SplitJoin` | notion_calendar/notion_ics.py:153 | for a non-empty list of parts none of which contains the separator's first character, splitting their join on the same separator returns them, in order |
| `IcsDates.ParseDateOnly` | notion_calendar/notion_ics.py:140-141 | an accepted date-only string has the `YYYY-MM-DD` shape (day possibly written as a space and a digit); the year, month and day of the result are read from the digit positions; the result is a valid calendar date |
| `IcsDates.ShapedDateAccepted` | notion_calendar/notion_ics.py:141 | conversely, every string of the accepted shape whose digits spell a valid date is accepted, as that date, including the space-padded day form |
| `IcsDates.ParseFormat` | notion_calendar/notion_ics.py:141 | every valid date, printed as `YYYY-MM-DD`, is read back by the date-only branch as the same date |
| `IcsDates.FormatParse` | notion_calendar/notion_ics.py:141 | a date-only string the parser accepts, with no space-padded day, is exactly the canonical text of the date it yields |
| `IcsDates.ToDateTime` | notion_calendar/notion_ics.py:138-144 | the result is a date with no time component exactly when the string has length 10; any other length gives a UTC instant whose clock is the converter's, and succeeds exactly when the converter does; every refusal is reported as a `ValueError` carrying the string |
| `IcsDates.DateOnlyBranch` | notion_calendar/notion_ics.py:140-141 | for a ten-character string, `to_datetime` succeeds exactly when the date-only parser does, and yields that date, which prints back as the input when the input is canonical |
| `IcsDates.DateOnlyIgnoresConverter` | notion_calendar/notion_ics.py:140-141 | a ten-character string never reaches the timestamp converter |
| `NotionIcs.LocationOf` | notion_calendar/notion_ics.py:152-154 | a location is produced exactly when a `Location` property exists; the pass fails exactly when that property is not a multi-select, and then with `KeyError('multi_select')` |
| `NotionIcs.Project` | notion_calendar/notion_ics.py:119-161 | a record yields no event exactly when the skip rules hold; the pass completes exactly when the title is readable and, for a record not skipped, the date is non-null with strings `to_datetime` accepts and any `Location` is a multi-select; every other outcome is one of the listed exceptions; an event's summary is the first title run and never the template title; its description is the url followed by one newline |
| `NotionIcs.Skipped` | notion_calendar/notion_ics.py:122-133 | the skip rules: a readable title with no runs, no `Date` property, or a first run equal to `Event-Template`; a skipped record always has a readable title |
| `NotionIcs.ProjectAll` | notion_calendar/notion_ics.py:118-161 | the loop as a left-to-right specification; a completed run has no more events than records, and none of them carries the template title |
| `NotionIcs.Ical` | notion_calendar/notion_ics.py:20-163 | fewer than two records raise `IndexError` at the debug read; a produced calendar has the fixed summary and version "2.0" and no more events than records |
| `NotionIcs.Kept` | notion_calendar/notion_ics.py:122-133 | a record is kept exactly when it is in the input and not skipped; there are no more kept records than input records |
| `NotionIcs.ErrorPersists` | notion_calendar/notion_ics.py:118-161 | an exception raised while processing a prefix of the records is the outcome of the whole run |
| `NotionIcs.ProjectAllOk` | notion_calendar/notion_ics.py:118-161 | the loop completes exactly when the pass over every record completes |
| `NotionIcs.ProjectAllFirstError` | notion_calendar/notion_ics.py:118-161 | a failing loop fails with the exception of the first record whose pass fails, and every earlier record's pass succeeds |
| `NotionIcs.ProjectAllEvents` | notion_calendar/notion_ics.py:118-161 | a completed loop emits one event per kept record, in input order, and the k-th event is what the k-th kept record projects to |
| `NotionIcs.GetIcal` | notion_calendar/notion_ics.py:20-163 | the loop that appends events equals the calendar specification `Ical`; it fails on fewer than two records; a produced calendar carries the fixed summary and version "2.0" |
| `EventProperties.NoTitleOrDateSkipped` | notion_calendar/notion_ics.py:122-125 | a record whose title list is empty, or which has no `Date` property, yields no event |
| `EventProperties.UnreadableTitleFails` | notion_calendar/notion_ics.py:122 | a record without a title-typed `Name` property raises `KeyError('Name')` or `KeyError('title')` rather than being skipped |
| `EventProperties.TemplateSkipped` | notion_calendar/notion_ics.py:131-133 | a record whose first title run is `Event-Template` yields no event, whatever else it holds |
| `EventProperties.LaterRunsIgnored` | notion_calendar/notion_ics.py:131-135 | title runs after the first have no effect on the outcome |
| `EventProperties.StartAndEnd` | notion_calendar/notion_ics.py:146-149 | DTSTART is `to_datetime(date.start)`; DTEND is present exactly when `date.end` is, and then is `to_datetime(date.end)` |
| `EventProperties.EligibleYieldsEvent` | notion_calendar/notion_ics.py:118-161 | a record that is not skipped, with a non-null date whose strings `to_datetime` accepts and a multi-select or absent `Location`, yields an event |
| `EventProperties.BadStartFails` | notion_calendar/notion_ics.py:147 | a non-skipped record whose start date `to_datetime` refuses raises `ValueError` for that start string, before the end and the location are read |
| `EventProperties.BadEndFails` | notion_calendar/notion_ics.py:147-149 | with the start accepted, a present end date that `to_datetime` refuses raises `ValueError` for that end string, before the location is read |
| `EventProperties.WrongLocationKindFails` | notion_calendar/notion_ics.py:146-153 | with both dates accepted, a `Location` property that is not a multi-select raises `KeyError('multi_select')` |
| `EventProperties.WrongDateKindFails` | notion_calendar/notion_ics.py:146 | a non-skipped record whose `Date` property is of another kind raises `KeyError('date')` |
| `EventProperties.NullDateFails` | notion_calendar/notion_ics.py:123-147 | a present `Date` property whose `date` is null passes the skip check and raises `TypeError` |
| `EventProperties.LocationJoined` | notion_calendar/notion_ics.py:152-154 | LOCATION is set exactly when a `Location` property exists; its value is the option names in order, joined by ", "; no names gives the empty string |
| `EventProperties.LocationNamesRecoverable` | notion_calendar/notion_ics.py:153 | for a non-empty list of option names none of which contains a comma, splitting LOCATION on ", " gives them back (an empty selection gives LOCATION "", which splits to `[""]`) |
| `EventProperties.SkippedContributesNothing` | notion_calendar/notion_ics.py:122-133 | appending a skipped record leaves the outcome of the loop unchanged |
| `EventProperties.IcalContents` | notion_calendar/notion_ics.py:20-163 | fewer than two records raise `IndexError`; a produced calendar has the fixed summary, version "2.0", and exactly one event per kept record, in input order |
| `EventProperties.IcalSucceeds` | notion_calendar/notion_ics.py:25-163 | the calendar is produced exactly when there are at least two records and no record's pass raises |

## Left out

- The Notion query and its pagination (`notion_calendar/notion_ics.py:11-18`) are network calls. The fetched records are the input sequence, in the order the query returned them.
- The query's fixed filter (dates after 2023-01-01) and its descending sort are applied by the Notion service, not by this code. They are not modelled.
- The `title_format` argument of `get_ical` is never read, so the model has no counterpart for it.
- The logger calls (`notion_calendar/notion_ics.py:26,124,134`) are Flask logging side effects. They are left out. The debug read of `calendar_entries[1]` is kept only for the `IndexError` it can raise.
- The icalendar library's `Calendar`/`Event` objects and their `to_ical` serialisation are a third-party library. Events and the calendar are plain datatypes. The calendar's events are built in a local sequence, in the order `add_component` would append them.
- IcsDates.ToDateTime: `datetime.fromisoformat(...).astimezone(timezone.utc)` is the parameter `toUtc`. Its exact accepted syntax is not modelled, and neither is its reading of a string with no offset as the host's local time.
- IcsDates.ToDateTime: folds every refusal into `ValueError(s)`. Python's messages do not always name the string (`"2023-02-30"` gives "day is out of range for month"). `astimezone(timezone.utc)` can also raise `OverflowError` when the shift to UTC leaves years 1 to 9999; the model reports that as a `ValueError` too, when `toUtc` refuses the string.
- IcsDates.ParseDateOnly: accepts ASCII digits only. Python's `\d` in `strptime` also matches other Unicode decimal digits.
- The `time_zone` field of a Notion date object is never read by this code, so it is not part of the record model.
- Properties of kinds the export does not read (status, relation, people, rich text, formula) are all `OtherProp`. A record's `properties` key and `url` are always present in Notion's replies, so they are fields of `Record` rather than optional entries.
- All of `notion_calendar/webapp.py` is left out: its routes, configuration, headers and the fallback calendar built from `datetime.now()`. The view functions it imports (`get_calendar_default`, `get_calendar_reserved`, `get_calendar_welcomedesk`) are not defined in `notion_calendar/notion_ics.py`, so they are not part of this model. The same holds for the status, tag, colour-category and time-offset logic they would carry.
- Running the export twice on the same records gives the same calendar. Every member here is a mathematical function of its inputs, so no separate lemma states this.
