# Calendar updater: the event filter, modelled in Dafny

The calendar updater downloads an iCalendar feed, removes every event whose summary
contains the keyword `Office Hours` (letter case ignored), and writes what is left to a
new calendar file. This project models the one step of `filter_calendar()` that carries
logic, and proves what it promises:

- the guard that ends the run, with no download and no output, when the source URL is unset
  or is the empty string (Python treats both as false);
- the copy of the source calendar's top-level properties into a fresh calendar object,
  skipping any whose upper-cased key is `VEVENT`;
- the walk over the source's components. Each one named exactly `VEVENT` (the event
  component of RFC 5545 section 3.6.1) is counted. Its SUMMARY (RFC 5545 section
  3.8.1.12) is read, with an absent summary taken as `''`, and upper-cased. The event is
  added to the new calendar unless the upper-cased keyword occurs in that summary, in
  which case a filtered counter goes up.

Modules, one file each:

- `wrappers.dfy` (`Wrappers`): `Option`, with `GetOr` playing the part of `dict.get(key, default)`.
- `text.dfy` (`Text`): ASCII `Upper` (`str.upper()`) and `Contains` (`needle in haystack`),
  with `Contains` proved equal to the mathematical "occurs at some offset" predicate.
- `seqs.dfy` (`Seqs`): `Retain`, the order-preserving selection a `for … if …: add(…)` loop
  performs, and `Count`. These come with the lemmas that characterise them: exactly the
  accepted elements, unchanged and in order; length equals count; counting splits over a
  disjoint union; both distribute over concatenation.
- `icalendar.dfy` (`ICalendar`): the documents. `Property` is a key and a value. A
  `Component` has a name, an optional summary and its other fields. `SourceCalendar` is
  the parsed input: its top-level items in order and the components its `walk()` visits
  in order. `Calendar` is the mutable output object, filled in place by `Add` and
  `AddComponent`.
- `calendar_updater.dfy` (`CalendarUpdater`): the configured keyword, the decision
  predicates, the specification functions `CopiedProperties` and `KeptEvents`, the
  imperative `FilterCalendar` method with its two loops and two counters, the top-level
  `Run`, and the lemmas.

I/O is made into parameters. `Run` receives the optional URL, read from the environment
variable `SOURCE_CALENDAR_URL` in the program. It also receives `fetched`, the calendar
that downloading, parsing and filtering can work on, or `None` when the request, the
parse or the filter raises (see "Left out" for the input that makes the filter raise).
It reports whether a download was started and returns the calendar that would be
serialised, or `null`.

Behaviour of the code that the model keeps:

- With the URL unset or empty, the code prints a message and returns normally
  (`calendar_updater/filter_calendar.py:19-21`); there is no non-zero exit.
- Download and parse failures are caught at lines 64-67 and printed; the run ends
  normally with no output (`Run` returns `null`).
- An event without a summary is kept only for a non-empty keyword, because `'' in s` is
  true in Python (`NoSummaryKept`); with an empty keyword every event is dropped.

## Model

| member | source | states |
|---|---|---|
| `Text.Upper` | calendar_updater/filter_calendar.py:48 | the result has the input's length and each character is the ASCII upper-case form of the input's character at that position |
| `Text.Contains` | calendar_updater/filter_calendar.py:51 | `needle in haystack` is true exactly when the needle occurs at some offset of the haystack (the empty needle occurs everywhere) |
| `Text.UpperIdempotent` | calendar_updater/filter_calendar.py:48-51 | upper-casing an already upper-cased string changes nothing |
| `Text.UpperEqualIffSameUpToCase` | calendar_updater/filter_calendar.py:48-51 | two strings have the same upper-case form exactly when they differ only in letter case |
| `Text.EmptyContainsOnlyEmpty` | calendar_updater/filter_calendar.py:48-51 | the empty summary `''` contains a needle exactly when the needle is empty |
| `Text.UpperChar` | calendar_updater/filter_calendar.py:48 | a lower-case ASCII letter becomes the corresponding upper-case letter (code point minus 32); every other character is unchanged |
| `Wrappers.Option.GetOr` | calendar_updater/filter_calendar.py:48 | `get('summary', '')`: the summary when there is one, otherwise the default `''` |
| `CalendarUpdater.SourceConfigured` | calendar_updater/filter_calendar.py:19 | definition: `not SOURCE_URL` fails, i.e. the URL is present and not the empty string |
| `CalendarUpdater.IsCopied` | calendar_updater/filter_calendar.py:37 | definition: the upper-cased property key differs from `VEVENT` |
| `CalendarUpdater.IsEvent` | calendar_updater/filter_calendar.py:46 | definition: the component name is exactly `VEVENT`, compared case-sensitively |
| `CalendarUpdater.Keeps` | calendar_updater/filter_calendar.py:48-51 | an event is kept exactly when the upper-cased keyword does not occur at any offset of the upper-cased summary, an absent summary counting as `''` |
| `CalendarUpdater.CopiedProperties` | calendar_updater/filter_calendar.py:36-38 | the properties the copy loop produces: no more than the source has, each with a key that is not `VEVENT` after upper-casing (`CopiedPropertiesInOrder` gives the full characterisation) |
| `CalendarUpdater.KeptEvents` | calendar_updater/filter_calendar.py:45-52 | the components the event loop adds: no more than were walked, each an event that passes the keyword test (`KeptEventsInOrder` gives the full characterisation) |
| `Seqs.Retain` | calendar_updater/filter_calendar.py:45-52 | a selection is never longer than its source and holds only accepted elements |
| `Seqs.Count` | calendar_updater/filter_calendar.py:45-54 | a count never exceeds the number of elements walked |
| `Seqs.RetainSelectsInOrder` | calendar_updater/filter_calendar.py:45-52 | the selection is the source's accepted elements, each unchanged, in increasing source position, and every accepted position is selected |
| `Seqs.RetainMembership` | calendar_updater/filter_calendar.py:45-52 | an element is selected exactly when it occurs in the source and is accepted |
| `Seqs.RetainLength` | calendar_updater/filter_calendar.py:41-52 | the number of selected elements equals the count of accepted ones |
| `Seqs.CountSplit` | calendar_updater/filter_calendar.py:46-54 | counting a predicate that is the disjoint union of two others gives the sum of their counts |
| `ICalendar.Calendar.constructor` | calendar_updater/filter_calendar.py:33 | a new calendar has no properties and no components |
| `ICalendar.Calendar.Add` | calendar_updater/filter_calendar.py:38 | the property is appended after the existing ones; components are unchanged |
| `ICalendar.Calendar.AddComponent` | calendar_updater/filter_calendar.py:52 | the component is appended unchanged after the existing ones; properties are unchanged |
| `CalendarUpdater.FilterCalendar` | calendar_updater/filter_calendar.py:33-55 | the new calendar is fresh and holds exactly the copied properties and the kept events; the event counter counts `VEVENT` components; the filtered counter counts dropped events; `filtered <= events` and `kept == events - filtered` |
| `CalendarUpdater.Run` | calendar_updater/filter_calendar.py:19-35 | a download is attempted exactly when the URL is set and non-empty; a calendar is produced exactly when, in addition, download and parse succeed, and it is the filter's result |
| `CalendarUpdater.CopiedPropertiesInOrder` | calendar_updater/filter_calendar.py:33-38 | a property is copied exactly when it is a source property whose upper-cased key is not `VEVENT`; the copies are unchanged and in source order, and nothing else is added |
| `CalendarUpdater.KeptEventsInOrder` | calendar_updater/filter_calendar.py:45-52 | a component is in the output exactly when it is walked, is named `VEVENT` and its summary passes the keyword test; output events are unchanged and in walk order |
| `CalendarUpdater.EventCounts` | calendar_updater/filter_calendar.py:41-54 | events seen = events kept + events filtered, and filtered <= seen |
| `CalendarUpdater.NonEventIgnored` | calendar_updater/filter_calendar.py:45-47 | inserting a non-`VEVENT` component anywhere in the walk changes neither the output nor either counter |
| `CalendarUpdater.NoSummaryKept` | calendar_updater/filter_calendar.py:48-51 | an event without summary is kept exactly when the keyword is non-empty, so always under `Office Hours` |
| `CalendarUpdater.SummaryCaseIrrelevant` | calendar_updater/filter_calendar.py:48-51 | summaries that differ only in letter case get the same keep/drop decision |
| `CalendarUpdater.KeywordCaseIrrelevant` | calendar_updater/filter_calendar.py:48-51 | keywords that differ only in letter case give the same keep/drop decision |
| `CalendarUpdater.UpperSummaryIrrelevant` | calendar_updater/filter_calendar.py:48 | upper-casing a summary in advance does not change the decision |
| `CalendarUpdater.PrefixDropped` | calendar_updater/filter_calendar.py:48-54 | a summary that begins with the keyword, in any letter case, has its event dropped |
| `CalendarUpdater.DropKeepDrop` | calendar_updater/filter_calendar.py:45-54 | for three events of which only the middle one passes, the output is that one event, three are counted and two filtered |
| `CalendarUpdater.OfficeHoursDecisions` | calendar_updater/filter_calendar.py:10-51 | under `Office Hours`, "Office Hours - Monday" and "office hours (extra)" are dropped and "Lecture 1" is kept |
| `CalendarUpdater.OfficeHoursScenario` | calendar_updater/filter_calendar.py:10-54 | for those three events, only "Lecture 1" is output, three events counted, two filtered |

## Left out

- The HTTP GET and its status check (lines 26-27): network I/O. Its result, together with the parse, is the `fetched` parameter of `Run`.
- `Calendar.from_ical` and `to_ical` (lines 30, 61): the RFC 5545 text format, with its line folding and escaping, lives in the `icalendar` library, which is not part of this model. The parsed calendar is abstract input data.
- The traversal order and recursion of `walk()`, which also visits the calendar itself and nested components. `walk` is a given sequence of components.
- `icalendar`'s `add`: it encodes values and turns a repeated key into a list. `Calendar.Add` appends a key/value pair instead. The source's items come from a dictionary, so their keys are distinct.
- `add_component` stores a reference to the same component object. The model appends the component as a value, so aliasing is not modelled.
- Reading the environment variable (line 8): the URL is `Run`'s `sourceUrl` parameter.
- Writing the output file (lines 60-62) and all logging (lines 20, 25, 40, 55, 57, 62): output only.
- The exception handlers (lines 64-67): they only print, so `Run` returns `null` in place of an output.
- A VEVENT with more than one SUMMARY line is not modelled: `Component.summary` holds at most one string. The library would give line 48 a list, `.upper()` would raise, line 66 would catch it and no file would be written. The model counts such input as `fetched == None`.
- Python's full Unicode `str.upper()`: only ASCII upper-casing is modelled. Non-ASCII characters are left unchanged.
