# Server-Timing span exporter, modelled in Dafny

`ServerTimingSpanExporter` is an OpenTelemetry span exporter. It keeps finished
spans in memory, one list per trace id. On request it turns one trace's list
into a `Server-Timing` HTTP header. Each span yields an entry `name;dur=<ms>`.
Each of its events yields a bare `name` entry. Names are optionally prefixed
with a breadcrumb of ancestor span names. The entries are sorted by end time
(nanoseconds) with a stable sort and joined with commas. The trace may then be
forgotten ("flush").

The model has these modules:

- `TimeConversion` (time.dfy): `hrTimeToMilliseconds` and `millisToHrTime`
  from src/utils.ts, plus the nanosecond sort key. The arithmetic is exact:
  integers and reals, with JavaScript's `Math.trunc`, `Math.round` and
  truncating `%` written out.
- `SpanModel` (spans.dfy): spans, events, the request options with the
  source's defaults, and the duration formatter, which is a parameter.
- `Breadcrumbs` (breadcrumb.dfy): `_buildParentNameBreadcrumb`. It is a
  parent walk with fuel `|spanList|`. The model proves this fuel gives the
  same result as any walk that ends.
- `Entries` (entries.dfy): `_exportInfo` and the `flatMap` over the list.
- `EntrySort` (sort.dfy): the stable sort by nanosecond key, as an insertion
  sort. It is proved sorted, a permutation and stable. The model also proves
  it is the only stable sort.
- `Render` (render.dfy): entry rendering, `join(',')`, and a `split` that
  inverts the join.
- `HeaderBuilder` (header.dfy): the pipeline from a span list to the header
  value.
- `SpanBuffer` (buffer.dfy): the exporter's state and its operations
  `export`, `shutdown`, `reset` and `getServerTimingHeader`, as pure
  transitions.
- `Scenarios` (scenarios.dfy): the worked cases of the unit tests, replayed on
  the model. The formatter stays symbolic, so a duration `80` appears as
  `fmt(None, 80.0)`.

## Model

| member | source | states |
|---|---|---|
| TimeConversion.Trunc | src/utils.ts:21 | `Math.trunc`: the result has the sign of `x` and lies within one of `x`, on the side of zero |
| TimeConversion.Round | src/utils.ts:23-25 | `Math.round`: the result is within one half of `x`, and halves round up |
| TimeConversion.FromMillis | src/utils.ts:18-27 | `millisToHrTime`: the seconds part is the whole second containing `ms`, counted toward zero. The nanosecond part is the rest of `ms`, scaled by 1e6 and rounded to within one half. Both parts share the sign of `ms`, and the nanosecond part never exceeds one second in size |
| TimeConversion.FromMillisExample | src/utils.test.ts:6-10 | 200 ms converts to `[0, 200000000]`, and that converts back to 200 ms |
| TimeConversion.FromMillisNotNormalised | src/utils.ts:23-26 | rounding can carry the nanosecond part to a full second: 999.9999999 ms becomes `[0, 1e9]`, which is not normalised |
| TimeConversion.MillisRoundTrip | src/utils.ts:10-27 | milliseconds that are a whole number of nanoseconds survive `millisToHrTime` followed by `hrTimeToMilliseconds` exactly |
| TimeConversion.HrTimeRoundTrip | src/utils.ts:10-27 | a normalised `[seconds, nanos]` pair survives `hrTimeToMilliseconds` followed by `millisToHrTime` exactly |
| TimeConversion.NanosAgreeWithMillis | src/server-timing-span-exporter.ts:172-173 | an entry's sort key in nanoseconds is its time in milliseconds times 1e6, for every pair |
| TimeConversion.NanosOrderIsLexicographic | src/server-timing-span-exporter.ts:151 | on normalised pairs, ordering by the nanosecond key is ordering by seconds and then nanoseconds. Equal keys mean equal times |
| Breadcrumbs.ParentIndex | src/server-timing-span-exporter.ts:193-195 | the `find` callback: the index is that of a span whose span id is the child's `parentSpanId`, and no earlier span matches. It is `|spanList|` exactly when nothing matches |
| Breadcrumbs.FindParent | src/server-timing-span-exporter.ts:193-198 | the parent found is the child's parent and is the first such span of the list, as `find` returns it: no earlier span is the parent. No parent is found exactly when no member of the list is the parent |
| Breadcrumbs.WalkWithinList | src/server-timing-span-exporter.ts:188-206 | if the recursion ends after any number of steps, fuel `|spanList|` reaches the same breadcrumb. The proof uses pigeonhole: a longer chain of ancestors drawn from the list repeats a span, and a repeat never ends |
| Breadcrumbs.BreadcrumbIsUnboundedWalk | src/server-timing-span-exporter.ts:188-206 | the model's breadcrumb equals the source's result whenever the source's recursion ends |
| Breadcrumbs.BreadcrumbOfRoot | src/server-timing-span-exporter.ts:196-198 | a span without a parent in the list gets the empty breadcrumb |
| Breadcrumbs.BreadcrumbOfChild | src/server-timing-span-exporter.ts:199-205 | a span's breadcrumb is its first matching parent's breadcrumb, then the parent's name, then the glue, so ancestors appear outermost first |
| Breadcrumbs.CycleNeverTerminates | src/server-timing-span-exporter.ts:199-205 | if the chain of ancestors revisits a span, the recursion reaches no root for any amount of fuel |
| Breadcrumbs.SelfParentDiverges | src/server-timing-span-exporter.ts:193-205 | a span alone in its list that names itself as its parent makes the recursion endless. The model's breadcrumb for it is empty |
| Entries.EventEntries | src/server-timing-span-exporter.ts:178-182 | one entry per event, in event order. Each entry has the prefixed event name, the event time as key, and no duration |
| Entries.ExportInfo | src/server-timing-span-exporter.ts:166-186 | `_exportInfo`: when events are included, the event entries come first. The span's own entry is always last and carries the prefixed name and the duration in ms. Without events the span's entry is alone |
| Entries.Expand | src/server-timing-span-exporter.ts:137-150 | the `flatMap` has one entry per span, plus one per event when events are included |
| Entries.ExpandAppend | src/server-timing-span-exporter.ts:137-150 | the `flatMap` distributes over concatenation: each span's entries stay together, in list order |
| Entries.ExpandWithoutParents | src/server-timing-span-exporter.ts:142-148 | with `includeParentName` off, no prefix is added, and the entries do not depend on the rest of the list |
| Entries.SpanEntryPresent | src/server-timing-span-exporter.ts:137-150 | every span of the list contributes its own entry, with a duration |
| EntrySort.InsertSorted | src/server-timing-span-exporter.ts:151 | inserting into a key-sorted sequence keeps it sorted |
| EntrySort.InsertWithKey | src/server-timing-span-exporter.ts:151 | an inserted entry goes in front of the entries with the same key. The relative order of every other key is unchanged |
| EntrySort.SortSortsAndPermutes | src/server-timing-span-exporter.ts:151 | `toSorted`: the output is sorted by nanosecond key and is a permutation of the input |
| EntrySort.SortStable | src/server-timing-span-exporter.ts:151 | stability: for every key, the entries with that key keep their input order |
| EntrySort.SortedUnique | src/server-timing-span-exporter.ts:151 | two sorted sequences that agree on every key's entries are equal |
| EntrySort.SortIsTheStableSort | src/server-timing-span-exporter.ts:151 | any sorted sequence that keeps every key's input order equals the model's sort. Any stable sort gives the same header |
| EntrySort.SortKeepsSorted | src/server-timing-span-exporter.ts:151 | input that is already sorted comes back unchanged |
| Render.RenderAll | src/server-timing-span-exporter.ts:152-158 | one rendered string per entry, in order. A rendered entry is the name, plus `;dur=` and the formatted duration when there is one |
| Render.Join | src/server-timing-span-exporter.ts:159 | `join(',')` is empty exactly for no parts or one empty part. With two or more parts it contains the separator |
| Render.SplitJoin | src/server-timing-span-exporter.ts:152-159 | splitting the joined string at the separator gives back the parts, provided no part contains the separator |
| Render.NamesAreNotEscaped | src/server-timing-span-exporter.ts:153-159 | names are not escaped: one event named `a,b` renders exactly like two events `a` and `b` |
| HeaderBuilder.OrderedEntries | src/server-timing-span-exporter.ts:137-151 | the header lists one entry per span, plus one per event when events are included |
| HeaderBuilder.OrderedEntriesAreStablySorted | src/server-timing-span-exporter.ts:137-151 | the header entries are the `flatMap` result sorted by end time: sorted, nothing gained or lost, and equal end times in `flatMap` order |
| HeaderBuilder.SpanEntryOrdered | src/server-timing-span-exporter.ts:137-151 | every span's own entry survives the sort |
| HeaderBuilder.Body | src/server-timing-span-exporter.ts:135-160 | the header value is empty exactly when the span list is empty |
| HeaderBuilder.Header | src/server-timing-span-exporter.ts:124-160 | the pair's name is always `Server-Timing`. Its value is empty exactly when the span list is empty |
| HeaderBuilder.BodySplitsIntoEntries | src/server-timing-span-exporter.ts:152-159 | if no name, glue or formatted duration contains a comma, the header value splits at its commas into exactly the rendered entries, in header order |
| HeaderBuilder.SingleSpanBody | src/server-timing-span-exporter.ts:135-160 | a lone span that is not its own parent and has no events to show renders as `name;dur=<formatted ms>` |
| SpanBuffer.Export | src/server-timing-span-exporter.ts:64-81 | once stopped, the batch is rejected with "Exporter has been stopped" and nothing changes. Otherwise the call succeeds. Every trace's list grows by exactly that trace's spans of the batch, in batch order. Lists exist for the old traces and the batch's traces, and for no others |
| SpanBuffer.AppendAllLookup | src/server-timing-span-exporter.ts:74-79 | the push loop appends to each trace's list exactly that trace's spans of the batch, in order |
| SpanBuffer.AppendAllKeys | src/server-timing-span-exporter.ts:74-79 | the push loop creates a list for every trace of the batch and for no other trace |
| SpanBuffer.Shutdown | src/server-timing-span-exporter.ts:84-88 | `shutdown` stops the exporter and forgets every buffered span |
| SpanBuffer.Reset | src/server-timing-span-exporter.ts:97-99 | `reset` forgets every buffered span and leaves the stopped flag as it was |
| SpanBuffer.GetServerTimingHeader | src/server-timing-span-exporter.ts:115-131 | the header is built from the target trace's list, empty when none exists. With `flush`, exactly that trace is forgotten. Without it, the state is unchanged. The stopped flag is never touched |
| SpanBuffer.OperationsKeepBucketsNonEmpty | src/server-timing-span-exporter.ts:74-131 | no operation ever leaves an empty list in the map |
| SpanBuffer.ExportAfterShutdownFails | src/server-timing-span-exporter.ts:68-73 | after `shutdown`, every export fails and changes nothing |
| SpanBuffer.UnknownTraceIsEmpty | src/server-timing-span-exporter.ts:128-131 | a request for a trace with no list yields `["Server-Timing", ""]` and leaves the state unchanged, with or without flush |
| SpanBuffer.FlushedTraceIsGone | src/server-timing-span-exporter.ts:129-131 | after a flushing request, the next request for the same trace gets an empty value |
| SpanBuffer.UnflushedRequestRepeats | src/server-timing-span-exporter.ts:129-131 | without flush, a repeated request returns the same header and the same state |
| SpanBuffer.HandleAndIdAgree | src/server-timing-span-exporter.ts:125-127 | a span handle and its trace id address the same list and give the same header |
| SpanBuffer.NeverIngestedIsEmpty | src/server-timing-span-exporter.ts:74-79 | on a fresh exporter, a trace that no exported span belongs to renders an empty value |
| SpanBuffer.ExportAfterReset | src/server-timing-span-exporter.ts:97-99 | after `reset`, a running exporter accepts a batch, and each trace renders exactly its spans from that batch |
| Scenarios.MillisIsFromMillis | src/utils.ts:18-27 | for whole non-negative milliseconds, `millisToHrTime` is the normalised pair `[ms div 1000, (ms mod 1000) * 1e6]` |
| Scenarios.ExportedMain | src/server-timing-span-exporter.test.ts:51-68 | exporting one span to a fresh exporter succeeds and files the span under its trace |
| Scenarios.BreadcrumbHierarchy | src/server-timing-span-exporter.test.ts:134-178 | the four-span family renders `main`, `main<glue>child`, `main<glue>other-child` and `main<glue>other-child<glue>child`, each with its duration, for any glue, including the test's " > " |
| Scenarios.NoBreadcrumbs | src/server-timing-span-exporter.test.ts:180-224 | with `includeParentName: false` the same family renders its bare names |
| Scenarios.FlushByDefault | src/server-timing-span-exporter.test.ts:226-248 | the first default request gives `main;dur=…` and the second gives an empty value |
| Scenarios.NoFlushKeepsSpans | src/server-timing-span-exporter.test.ts:250-278 | with `flush: false` the next default request repeats the header, and the one after that is empty |
| Scenarios.EventsIncluded | src/server-timing-span-exporter.test.ts:280-297 | the span's events come before the span, as `cache-miss,fetch,main;dur=…` |
| Scenarios.EventsExcluded | src/server-timing-span-exporter.test.ts:318-337 | with `includeEvents: false` only `main;dur=…` remains |
| Scenarios.SortedByTime | src/server-timing-span-exporter.test.ts:390-416 | entries of several spans interleave by time: `cache-miss,main;dur=…,post-task;dur=…,late` |
| Scenarios.ResetThenExportAgain | src/server-timing-span-exporter.test.ts:419-458 | after `reset`, trace "1" renders empty, and a new export of trace "2" renders `other;dur=…` |

## Left out

- `forceFlush` (src/server-timing-span-exporter.ts:93-95) resolves at once and
  changes no state. `shutdown` returns that promise. Neither the promises nor
  the `resultCallback` of `export` are modelled: `Export` returns the result it
  would pass to the callback, and the error object is reduced to its message.
- `formatDuration` (src/server-timing-span-exporter.ts:132-134) is not
  modelled. Neither is JavaScript's number-to-string conversion inside the
  template. Both work on doubles (`toFixed`, `Number`), so the model takes the
  formatter as a parameter of type `Formatter` that receives `precision` and
  the duration. The precision test (test lines 339-388) is therefore not
  replayed, and the scenarios show durations as `fmt(None, 80.0)` rather than
  `80`. A `precision` outside the range `toFixed` accepts throws in the source
  and is not modelled.
- Floating point: durations and keys are exact reals and integers. The
  source's nanosecond key `hrTimeToNanoseconds` is a double near 1.7e18, far
  above 2^53. Two end times a few hundred nanoseconds apart can therefore tie
  in the source and not in the model.
- `hrTimeToMilliseconds` and `hrTimeToNanoseconds` are imported from
  `@opentelemetry/core` and are not part of this model. The model uses the
  formula of src/utils.ts for the first and `seconds * 1e9 + nanos` for the
  second.
- Breadcrumbs.Breadcrumb: on a cyclic parent chain the source recurses without
  bound (a stack overflow), while the model's breadcrumb is "". On every chain
  that ends, the two agree (`Breadcrumbs.WalkWithinList`).
- `includeRootParentName` appears in src/types.ts, but the exporter never reads
  it, so it has no counterpart.
- The `spanContext()` closure of a span is reduced to the `traceId` and
  `spanId` fields it returns. The `traceIdOrSpan` argument becomes the
  `Target` datatype.
- The source pushes onto a list array that it shares with the map. The model's
  lists are values; nothing outside the exporter observes the difference.
- The tests' clock (`hrTime()`) and random span ids (`crypto.randomUUID`)
  become fixed end times and fixed ids, in creation order, in `Scenarios`.

## Findings

| source | as written | input that shows it | evidently intended | confidence | as-written member | corrected member |
|---|---|---|---|---|---|---|
| src/server-timing-span-exporter.ts:188-206 | `_buildParentNameBreadcrumb` follows parent links with no depth bound or visited set | a span alone in its list whose `parentSpanId` is its own `spanId`, or any cycle of parent links within one trace's list | a breadcrumb is produced for every list, and it agrees with the recursion whenever the recursion ends. The model's `Breadcrumb` stops after `spanList.length` parent steps. `Breadcrumbs.CycleNeverTerminates` shows that no amount of fuel ends the walk on a cycle | low (a conforming tracer does not create parent cycles); not executed | Breadcrumbs.SelfParentDiverges | Breadcrumbs.WalkWithinList |
