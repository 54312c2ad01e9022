/**
 * Entry expansion (`_exportInfo` and the `flatMap` of `getServerTimingHeader`
 * in src/server-timing-span-exporter.ts): every span becomes its events, then
 * itself, all sharing the span's breadcrumb prefix.
 */
module Entries {
  import opened TimeConversion
  import opened SpanModel
  import opened Breadcrumbs

  /**
   * One metric of the header: its sort key in nanoseconds, its displayed name,
   * and its duration in milliseconds (`None` for an event).
   */
  datatype Entry = Entry(key: int, name: string, duration: Option<real>)

  /** The entry of a span: keyed by its end time, carrying its duration. */
  function SpanEntry(s: Span, prefix: string): Entry
  {
    Entry(ToNanos(s.endTime), prefix + s.name, Some(ToMillis(s.duration)))
  }

  /** The entry of an event: keyed by its time, without a duration. */
  function EventEntry(e: Event, prefix: string): Entry
  {
    Entry(ToNanos(e.time), prefix + e.name, None)
  }

  /** The events' entries, in the events' order. */
  function EventEntries(events: seq<Event>, prefix: string): (r: seq<Entry>)
    ensures |r| == |events|
    ensures forall i :: 0 <= i < |events| ==> r[i] == EventEntry(events[i], prefix)
  {
    if |events| == 0 then []
    else [EventEntry(events[0], prefix)] + EventEntries(events[1..], prefix)
  }

  /**
   * `_exportInfo`: the span's events (when `includeEvents`) followed by the
   * span's own entry.
   */
  function ExportInfo(s: Span, includeEvents: bool, prefix: string): (r: seq<Entry>)
    ensures |r| == (if includeEvents then |s.events| else 0) + 1
    ensures r[|r| - 1] == SpanEntry(s, prefix)
    ensures forall i :: 0 <= i < |r| - 1 ==> r[i] == EventEntry(s.events[i], prefix)
  {
    var entry := SpanEntry(s, prefix);
    if includeEvents then EventEntries(s.events, prefix) + [entry] else [entry]
  }

  /** The prefix of a span: its breadcrumb when `includeParentName`, otherwise "". */
  function Prefix(s: Span, list: seq<Span>, opts: Options): string
  {
    if opts.includeParentName then Breadcrumb(s, list, opts.parentNameGlue) else ""
  }

  /** The number of events over all spans. */
  function EventCount(spans: seq<Span>): nat
  {
    if |spans| == 0 then 0 else |spans[0].events| + EventCount(spans[1..])
  }

  /**
   * The `flatMap` over `spans`, with breadcrumbs resolved against the whole
   * bucket `list`.
   */
  function Expand(spans: seq<Span>, list: seq<Span>, opts: Options): (r: seq<Entry>)
    ensures |r| == |spans| + (if opts.includeEvents then EventCount(spans) else 0)
  {
    if |spans| == 0 then []
    else ExportInfo(spans[0], opts.includeEvents, Prefix(spans[0], list, opts)) + Expand(spans[1..], list, opts)
  }

  /** Expansion distributes over concatenation: each span's entries stay together, in span order. */
  lemma {:induction false} ExpandAppend(a: seq<Span>, b: seq<Span>, list: seq<Span>, opts: Options)
    ensures Expand(a + b, list, opts) == Expand(a, list, opts) + Expand(b, list, opts)
  {
    if |a| > 0 {
      assert (a + b)[1..] == a[1..] + b;
      ExpandAppend(a[1..], b, list, opts);
    } else {
      assert a + b == b;
    }
  }

  /** The entries of a single span: its events, then itself, with its prefix. */
  lemma ExpandSingle(s: Span, list: seq<Span>, opts: Options)
    ensures Expand([s], list, opts) == ExportInfo(s, opts.includeEvents, Prefix(s, list, opts))
  {
  }

  /**
   * With `includeParentName` off, no name carries a prefix: the expansion does
   * not depend on the bucket at all.
   */
  lemma {:induction false} ExpandWithoutParents(spans: seq<Span>, list1: seq<Span>, list2: seq<Span>, opts: Options)
    requires !opts.includeParentName
    ensures Expand(spans, list1, opts) == Expand(spans, list2, opts)
    ensures forall i :: 0 <= i < |spans| ==> Prefix(spans[i], list1, opts) == ""
  {
    if |spans| > 0 {
      ExpandWithoutParents(spans[1..], list1, list2, opts);
    }
  }

  /** The source's entry count: `|spans|` span entries plus, with events on, every event once. */
  lemma ExpandCount(spans: seq<Span>, opts: Options)
    ensures opts.includeEvents ==> |Expand(spans, spans, opts)| == |spans| + EventCount(spans)
    ensures !opts.includeEvents ==> |Expand(spans, spans, opts)| == |spans|
  {
  }

  /** Every span contributes its own entry, which carries a duration. */
  lemma {:induction false} SpanEntryPresent(spans: seq<Span>, list: seq<Span>, opts: Options, i: nat)
    requires i < |spans|
    ensures SpanEntry(spans[i], Prefix(spans[i], list, opts)) in Expand(spans, list, opts)
  {
    if i > 0 {
      SpanEntryPresent(spans[1..], list, opts, i - 1);
    } else {
      var info := ExportInfo(spans[0], opts.includeEvents, Prefix(spans[0], list, opts));
      assert info[|info| - 1] in info;
    }
  }
}
