/**
 * The worked cases of src/server-timing-span-exporter.test.ts, replayed on the
 * model. End times follow creation order, as the test clock gives them;
 * durations are `millisToHrTime` of the tests' milliseconds. The duration
 * formatter stays symbolic.
 */
module Scenarios {
  import opened TimeConversion
  import opened SpanModel
  import opened Breadcrumbs
  import opened Entries
  import opened EntrySort
  import opened Render
  import opened HeaderBuilder
  import opened SpanBuffer

  function At(n: int): HrTime
  {
    HrTime(1_700_000_000, n)
  }

  function Millis(ms: int): HrTime
  {
    HrTime(ms / 1000, (ms % 1000) * 1_000_000)
  }

  const MainSpan: Span := Span("main", Millis(110), At(1), [], "1", "s-main", None)
  const ChildSpan: Span := Span("child", Millis(42), At(2), [], "1", "s-child", Some("s-main"))
  const OtherChildSpan: Span := Span("other-child", Millis(60), At(3), [], "1", "s-other", Some("s-main"))
  const ChildChildSpan: Span := Span("child", Millis(40), At(4), [], "1", "s-child-child", Some("s-other"))
  const Family: seq<Span> := [MainSpan, ChildSpan, OtherChildSpan, ChildChildSpan]

  /** `Millis` is `millisToHrTime` on whole, non-negative milliseconds. */
  lemma MillisIsFromMillis(ms: nat)
    ensures FromMillis(ms as real) == Millis(ms)
  {
    var t := Millis(ms);
    assert Normalised(t);
    assert ToMillis(t) == ms as real;
    HrTimeRoundTrip(t);
  }

  /** A span without events expands to its own entry alone. */
  lemma NoEventsInfo(s: Span, list: seq<Span>, opts: Options)
    requires |s.events| == 0
    ensures Expand([s], list, opts) == [SpanEntry(s, Prefix(s, list, opts))]
  {
    ExpandSingle(s, list, opts);
  }

  /** Four spans without events expand to their own entries, in order. */
  lemma ExpandFourWithoutEvents(a: Span, b: Span, c: Span, d: Span, list: seq<Span>, opts: Options)
    requires |a.events| == 0 && |b.events| == 0 && |c.events| == 0 && |d.events| == 0
    ensures Expand([a, b, c, d], list, opts)
         == [SpanEntry(a, Prefix(a, list, opts)), SpanEntry(b, Prefix(b, list, opts)),
             SpanEntry(c, Prefix(c, list, opts)), SpanEntry(d, Prefix(d, list, opts))]
  {
    NoEventsInfo(a, list, opts);
    NoEventsInfo(b, list, opts);
    NoEventsInfo(c, list, opts);
    NoEventsInfo(d, list, opts);
    ExpandAppend([c], [d], list, opts);
    assert [c] + [d] == [c, d];
    ExpandAppend([b], [c, d], list, opts);
    assert [b] + [c, d] == [b, c, d];
    ExpandAppend([a], [b, c, d], list, opts);
    assert [a] + [b, c, d] == [a, b, c, d];
  }

  /** Four entries with non-decreasing keys are sorted. */
  lemma SortedFour(e0: Entry, e1: Entry, e2: Entry, e3: Entry)
    requires e0.key <= e1.key <= e2.key <= e3.key
    ensures Sorted([e0, e1, e2, e3])
  {
  }

  /** The family has no events, so each span expands to its own entry alone, in list order. */
  lemma FamilyExpands(opts: Options)
    ensures OrderedEntries(Family, opts) == [
      SpanEntry(MainSpan, Prefix(MainSpan, Family, opts)),
      SpanEntry(ChildSpan, Prefix(ChildSpan, Family, opts)),
      SpanEntry(OtherChildSpan, Prefix(OtherChildSpan, Family, opts)),
      SpanEntry(ChildChildSpan, Prefix(ChildChildSpan, Family, opts))]
  {
    var e0 := SpanEntry(MainSpan, Prefix(MainSpan, Family, opts));
    var e1 := SpanEntry(ChildSpan, Prefix(ChildSpan, Family, opts));
    var e2 := SpanEntry(OtherChildSpan, Prefix(OtherChildSpan, Family, opts));
    var e3 := SpanEntry(ChildChildSpan, Prefix(ChildChildSpan, Family, opts));
    ExpandFourWithoutEvents(MainSpan, ChildSpan, OtherChildSpan, ChildChildSpan, Family, opts);
    SortedFour(e0, e1, e2, e3);
    SortKeepsSorted([e0, e1, e2, e3]);
  }

  /** The family's parent links, resolved: `main` is the root, `other-child` the parent of the inner `child`. */
  lemma FamilyBreadcrumbs(opts: Options)
    requires opts.includeParentName
    ensures Prefix(MainSpan, Family, opts) == ""
    ensures Prefix(ChildSpan, Family, opts) == "main" + opts.parentNameGlue
    ensures Prefix(OtherChildSpan, Family, opts) == "main" + opts.parentNameGlue
    ensures Prefix(ChildChildSpan, Family, opts) == "main" + opts.parentNameGlue + "other-child" + opts.parentNameGlue
  {
    var glue := opts.parentNameGlue;
    assert FindParent(MainSpan, Family) == None;
    assert FindParent(ChildSpan, Family) == Some(MainSpan);
    assert FindParent(OtherChildSpan, Family) == Some(MainSpan);
    assert ParentIndex(ChildChildSpan, Family[2..]) == 0;
    assert ParentIndex(ChildChildSpan, Family[1..]) == 1 by {
      assert Family[1..][1..] == Family[2..];
    }
    assert FindParent(ChildChildSpan, Family) == Some(OtherChildSpan);
    assert Walk(ChildChildSpan, Family, glue, 2).Some?;
    BreadcrumbOfRoot(MainSpan, Family, glue);
    BreadcrumbOfChild(ChildSpan, Family, glue, MainSpan, 1);
    BreadcrumbOfChild(OtherChildSpan, Family, glue, MainSpan, 1);
    BreadcrumbOfChild(ChildChildSpan, Family, glue, OtherChildSpan, 2);
  }

  /** Four entries rendered. */
  lemma RenderFour(fmt: Formatter, p: Option<int>, e0: Entry, e1: Entry, e2: Entry, e3: Entry)
    ensures RenderAll([e0, e1, e2, e3], fmt, p)
         == [RenderEntry(e0, fmt, p), RenderEntry(e1, fmt, p), RenderEntry(e2, fmt, p), RenderEntry(e3, fmt, p)]
  {
  }

  /** The body is the join of the rendered ordered entries. */
  lemma BodyFromEntries(list: seq<Span>, opts: Options, fmt: Formatter, es: seq<Entry>)
    requires OrderedEntries(list, opts) == es
    ensures Body(list, opts, fmt) == Join(RenderAll(es, fmt, opts.precision), EntrySeparator)
  {
  }

  /** The family's entries with breadcrumbs joined by the glue `g`. */
  lemma HierarchyEntries(opts: Options)
    requires opts.includeParentName
    ensures
      var g := opts.parentNameGlue;
      OrderedEntries(Family, opts)
        == [SpanEntry(MainSpan, ""), SpanEntry(ChildSpan, "main" + g),
            SpanEntry(OtherChildSpan, "main" + g), SpanEntry(ChildChildSpan, "main" + g + "other-child" + g)]
  {
    FamilyBreadcrumbs(opts);
    FamilyExpands(opts);
  }

  /** The family's entries, with breadcrumbs joined by `g`, rendered. */
  lemma HierarchyRendered(fmt: Formatter, g: string)
    ensures RenderAll([SpanEntry(MainSpan, ""), SpanEntry(ChildSpan, "main" + g),
                       SpanEntry(OtherChildSpan, "main" + g), SpanEntry(ChildChildSpan, "main" + g + "other-child" + g)], fmt, None)
         == ["main" + DurationMarker + fmt(None, 110.0),
             "main" + g + "child" + DurationMarker + fmt(None, 42.0),
             "main" + g + "other-child" + DurationMarker + fmt(None, 60.0),
             "main" + g + "other-child" + g + "child" + DurationMarker + fmt(None, 40.0)]
  {
    RenderFour(fmt, None, SpanEntry(MainSpan, ""), SpanEntry(ChildSpan, "main" + g),
      SpanEntry(OtherChildSpan, "main" + g), SpanEntry(ChildChildSpan, "main" + g + "other-child" + g));
    assert ToMillis(MainSpan.duration) == 110.0;
    assert ToMillis(ChildSpan.duration) == 42.0;
    assert ToMillis(OtherChildSpan.duration) == 60.0;
    assert ToMillis(ChildChildSpan.duration) == 40.0;
    assert "" + "main" == "main";
  }

  /**
   * Breadcrumbs, outermost ancestor first (test lines 134-178, where the glue
   * is " > " and the inner child's entry reads
   * `main > other-child > child;dur=40`); the other options do not matter for
   * this family, and any glue gives the same shape.
   */
  lemma BreadcrumbHierarchy(opts: Options, fmt: Formatter)
    requires opts.includeParentName && opts.precision == None
    ensures
      var g := opts.parentNameGlue;
      Body(Family, opts, fmt)
        == Join(["main" + DurationMarker + fmt(None, 110.0),
                 "main" + g + "child" + DurationMarker + fmt(None, 42.0),
                 "main" + g + "other-child" + DurationMarker + fmt(None, 60.0),
                 "main" + g + "other-child" + g + "child" + DurationMarker + fmt(None, 40.0)], EntrySeparator)
  {
    var g := opts.parentNameGlue;
    var es := [SpanEntry(MainSpan, ""), SpanEntry(ChildSpan, "main" + g),
      SpanEntry(OtherChildSpan, "main" + g), SpanEntry(ChildChildSpan, "main" + g + "other-child" + g)];
    HierarchyEntries(opts);
    BodyFromEntries(Family, opts, fmt, es);
    HierarchyRendered(fmt, g);
  }

  /** The family's entries without parent names. */
  lemma FlatEntries(opts: Options)
    requires !opts.includeParentName
    ensures OrderedEntries(Family, opts)
         == [SpanEntry(MainSpan, ""), SpanEntry(ChildSpan, ""),
             SpanEntry(OtherChildSpan, ""), SpanEntry(ChildChildSpan, "")]
  {
    FamilyExpands(opts);
  }

  /** The family's entries without parent names, rendered. */
  lemma FlatRendered(fmt: Formatter)
    ensures RenderAll([SpanEntry(MainSpan, ""), SpanEntry(ChildSpan, ""),
                       SpanEntry(OtherChildSpan, ""), SpanEntry(ChildChildSpan, "")], fmt, None)
         == ["main;dur=" + fmt(None, 110.0),
             "child;dur=" + fmt(None, 42.0),
             "other-child;dur=" + fmt(None, 60.0),
             "child;dur=" + fmt(None, 40.0)]
  {
    RenderFour(fmt, None, SpanEntry(MainSpan, ""), SpanEntry(ChildSpan, ""),
      SpanEntry(OtherChildSpan, ""), SpanEntry(ChildChildSpan, ""));
    assert RenderEntry(SpanEntry(MainSpan, ""), fmt, None) == "main;dur=" + fmt(None, 110.0);
    assert RenderEntry(SpanEntry(ChildSpan, ""), fmt, None) == "child;dur=" + fmt(None, 42.0);
    assert RenderEntry(SpanEntry(OtherChildSpan, ""), fmt, None) == "other-child;dur=" + fmt(None, 60.0);
    assert RenderEntry(SpanEntry(ChildChildSpan, ""), fmt, None) == "child;dur=" + fmt(None, 40.0);
  }

  /** Without parent names every entry shows its bare name (test lines 180-224). */
  lemma NoBreadcrumbs(opts: Options, fmt: Formatter)
    requires !opts.includeParentName && opts.precision == None
    ensures Body(Family, opts, fmt)
         == Join(["main;dur=" + fmt(None, 110.0),
                  "child;dur=" + fmt(None, 42.0),
                  "other-child;dur=" + fmt(None, 60.0),
                  "child;dur=" + fmt(None, 40.0)], ',')
  {
    var es := [SpanEntry(MainSpan, ""), SpanEntry(ChildSpan, ""),
      SpanEntry(OtherChildSpan, ""), SpanEntry(ChildChildSpan, "")];
    FlatEntries(opts);
    BodyFromEntries(Family, opts, fmt, es);
    FlatRendered(fmt);
  }

  const CacheMiss: Event := Event("cache-miss", At(1))
  const Fetch: Event := Event("fetch", At(2))
  const EventfulSpan: Span := Span("main", Millis(80), At(3), [CacheMiss, Fetch], "1", "s-main", None)

  /** The entries of a span with two events: the events first, then the span. */
  lemma EventfulEntries(opts: Options)
    requires opts.includeEvents
    ensures OrderedEntries([EventfulSpan], opts)
         == [EventEntry(CacheMiss, ""), EventEntry(Fetch, ""), SpanEntry(EventfulSpan, "")]
  {
    var es := [EventEntry(CacheMiss, ""), EventEntry(Fetch, ""), SpanEntry(EventfulSpan, "")];
    BreadcrumbOfRoot(EventfulSpan, [EventfulSpan], opts.parentNameGlue);
    assert Prefix(EventfulSpan, [EventfulSpan], opts) == "";
    ExpandSingle(EventfulSpan, [EventfulSpan], opts);
    assert Expand([EventfulSpan], [EventfulSpan], opts) == es;
    SortKeepsSorted(es);
  }

  /** Events are included by default, as entries without a duration (test lines 280-297). */
  lemma EventsIncluded(opts: Options, fmt: Formatter)
    requires opts.includeEvents && opts.precision == None
    ensures Body([EventfulSpan], opts, fmt) == Join(["cache-miss", "fetch", "main;dur=" + fmt(None, 80.0)], ',')
  {
    var es := [EventEntry(CacheMiss, ""), EventEntry(Fetch, ""), SpanEntry(EventfulSpan, "")];
    EventfulEntries(opts);
    BodyFromEntries([EventfulSpan], opts, fmt, es);
    EventfulRendered(fmt);
  }

  /** The eventful span's entries, rendered. */
  lemma EventfulRendered(fmt: Formatter)
    ensures RenderAll([EventEntry(CacheMiss, ""), EventEntry(Fetch, ""), SpanEntry(EventfulSpan, "")], fmt, None)
         == ["cache-miss", "fetch", "main;dur=" + fmt(None, 80.0)]
  {
    var es := [EventEntry(CacheMiss, ""), EventEntry(Fetch, ""), SpanEntry(EventfulSpan, "")];
    assert RenderEntry(es[0], fmt, None) == "cache-miss";
    assert RenderEntry(es[1], fmt, None) == "fetch";
    assert RenderEntry(es[2], fmt, None) == "main;dur=" + fmt(None, 80.0);
  }

  /** With events switched off only the span remains (test lines 318-337). */
  lemma EventsExcluded(opts: Options, fmt: Formatter)
    requires !opts.includeEvents && opts.precision == None
    ensures Body([EventfulSpan], opts, fmt) == "main;dur=" + fmt(None, 80.0)
  {
    SingleSpanBody(EventfulSpan, opts, fmt);
  }

  const Early: Event := Event("cache-miss", At(1))
  const Late: Event := Event("late", At(4))
  const LongSpan: Span := Span("main", Millis(80), At(2), [Early, Late], "1", "s-main", None)
  const PostTask: Span := Span("post-task", Millis(20), At(3), [], "1", "s-post", None)

  /** The expansion of the two spans, before sorting. */
  lemma TimeExpanded(opts: Options)
    requires opts.includeEvents
    ensures Expand([LongSpan, PostTask], [LongSpan, PostTask], opts)
         == [EventEntry(Early, ""), EventEntry(Late, ""), SpanEntry(LongSpan, ""), SpanEntry(PostTask, "")]
  {
    var list := [LongSpan, PostTask];
    BreadcrumbOfRoot(LongSpan, list, opts.parentNameGlue);
    BreadcrumbOfRoot(PostTask, list, opts.parentNameGlue);
    assert Prefix(LongSpan, list, opts) == "";
    assert Prefix(PostTask, list, opts) == "";
    ExpandAppend([LongSpan], [PostTask], list, opts);
    assert [LongSpan] + [PostTask] == list;
    ExpandSingle(LongSpan, list, opts);
    ExpandSingle(PostTask, list, opts);
  }

  /** One insertion step that stops in front of the rest. */
  lemma InsertInFront(e: Entry, s: seq<Entry>)
    requires |s| == 0 || e.key <= s[0].key
    ensures Insert(e, s) == [e] + s
  {
  }

  /** One insertion step that moves past the head. */
  lemma InsertPast(e: Entry, s: seq<Entry>)
    requires |s| > 0 && s[0].key < e.key
    ensures Insert(e, s) == [s[0]] + Insert(e, s[1..])
  {
  }

  /** Sorting peels off the head and inserts it into the sorted rest. */
  lemma SortStep(s: seq<Entry>)
    requires |s| > 0
    ensures SortByKey(s) == Insert(s[0], SortByKey(s[1..]))
  {
  }

  /** Two entries already in key order stay put. */
  lemma SortedPair(c: Entry, d: Entry)
    requires c.key < d.key
    ensures SortByKey([c, d]) == [c, d]
  {
    SortStep([d]);
    assert [d][1..] == [];
    InsertInFront(d, []);
    SortStep([c, d]);
    assert [c, d][1..] == [d];
    InsertInFront(c, [d]);
  }

  /** An entry with the largest key moves behind the rest. */
  lemma LargestMovesBack(b: Entry, c: Entry, d: Entry)
    requires c.key < d.key < b.key
    ensures SortByKey([b, c, d]) == [c, d, b]
  {
    SortedPair(c, d);
    SortStep([b, c, d]);
    assert [b, c, d][1..] == [c, d];
    InsertPast(b, [c, d]);
    assert [c, d][1..] == [d];
    InsertPast(b, [d]);
    assert [d][1..] == [];
    InsertInFront(b, []);
  }

  /** A head no larger than the sorted rest's first key stays in front. */
  lemma HeadStays(s: seq<Entry>, tail: seq<Entry>)
    requires |s| > 0 && SortByKey(s[1..]) == tail
    requires |tail| == 0 || s[0].key <= tail[0].key
    ensures SortByKey(s) == [s[0]] + tail
  {
    SortStep(s);
    InsertInFront(s[0], tail);
  }

  /** Sorting by key moves the late event behind both spans. */
  lemma TimeSorted(a: Entry, b: Entry, c: Entry, d: Entry)
    requires a.key < c.key < d.key < b.key
    ensures SortByKey([a, b, c, d]) == [a, c, d, b]
  {
    var s := [a, b, c, d];
    assert s[1..] == [b, c, d];
    LargestMovesBack(b, c, d);
    HeadStays(s, [c, d, b]);
  }

  /** The two spans' entries in time order. */
  lemma TimeOrderedEntries(opts: Options)
    requires opts.includeEvents
    ensures OrderedEntries([LongSpan, PostTask], opts)
         == [EventEntry(Early, ""), SpanEntry(LongSpan, ""), SpanEntry(PostTask, ""), EventEntry(Late, "")]
  {
    TimeExpanded(opts);
    TimeSorted(EventEntry(Early, ""), EventEntry(Late, ""), SpanEntry(LongSpan, ""), SpanEntry(PostTask, ""));
  }

  /** The two spans' entries, rendered. */
  lemma TimeRendered(fmt: Formatter)
    ensures RenderAll([EventEntry(Early, ""), SpanEntry(LongSpan, ""), SpanEntry(PostTask, ""), EventEntry(Late, "")], fmt, None)
         == ["cache-miss", "main;dur=" + fmt(None, 80.0), "post-task;dur=" + fmt(None, 20.0), "late"]
  {
    var es := [EventEntry(Early, ""), SpanEntry(LongSpan, ""), SpanEntry(PostTask, ""), EventEntry(Late, "")];
    RenderFour(fmt, None, es[0], es[1], es[2], es[3]);
    assert RenderEntry(es[0], fmt, None) == "cache-miss";
    assert RenderEntry(es[1], fmt, None) == "main;dur=" + fmt(None, 80.0);
    assert RenderEntry(es[2], fmt, None) == "post-task;dur=" + fmt(None, 20.0);
    assert RenderEntry(es[3], fmt, None) == "late";
  }

  /** Entries are ordered by time across spans (test lines 390-416). */
  lemma SortedByTime(opts: Options, fmt: Formatter)
    requires opts.includeEvents && opts.precision == None
    ensures Body([LongSpan, PostTask], opts, fmt)
         == Join(["cache-miss", "main;dur=" + fmt(None, 80.0), "post-task;dur=" + fmt(None, 20.0), "late"], ',')
  {
    var es := [EventEntry(Early, ""), SpanEntry(LongSpan, ""), SpanEntry(PostTask, ""), EventEntry(Late, "")];
    TimeOrderedEntries(opts);
    BodyFromEntries([LongSpan, PostTask], opts, fmt, es);
    TimeRendered(fmt);
  }

  const MainOfTrace1: Span := Span("main", Millis(80), At(1), [], "1", "s-1", None)
  const OtherOfTrace2: Span := Span("other", Millis(80), At(2), [], "2", "s-2", None)

  /** A fresh exporter that receives one span holds exactly that span under its trace. */
  lemma FreshExport(s: Span)
    ensures Export(Initial, [s]) == (State(false, map[s.traceId := [s]]), Success)
  {
    var b := Export(Initial, [s]).0.buckets;
    assert [s][1..] == [];
    assert TraceIds([s]) == {s.traceId};
    assert OfTrace([s], s.traceId) == [s];
    assert Lookup(b, s.traceId) == [s];
    assert b == map[s.traceId := [s]];
  }

  /** The buffer after exporting `main` of trace "1" to a fresh exporter. */
  lemma ExportedMain()
    ensures Export(Initial, [MainOfTrace1]) == (State(false, map["1" := [MainOfTrace1]]), Success)
  {
    FreshExport(MainOfTrace1);
  }

  /** The body of a request for trace "1" alone. */
  lemma MainBody(opts: Options, fmt: Formatter)
    requires opts.precision == None
    ensures Body([MainOfTrace1], opts, fmt) == "main;dur=" + fmt(None, 80.0)
  {
    SingleSpanBody(MainOfTrace1, opts, fmt);
    assert ToMillis(MainOfTrace1.duration) == 80.0;
  }

  /** The body of a request for trace "2" alone. */
  lemma OtherBody(opts: Options, fmt: Formatter)
    requires opts.precision == None
    ensures Body([OtherOfTrace2], opts, fmt) == "other;dur=" + fmt(None, 80.0)
  {
    SingleSpanBody(OtherOfTrace2, opts, fmt);
    assert ToMillis(OtherOfTrace2.duration) == 80.0;
  }

  /** By default a request flushes its trace: the second request is empty (test lines 226-248). */
  lemma FlushByDefault(fmt: Formatter)
    ensures var st := Export(Initial, [MainOfTrace1]).0;
            var first := GetServerTimingHeader(st, TraceId("1"), DefaultOptions, fmt);
            && first.1 == (HeaderName, "main;dur=" + fmt(None, 80.0))
            && GetServerTimingHeader(first.0, TraceId("1"), DefaultOptions, fmt).1 == (HeaderName, "")
  {
    ExportedMain();
    MainBody(DefaultOptions, fmt);
    var st := Export(Initial, [MainOfTrace1]).0;
    FlushedTraceIsGone(st, TraceId("1"), DefaultOptions, DefaultOptions, fmt);
  }

  /**
   * With `flush: false` the spans stay; the next default request sees them and
   * flushes them (test lines 250-278).
   */
  lemma NoFlushKeepsSpans(fmt: Formatter)
    ensures var st := Export(Initial, [MainOfTrace1]).0;
            var first := GetServerTimingHeader(st, TraceId("1"), DefaultOptions.(flush := false), fmt);
            var second := GetServerTimingHeader(first.0, TraceId("1"), DefaultOptions, fmt);
            && first.1 == (HeaderName, "main;dur=" + fmt(None, 80.0))
            && second.1 == first.1
            && GetServerTimingHeader(second.0, TraceId("1"), DefaultOptions, fmt).1 == (HeaderName, "")
  {
    ExportedMain();
    MainBody(DefaultOptions.(flush := false), fmt);
    MainBody(DefaultOptions, fmt);
    var st := Export(Initial, [MainOfTrace1]).0;
    var first := GetServerTimingHeader(st, TraceId("1"), DefaultOptions.(flush := false), fmt);
    FlushedTraceIsGone(first.0, TraceId("1"), DefaultOptions, DefaultOptions, fmt);
  }

  /**
   * `reset` empties the buffer and later exports still work (test lines
   * 419-458).
   */
  lemma ResetThenExportAgain(fmt: Formatter)
    ensures Export(Initial, [MainOfTrace1]).1 == Success
    ensures var cleared := Reset(Export(Initial, [MainOfTrace1]).0);
            var probe := GetServerTimingHeader(cleared, TraceId("1"), DefaultOptions, fmt);
            var again := Export(probe.0, [OtherOfTrace2]);
            && probe.1 == (HeaderName, "")
            && again.1 == Success
            && GetServerTimingHeader(again.0, TraceId("2"), DefaultOptions, fmt).1
               == (HeaderName, "other;dur=" + fmt(None, 80.0))
  {
    ExportedMain();
    var cleared := Reset(Export(Initial, [MainOfTrace1]).0);
    UnknownTraceIsEmpty(cleared, TraceId("1"), DefaultOptions, fmt);
    assert cleared == Initial;
    FreshExport(OtherOfTrace2);
    OtherBody(DefaultOptions, fmt);
  }
}
