/**
 * The header builder: the pipeline of `getServerTimingHeader` in
 * src/server-timing-span-exporter.ts from a trace's span list to the
 * `Server-Timing` value. Breadcrumbs, then expansion, then a stable sort by
 * nanosecond key, then rendering and the comma join.
 */
module HeaderBuilder {
  import opened TimeConversion
  import opened SpanModel
  import opened Breadcrumbs
  import opened Entries
  import opened EntrySort
  import opened Render

  const HeaderName: string := "Server-Timing"

  /** The expanded entries in header order: sorted by key, stable, nothing gained or lost. */
  function OrderedEntries(list: seq<Span>, opts: Options): (r: seq<Entry>)
    ensures |r| == |list| + (if opts.includeEvents then EventCount(list) else 0)
  {
    SortByKey(Expand(list, list, opts))
  }

  /**
   * The header order is the stable sort of the expansion: sorted by key,
   * nothing gained or lost, and entries of equal key in expansion order.
   */
  lemma OrderedEntriesAreStablySorted(list: seq<Span>, opts: Options)
    ensures Sorted(OrderedEntries(list, opts))
    ensures multiset(OrderedEntries(list, opts)) == multiset(Expand(list, list, opts))
    ensures forall k :: WithKey(OrderedEntries(list, opts), k) == WithKey(Expand(list, list, opts), k)
  {
    var expanded := Expand(list, list, opts);
    SortStableAllKeys(expanded);
    SortSortsAndPermutes(expanded);
  }

  /** A span's own entry survives the sort. */
  lemma SpanEntryOrdered(list: seq<Span>, opts: Options, j: nat)
    requires j < |list|
    ensures SpanEntry(list[j], Prefix(list[j], list, opts)) in OrderedEntries(list, opts)
  {
    var entry := SpanEntry(list[j], Prefix(list[j], list, opts));
    SpanEntryPresent(list, list, opts, j);
    OrderedEntriesAreStablySorted(list, opts);
    assert entry in multiset(Expand(list, list, opts));
    assert entry in multiset(OrderedEntries(list, opts));
  }

  /** A list renders to an empty body exactly when it is empty: every span entry shows `;dur=`. */
  lemma RenderedEmptyIff(list: seq<Span>, opts: Options, fmt: Formatter)
    ensures Join(RenderAll(OrderedEntries(list, opts), fmt, opts.precision), EntrySeparator) == ""
            <==> |list| == 0
  {
    if |list| == 0 {
      return;
    }
    var es := OrderedEntries(list, opts);
    SpanEntryOrdered(list, opts, 0);
    var i :| 0 <= i < |es| && es[i] == SpanEntry(list[0], Prefix(list[0], list, opts));
    var parts := RenderAll(es, fmt, opts.precision);
    assert parts[i] == RenderEntry(es[i], fmt, opts.precision);
    assert es[i].duration.Some?;
    assert |parts[i]| >= |DurationMarker|;
    JoinNonEmpty(parts, EntrySeparator, i);
  }

  /** The header value. It is empty exactly when the span list is. */
  function Body(list: seq<Span>, opts: Options, fmt: Formatter): (r: string)
    ensures r == "" <==> |list| == 0
  {
    RenderedEmptyIff(list, opts, fmt);
    Join(RenderAll(OrderedEntries(list, opts), fmt, opts.precision), EntrySeparator)
  }

  /** The header as the source returns it: the literal name and the value. */
  function Header(list: seq<Span>, opts: Options, fmt: Formatter): (r: (string, string))
    ensures r.0 == HeaderName
    ensures r.1 == "" <==> |list| == 0
  {
    (HeaderName, Body(list, opts, fmt))
  }

  /** No span name, event name, glue or formatted duration of the request contains a comma. */
  ghost predicate CommaFree(list: seq<Span>, opts: Options, fmt: Formatter)
  {
    && EntrySeparator !in opts.parentNameGlue
    && (forall d: real :: EntrySeparator !in fmt(opts.precision, d))
    && (forall s :: s in list ==> EntrySeparator !in s.name)
    && (forall s, e :: s in list && e in s.events ==> EntrySeparator !in e.name)
  }

  /** Concatenating comma-free strings gives a comma-free string. */
  lemma CommaFreeConcat(a: string, b: string)
    requires EntrySeparator !in a && EntrySeparator !in b
    ensures EntrySeparator !in a + b
  {
  }

  /** A breadcrumb built from comma-free names and glue is comma-free. */
  lemma {:induction false} WalkCommaFree(s: Span, list: seq<Span>, opts: Options, fmt: Formatter, fuel: nat)
    requires CommaFree(list, opts, fmt)
    requires Walk(s, list, opts.parentNameGlue, fuel).Some?
    ensures EntrySeparator !in Walk(s, list, opts.parentNameGlue, fuel).value
    decreases fuel
  {
    match FindParent(s, list)
    case None =>
    case Some(p) =>
      var glue := opts.parentNameGlue;
      WalkCommaFree(p, list, opts, fmt, fuel - 1);
      var b := Walk(p, list, glue, fuel - 1).value;
      CommaFreeConcat(b, p.name);
      CommaFreeConcat(b + p.name, glue);
  }

  /** Every prefix is comma-free. */
  lemma PrefixCommaFree(s: Span, list: seq<Span>, opts: Options, fmt: Formatter)
    requires CommaFree(list, opts, fmt)
    ensures EntrySeparator !in Prefix(s, list, opts)
  {
    if opts.includeParentName && Walk(s, list, opts.parentNameGlue, |list|).Some? {
      WalkCommaFree(s, list, opts, fmt, |list|);
    }
  }

  /** Every expanded entry of a comma-free request has a comma-free name. */
  lemma {:induction false} ExpandCommaFree(spans: seq<Span>, list: seq<Span>, opts: Options, fmt: Formatter, x: Entry)
    requires CommaFree(list, opts, fmt)
    requires forall i :: 0 <= i < |spans| ==> spans[i] in list
    requires x in Expand(spans, list, opts)
    ensures EntrySeparator !in x.name
  {
    var s := spans[0];
    var prefix := Prefix(s, list, opts);
    var info := ExportInfo(s, opts.includeEvents, prefix);
    if x in info {
      PrefixCommaFree(s, list, opts, fmt);
      var i :| 0 <= i < |info| && info[i] == x;
      if i == |info| - 1 {
        CommaFreeConcat(prefix, s.name);
      } else {
        assert s.events[i] in s.events;
        CommaFreeConcat(prefix, s.events[i].name);
      }
    } else {
      ExpandCommaFree(spans[1..], list, opts, fmt, x);
    }
  }

  /** Sorting invents no entry. */
  lemma OrderedFromExpanded(list: seq<Span>, opts: Options, e: Entry)
    requires e in OrderedEntries(list, opts)
    ensures e in Expand(list, list, opts)
  {
    var r := OrderedEntries(list, opts);
    OrderedEntriesAreStablySorted(list, opts);
    assert multiset(r)[e] > 0;
  }

  /** Every rendered entry of a comma-free request is comma-free. */
  lemma RenderedCommaFree(list: seq<Span>, opts: Options, fmt: Formatter, e: Entry)
    requires CommaFree(list, opts, fmt)
    requires e in OrderedEntries(list, opts)
    ensures EntrySeparator !in RenderEntry(e, fmt, opts.precision)
  {
    OrderedFromExpanded(list, opts, e);
    ExpandCommaFree(list, list, opts, fmt, e);
    if e.duration.Some? {
      var d := e.duration.value;
      assert EntrySeparator !in fmt(opts.precision, d);
      CommaFreeConcat(e.name, DurationMarker);
      CommaFreeConcat(e.name + DurationMarker, fmt(opts.precision, d));
    }
  }

  /**
   * When nothing in the request contains a comma, the body splits at its
   * commas into exactly the rendered entries, in header order.
   */
  lemma BodySplitsIntoEntries(list: seq<Span>, opts: Options, fmt: Formatter)
    requires |list| > 0
    requires CommaFree(list, opts, fmt)
    ensures Split(Body(list, opts, fmt), EntrySeparator) == RenderAll(OrderedEntries(list, opts), fmt, opts.precision)
  {
    var es := OrderedEntries(list, opts);
    var parts := RenderAll(es, fmt, opts.precision);
    forall i | 0 <= i < |parts|
      ensures EntrySeparator !in parts[i]
    {
      RenderedCommaFree(list, opts, fmt, es[i]);
    }
    SplitJoin(parts, EntrySeparator);
  }

  /** A lone root span without (included) events has its own entry alone. */
  lemma SingleSpanEntries(s: Span, opts: Options)
    requires !IsParentOf(s, s)
    requires |s.events| == 0 || !opts.includeEvents
    ensures OrderedEntries([s], opts) == [SpanEntry(s, "")]
  {
    BreadcrumbOfRoot(s, [s], opts.parentNameGlue);
    assert Prefix(s, [s], opts) == "";
    ExpandSingle(s, [s], opts);
    var e := SpanEntry(s, "");
    assert Expand([s], [s], opts) == [e];
    SortKeepsSorted([e]);
  }

  /**
   * A lone span without events (or with events switched off) is its own root
   * and renders as `name;dur=<formatted ms>`.
   */
  lemma SingleSpanBody(s: Span, opts: Options, fmt: Formatter)
    requires !IsParentOf(s, s)
    requires |s.events| == 0 || !opts.includeEvents
    ensures Body([s], opts, fmt) == s.name + DurationMarker + fmt(opts.precision, ToMillis(s.duration))
  {
    var e := SpanEntry(s, "");
    SingleSpanEntries(s, opts);
    assert RenderAll([e], fmt, opts.precision) == [RenderEntry(e, fmt, opts.precision)];
    assert "" + s.name == s.name;
  }
}
