/**
 * The span buffer of `ServerTimingSpanExporter`
 * (src/server-timing-span-exporter.ts): a stopped flag and a map from trace id
 * to the spans received for that trace, with pure transition functions for
 * `export`, `shutdown`, `reset` and `getServerTimingHeader`.
 */
module SpanBuffer {
  import opened SpanModel
  import opened HeaderBuilder

  datatype State = State(stopped: bool, buckets: map<string, seq<Span>>)

  /** A fresh exporter: running, with no buffered spans. */
  const Initial: State := State(false, map[])

  /** The outcome reported to `export`'s result callback. */
  datatype ExportResult = Success | Failed(error: string)

  const StoppedError: string := "Exporter has been stopped"

  /** The argument of `getServerTimingHeader`: a trace id, or a span whose context names one. */
  datatype Target = TraceId(id: string) | SpanHandle(traceId: string, spanId: string)

  /** The trace id the request refers to. */
  function ResolveTraceId(target: Target): string
  {
    match target
    case TraceId(id) => id
    case SpanHandle(traceId, _) => traceId
  }

  /** `_finishedSpans.get(traceId) ?? []`. */
  function Lookup(buckets: map<string, seq<Span>>, traceId: string): seq<Span>
  {
    if traceId in buckets then buckets[traceId] else []
  }

  /** The spans of `spans` that belong to trace `traceId`, in order. */
  function OfTrace(spans: seq<Span>, traceId: string): seq<Span>
  {
    if |spans| == 0 then []
    else (if spans[0].traceId == traceId then [spans[0]] else []) + OfTrace(spans[1..], traceId)
  }

  /** The trace ids a batch mentions. */
  function TraceIds(spans: seq<Span>): set<string>
  {
    set s | s in spans :: s.traceId
  }

  /** A trace the batch does not mention gets no spans from it. */
  lemma {:induction false} OfTraceAbsent(spans: seq<Span>, traceId: string)
    requires traceId !in TraceIds(spans)
    ensures OfTrace(spans, traceId) == []
  {
    if |spans| > 0 {
      assert spans[0] in spans;
      assert TraceIds(spans[1..]) <= TraceIds(spans);
      OfTraceAbsent(spans[1..], traceId);
    }
  }

  /** The body of `export`'s loop: push one span onto its trace's list. */
  function AppendSpan(buckets: map<string, seq<Span>>, s: Span): map<string, seq<Span>>
  {
    buckets[s.traceId := Lookup(buckets, s.traceId) + [s]]
  }

  /** `export`'s loop over the batch, one span at a time. */
  function AppendAll(buckets: map<string, seq<Span>>, spans: seq<Span>): map<string, seq<Span>>
    decreases |spans|
  {
    if |spans| == 0 then buckets
    else AppendAll(AppendSpan(buckets, spans[0]), spans[1..])
  }

  /** Each trace's list grows by exactly that trace's spans of the batch, in batch order. */
  lemma {:induction false} AppendAllLookup(buckets: map<string, seq<Span>>, spans: seq<Span>, t: string)
    ensures Lookup(AppendAll(buckets, spans), t) == Lookup(buckets, t) + OfTrace(spans, t)
    decreases |spans|
  {
    if |spans| > 0 {
      var s := spans[0];
      var mine := if s.traceId == t then [s] else [];
      AppendAllLookup(AppendSpan(buckets, s), spans[1..], t);
      assert Lookup(AppendSpan(buckets, s), t) == Lookup(buckets, t) + mine;
      assert OfTrace(spans, t) == mine + OfTrace(spans[1..], t);
      calc {
        Lookup(AppendAll(buckets, spans), t);
        Lookup(AppendAll(AppendSpan(buckets, s), spans[1..]), t);
        Lookup(AppendSpan(buckets, s), t) + OfTrace(spans[1..], t);
        (Lookup(buckets, t) + mine) + OfTrace(spans[1..], t);
        Lookup(buckets, t) + (mine + OfTrace(spans[1..], t));
      }
    }
  }

  /** The loop creates a list for every trace of the batch and for no other. */
  lemma {:induction false} AppendAllKeys(buckets: map<string, seq<Span>>, spans: seq<Span>)
    ensures AppendAll(buckets, spans).Keys == buckets.Keys + TraceIds(spans)
    decreases |spans|
  {
    if |spans| > 0 {
      var rest := spans[1..];
      AppendAllKeys(AppendSpan(buckets, spans[0]), rest);
      assert spans == [spans[0]] + rest;
      assert TraceIds(spans) == {spans[0].traceId} + TraceIds(rest);
    }
  }

  /** The loop's effect on every trace at once. */
  lemma AppendAllEffect(buckets: map<string, seq<Span>>, spans: seq<Span>)
    ensures forall t :: Lookup(AppendAll(buckets, spans), t) == Lookup(buckets, t) + OfTrace(spans, t)
    ensures AppendAll(buckets, spans).Keys == buckets.Keys + TraceIds(spans)
  {
    forall t
      ensures Lookup(AppendAll(buckets, spans), t) == Lookup(buckets, t) + OfTrace(spans, t)
    {
      AppendAllLookup(buckets, spans, t);
    }
    AppendAllKeys(buckets, spans);
  }

  /**
   * `export`: rejects the whole batch, changing nothing, once stopped;
   * otherwise routes every span to its trace's list and succeeds.
   */
  function Export(st: State, spans: seq<Span>): (r: (State, ExportResult))
    ensures st.stopped ==> r.0 == st && r.1 == Failed(StoppedError)
    ensures !st.stopped ==> r.1 == Success && !r.0.stopped
    ensures !st.stopped ==> forall t :: Lookup(r.0.buckets, t) == Lookup(st.buckets, t) + OfTrace(spans, t)
    ensures !st.stopped ==> r.0.buckets.Keys == st.buckets.Keys + TraceIds(spans)
  {
    AppendAllEffect(st.buckets, spans);
    if st.stopped then (st, Failed(StoppedError))
    else (State(false, AppendAll(st.buckets, spans)), Success)
  }

  /** `shutdown`: stops the exporter and drops every buffered span. */
  function Shutdown(st: State): (r: State)
    ensures r.stopped
    ensures forall t :: Lookup(r.buckets, t) == []
  {
    State(true, map[])
  }

  /** `reset`: drops every buffered span and keeps the stopped flag. */
  function Reset(st: State): (r: State)
    ensures r.stopped == st.stopped
    ensures forall t :: Lookup(r.buckets, t) == []
  {
    State(st.stopped, map[])
  }

  /**
   * `getServerTimingHeader`: builds the header from the target trace's list
   * (empty if there is none) and, with `flush`, forgets that trace alone.
   */
  function GetServerTimingHeader(st: State, target: Target, opts: Options, fmt: Formatter): (r: (State, (string, string)))
    ensures r.1.0 == HeaderName
    ensures r.1.1 == Body(Lookup(st.buckets, ResolveTraceId(target)), opts, fmt)
    ensures r.0.stopped == st.stopped
    ensures opts.flush ==> r.0.buckets == st.buckets - {ResolveTraceId(target)}
    ensures !opts.flush ==> r.0 == st
  {
    var traceId := ResolveTraceId(target);
    var spanList := Lookup(st.buckets, traceId);
    var next := if opts.flush then State(st.stopped, st.buckets - {traceId}) else st;
    (next, Header(spanList, opts, fmt))
  }

  /** Buckets exist only for traces that have at least one buffered span. */
  ghost predicate NoEmptyBuckets(st: State)
  {
    forall t :: t in st.buckets ==> |st.buckets[t]| > 0
  }

  /** Every operation keeps buckets non-empty. */
  lemma OperationsKeepBucketsNonEmpty(st: State, spans: seq<Span>, target: Target, opts: Options, fmt: Formatter)
    requires NoEmptyBuckets(st)
    ensures NoEmptyBuckets(Export(st, spans).0)
    ensures NoEmptyBuckets(Shutdown(st))
    ensures NoEmptyBuckets(Reset(st))
    ensures NoEmptyBuckets(GetServerTimingHeader(st, target, opts, fmt).0)
  {
    var next := Export(st, spans).0;
    forall t | t in next.buckets
      ensures |next.buckets[t]| > 0
    {
      if !st.stopped && t !in st.buckets {
        assert t in TraceIds(spans);
        var s :| s in spans && s.traceId == t;
        var i :| 0 <= i < |spans| && spans[i] == s;
        OfTraceHas(spans, t, i);
        assert Lookup(next.buckets, t) == Lookup(st.buckets, t) + OfTrace(spans, t);
      } else if !st.stopped {
        assert Lookup(next.buckets, t) == Lookup(st.buckets, t) + OfTrace(spans, t);
      }
    }
  }

  /** A batch span of trace `t` lands in `t`'s share of the batch. */
  lemma {:induction false} OfTraceHas(spans: seq<Span>, t: string, i: nat)
    requires i < |spans| && spans[i].traceId == t
    ensures spans[i] in OfTrace(spans, t)
  {
    if i > 0 {
      OfTraceHas(spans[1..], t, i - 1);
    }
  }

  /** Once shut down, every export is rejected and changes nothing. */
  lemma ExportAfterShutdownFails(st: State, spans: seq<Span>)
    ensures Export(Shutdown(st), spans) == (Shutdown(st), Failed(StoppedError))
  {
  }

  /** An unknown trace yields an empty body, and the request leaves the state as it was, flush or not. */
  lemma UnknownTraceIsEmpty(st: State, target: Target, opts: Options, fmt: Formatter)
    requires ResolveTraceId(target) !in st.buckets
    ensures GetServerTimingHeader(st, target, opts, fmt) == (st, (HeaderName, ""))
  {
    assert st.buckets - {ResolveTraceId(target)} == st.buckets;
  }

  /** With `flush`, an immediate second request for the same trace yields an empty body. */
  lemma FlushedTraceIsGone(st: State, target: Target, opts: Options, opts2: Options, fmt: Formatter)
    requires opts.flush
    ensures var next := GetServerTimingHeader(st, target, opts, fmt).0;
            GetServerTimingHeader(next, target, opts2, fmt).1 == (HeaderName, "")
  {
    var next := GetServerTimingHeader(st, target, opts, fmt).0;
    UnknownTraceIsEmpty(next, target, opts2, fmt);
  }

  /** With `flush` off, a second request reproduces the first header exactly. */
  lemma UnflushedRequestRepeats(st: State, target: Target, opts: Options, fmt: Formatter)
    requires !opts.flush
    ensures var first := GetServerTimingHeader(st, target, opts, fmt);
            GetServerTimingHeader(first.0, target, opts, fmt) == first
  {
  }

  /** A span handle and its trace id address the same bucket. */
  lemma HandleAndIdAgree(st: State, traceId: string, spanId: string, opts: Options, fmt: Formatter)
    ensures GetServerTimingHeader(st, SpanHandle(traceId, spanId), opts, fmt)
         == GetServerTimingHeader(st, TraceId(traceId), opts, fmt)
  {
  }

  /** A trace that no batch mentioned renders an empty body. */
  lemma NeverIngestedIsEmpty(spans: seq<Span>, traceId: string, opts: Options, fmt: Formatter)
    requires traceId !in TraceIds(spans)
    ensures GetServerTimingHeader(Export(Initial, spans).0, TraceId(traceId), opts, fmt).1 == (HeaderName, "")
  {
    var next := Export(Initial, spans).0;
    assert traceId !in next.buckets;
  }

  /**
   * After `reset` on a running exporter, a new batch is accepted and each trace
   * renders exactly that trace's spans of the batch.
   */
  lemma ExportAfterReset(st: State, spans: seq<Span>, traceId: string, opts: Options, fmt: Formatter)
    requires !st.stopped
    ensures Export(Reset(st), spans).1 == Success
    ensures GetServerTimingHeader(Export(Reset(st), spans).0, TraceId(traceId), opts, fmt).1
         == (HeaderName, Body(OfTrace(spans, traceId), opts, fmt))
  {
    var next := Export(Reset(st), spans).0;
    assert Lookup(next.buckets, traceId) == [] + OfTrace(spans, traceId);
    assert [] + OfTrace(spans, traceId) == OfTrace(spans, traceId);
  }
}
