/**
 * The shapes the exporter reads (src/types.ts): spans, their events and the
 * per-call header options. Only the fields the exporter consumes are kept.
 */
module SpanModel {
  import opened TimeConversion

  datatype Option<+T> = None | Some(value: T)

  /** An instantaneous marker inside a span; it carries no duration. */
  datatype Event = Event(name: string, time: HrTime)

  /**
   * A finished span. `traceId` and `spanId` come from its span context;
   * `parentSpanId` is absent for a root span.
   */
  datatype Span = Span(
    name: string,
    duration: HrTime,
    endTime: HrTime,
    events: seq<Event>,
    traceId: string,
    spanId: string,
    parentSpanId: Option<string>)

  /**
   * Options of one header request. `precision` is handed to the duration
   * formatter unchanged; the unused `includeRootParentName` has no field.
   */
  datatype Options = Options(
    includeEvents: bool,
    includeParentName: bool,
    parentNameGlue: string,
    flush: bool,
    precision: Option<int>)

  /** The defaults of `getServerTimingHeader`. */
  const DefaultOptions: Options := Options(true, true, ">", true, None)

  /**
   * Renders a duration in milliseconds under an optional precision. The source
   * uses double-precision `toFixed` and number-to-string conversion, which
   * this model does not interpret, so the formatter is a parameter.
   */
  type Formatter = (Option<int>, real) -> string
}
