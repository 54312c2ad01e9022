/**
 * Rendering of header entries and the comma join
 * (the `map` and `join(',')` of `getServerTimingHeader` in
 * src/server-timing-span-exporter.ts). Names are emitted verbatim: nothing is
 * escaped or checked against the token grammar of the Server-Timing header.
 */
module Render {
  import opened SpanModel
  import opened Entries

  const DurationMarker: string := ";dur="
  const EntrySeparator: char := ','

  /** `name` for an entry without a duration, otherwise `name;dur=<formatted ms>`. */
  function RenderEntry(e: Entry, fmt: Formatter, precision: Option<int>): string
  {
    match e.duration
    case None => e.name
    case Some(d) => e.name + DurationMarker + fmt(precision, d)
  }

  /** Every entry rendered, in order. */
  function RenderAll(es: seq<Entry>, fmt: Formatter, precision: Option<int>): (r: seq<string>)
    ensures |r| == |es|
    ensures forall i :: 0 <= i < |es| ==> r[i] == RenderEntry(es[i], fmt, precision)
  {
    if |es| == 0 then [] else [RenderEntry(es[0], fmt, precision)] + RenderAll(es[1..], fmt, precision)
  }

  /** `Array.prototype.join`: the parts with `sep` between neighbours. */
  function Join(parts: seq<string>, sep: char): (r: string)
    ensures r == "" <==> |parts| == 0 || (|parts| == 1 && parts[0] == "")
    ensures |parts| >= 2 ==> sep in r
  {
    if |parts| == 0 then ""
    else if |parts| == 1 then parts[0]
    else
      var rest := Join(parts[1..], sep);
      assert (parts[0] + [sep] + rest)[|parts[0]|] == sep;
      parts[0] + [sep] + rest
  }

  /** A join with a non-empty part is non-empty. */
  lemma JoinNonEmpty(parts: seq<string>, sep: char, i: nat)
    requires i < |parts| && parts[i] != ""
    ensures Join(parts, sep) != ""
  {
  }

  /** Position of the first `c` in `s`, or `|s|` when there is none. */
  function IndexOf(s: string, c: char): (i: nat)
    ensures i <= |s|
    ensures i < |s| ==> s[i] == c
    ensures forall j :: 0 <= j < i ==> s[j] != c
  {
    if |s| == 0 then 0
    else if s[0] == c then 0
    else 1 + IndexOf(s[1..], c)
  }

  /** `String.prototype.split` on one character: the inverse of `Join` on separator-free parts. */
  function Split(s: string, sep: char): (r: seq<string>)
    ensures |r| >= 1
    ensures forall i :: 0 <= i < |r| ==> sep !in r[i]
    decreases |s|
  {
    var i := IndexOf(s, sep);
    if i == |s| then [s]
    else [s[..i]] + Split(s[i + 1..], sep)
  }

  /** A string without the separator splits into itself alone. */
  lemma SplitLast(p: string, sep: char)
    requires sep !in p
    ensures Split(p, sep) == [p]
  {
    assert IndexOf(p, sep) == |p|;
  }

  /** Splitting cuts at the first separator. */
  lemma SplitFirst(p: string, sep: char, rest: string)
    requires sep !in p
    ensures Split(p + [sep] + rest, sep) == [p] + Split(rest, sep)
  {
    var s := p + [sep] + rest;
    assert s[|p|] == sep;
    assert forall j :: 0 <= j < |p| ==> s[j] == p[j];
    assert IndexOf(s, sep) == |p|;
    assert s[..|p|] == p;
    assert s[|p| + 1..] == rest;
  }

  /**
   * Splitting the joined parts at the separator gives the parts back, provided
   * no part contains the separator.
   */
  lemma {:induction false} SplitJoin(parts: seq<string>, sep: char)
    requires |parts| >= 1
    requires forall i :: 0 <= i < |parts| ==> sep !in parts[i]
    ensures Split(Join(parts, sep), sep) == parts
  {
    var p := parts[0];
    if |parts| == 1 {
      SplitLast(p, sep);
    } else {
      SplitJoin(parts[1..], sep);
      SplitFirst(p, sep, Join(parts[1..], sep));
      assert parts == [p] + parts[1..];
    }
  }

  /**
   * Names are not escaped: an entry named `a,b` renders exactly like the two
   * entries `a` and `b`, so the header cannot tell them apart.
   */
  lemma NamesAreNotEscaped(fmt: Formatter, precision: Option<int>)
    ensures Join(RenderAll([Entry(0, "a,b", None)], fmt, precision), EntrySeparator)
         == Join(RenderAll([Entry(0, "a", None), Entry(0, "b", None)], fmt, precision), EntrySeparator)
  {
    assert RenderAll([Entry(0, "a,b", None)], fmt, precision) == ["a,b"];
    assert RenderAll([Entry(0, "a", None), Entry(0, "b", None)], fmt, precision) == ["a", "b"];
    assert Join(["b"], EntrySeparator) == "b";
  }
}
