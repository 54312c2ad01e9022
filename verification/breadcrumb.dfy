/**
 * Ancestor breadcrumbs (`_buildParentNameBreadcrumb` in
 * src/server-timing-span-exporter.ts).
 *
 * The source recurses on the first span of the list whose `spanId` equals the
 * current span's `parentSpanId`, with no depth bound: a cyclic parent chain
 * makes it recurse forever. The model walks with fuel `|spanList|` and proves
 * that this fuel reaches the same result as any walk that terminates at all.
 */
module Breadcrumbs {
  import opened SpanModel

  /** `p` is the parent `s` names. */
  predicate IsParentOf(p: Span, s: Span)
  {
    s.parentSpanId == Some(p.spanId)
  }

  /** Index of the first span of `list` that is the parent of `s`, or `|list|` when none is. */
  function ParentIndex(s: Span, list: seq<Span>): (i: nat)
    ensures i <= |list|
    ensures i < |list| ==> IsParentOf(list[i], s)
    ensures forall j :: 0 <= j < i ==> !IsParentOf(list[j], s)
  {
    if |list| == 0 then 0
    else if IsParentOf(list[0], s) then 0
    else 1 + ParentIndex(s, list[1..])
  }

  /** `spanList.find(...)`: the first span of the list that `s` names as its parent. */
  function FindParent(s: Span, list: seq<Span>): (r: Option<Span>)
    ensures r.Some? ==> IsParentOf(r.value, s)
    ensures r.Some? ==> exists i :: 0 <= i < |list| && list[i] == r.value
                                    && forall j :: 0 <= j < i ==> !IsParentOf(list[j], s)
    ensures r.None? <==> forall j :: 0 <= j < |list| ==> !IsParentOf(list[j], s)
  {
    var i := ParentIndex(s, list);
    if i < |list| then Some(list[i]) else None
  }

  /**
   * The source's recursion, cut off after `fuel` parent steps: `None` when the
   * fuel ran out before a root was reached, otherwise the names of the
   * ancestors, outermost first, each followed by `glue`.
   */
  function Walk(s: Span, list: seq<Span>, glue: string, fuel: nat): Option<string>
    decreases fuel
  {
    match FindParent(s, list)
    case None => Some("")
    case Some(p) =>
      if fuel == 0 then None
      else
        match Walk(p, list, glue, fuel - 1)
        case None => None
        case Some(b) => Some(b + p.name + glue)
  }

  /**
   * The breadcrumb prefix of `s`. For a cyclic parent chain, where the source
   * does not terminate, the model yields "".
   */
  function Breadcrumb(s: Span, list: seq<Span>, glue: string): string
  {
    match Walk(s, list, glue, |list|)
    case Some(b) => b
    case None => ""
  }

  /** The `k`-th ancestor of `s` (`s` itself for `k == 0`), if the chain is that long. */
  function Ancestor(s: Span, list: seq<Span>, k: nat): Option<Span>
    decreases k
  {
    if k == 0 then Some(s)
    else
      match FindParent(s, list)
      case None => None
      case Some(p) => Ancestor(p, list, k - 1)
  }

  /** Walking `a + b` steps is walking `a` steps and then `b` more. */
  lemma {:induction false} AncestorAdd(s: Span, list: seq<Span>, a: nat, b: nat)
    ensures Ancestor(s, list, a + b)
            == (if Ancestor(s, list, a).None? then None else Ancestor(Ancestor(s, list, a).value, list, b))
    decreases a
  {
    if a > 0 {
      match FindParent(s, list)
      case None =>
      case Some(p) =>
        AncestorAdd(p, list, a - 1, b);
        assert a + b - 1 == (a - 1) + b;
    }
  }

  /** Once the chain has ended it stays ended. */
  lemma AncestorEnded(s: Span, list: seq<Span>, k: nat, m: nat)
    requires Ancestor(s, list, k).None? && k <= m
    ensures Ancestor(s, list, m).None?
  {
    AncestorAdd(s, list, k, m - k);
  }

  /** A chain with an `m`-th ancestor has every shorter one. */
  lemma AncestorShorter(s: Span, list: seq<Span>, k: nat, m: nat)
    requires Ancestor(s, list, m).Some? && k <= m
    ensures Ancestor(s, list, k).Some?
  {
    if Ancestor(s, list, k).None? {
      AncestorEnded(s, list, k, m);
    }
  }

  /** Every proper ancestor is a member of the list. */
  lemma {:induction false} AncestorInList(s: Span, list: seq<Span>, k: nat)
    requires k >= 1 && Ancestor(s, list, k).Some?
    ensures Ancestor(s, list, k).value in list
    decreases k
  {
    var p := FindParent(s, list).value;
    if k > 1 {
      AncestorInList(p, list, k - 1);
    }
  }

  /** The walk runs out of fuel exactly when the chain has more than `fuel` ancestors. */
  lemma {:induction false} WalkExhausted(s: Span, list: seq<Span>, glue: string, fuel: nat)
    ensures Walk(s, list, glue, fuel).None? <==> Ancestor(s, list, fuel + 1).Some?
    decreases fuel
  {
    match FindParent(s, list)
    case None =>
    case Some(p) =>
      if fuel > 0 {
        WalkExhausted(p, list, glue, fuel - 1);
      }
  }

  /** More fuel does not change a walk that has already finished. */
  lemma {:induction false} WalkMonotone(s: Span, list: seq<Span>, glue: string, f: nat, g: nat)
    requires Walk(s, list, glue, f).Some? && f <= g
    ensures Walk(s, list, glue, g) == Walk(s, list, glue, f)
    decreases f
  {
    match FindParent(s, list)
    case None =>
    case Some(p) =>
      WalkMonotone(p, list, glue, f - 1, g - 1);
  }

  /** A repeated ancestor repeats forever. */
  lemma {:induction false} AncestorPeriodic(s: Span, list: seq<Span>, i: nat, period: nat, t: nat)
    requires period > 0 && Ancestor(s, list, i).Some?
    requires Ancestor(s, list, i + period) == Ancestor(s, list, i)
    ensures Ancestor(s, list, i + t * period) == Ancestor(s, list, i)
    decreases t
  {
    if t > 0 {
      AncestorPeriodic(s, list, i, period, t - 1);
      var m := i + (t - 1) * period;
      assert i + t * period == m + period;
      AncestorAdd(s, list, m, period);
      AncestorAdd(s, list, i, period);
    }
  }

  /** `t` periods of positive length cover at least `t` steps. */
  lemma {:induction false} AtLeastOnce(t: nat, period: nat)
    requires period > 0
    ensures t * period >= t
  {
    if t > 0 {
      AtLeastOnce(t - 1, period);
      assert t * period == (t - 1) * period + period;
    }
  }

  /** A chain that revisits a span never reaches a root, whatever the fuel. */
  lemma CycleNeverTerminates(s: Span, list: seq<Span>, glue: string, i: nat, j: nat, fuel: nat)
    requires i < j && Ancestor(s, list, i).Some?
    requires Ancestor(s, list, i) == Ancestor(s, list, j)
    ensures Walk(s, list, glue, fuel).None?
  {
    var t := fuel + 1;
    var period := j - i;
    AncestorAdd(s, list, i, period);
    assert i + period == j;
    AncestorPeriodic(s, list, i, period, t);
    var far := i + t * period;
    assert far >= fuel + 1 by { AtLeastOnce(t, period); }
    if Ancestor(s, list, fuel + 1).None? {
      AncestorEnded(s, list, fuel + 1, far);
    }
    WalkExhausted(s, list, glue, fuel);
  }

  /** The ancestors `1..n` of `s`, as a sequence. */
  ghost function Chain(s: Span, list: seq<Span>, n: nat): (c: seq<Span>)
    requires Ancestor(s, list, n).Some?
    ensures |c| == n
    ensures forall k :: 0 <= k < n ==> Ancestor(s, list, k + 1) == Some(c[k])
  {
    if n == 0 then []
    else
      AncestorShorter(s, list, n - 1, n);
      Chain(s, list, n - 1) + [Ancestor(s, list, n).value]
  }

  /** Pigeonhole: a sequence longer than the set its elements come from repeats an element. */
  lemma {:induction false} Pigeonhole<T>(a: seq<T>, u: set<T>)
    requires forall i :: 0 <= i < |a| ==> a[i] in u
    requires |a| > |u|
    ensures exists i, j :: 0 <= i < j < |a| && a[i] == a[j]
    decreases |a|
  {
    var last := a[|a| - 1];
    if i :| 0 <= i < |a| - 1 && a[i] == last {
      assert a[i] == a[|a| - 1];
    } else {
      var rest := a[..|a| - 1];
      assert forall i :: 0 <= i < |rest| ==> rest[i] in u - {last};
      Pigeonhole(rest, u - {last});
      var i, j :| 0 <= i < j < |rest| && rest[i] == rest[j];
      assert a[i] == a[j];
    }
  }

  /** A sequence has no more distinct elements than it has positions. */
  lemma {:induction false} ElementsBound<T>(list: seq<T>)
    ensures |set x | x in list| <= |list|
  {
    if |list| > 0 {
      ElementsBound(list[1..]);
      assert (set x | x in list) == (set x | x in list[1..]) + {list[0]};
    }
  }

  /**
   * Fuel `|list|` suffices: whenever the unbounded walk terminates (with any
   * fuel `f`), the bounded walk terminates too, with the same breadcrumb.
   */
  lemma WalkWithinList(s: Span, list: seq<Span>, glue: string, f: nat)
    requires Walk(s, list, glue, f).Some?
    ensures Walk(s, list, glue, |list|) == Walk(s, list, glue, f)
  {
    if f <= |list| {
      WalkMonotone(s, list, glue, f, |list|);
    } else {
      if Walk(s, list, glue, |list|).None? {
        var n := |list| + 1;
        WalkExhausted(s, list, glue, |list|);
        var c := Chain(s, list, n);
        forall k | 0 <= k < |c|
          ensures c[k] in (set x | x in list)
        {
          assert Ancestor(s, list, k + 1) == Some(c[k]);
          AncestorInList(s, list, k + 1);
        }
        ElementsBound(list);
        Pigeonhole(c, set x | x in list);
        var i, j :| 0 <= i < j < |c| && c[i] == c[j];
        CycleNeverTerminates(s, list, glue, i + 1, j + 1, f);
        assert false;
      }
      WalkMonotone(s, list, glue, |list|, f);
    }
  }

  /** The breadcrumb is the result of the unbounded walk whenever that walk terminates. */
  lemma BreadcrumbIsUnboundedWalk(s: Span, list: seq<Span>, glue: string, f: nat)
    requires Walk(s, list, glue, f).Some?
    ensures Breadcrumb(s, list, glue) == Walk(s, list, glue, f).value
  {
    WalkWithinList(s, list, glue, f);
  }

  /** A span none of the list names as its parent is a root: its prefix is empty. */
  lemma BreadcrumbOfRoot(s: Span, list: seq<Span>, glue: string)
    requires forall j :: 0 <= j < |list| ==> !IsParentOf(list[j], s)
    ensures Breadcrumb(s, list, glue) == ""
  {
  }

  /**
   * With a terminating chain, the prefix of `s` is the prefix of its first
   * matching parent `p`, then `p`'s name, then the glue: ancestors appear
   * outermost first.
   */
  lemma BreadcrumbOfChild(s: Span, list: seq<Span>, glue: string, p: Span, f: nat)
    requires FindParent(s, list) == Some(p)
    requires Walk(s, list, glue, f).Some?
    ensures Breadcrumb(s, list, glue) == Breadcrumb(p, list, glue) + p.name + glue
  {
    BreadcrumbIsUnboundedWalk(s, list, glue, f);
    BreadcrumbIsUnboundedWalk(p, list, glue, f - 1);
  }

  /**
   * A span that is its own parent makes the source recurse forever: no fuel
   * reaches a root. (The model's breadcrumb for it is "".)
   */
  lemma SelfParentDiverges(s: Span, glue: string, fuel: nat)
    requires s.parentSpanId == Some(s.spanId)
    ensures Walk(s, [s], glue, fuel).None?
    ensures Breadcrumb(s, [s], glue) == ""
  {
    assert FindParent(s, [s]) == Some(s);
    assert Ancestor(s, [s], 1) == Ancestor(s, [s], 0);
    CycleNeverTerminates(s, [s], glue, 0, 1, fuel);
    CycleNeverTerminates(s, [s], glue, 0, 1, 1);
  }
}
