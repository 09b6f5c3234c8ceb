/** Counters and gauges: how values are accumulated, merged and turned into deltas.

    Floating-point values are modelled as reals.
 */
module Counters {
  import opened Basics

  datatype CounterType =
    | Counter(ts: nat, value: real)
    | Gauge(min: real, max: real, hits: real, total: real)
  {
    predicate SameType(other: CounterType) {
      Counter? <==> other.Counter?
    }

    predicate HasData() {
      match this
      case Counter(_, v) => v != 0.0
      case Gauge(_, _, h, _) => h != 0.0
    }

    /** `CounterType::merge`: refused between a counter and a gauge */
    function Merge(other: CounterType): Option<CounterType> {
      match (this, other)
      case (Counter(sts, sv), Counter(ots, ov)) => Some(Counter((ots + sts) / 2, sv + ov))
      case (Gauge(smin, smax, sh, st), Gauge(omin, omax, oh, ot)) =>
        Some(Gauge(Min(smin, omin), Max(smax, omax), sh + oh, st + ot))
      case _ => None
    }

    /** `CounterType::set`: a counter accumulates, a gauge is overwritten by one sample */
    function Set(other: CounterType): Option<CounterType> {
      match (this, other)
      case (Counter(sts, sv), Counter(ots, ov)) => Some(Counter((ots + sts) / 2, sv + ov))
      case (Gauge(_, _, _, _), Gauge(_, _, _, ot)) => Some(Gauge(ot, ot, 1.0, ot))
      case _ => None
    }

    /** `CounterType::delta` */
    function Delta(other: CounterType): Option<CounterType> {
      match (this, other)
      case (Counter(sts, sv), Counter(ots, ov)) => Some(Counter(if sts > ots then sts - ots else sts, sv - ov))
      case (Gauge(smin, smax, sh, st), Gauge(omin, omax, oh, ot)) =>
        Some(Gauge(Min(smin, omin), Max(smax, omax), sh - oh, st - ot))
      case _ => None
    }

    /** The additive part of a value: what the conservation laws are about.  Times, minima and maxima are not
        conserved. */
    function Amount(): (real, real) {
      match this
      case Counter(_, v) => (v, 0.0)
      case Gauge(_, _, h, t) => (h, t)
    }
  }

  function Min(a: real, b: real): real { if a < b then a else b }

  function Max(a: real, b: real): real { if a < b then b else a }

  function Plus(a: (real, real), b: (real, real)): (real, real) { (a.0 + b.0, a.1 + b.1) }

  function Minus(a: (real, real), b: (real, real)): (real, real) { (a.0 - b.0, a.1 - b.1) }

  const ZERO := (0.0, 0.0)

  datatype CounterSnapshot = CounterSnapshot(name: string, doc: string, ctype: CounterType)

  datatype JobDesc = JobDesc(
    jobid: string, command: string, size: int, nodelist: string, partition: string, cluster: string,
    runDir: string, startTime: nat, endTime: nat)

  datatype JobProfile = JobProfile(desc: JobDesc, counters: seq<CounterSnapshot>)

  /** Merging a delta back into what it was taken from restores the amount. */
  lemma DeltaThenMerge(cur: CounterType, prev: CounterType)
    requires cur.SameType(prev)
    ensures cur.Delta(prev).Some? && prev.Merge(cur.Delta(prev).value).Some?
    ensures prev.Merge(cur.Delta(prev).value).value.Amount() == cur.Amount()
    ensures prev.Merge(cur.Delta(prev).value).value.SameType(cur)
  {
  }

  /** The smallest range that holds both of two ranges */
  ghost predicate IsHull(r: CounterType, a: CounterType, b: CounterType)
    requires a.Gauge? && b.Gauge?
  {
    && r.Gauge?
    && r.min <= a.min && r.min <= b.min && (r.min == a.min || r.min == b.min)
    && r.max >= a.max && r.max >= b.max && (r.max == a.max || r.max == b.max)
  }

  /** A merge and a delta both keep the smallest range that holds the two; a local sample leaves itself alone. */
  lemma RangesAreHulls(a: CounterType, b: CounterType)
    requires a.Gauge? && b.Gauge?
    ensures a.Merge(b).Some? && IsHull(a.Merge(b).value, a, b)
    ensures a.Delta(b).Some? && IsHull(a.Delta(b).value, a, b)
    ensures a.Set(b).Some? && a.Set(b).value.min == a.Set(b).value.max == a.Set(b).value.total == b.total
  {
  }

  /** A merged or added counter has the time in the middle of the two, rounded down; a delta has the time elapsed, or
      the newer time if that is not later. */
  lemma CounterTimes(a: CounterType, b: CounterType)
    requires a.Counter? && b.Counter?
    ensures a.Merge(b).Some? && 2 * a.Merge(b).value.ts <= a.ts + b.ts <= 2 * a.Merge(b).value.ts + 1
    ensures a.Set(b).Some? && 2 * a.Set(b).value.ts <= a.ts + b.ts <= 2 * a.Set(b).value.ts + 1
    ensures a.Delta(b).Some?
    ensures if a.ts > b.ts then b.ts + a.Delta(b).value.ts == a.ts else a.Delta(b).value.ts == a.ts
  {
  }

  /** A value without data is one that adds no value and no hits to what it is merged into: leaving it out of a profile
      changes neither. */
  lemma NoDataAddsNothing(x: CounterType, y: CounterType)
    requires x.SameType(y)
    ensures y.Merge(x).Some? && (!x.HasData() <==> y.Merge(x).value.Amount().0 == y.Amount().0)
  {
  }
}
