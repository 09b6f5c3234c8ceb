/** The frames of a trace, and how folding halves them.

    `FoldFrames` is what `TraceState::fold` keeps.  The main result is that a stored counter frame always
    summarises a block of the samples that were pushed.
 */
module TraceFrames {
  import opened Basics
  import opened Counters

  datatype TraceCounter = TraceCounter(id: nat, value: CounterType)
  datatype Metadata = Metadata(id: nat, name: string, doc: string)
  datatype TraceFrame =
    | Desc(ts: real, desc: JobDesc)
    | CounterMetadata(ts: real, metadata: Metadata)
    | Counters(ts: real, counters: seq<TraceCounter>)

  // ----- merging two counter frames -----

  /** `iter().map(|v| (v.id, v)).collect::<HashMap>()` then `get`: the last entry with the id */
  function Lookup(cs: seq<TraceCounter>, id: nat): (r: Option<CounterType>)
    ensures r.Some? <==> exists i :: 0 <= i < |cs| && cs[i].id == id
    ensures r.Some? ==> exists i :: 0 <= i < |cs| && cs[i] == TraceCounter(id, r.value)
  {
    if cs == [] then None
    else if cs[|cs| - 1].id == id then
      assert cs[|cs| - 1] == TraceCounter(id, cs[|cs| - 1].value);
      Some(cs[|cs| - 1].value)
    else
      var front := cs[..|cs| - 1];
      assert forall i :: 0 <= i < |front| ==> cs[i] == front[i];
      Lookup(front, id)
  }

  /** A counter keeps the later value; a gauge keeps the envelope and the sums. */
  function MergeValue(prev: CounterType, cur: CounterType): CounterType
    requires prev.SameType(cur)
  {
    match cur
    case Counter(_, _) => cur
    case Gauge(min, max, hits, total) =>
      Gauge(Min(min, prev.min), Max(max, prev.max), hits + prev.hits, total + prev.total)
  }

  /** Entries with the same id are of the same kind: otherwise the original panics. */
  ghost predicate Compatible(first: seq<TraceCounter>, second: seq<TraceCounter>) {
    forall i, j :: 0 <= i < |first| && 0 <= j < |second| && first[i].id == second[j].id ==>
      first[i].value.SameType(second[j].value)
  }

  function MergeOne(first: seq<TraceCounter>, v: TraceCounter): TraceCounter
    requires Compatible(first, [v])
  {
    match Lookup(first, v.id)
    case None => v
    case Some(prev) =>
      assert [v][0] == v;
      TraceCounter(v.id, MergeValue(prev, v.value))
  }

  lemma CompatibleOne(first: seq<TraceCounter>, second: seq<TraceCounter>, i: nat)
    requires Compatible(first, second) && i < |second|
    ensures Compatible(first, [second[i]])
  {
  }

  /** `mergecounters`: the entries of the second frame, merged with those of the first where present */
  function MergeCounters(first: seq<TraceCounter>, second: seq<TraceCounter>): (r: seq<TraceCounter>)
    requires Compatible(first, second)
    ensures |r| == |second|
    ensures forall i :: 0 <= i < |second| ==> Compatible(first, [second[i]]) && r[i] == MergeOne(first, second[i])
  {
    if second == [] then [] else
      var n := |second| - 1;
      CompatibleOne(first, second, n);
      var front := second[..n];
      assert forall i :: 0 <= i < n ==> front[i] == second[i];
      MergeCounters(first, front) + [MergeOne(first, second[n])]
  }

  /** `TraceFrame::sum` */
  function Sum(a: TraceFrame, b: TraceFrame): TraceFrame
    requires a.Counters? && b.Counters? && Compatible(a.counters, b.counters)
  {
    Counters((b.ts + a.ts) / 2.0, MergeCounters(a.counters, b.counters))
  }

  // ----- blocks of samples -----

  ghost predicate NoDupIds(cs: seq<TraceCounter>) {
    forall i, j :: 0 <= i < j < |cs| ==> cs[i].id != cs[j].id
  }

  ghost predicate Has(f: TraceFrame, id: nat)
    requires f.Counters?
  {
    exists i :: 0 <= i < |f.counters| && f.counters[i].id == id
  }

  ghost function ValueIn(f: TraceFrame, id: nat): CounterType
    requires f.Counters? && Has(f, id)
  {
    Lookup(f.counters, id).value
  }

  /** Samples: counter frames with distinct ids */
  ghost predicate Samples(b: seq<TraceFrame>) {
    forall i :: 0 <= i < |b| ==> b[i].Counters? && NoDupIds(b[i].counters)
  }

  ghost predicate SameKinds(b: seq<TraceFrame>)
    requires Samples(b)
  {
    forall i, j :: 0 <= i < |b| && 0 <= j < |b| ==> Compatible(b[i].counters, b[j].counters)
  }

  ghost predicate TimesOrdered(b: seq<TraceFrame>) {
    forall i, j :: 0 <= i < j < |b| ==> b[i].ts <= b[j].ts
  }

  ghost function Hits(b: seq<TraceFrame>, id: nat): real
    requires Samples(b)
  {
    if b == [] then 0.0 else
      var last := b[|b| - 1];
      Hits(b[..|b| - 1], id) + (if Has(last, id) && ValueIn(last, id).Gauge? then ValueIn(last, id).hits else 0.0)
  }

  ghost function Total(b: seq<TraceFrame>, id: nat): real
    requires Samples(b)
  {
    if b == [] then 0.0 else
      var last := b[|b| - 1];
      Total(b[..|b| - 1], id) + (if Has(last, id) && ValueIn(last, id).Gauge? then ValueIn(last, id).total else 0.0)
  }

  ghost predicate GaugeAt(b: seq<TraceFrame>, i: int, id: nat)
    requires Samples(b)
  {
    0 <= i < |b| && Has(b[i], id) && ValueIn(b[i], id).Gauge?
  }

  /** A gauge reported before and after a sample is reported in it: none comes back after a gap. */
  ghost predicate Unbroken(b: seq<TraceFrame>)
    requires Samples(b)
  {
    forall i, j, k, id :: 0 <= i < j < k < |b| && GaugeAt(b, i, id) && GaugeAt(b, k, id) ==> Has(b[j], id)
  }

  ghost predicate IsMinimum(x: real, b: seq<TraceFrame>, id: nat)
    requires Samples(b)
  {
    && (exists i :: GaugeAt(b, i, id) && ValueIn(b[i], id).min == x)
    && (forall i :: GaugeAt(b, i, id) ==> x <= ValueIn(b[i], id).min)
  }

  ghost predicate IsMaximum(x: real, b: seq<TraceFrame>, id: nat)
    requires Samples(b)
  {
    && (exists i :: GaugeAt(b, i, id) && ValueIn(b[i], id).max == x)
    && (forall i :: GaugeAt(b, i, id) ==> ValueIn(b[i], id).max <= x)
  }

  /** A counter is the block's last value; a gauge carries the block's sums and envelope. */
  ghost predicate SummaryOf(v: CounterType, b: seq<TraceFrame>, id: nat)
    requires Samples(b) && b != [] && Has(b[|b| - 1], id)
  {
    match v
    case Counter(_, _) => v == ValueIn(b[|b| - 1], id)
    case Gauge(min, max, hits, total) =>
      && ValueIn(b[|b| - 1], id).Gauge?
      && hits == Hits(b, id) && total == Total(b, id) && IsMinimum(min, b, id) && IsMaximum(max, b, id)
  }

  ghost predicate SameIds(cs: seq<TraceCounter>, ds: seq<TraceCounter>) {
    |cs| == |ds| && forall i :: 0 <= i < |cs| ==> cs[i].id == ds[i].id
  }

  ghost predicate Summarises(f: TraceFrame, b: seq<TraceFrame>)
    requires Samples(b)
  {
    && b != [] && f.Counters?
    && SameIds(f.counters, b[|b| - 1].counters)
    && b[0].ts <= f.ts <= b[|b| - 1].ts
    && forall i :: 0 <= i < |f.counters| ==>
         var id := f.counters[i].id;
         Has(b[|b| - 1], id) && SummaryOf(f.counters[i].value, b, id)
  }

  lemma LookupUnique(cs: seq<TraceCounter>, i: nat)
    requires NoDupIds(cs) && i < |cs|
    ensures Lookup(cs, cs[i].id) == Some(cs[i].value)
  {
  }

  /** Among entries with the same id the last one counts. */
  lemma {:induction false} LookupLast(cs: seq<TraceCounter>, i: nat)
    requires i < |cs| && forall k :: i < k < |cs| ==> cs[k].id != cs[i].id
    ensures Lookup(cs, cs[i].id) == Some(cs[i].value)
  {
    if i < |cs| - 1 { LookupLast(cs[..|cs| - 1], i); }
  }

  lemma LookupSameIds(cs: seq<TraceCounter>, ds: seq<TraceCounter>, id: nat)
    requires SameIds(cs, ds)
    ensures Lookup(cs, id).Some? <==> Lookup(ds, id).Some?
  {
    if Lookup(cs, id).Some? {
      var i :| 0 <= i < |cs| && cs[i].id == id;
      assert ds[i].id == id;
    }
    if Lookup(ds, id).Some? {
      var i :| 0 <= i < |ds| && ds[i].id == id;
      assert cs[i].id == id;
    }
  }

  /** A single sample summarises itself. */
  lemma SampleSummarisesItself(f: TraceFrame)
    requires f.Counters? && NoDupIds(f.counters)
    ensures Summarises(f, [f])
  {
    var b := [f];
    assert b[..0] == [];
    forall i | 0 <= i < |f.counters|
      ensures Has(f, f.counters[i].id) && SummaryOf(f.counters[i].value, b, f.counters[i].id)
    {
      LookupUnique(f.counters, i);
      assert Has(b[0], f.counters[i].id);
      assert f.counters[i].value.Gauge? ==> GaugeAt(b, 0, f.counters[i].id);
    }
  }

  lemma {:induction false} HitsAppend(b: seq<TraceFrame>, c: seq<TraceFrame>, id: nat)
    requires Samples(b) && Samples(c)
    ensures Samples(b + c)
    ensures Hits(b + c, id) == Hits(b, id) + Hits(c, id)
    ensures Total(b + c, id) == Total(b, id) + Total(c, id)
  {
    if c == [] {
      assert b + c == b;
    } else {
      HitsAppend(b, c[..|c| - 1], id);
      assert (b + c)[..|b + c| - 1] == b + c[..|c| - 1];
    }
  }

  lemma {:induction false} AbsentAddsNothing(b: seq<TraceFrame>, id: nat)
    requires Samples(b) && forall i :: !GaugeAt(b, i, id)
    ensures Hits(b, id) == 0.0 && Total(b, id) == 0.0
  {
    if b != [] {
      var front := b[..|b| - 1];
      assert !GaugeAt(b, |b| - 1, id);
      assert forall i :: GaugeAt(front, i, id) ==> GaugeAt(b, i, id);
      AbsentAddsNothing(front, id);
    }
  }

  lemma GaugeAtAppend(b: seq<TraceFrame>, c: seq<TraceFrame>, id: nat)
    requires Samples(b) && Samples(c)
    ensures Samples(b + c)
    ensures forall i :: GaugeAt(b, i, id) ==> GaugeAt(b + c, i, id) && (b + c)[i] == b[i]
    ensures forall i :: GaugeAt(c, i, id) ==> GaugeAt(b + c, |b| + i, id) && (b + c)[|b| + i] == c[i]
    ensures forall i :: GaugeAt(b + c, i, id) ==> if i < |b| then GaugeAt(b, i, id) else GaugeAt(c, i - |b|, id)
  {
  }

  lemma MinimumAppend(x: real, y: real, b: seq<TraceFrame>, c: seq<TraceFrame>, id: nat)
    requires Samples(b) && Samples(c) && IsMinimum(x, b, id) && IsMinimum(y, c, id)
    ensures Samples(b + c) && IsMinimum(Min(y, x), b + c, id)
  {
    GaugeAtAppend(b, c, id);
    var i :| GaugeAt(b, i, id) && ValueIn(b[i], id).min == x;
    var j :| GaugeAt(c, j, id) && ValueIn(c[j], id).min == y;
    assert GaugeAt(b + c, i, id) && GaugeAt(b + c, |b| + j, id);
  }

  lemma MaximumAppend(x: real, y: real, b: seq<TraceFrame>, c: seq<TraceFrame>, id: nat)
    requires Samples(b) && Samples(c) && IsMaximum(x, b, id) && IsMaximum(y, c, id)
    ensures Samples(b + c) && IsMaximum(Max(y, x), b + c, id)
  {
    GaugeAtAppend(b, c, id);
    var i :| GaugeAt(b, i, id) && ValueIn(b[i], id).max == x;
    var j :| GaugeAt(c, j, id) && ValueIn(c[j], id).max == y;
    assert GaugeAt(b + c, i, id) && GaugeAt(b + c, |b| + j, id);
  }

  /** A value present in both blocks */
  lemma SummaryAppend(v: CounterType, w: CounterType, b: seq<TraceFrame>, c: seq<TraceFrame>, id: nat)
    requires Samples(b) && Samples(c) && b != [] && c != []
    requires Has(b[|b| - 1], id) && Has(c[|c| - 1], id)
    requires SummaryOf(v, b, id) && SummaryOf(w, c, id) && v.SameType(w)
    ensures Samples(b + c) && Has((b + c)[|b + c| - 1], id) && SummaryOf(MergeValue(v, w), b + c, id)
  {
    assert (b + c)[|b + c| - 1] == c[|c| - 1];
    HitsAppend(b, c, id);
    if w.Gauge? {
      MinimumAppend(v.min, w.min, b, c, id);
      MaximumAppend(v.max, w.max, b, c, id);
    }
  }

  /** What a block holds of a gauge neither counts nor reaches beyond the given value. */
  ghost predicate AddsNothing(b: seq<TraceFrame>, v: TraceCounter)
    requires Samples(b) && v.value.Gauge?
  {
    && Hits(b, v.id) == 0.0 && Total(b, v.id) == 0.0
    && forall n :: GaugeAt(b, n, v.id) ==>
         v.value.min <= ValueIn(b[n], v.id).min && ValueIn(b[n], v.id).max <= v.value.max
  }

  /** A later block's value stands for both blocks: always for a counter, for a gauge if the earlier block adds
      nothing to it. */
  lemma SummaryExtendsIff(v: TraceCounter, b: seq<TraceFrame>, c: seq<TraceFrame>)
    requires Samples(b) && Samples(c) && c != [] && Has(c[|c| - 1], v.id) && SummaryOf(v.value, c, v.id)
    ensures Samples(b + c) && Has((b + c)[|b + c| - 1], v.id)
    ensures SummaryOf(v.value, b + c, v.id) <==> (v.value.Gauge? ==> AddsNothing(b, v))
  {
    hide Has, ValueIn, Hits, Total, Samples;
    assert (b + c)[|b + c| - 1] == c[|c| - 1];
    HitsAppend(b, c, v.id);
    if v.value.Gauge? {
      EnvelopeExtendsIff(v.value.min, v.value.max, b, c, v.id);
    }
  }

  lemma EnvelopeExtendsIff(x: real, y: real, b: seq<TraceFrame>, c: seq<TraceFrame>, id: nat)
    requires Samples(b) && Samples(c) && IsMinimum(x, c, id) && IsMaximum(y, c, id)
    ensures Samples(b + c)
    ensures IsMinimum(x, b + c, id) && IsMaximum(y, b + c, id) <==>
            forall n :: GaugeAt(b, n, id) ==> x <= ValueIn(b[n], id).min && ValueIn(b[n], id).max <= y
  {
    GaugeAtAppend(b, c, id);
    hide GaugeAt, Samples, ValueIn;
    var j :| GaugeAt(c, j, id) && ValueIn(c[j], id).min == x;
    var l :| GaugeAt(c, l, id) && ValueIn(c[l], id).max == y;
    assert GaugeAt(b + c, |b| + j, id) && GaugeAt(b + c, |b| + l, id);
  }

  lemma SummaryCompatible(f: TraceFrame, g: TraceFrame, b: seq<TraceFrame>, c: seq<TraceFrame>)
    requires Samples(b) && Samples(c) && Summarises(f, b) && Summarises(g, c)
    requires Samples(b + c) && SameKinds(b + c)
    ensures Compatible(f.counters, g.counters)
  {
    var x, y := b[|b| - 1], c[|c| - 1];
    assert (b + c)[|b| - 1] == x && (b + c)[|b| + |c| - 1] == y;
    assert Compatible(x.counters, y.counters);
    forall i, j | 0 <= i < |f.counters| && 0 <= j < |g.counters| && f.counters[i].id == g.counters[j].id
      ensures f.counters[i].value.SameType(g.counters[j].value)
    {
      LookupUnique(x.counters, i);
      LookupUnique(y.counters, j);
      assert SummaryOf(f.counters[i].value, b, x.counters[i].id);
      assert SummaryOf(g.counters[j].value, c, y.counters[j].id);
    }
  }

  /** The later frame's gauge is one that the earlier block had stopped reporting at its end. */
  ghost predicate Returns(b: seq<TraceFrame>, v: TraceCounter)
    requires Samples(b) && b != []
  {
    v.value.Gauge? && !Has(b[|b| - 1], v.id)
  }

  lemma SumEntry(f: TraceFrame, g: TraceFrame, b: seq<TraceFrame>, c: seq<TraceFrame>, i: nat)
    requires Samples(b) && Samples(c) && Summarises(f, b) && Summarises(g, c) && Samples(b + c)
    requires i < |g.counters| && Compatible(f.counters, [g.counters[i]])
    ensures var v := g.counters[i];
            && Has((b + c)[|b + c| - 1], v.id)
            && (SummaryOf(MergeOne(f.counters, v).value, b + c, v.id) <==> (Returns(b, v) ==> AddsNothing(b, v)))
  {
    var x, v := b[|b| - 1], g.counters[i];
    LookupSameIds(f.counters, x.counters, v.id);
    match Lookup(f.counters, v.id)
    case Some(prev) =>
      var k :| 0 <= k < |f.counters| && f.counters[k] == TraceCounter(v.id, prev);
      assert [v][0] == v;
      SummaryAppend(prev, v.value, b, c, v.id);
    case None =>
      SummaryExtendsIff(v, b, c);
  }

  /** A sum has the ids of the later frame. */
  lemma SumHas(f: TraceFrame, g: TraceFrame, id: nat)
    requires f.Counters? && g.Counters? && Compatible(f.counters, g.counters)
    ensures Has(Sum(f, g), id) <==> Has(g, id)
  {
    var h := Sum(f, g);
    forall i | 0 <= i < |g.counters| ensures h.counters[i].id == g.counters[i].id {
      CompatibleOne(f.counters, g.counters, i);
    }
  }

  /** Nothing vanishes in a sum exactly when the later frame still reports every id of the earlier one. */
  lemma SumKeepsIdsIff(f: TraceFrame, g: TraceFrame)
    requires f.Counters? && g.Counters? && Compatible(f.counters, g.counters)
    ensures (forall id: nat :: Has(f, id) ==> Has(Sum(f, g), id)) <==> (forall id: nat :: Has(f, id) ==> Has(g, id))
  {
    hide Has, Compatible;
    forall id: nat ensures Has(Sum(f, g), id) <==> Has(g, id) {
      SumHas(f, g, id);
    }
  }

  /** Every gauge that comes back in the later frame had nothing to add in the earlier block. */
  ghost predicate Seamless(b: seq<TraceFrame>, g: TraceFrame)
    requires Samples(b) && b != [] && g.Counters?
  {
    forall i :: 0 <= i < |g.counters| && Returns(b, g.counters[i]) ==> AddsNothing(b, g.counters[i])
  }

  /** The sum of two frames summarises the two blocks together exactly when no gauge that comes back has lost
      anything. */
  lemma SumSummarisesIff(f: TraceFrame, g: TraceFrame, b: seq<TraceFrame>, c: seq<TraceFrame>)
    requires Samples(b) && Samples(c) && Summarises(f, b) && Summarises(g, c)
    requires Samples(b + c) && SameKinds(b + c) && TimesOrdered(b + c)
    ensures Compatible(f.counters, g.counters) && (Summarises(Sum(f, g), b + c) <==> Seamless(b, g))
  {
    hide SummaryOf, AddsNothing, SameKinds, Compatible, MergeCounters, MergeOne, NoDupIds, Has;
    SummaryCompatible(f, g, b, c);
    var d, h := b + c, Sum(f, g);
    assert d[0] == b[0] && d[|b| - 1] == b[|b| - 1] && d[|b|] == c[0] && d[|d| - 1] == c[|c| - 1];
    forall i | 0 <= i < |g.counters|
      ensures h.counters[i].id == g.counters[i].id && Has(d[|d| - 1], h.counters[i].id)
      ensures SummaryOf(h.counters[i].value, d, h.counters[i].id) <==>
              (Returns(b, g.counters[i]) ==> AddsNothing(b, g.counters[i]))
    {
      CompatibleOne(f.counters, g.counters, i);
      MergedId(f.counters, g.counters[i]);
      SumEntry(f, g, b, c, i);
    }
  }

  lemma MergedId(first: seq<TraceCounter>, v: TraceCounter)
    requires Compatible(first, [v])
    ensures MergeOne(first, v).id == v.id
  {
  }

  /** A block in which no gauge comes back after a gap is seamless wherever it is cut. */
  lemma UnbrokenIsSeamless(b: seq<TraceFrame>, c: seq<TraceFrame>, g: TraceFrame)
    requires Samples(b) && Samples(c) && b != [] && Summarises(g, c) && Samples(b + c) && Unbroken(b + c)
    ensures Seamless(b, g)
  {
    hide Has, ValueIn, IsMinimum, IsMaximum, Hits, Total, AddsNothing, Unbroken, NoDupIds, GaugeAt;
    forall i | 0 <= i < |g.counters| && Returns(b, g.counters[i]) ensures AddsNothing(b, g.counters[i]) {
      var v := g.counters[i];
      assert Has(c[|c| - 1], v.id) && SummaryOf(v.value, c, v.id);
      NoneBeforeGap(b, c, v.id);
      NoneAddsNothing(b, v);
    }
  }

  lemma NoneBeforeGap(b: seq<TraceFrame>, c: seq<TraceFrame>, id: nat)
    requires Samples(b) && Samples(c) && b != [] && c != [] && Samples(b + c) && Unbroken(b + c)
    requires !Has(b[|b| - 1], id) && Has(c[|c| - 1], id) && ValueIn(c[|c| - 1], id).Gauge?
    ensures forall n :: !GaugeAt(b, n, id)
  {
    hide Has, ValueIn;
    var d := b + c;
    assert d[|d| - 1] == c[|c| - 1] && d[|b| - 1] == b[|b| - 1];
    assert GaugeAt(d, |d| - 1, id);
    forall n ensures !GaugeAt(b, n, id) {
      assert GaugeAt(b, n, id) ==> GaugeAt(d, n, id);
    }
  }

  lemma NoneAddsNothing(b: seq<TraceFrame>, v: TraceCounter)
    requires Samples(b) && v.value.Gauge? && forall n :: !GaugeAt(b, n, v.id)
    ensures AddsNothing(b, v)
  {
    AbsentAddsNothing(b, v.id);
  }

  /** A gauge sampled 5 times, then not reported, then sampled twice: the merged frame has lost the first five. */
  lemma ReturningGaugeBreaksSummary()
    ensures var first := Counters(0.0, [TraceCounter(0, Gauge(1.0, 9.0, 5.0, 20.0))]);
            var gap, again := Counters(1.0, []), Counters(2.0, [TraceCounter(0, Gauge(2.0, 3.0, 2.0, 5.0))]);
            var b, c := [first, gap], [again];
            && Samples(b) && Samples(c) && Compatible(first.counters, gap.counters)
            && Summarises(Sum(first, gap), b) && Summarises(again, c)
            && Compatible(Sum(first, gap).counters, again.counters)
            && !Summarises(Sum(Sum(first, gap), again), b + c)
  {
    var first := Counters(0.0, [TraceCounter(0, Gauge(1.0, 9.0, 5.0, 20.0))]);
    var gap, again := Counters(1.0, []), Counters(2.0, [TraceCounter(0, Gauge(2.0, 3.0, 2.0, 5.0))]);
    var b, c := [first, gap], [again];
    SampleSummarisesItself(again);
    assert b + c == [first, gap, again];
    var v := again.counters[0];
    assert first.counters[0].id == 0 && GaugeAt(b, 0, 0);
    LookupUnique(first.counters, 0);
    assert !Has(gap, 0);
    assert !AddsNothing(b, v);
    assert Returns(b, v);
    SumSummarisesIff(Sum(first, gap), again, b, c);
  }
}
