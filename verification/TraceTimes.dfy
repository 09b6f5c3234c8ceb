/** The time of a stored frame, and the time series read off the frames.

    A merge takes the mean of two times, and every fold merges once more whatever it keeps.  So after any run the time
    of a frame is a weighted mean of the times of the pushes it stands for, in which a push weighs one half per fold it
    has been through.
 */
module TraceTimes {
  import opened TraceFrames
  import opened TraceLog

  /** A sum lies in the middle of the two times, and strictly between them if they differ. */
  lemma SumIsMidpoint(f: TraceFrame, g: TraceFrame)
    requires f.Counters? && g.Counters? && Compatible(f.counters, g.counters)
    ensures Sum(f, g).ts - f.ts == g.ts - Sum(f, g).ts
    ensures f.ts < g.ts ==> f.ts < Sum(f, g).ts < g.ts
  {
  }

  // ----- the weighted mean -----

  function Half(k: nat): real {
    if k == 0 then 1.0 else Half(k - 1) / 2.0
  }

  /** What a push weighs after the folds since, its own included */
  ghost function Share(es: seq<Event>, i: nat): real
    requires i < |es|
  {
    Half(FoldsIn(es[i..]))
  }

  ghost predicate Numbers(b: seq<nat>, n: nat) {
    forall i :: 0 <= i < |b| ==> b[i] < n
  }

  /** The shares of some pushes, added up */
  ghost function Shares(es: seq<Event>, b: seq<nat>): real
    requires Numbers(b, |es|)
  {
    if b == [] then 0.0 else Shares(es, b[..|b| - 1]) + Share(es, b[|b| - 1])
  }

  ghost function Weighted(es: seq<Event>, i: nat): real
    requires i < |es|
  {
    Share(es, i) * es[i].push.now
  }

  ghost function MeanTime(es: seq<Event>, b: seq<nat>): real
    requires Numbers(b, |es|)
  {
    if b == [] then 0.0 else MeanTime(es, b[..|b| - 1]) + Weighted(es, b[|b| - 1])
  }

  lemma {:induction false} MeanAppend(es: seq<Event>, a: seq<nat>, b: seq<nat>)
    requires Numbers(a, |es|) && Numbers(b, |es|)
    ensures Numbers(a + b, |es|)
    ensures MeanTime(es, a + b) == MeanTime(es, a) + MeanTime(es, b)
    ensures Shares(es, a + b) == Shares(es, a) + Shares(es, b)
  {
    hide Weighted, Share;
    if b == [] {
      assert a + b == a;
    } else {
      MeanAppend(es, a, b[..|b| - 1]);
      assert (a + b)[..|a + b| - 1] == a + b[..|b| - 1];
    }
  }

  /** The runs so far, and one push more that does not or does fold */
  function With(es: seq<Event>, e: Push, folds: bool): seq<Event> {
    es + [Event(e, folds)]
  }

  lemma FoldsWith(es: seq<Event>, e: Push, folds: bool, i: nat)
    requires i <= |es|
    ensures FoldsIn(With(es, e, folds)[i..]) == FoldsIn(es[i..]) + (if folds then 1 else 0)
  {
    var r := With(es, e, folds)[i..];
    assert r[..|r| - 1] == es[i..];
  }

  /** A push without a fold leaves the shares as they are and weighs one itself; a fold halves all of them. */
  lemma ShareWith(es: seq<Event>, e: Push, i: nat)
    requires i <= |es|
    ensures Share(With(es, e, false), i) == if i == |es| then 1.0 else Share(es, i)
    ensures Share(With(es, e, true), i) == Share(With(es, e, false), i) / 2.0
    ensures Weighted(With(es, e, false), i) == if i == |es| then e.now else Weighted(es, i)
    ensures Weighted(With(es, e, true), i) == Weighted(With(es, e, false), i) / 2.0
  {
    FoldsWith(es, e, false, i);
    FoldsWith(es, e, true, i);
    if i == |es| { assert es[i..] == []; }
    HalfTimes(Share(With(es, e, false), i), With(es, e, false)[i].push.now);
  }

  lemma HalfTimes(a: real, t: real)
    ensures (a / 2.0) * t == a * t / 2.0 && 1.0 * t == t
  {
  }

  lemma {:induction false} MeanWith(es: seq<Event>, e: Push, b: seq<nat>)
    requires Numbers(b, |es| + 1)
    ensures MeanTime(With(es, e, true), b) == MeanTime(With(es, e, false), b) / 2.0
    ensures Shares(With(es, e, true), b) == Shares(With(es, e, false), b) / 2.0
  {
    hide Weighted, Share;
    if b != [] {
      MeanWith(es, e, b[..|b| - 1]);
      ShareWith(es, e, b[|b| - 1]);
    }
  }

  lemma {:induction false} MeanLater(es: seq<Event>, e: Push, b: seq<nat>)
    requires Numbers(b, |es|)
    ensures MeanTime(With(es, e, false), b) == MeanTime(es, b)
    ensures Shares(With(es, e, false), b) == Shares(es, b)
  {
    hide Weighted, Share;
    if b != [] {
      MeanLater(es, e, b[..|b| - 1]);
      ShareWith(es, e, b[|b| - 1]);
    }
  }

  // ----- every run -----

  /** The frame has the mean time of its block, in which the shares add up to one. */
  ghost predicate MeanAt(f: TraceFrame, es: seq<Event>, b: seq<nat>) {
    Numbers(b, |es|) && f.ts == MeanTime(es, b) && Shares(es, b) == 1.0
  }

  ghost predicate Means(fs: seq<TraceFrame>, es: seq<Event>, bs: seq<seq<nat>>) {
    |fs| == |bs| && forall k :: 0 <= k < |fs| ==> MeanAt(fs[k], es, bs[k])
  }

  lemma PushMeans(fs: seq<TraceFrame>, es: seq<Event>, bs: seq<seq<nat>>, e: Push, f: TraceFrame)
    requires Means(fs, es, bs) && f.ts == e.now
    ensures Means(fs + [f], With(es, e, false), bs + [[|es|]])
  {
    hide MeanTime, Shares;
    var gs, cs := fs + [f], bs + [[|es|]];
    forall k | 0 <= k < |gs| ensures MeanAt(gs[k], With(es, e, false), cs[k]) {
      if k < |fs| {
        assert MeanAt(fs[k], es, bs[k]);
        MeanLater(es, e, bs[k]);
      } else {
        MeanOfOne(es, e);
      }
    }
  }

  lemma MeanOfOne(es: seq<Event>, e: Push)
    ensures MeanTime(With(es, e, false), [|es|]) == e.now && Shares(With(es, e, false), [|es|]) == 1.0
  {
    hide Weighted, Share;
    ShareWith(es, e, |es|);
    assert [|es|][..0] == [];
  }

  lemma FoldMeans(fs: seq<TraceFrame>, es: seq<Event>, bs: seq<seq<nat>>, e: Push)
    requires Mergeable(fs) && Means(fs, With(es, e, false), bs)
    ensures Means(FoldCounters(fs), With(es, e, true), FoldBlocks(bs))
  {
    hide MeanTime, Shares, With, Mergeable;
    forall k | 0 <= k < |fs| / 2 ensures MeanAt(FoldCounters(fs)[k], With(es, e, true), FoldBlocks(bs)[k]) {
      FoldMean(fs, es, bs, e, k);
    }
  }

  lemma FoldMean(fs: seq<TraceFrame>, es: seq<Event>, bs: seq<seq<nat>>, e: Push, k: nat)
    requires Mergeable(fs) && Means(fs, With(es, e, false), bs) && 2 * k + 1 < |fs|
    ensures MeanAt(FoldCounters(fs)[k], With(es, e, true), FoldBlocks(bs)[k])
  {
    hide MeanTime, Shares;
    var x, y := bs[2 * k], bs[2 * k + 1];
    assert MeanAt(fs[2 * k], With(es, e, false), x) && MeanAt(fs[2 * k + 1], With(es, e, false), y);
    MeanAppend(With(es, e, false), x, y);
    MeanWith(es, e, x + y);
  }

  /** After every run of pushes and folds: the time of a stored frame is the mean of the times of the pushes in its
      block, each weighing one half per fold since (its own included), and these weights add up to one. */
  lemma {:induction false} RunsAverageTimes(es: seq<Event>, gauges: iset<string>)
    requires GoodPushes(es, gauges)
    ensures Means(Counts(Run(es, gauges).frames), es, Run(es, gauges).blocks)
  {
    hide Run, Pushed, Folded, Means, Counts, Sound, Mergeable, GoodPush, FoldCounters, FoldBlocks, PushFrames, Sample,
         Metas, Dense;
    if es == [] {
      EmptyRun(gauges);
      NoMeans();
    } else {
      var front, e := es[..|es| - 1], es[|es| - 1];
      RunsAverageTimes(front, gauges);
      RunLast(es, gauges);
      RawSize(front, gauges);
      var st := Run(front, gauges);
      PushedIs(st, e.push, gauges);
      GoodStamps(e.push, gauges);
      SoundDense(st.frames, gauges);
      assert es == With(front, e.push, e.folds);
      PushMeans(Counts(st.frames), front, st.blocks, e.push, Sample(st.frames, e.push));
      if e.folds {
        var st' := Pushed(st, e.push);
        FoldMeans(Counts(st'.frames), front, st'.blocks, e.push);
        FoldedIs(st');
      }
    }
  }

  lemma SoundDense(fs: seq<TraceFrame>, gauges: iset<string>)
    requires Sound(fs, gauges)
    ensures Dense(Metas(fs))
  {
  }

  lemma NoMeans()
    ensures Means([], [], [])
  {
  }

  // ----- the series of a metric -----

  /** A frame's values of one id: one if the frame holds the id, none otherwise */
  lemma {:induction false} ProjectOne(ts: real, cs: seq<TraceCounter>, id: nat)
    requires NoDupIds(cs)
    ensures Project(ts, cs, id) ==
            if Lookup(cs, id).Some? then [(ts, Lookup(cs, id).value)] else []
  {
    if cs != [] {
      var front, last := cs[..|cs| - 1], cs[|cs| - 1];
      ProjectOne(ts, front, id);
      assert last.id == id ==> Lookup(front, id).None?;
    }
  }

  /** Frames before n that hold the id */
  ghost function Holding(fs: seq<TraceFrame>, id: nat, n: nat): set<nat>
    requires n <= |fs|
  {
    set i | 0 <= i < n && fs[i].Counters? && Has(fs[i], id)
  }

  lemma ProjectionNext(fs: seq<TraceFrame>, gauges: iset<string>, id: nat, n: nat)
    requires Sound(fs, gauges) && n < |fs|
    ensures Projection(fs[..n + 1], id) == Projection(fs[..n], id) +
            (if fs[n].Counters? && Has(fs[n], id) then [(fs[n].ts, ValueIn(fs[n], id))] else [])
  {
    hide Sound, Has, Lookup, ProjectFrame;
    assert fs[..n + 1][..n] == fs[..n];
    FramePoint(fs, gauges, id, n);
  }

  /** In every sound list of frames the series of an id has one point per counter frame that holds it ... */
  lemma {:induction false} SeriesLength(fs: seq<TraceFrame>, gauges: iset<string>, id: nat, n: nat)
    requires Sound(fs, gauges) && n <= |fs|
    ensures |Projection(fs[..n], id)| == |Holding(fs, id, n)|
  {
    hide Sound, Has, Lookup;
    if n > 0 {
      SeriesLength(fs, gauges, id, n - 1);
      ProjectionNext(fs, gauges, id, n - 1);
      HoldingNext(fs, id, n - 1);
    }
  }

  lemma HoldingNext(fs: seq<TraceFrame>, id: nat, n: nat)
    requires n < |fs|
    ensures |Holding(fs, id, n + 1)| == |Holding(fs, id, n)| + (if fs[n].Counters? && Has(fs[n], id) then 1 else 0)
  {
    hide Has;
    var holds := fs[n].Counters? && Has(fs[n], id);
    assert Holding(fs, id, n + 1) == Holding(fs, id, n) + (if holds then {n} else {});
  }

  /** ... in the order of the frames: the point of frame i, with its time and its value, follows those of the frames
      before it. */
  lemma {:induction false} SeriesPoint(fs: seq<TraceFrame>, gauges: iset<string>, id: nat, n: nat, i: nat)
    requires Sound(fs, gauges) && i < n <= |fs| && fs[i].Counters? && Has(fs[i], id)
    ensures |Projection(fs[..i], id)| < |Projection(fs[..n], id)|
    ensures Projection(fs[..n], id)[|Projection(fs[..i], id)|] == (fs[i].ts, ValueIn(fs[i], id))
  {
    hide Sound, Has, Lookup, Projection, ValueIn;
    ProjectionNext(fs, gauges, id, n - 1);
    if i < n - 1 { SeriesPoint(fs, gauges, id, n - 1, i); }
  }

  lemma FramePoint(fs: seq<TraceFrame>, gauges: iset<string>, id: nat, i: nat)
    requires Sound(fs, gauges) && i < |fs|
    ensures ProjectFrame(fs[i], id) ==
            if fs[i].Counters? && Has(fs[i], id) then [(fs[i].ts, ValueIn(fs[i], id))] else []
  {
    if fs[i].Counters? {
      assert Declared(fs[i], Metas(fs[..i]), gauges);
      ProjectOne(fs[i].ts, fs[i].counters, id);
    }
  }
}
