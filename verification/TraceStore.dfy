/** A trace being written: the file, the frames in memory and the indexes over them. */
module TraceStore {
  import opened Basics
  import opened Counters
  import FL = FrameLog
  import opened TraceFrames
  import opened TraceLog

  /** Inserting metadata frames into the name index */
  function AddMetas(m: map<string, Metadata>, fs: seq<TraceFrame>): map<string, Metadata> {
    if fs == [] then m else
      var rest := AddMetas(m, fs[..|fs| - 1]);
      match fs[|fs| - 1]
      case CounterMetadata(_, d) => rest[d.name := d]
      case _ => rest
  }

  lemma {:induction false} AddMetasIs(gs: seq<TraceFrame>, fs: seq<TraceFrame>)
    ensures AddMetas(CountersOf(gs), fs) == CountersOf(gs + fs)
  {
    if fs == [] {
      assert gs + fs == gs;
    } else {
      AddMetasIs(gs, fs[..|fs| - 1]);
      assert (gs + fs)[..|gs + fs| - 1] == gs + fs[..|fs| - 1];
    }
  }

  lemma {:induction false} AddMetasKeys(m: map<string, Metadata>, fs: seq<TraceFrame>, i: nat)
    requires i < |fs| && fs[i].CounterMetadata?
    requires forall a, b :: 0 <= a < b < |fs| && fs[a].CounterMetadata? && fs[b].CounterMetadata? ==>
                              fs[a].metadata.name != fs[b].metadata.name
    ensures fs[i].metadata.name in AddMetas(m, fs) && AddMetas(m, fs)[fs[i].metadata.name] == fs[i].metadata
  {
    if i < |fs| - 1 {
      AddMetasKeys(m, fs[..|fs| - 1], i);
    }
  }

  /** Inserting the same frames again changes nothing. */
  lemma {:induction false} AddMetasAgain(m: map<string, Metadata>, fs: seq<TraceFrame>, n: nat)
    requires n <= |fs|
    requires forall a, b :: 0 <= a < b < |fs| && fs[a].CounterMetadata? && fs[b].CounterMetadata? ==>
                              fs[a].metadata.name != fs[b].metadata.name
    ensures AddMetas(AddMetas(m, fs), fs[..n]) == AddMetas(m, fs)
  {
    if n > 0 {
      AddMetasAgain(m, fs, n - 1);
      assert fs[..n][..n - 1] == fs[..n - 1];
      if fs[n - 1].CounterMetadata? { AddMetasKeys(m, fs, n - 1); }
    }
  }

  /** `series[id]` is the projection of the frames on id, and is there when that is not empty. */
  ghost predicate SeriesOf(series: map<nat, seq<(real, CounterType)>>, fs: seq<TraceFrame>) {
    forall id: nat ::
      && (id in series <==> Projection(fs, id) != [])
      && (id in series ==> series[id] == Projection(fs, id))
  }

  lemma ProjectionAppend(fs: seq<TraceFrame>, f: TraceFrame, id: nat)
    ensures Projection(fs + [f], id) ==
            Projection(fs, id) + ProjectFrame(f, id)
  {
    assert (fs + [f])[..|fs|] == fs;
  }

  /** The series while a frame's counters are being entered */
  ghost predicate SeriesWith(
    series: map<nat, seq<(real, CounterType)>>, fs: seq<TraceFrame>, ts: real, cs: seq<TraceCounter>)
  {
    forall id: nat ::
      && (id in series <==> Projection(fs, id) + Project(ts, cs, id) != [])
      && (id in series ==> series[id] == Projection(fs, id) + Project(ts, cs, id))
  }

  lemma SeriesStep(
    series: map<nat, seq<(real, CounterType)>>, fs: seq<TraceFrame>, ts: real, cs: seq<TraceCounter>, c: TraceCounter)
    requires SeriesWith(series, fs, ts, cs)
    ensures var previous := if c.id in series then series[c.id] else [];
            SeriesWith(series[c.id := previous + [(ts, c.value)]], fs, ts, cs + [c])
  {
    assert (cs + [c])[..|cs|] == cs;
    forall id: nat
      ensures Project(ts, cs + [c], id) == Project(ts, cs, id) + (if c.id == id then [(ts, c.value)] else [])
    {
    }
  }

  lemma SeriesDone(series: map<nat, seq<(real, CounterType)>>, fs: seq<TraceFrame>, ts: real, cs: seq<TraceCounter>)
    ensures SeriesWith(series, fs, ts, cs) <==> SeriesOf(series, fs + [Counters(ts, cs)])
    ensures SeriesWith(series, fs, ts, []) <==> SeriesOf(series, fs)
  {
    forall id: nat ensures Projection(fs + [Counters(ts, cs)], id) == Projection(fs, id) + Project(ts, cs, id) {
      ProjectionAppend(fs, Counters(ts, cs), id);
    }
    forall id: nat ensures Projection(fs, id) + Project(ts, [], id) == Projection(fs, id) {
    }
  }

  lemma NewMetasNone(known: set<string>, nextId: nat)
    ensures NewMetas(known, nextId, [], []) == []
  {
  }

  lemma NewMetasStep(known: set<string>, nextId: nat, snaps: seq<CounterSnapshot>, stamps: seq<real>, i: nat)
    requires |stamps| == |snaps| && i < |snaps|
    ensures var rest, more := snaps[i + 1..], stamps[i + 1..];
            NewMetas(known, nextId, snaps[i..], stamps[i..]) ==
              if snaps[i].name in known then NewMetas(known, nextId, rest, more)
              else [CounterMetadata(stamps[i], Metadata(nextId, snaps[i].name, snaps[i].doc))]
                   + NewMetas(known + {snaps[i].name}, nextId + 1, rest, more)
  {
    assert snaps[i..][1..] == snaps[i + 1..] && stamps[i..][1..] == stamps[i + 1..];
  }

  lemma AddNoMetas(m: map<string, Metadata>)
    ensures AddMetas(m, []) == m
  {
  }

  lemma AddMetasNext(m: map<string, Metadata>, fs: seq<TraceFrame>, f: TraceFrame)
    ensures AddMetas(m, fs + [f]) ==
            if f.CounterMetadata? then AddMetas(m, fs)[f.metadata.name := f.metadata] else AddMetas(m, fs)
  {
    assert (fs + [f])[..|fs|] == fs;
  }

  lemma SeriesSkips(series: map<nat, seq<(real, CounterType)>>, fs: seq<TraceFrame>, f: TraceFrame)
    requires SeriesOf(series, fs) && !f.Counters?
    ensures SeriesOf(series, fs + [f])
  {
    forall id: nat ensures Projection(fs + [f], id) == Projection(fs, id) {
      ProjectionAppend(fs, f, id);
    }
  }

  /** The frames of a trace are what its history of pushes leaves. */
  ghost predicate Reached(frames: seq<TraceFrame>, history: seq<Event>, gauges: iset<string>) {
    GoodPushes(history, gauges) && frames == Run(history, gauges).frames
  }

  lemma ReachNext(before: seq<TraceFrame>, history: seq<Event>, e: Event, after: seq<TraceFrame>, gauges: iset<string>)
    requires Reached(before, history, gauges) && GoodPush(e.push, gauges) && Sound(before, gauges)
    requires var pushed := PushFrames(before, e.push);
             if e.folds then Mergeable(Counts(pushed)) && after == FoldFrames(pushed) else after == pushed
    ensures Reached(after, history + [e], gauges)
  {
    hide Run, PushFrames, FoldFrames, Mergeable, Declared, Metas, Counts, GoodPush;
    var es := history + [e];
    assert es[..|history|] == history;
    assert GoodPushes(es, gauges);
    RunLast(es, gauges);
  }

  class TraceState {
    const codec: FL.Codec<TraceFrame>
    const maxSize: nat
    ghost const gauges: iset<string>
    var file: seq<byte>
    var size: nat
    var currentCounterId: nat
    var desc: TraceFrame
    var counters: map<string, Metadata>
    var frames: seq<TraceFrame>
    var series: map<nat, seq<(real, CounterType)>>
    ghost var history: seq<Event>

    /** The file decodes to the description and the frames in memory, both indexes agree with them, and they are
        what the pushes so far leave. */
    ghost predicate Valid()
      reads this
    {
      Consistent() && Reached(frames, history, gauges)
    }

    ghost predicate Consistent()
      reads this
    {
      && file == FL.EncodeLog(codec, [desc] + frames)
      && counters == CountersOf(frames)
      && SeriesOf(series, frames)
      && currentCounterId == |Metas(frames)|
      && Sound(frames, gauges)
    }

    /** `TraceState::new` */
    constructor (codec: FL.Codec<TraceFrame>, job: JobDesc, now: real, maxSize: nat, ghost gauges: iset<string>)
      ensures Valid() && frames == [] && history == [] && desc == Desc(now, job)
      ensures this.codec == codec && this.maxSize == maxSize && this.gauges == gauges
    {
      this.codec := codec;
      this.maxSize := maxSize;
      this.gauges := gauges;
      this.size := 0;
      this.currentCounterId := 0;
      this.desc := Desc(now, job);
      this.counters := map[];
      this.frames := [];
      this.series := map[];
      this.history := [];
      this.file := FL.EncodeFrame(codec, Desc(now, job));
      FL.EncodeAppend(codec, [], Desc(now, job));
      assert [] + [Desc(now, job)] == [Desc(now, job)] + [];
    }

    method PushCounters(ts: real, cs: seq<TraceCounter>, ghost fs: seq<TraceFrame>)
      requires SeriesOf(series, fs)
      modifies this`series
      ensures SeriesOf(series, fs + [Counters(ts, cs)])
    {
      hide SeriesOf, SeriesWith, Projection, Project;
      SeriesDone(series, fs, ts, cs);
      var i := 0;
      while i < |cs|
        invariant 0 <= i <= |cs|
        invariant SeriesWith(series, fs, ts, cs[..i])
      {
        var c := cs[i];
        SeriesStep(series, fs, ts, cs[..i], c);
        var previous := if c.id in series then series[c.id] else [];
        series := series[c.id := previous + [(ts, c.value)]];
        assert cs[..i + 1] == cs[..i] + [c];
        i := i + 1;
      }
      assert cs[..i] == cs;
      SeriesDone(series, fs, ts, cs);
    }

    method AppendData(fs: seq<TraceFrame>)
      requires SeriesOf(series, frames) && forall i :: 0 <= i < |fs| ==> !fs[i].Desc?
      modifies this`series, this`counters, this`frames
      ensures frames == old(frames) + fs && SeriesOf(series, frames)
      ensures counters == AddMetas(old(counters), fs)
    {
      hide SeriesOf, AddMetas;
      var i := 0;
      assert frames + fs[..0] == frames;
      AddNoMetas(counters);
      while i < |fs|
        invariant 0 <= i <= |fs| && frames == old(frames)
        invariant SeriesOf(series, frames + fs[..i])
        invariant counters == AddMetas(old(counters), fs[..i])
      {
        assert fs[..i + 1] == fs[..i] + [fs[i]];
        assert frames + fs[..i + 1] == (frames + fs[..i]) + [fs[i]];
        AddMetasNext(old(counters), fs[..i], fs[i]);
        match fs[i] {
          case CounterMetadata(_, metadata) =>
            counters := counters[metadata.name := metadata];
            SeriesSkips(series, frames + fs[..i], fs[i]);
          case Counters(ts, cs) =>
            PushCounters(ts, cs, frames + fs[..i]);
        }
        i := i + 1;
      }
      assert fs[..i] == fs;
      frames := frames + fs;
    }

    method CheckCounter(snaps: seq<CounterSnapshot>, stamps: seq<real>) returns (ret: seq<TraceFrame>)
      requires |stamps| == |snaps|
      modifies this`counters, this`currentCounterId
      ensures ret == NewMetas(old(counters).Keys, old(currentCounterId), snaps, stamps)
      ensures counters == AddMetas(old(counters), ret)
      ensures currentCounterId == old(currentCounterId) + |ret|
    {
      hide NewMetas, AddMetas;
      ret := [];
      var i := 0;
      AddNoMetas(counters);
      assert snaps[0..] == snaps && stamps[0..] == stamps;
      while i < |snaps|
        invariant 0 <= i <= |snaps|
        invariant NewMetas(old(counters).Keys, old(currentCounterId), snaps, stamps) ==
                  ret + NewMetas(counters.Keys, currentCounterId, snaps[i..], stamps[i..])
        invariant counters == AddMetas(old(counters), ret)
        invariant currentCounterId == old(currentCounterId) + |ret|
      {
        var c := snaps[i];
        NewMetasStep(counters.Keys, currentCounterId, snaps, stamps, i);
        if c.name !in counters {
          var metadata := Metadata(currentCounterId, c.name, c.doc);
          currentCounterId := currentCounterId + 1;
          ghost var keys := counters.Keys;
          counters := counters[c.name := metadata];
          assert counters.Keys == keys + {c.name};
          var frame := CounterMetadata(stamps[i], metadata);
          AddMetasNext(old(counters), ret, frame);
          ret := ret + [frame];
        }
        i := i + 1;
      }
      NewMetasNone(counters.Keys, currentCounterId);
    }

    method WriteFrame(f: TraceFrame)
      modifies this`file, this`size
      ensures file == old(file) + FL.EncodeFrame(codec, f) && size == |file|
    {
      var buff := codec.encode(f);
      file := file + FL.ToLittleEndian(|buff|, 8);
      file := file + buff;
      size := |file|;
    }

    method WriteFrames(fs: seq<TraceFrame>)
      modifies this`file, this`size
      ensures file == old(file) + FL.EncodeLog(codec, fs)
      ensures size == if fs == [] then old(size) else |file|
      ensures old(size == |file|) ==> size == |file|
    {
      var i := 0;
      while i < |fs|
        invariant 0 <= i <= |fs|
        invariant file == old(file) + FL.EncodeLog(codec, fs[..i])
        invariant size == if i == 0 then old(size) else |file|
      {
        assert fs[..i + 1] == fs[..i] + [fs[i]];
        FL.EncodeAppend(codec, fs[..i], fs[i]);
        WriteFrame(fs[i]);
        i := i + 1;
      }
      assert fs[..i] == fs;
    }

    /** The rewriting half of `fold`: an empty file, then the description, the metadata and the counters */
    method Rewrite(meta: seq<TraceFrame>, newcounters: seq<TraceFrame>)
      modifies this`file, this`size
      ensures file == FL.EncodeLog(codec, [desc] + (meta + newcounters)) && size == |file|
    {
      hide FL.EncodeLog, FL.EncodeFrame;
      file := [];
      WriteFrame(desc);
      WriteFrames(meta);
      WriteFrames(newcounters);
      EncodeDesc(codec, desc, meta, newcounters);
    }

    method Fold()
      requires Consistent()
      modifies this`file, this`size, this`counters, this`series, this`frames
      ensures Consistent() && size == |file|
      ensures Mergeable(Counts(old(frames))) && frames == FoldFrames(old(frames))
    {
      hide Sound, Mergeable, FoldCounters, Metas, Counts, CountersOf, SeriesOf, AddMetas, FL.EncodeLog;
      FoldKeepsSound(frames, gauges);
      NoSeries();
      var meta, newcounters := Metas(frames), FoldCounters(Counts(frames));
      Rewrite(meta, newcounters);
      counters, series, frames := map[], map[], [];
      AppendData(meta);
      AppendData(newcounters);
      IndexRebuilt(meta, newcounters);
    }

    /** The part of `push` before the size is checked */
    method PushSample(e: Push)
      requires Consistent() && GoodPush(e, gauges)
      modifies this`file, this`size, this`counters, this`series, this`frames, this`currentCounterId
      ensures Consistent() && size == |file| && frames == PushFrames(old(frames), e)
    {
      hide Sound, Metas, CountersOf, NewMetas, SeriesOf, AddMetas, Counts, Sample, FL.EncodeLog, FL.EncodeFrame;
      ghost var before := frames;
      PushFacts(frames, e, gauges);
      hide GoodPush;
      var newCounters := CheckCounter(e.snaps, e.stamps);
      WriteFrames(newCounters);
      AppendData(newCounters);
      AgainSame(old(counters), newCounters);
      AddMetasIs(before, newCounters);
      var frame := SampleFrame(counters, e.snaps, e.now);
      WriteFrame(frame);
      AppendData([frame]);
      AddMetasIs(before + newCounters, [frame]);
      EncodePushed(codec, desc, before, newCounters, frame);
    }

    /** `push`: true when the file had outgrown its limit and was folded */
    method Push(e: Push) returns (folded: bool)
      requires Valid() && GoodPush(e, gauges)
      modifies this`file, this`size, this`counters, this`series, this`frames, this`currentCounterId, this`history
      ensures Valid() && size == |file|
      ensures history == old(history) + [Event(e, folded)]
      ensures folded <==> |FL.EncodeLog(codec, [desc] + PushFrames(old(frames), e))| > maxSize
    {
      hide FL.EncodeLog, CountersOf, SeriesOf, Dense, Declared, Reached, PushFrames, FoldFrames,
           Mergeable, Metas, Counts;
      PushSample(e);
      folded := false;
      if size > maxSize {
        Fold();
        folded := true;
      }
      ReachNext(old(frames), history, Event(e, folded), frames, gauges);
      history := history + [Event(e, folded)];
    }

    /** Reading the file back gives the description and the frames in memory. */
    method ReadBack(limit: nat -> nat) returns (r: FL.LogResult<TraceFrame>)
      requires Valid()
      ensures FL.Faithful(codec, [desc] + frames) && FL.HeadersSuffice(limit, codec, [desc] + frames) ==>
                r == FL.Read([desc] + frames)
    {
      r := FL.ReadAll(limit, codec, file, [desc] + frames);
    }
  }

  /** A trace whose limit is zero folds at every push, and has no sample left after the first. */
  method FoldAtOnce(codec: FL.Codec<TraceFrame>, job: JobDesc, now: real, e: Push, ghost gauges: iset<string>)
    returns (t: TraceState)
    requires GoodPush(e, gauges)
    ensures t.Valid() && t.history == [Event(e, true)] && Counts(t.frames) == []
  {
    hide Sound, Run, SeriesOf, CountersOf, Metas, PushFrames, GoodPush;
    t := new TraceState(codec, job, now, 0, gauges);
    NotEmpty(codec, t.desc);
    var folded := t.Push(e);
    assert [] + [Event(e, true)] == [Event(e, true)];
    RunBlocks([Event(e, true)], gauges);
    OneFold(e);
  }

  lemma NotEmpty(codec: FL.Codec<TraceFrame>, desc: TraceFrame)
    ensures forall fs :: |FL.EncodeLog(codec, [desc] + fs)| > 0
  {
  }

  lemma OneFold(e: Push)
    ensures Blocks([Event(e, true)]) == []
  {
    assert [Event(e, true)][..0] == [];
  }

  lemma PushFacts(fs: seq<TraceFrame>, e: Push, gauges: iset<string>)
    requires Sound(fs, gauges) && GoodPush(e, gauges)
    ensures Dense(Metas(fs))
    ensures |e.stamps| == |e.snaps| && Sound(PushFrames(fs, e), gauges)
    ensures Metas(PushFrames(fs, e)) == Metas(fs) + NewMetas(CountersOf(fs).Keys, |Metas(fs)|, e.snaps, e.stamps)
    ensures WithMetas(fs, e) == fs + NewMetas(CountersOf(fs).Keys, |Metas(fs)|, e.snaps, e.stamps)
    ensures forall s :: s in e.snaps ==> s.name in CountersOf(WithMetas(fs, e))
    ensures Sample(fs, e) == SampleFrame(CountersOf(WithMetas(fs, e)), e.snaps, e.now)
  {
    PushKeepsSound(fs, e, gauges);
    WithMetasFilters(fs, e);
    NamesKnown(fs, e);
    SampleLast(WithMetas(fs, e), Sample(fs, e));
  }

  lemma NoSeries()
    ensures SeriesOf(map[], [])
  {
  }

  lemma IndexRebuilt(meta: seq<TraceFrame>, cs: seq<TraceFrame>)
    ensures AddMetas(AddMetas(map[], meta), cs) == CountersOf(meta + cs)
    ensures [] + meta + cs == meta + cs
  {
    AddMetasIs([], meta);
    assert [] + meta == meta;
    AddMetasIs(meta, cs);
  }

  lemma NamesKnown(fs: seq<TraceFrame>, e: Push)
    requires Dense(Metas(fs)) && |e.stamps| == |e.snaps|
    ensures forall s :: s in e.snaps ==> s.name in CountersOf(WithMetas(fs, e))
  {
    forall s | s in e.snaps ensures s.name in CountersOf(WithMetas(fs, e)) {
      WithMetasKnows(fs, e, s);
    }
  }

  lemma AgainSame(m: map<string, Metadata>, fs: seq<TraceFrame>)
    requires forall i :: 0 <= i < |fs| ==> fs[i].CounterMetadata?
    requires forall a, b :: 0 <= a < b < |fs| ==> fs[a].metadata.name != fs[b].metadata.name
    ensures AddMetas(AddMetas(m, fs), fs) == AddMetas(m, fs)
  {
    AddMetasAgain(m, fs, |fs|);
    assert fs[..|fs|] == fs;
  }

  lemma EncodeDesc(codec: FL.Codec<TraceFrame>, desc: TraceFrame, a: seq<TraceFrame>, b: seq<TraceFrame>)
    ensures FL.EncodeFrame(codec, desc) + FL.EncodeLog(codec, a) + FL.EncodeLog(codec, b) ==
            FL.EncodeLog(codec, [desc] + (a + b))
  {
    FL.EncodeAppend(codec, [], desc);
    assert [] + [desc] == [desc];
    FL.EncodeConcat(codec, a, b);
    FL.EncodeConcat(codec, [desc], a + b);
    FL.Associative(FL.EncodeFrame(codec, desc), FL.EncodeLog(codec, a), FL.EncodeLog(codec, b));
  }

  lemma EncodePushed(
    codec: FL.Codec<TraceFrame>, desc: TraceFrame, fs: seq<TraceFrame>, ms: seq<TraceFrame>, f: TraceFrame)
    ensures FL.EncodeLog(codec, [desc] + fs) + FL.EncodeLog(codec, ms) + FL.EncodeFrame(codec, f) ==
            FL.EncodeLog(codec, [desc] + (fs + ms + [f]))
  {
    FL.EncodeConcat(codec, [desc] + fs, ms);
    FL.EncodeAppend(codec, [desc] + fs + ms, f);
    assert [desc] + fs + ms + [f] == [desc] + (fs + ms + [f]);
  }

  // ----- the sampling period -----

  /** The scraper that samples an exporter into a trace */
  class TraceScraper {
    const trace: TraceState
    var period: nat
    ghost const initial: nat
    ghost const start: nat    // the number of pushes before this scraper's first

    /** The period has doubled once per fold that the trace has been through since. */
    ghost predicate Valid()
      reads this, trace
    {
      trace.Valid() && start <= |trace.history| && period == initial * Pow2(FoldsIn(trace.history[start..]))
    }

    constructor (trace: TraceState, period: nat)
      requires trace.Valid()
      ensures Valid() && this.trace == trace && this.period == period && initial == period && start == |trace.history|
    {
      hide TraceState.Valid, FoldsIn, Pow2;
      this.trace := trace;
      this.period := period;
      this.initial := period;
      this.start := |trace.history|;
      NoFoldsYet(trace.history, period);
    }

    /** `scrape_trace`: a push that folds answers with twice the current sampling period */
    method ScrapeTrace(e: Push)
      requires Valid() && GoodPush(e, trace.gauges)
      modifies this`period, trace
      ensures Valid() && |trace.history| == |old(trace.history)| + 1
      ensures trace.history[..|old(trace.history)|] == old(trace.history)
              && trace.history[|old(trace.history)|].push == e
      ensures trace.history[|old(trace.history)|].folds <==>
              |FL.EncodeLog(trace.codec, [trace.desc] + PushFrames(old(trace.frames), e))| > trace.maxSize
    {
      hide TraceState.Valid, PushFrames, Pow2, FL.EncodeLog, GoodPush, FoldsIn;
      ghost var before := trace.history;
      var folded := trace.Push(e);
      FoldsMore(before, start, Event(e, folded));
      if folded {
        Doubling(initial, FoldsIn(before[start..]));
        period := period * 2;
      }
    }
  }

  lemma FoldsMore(es: seq<Event>, start: nat, e: Event)
    requires start <= |es|
    ensures FoldsIn((es + [e])[start..]) == FoldsIn(es[start..]) + (if e.folds then 1 else 0)
  {
    assert (es + [e])[start..] == es[start..] + [e];
    assert (es[start..] + [e])[..|es| - start] == es[start..];
  }

  lemma NoFoldsYet(es: seq<Event>, period: nat)
    ensures period == period * Pow2(FoldsIn(es[|es|..]))
  {
  }

  lemma Doubling(a: nat, n: nat)
    ensures a * Pow2(n + 1) == (a * Pow2(n)) * 2
  {
  }
}
