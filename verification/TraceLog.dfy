/** The contents of a trace under pushes and folds, as a value: which frames it holds after any run. */
module TraceLog {
  import opened Basics
  import opened Counters
  import opened TraceFrames

  // ----- metadata and counter frames -----

  function Metas(fs: seq<TraceFrame>): (r: seq<TraceFrame>)
    ensures forall i :: 0 <= i < |r| ==> r[i].CounterMetadata?
  {
    if fs == [] then [] else
      Metas(fs[..|fs| - 1]) + (if fs[|fs| - 1].CounterMetadata? then [fs[|fs| - 1]] else [])
  }

  function Counts(fs: seq<TraceFrame>): (r: seq<TraceFrame>)
    ensures forall i :: 0 <= i < |r| ==> r[i].Counters?
    ensures forall i :: 0 <= i < |r| ==> r[i] in fs
  {
    if fs == [] then [] else
      assert forall f :: f in fs[..|fs| - 1] ==> f in fs;
      Counts(fs[..|fs| - 1]) + (if fs[|fs| - 1].Counters? then [fs[|fs| - 1]] else [])
  }

  lemma {:induction false} FilterAppend(a: seq<TraceFrame>, b: seq<TraceFrame>)
    ensures Metas(a + b) == Metas(a) + Metas(b)
    ensures Counts(a + b) == Counts(a) + Counts(b)
  {
    if b == [] {
      assert a + b == a;
    } else {
      FilterAppend(a, b[..|b| - 1]);
      assert (a + b)[..|a + b| - 1] == a + b[..|b| - 1];
    }
  }

  lemma {:induction false} AllMetas(ms: seq<TraceFrame>)
    requires forall i :: 0 <= i < |ms| ==> ms[i].CounterMetadata?
    ensures Metas(ms) == ms && Counts(ms) == []
  {
    if ms != [] { AllMetas(ms[..|ms| - 1]); }
  }

  lemma {:induction false} AllCounts(cs: seq<TraceFrame>)
    requires forall i :: 0 <= i < |cs| ==> cs[i].Counters?
    ensures Counts(cs) == cs && Metas(cs) == []
  {
    if cs != [] { AllCounts(cs[..|cs| - 1]); }
  }

  /** The `counters` index: what the metadata frames say, later ones winning */
  function CountersOf(fs: seq<TraceFrame>): map<string, Metadata> {
    if fs == [] then map[] else
      var rest := CountersOf(fs[..|fs| - 1]);
      match fs[|fs| - 1]
      case CounterMetadata(_, m) => rest[m.name := m]
      case _ => rest
  }

  /** The `series` index: the values of one id, in order, with the times of their frames */
  function Project(ts: real, cs: seq<TraceCounter>, id: nat): seq<(real, CounterType)> {
    if cs == [] then [] else
      Project(ts, cs[..|cs| - 1], id) +
      (if cs[|cs| - 1].id == id then [(ts, cs[|cs| - 1].value)] else [])
  }

  function ProjectFrame(f: TraceFrame, id: nat): seq<(real, CounterType)> {
    if f.Counters? then Project(f.ts, f.counters, id) else []
  }

  function Projection(fs: seq<TraceFrame>, id: nat): seq<(real, CounterType)> {
    if fs == [] then [] else Projection(fs[..|fs| - 1], id) + ProjectFrame(fs[|fs| - 1], id)
  }

  // ----- what a trace keeps -----

  /** The metadata frames number the names 0, 1, 2, ... in order, each name once. */
  ghost predicate Dense(ms: seq<TraceFrame>)
    requires forall i :: 0 <= i < |ms| ==> ms[i].CounterMetadata?
  {
    && (forall i :: 0 <= i < |ms| ==> ms[i].metadata.id == i)
    && (forall i, j :: 0 <= i < j < |ms| ==> ms[i].metadata.name != ms[j].metadata.name)
  }

  /** A counter frame names declared ids only, each once, each with the kind its name has. */
  ghost predicate Declared(f: TraceFrame, ms: seq<TraceFrame>, gauges: iset<string>)
    requires f.Counters? && forall i :: 0 <= i < |ms| ==> ms[i].CounterMetadata?
  {
    && NoDupIds(f.counters)
    && forall k :: 0 <= k < |f.counters| ==>
         var c := f.counters[k];
         c.id < |ms| && (c.value.Gauge? <==> ms[c.id].metadata.name in gauges)
  }

  /** Every counter frame is preceded by the metadata of all its ids. */
  ghost predicate Sound(fs: seq<TraceFrame>, gauges: iset<string>) {
    && Dense(Metas(fs))
    && (forall i :: 0 <= i < |fs| ==> !fs[i].Desc?)
    && forall i :: 0 <= i < |fs| && fs[i].Counters? ==> Declared(fs[i], Metas(fs[..i]), gauges)
  }

  lemma DeclaredLater(f: TraceFrame, ms: seq<TraceFrame>, more: seq<TraceFrame>, gauges: iset<string>)
    requires f.Counters? && (forall i :: 0 <= i < |ms| ==> ms[i].CounterMetadata?)
    requires (forall i :: 0 <= i < |more| ==> more[i].CounterMetadata?) && Declared(f, ms, gauges)
    ensures Declared(f, ms + more, gauges)
  {
  }

  lemma SoundCounts(fs: seq<TraceFrame>, gauges: iset<string>, k: nat)
    requires Sound(fs, gauges) && k < |Counts(fs)|
    ensures Declared(Counts(fs)[k], Metas(fs), gauges)
  {
    hide Metas, Counts, Dense, Declared;
    var f := Counts(fs)[k];
    var i :| 0 <= i < |fs| && fs[i] == f;
    assert fs == fs[..i] + fs[i..];
    FilterAppend(fs[..i], fs[i..]);
    DeclaredLater(f, Metas(fs[..i]), Metas(fs[i..]), gauges);
  }

  /** Counter frames that a fold can merge */
  ghost predicate Mergeable(cs: seq<TraceFrame>) {
    && (forall i :: 0 <= i < |cs| ==> cs[i].Counters?)
    && forall i, j :: 0 <= i < |cs| && 0 <= j < |cs| ==> Compatible(cs[i].counters, cs[j].counters)
  }

  lemma DeclaredCompatible(f: TraceFrame, g: TraceFrame, ms: seq<TraceFrame>, gauges: iset<string>)
    requires f.Counters? && g.Counters? && forall i :: 0 <= i < |ms| ==> ms[i].CounterMetadata?
    requires Declared(f, ms, gauges) && Declared(g, ms, gauges)
    ensures Compatible(f.counters, g.counters)
  {
  }

  lemma SoundMergeable(fs: seq<TraceFrame>, gauges: iset<string>)
    requires Sound(fs, gauges)
    ensures Mergeable(Counts(fs))
  {
    var cs := Counts(fs);
    forall i, j | 0 <= i < |cs| && 0 <= j < |cs| ensures Compatible(cs[i].counters, cs[j].counters) {
      SoundCounts(fs, gauges, i);
      SoundCounts(fs, gauges, j);
      DeclaredCompatible(cs[i], cs[j], Metas(fs), gauges);
    }
  }

  // ----- folding -----

  /** `par_chunks(2)` and `flat_map`: adjacent pairs are summed, an odd one out is dropped. */
  function FoldCounters(cs: seq<TraceFrame>): (r: seq<TraceFrame>)
    requires Mergeable(cs)
    ensures |r| == |cs| / 2
    ensures forall k :: 0 <= k < |r| ==> r[k] == Sum(cs[2 * k], cs[2 * k + 1])
  {
    seq(|cs| / 2, k requires 0 <= k < |cs| / 2 => Sum(cs[2 * k], cs[2 * k + 1]))
  }

  /** What `fold` keeps: all metadata first, then the merged counter frames */
  function FoldFrames(fs: seq<TraceFrame>): seq<TraceFrame>
    requires Mergeable(Counts(fs))
  {
    Metas(fs) + FoldCounters(Counts(fs))
  }

  lemma FoldFilters(fs: seq<TraceFrame>)
    requires Mergeable(Counts(fs))
    ensures Metas(FoldFrames(fs)) == Metas(fs)
    ensures Counts(FoldFrames(fs)) == FoldCounters(Counts(fs))
  {
    FilterAppend(Metas(fs), FoldCounters(Counts(fs)));
    AllMetas(Metas(fs));
    AllCounts(FoldCounters(Counts(fs)));
  }

  lemma SumDeclared(f: TraceFrame, g: TraceFrame, ms: seq<TraceFrame>, gauges: iset<string>)
    requires f.Counters? && g.Counters? && (forall i :: 0 <= i < |ms| ==> ms[i].CounterMetadata?)
    requires Declared(f, ms, gauges) && Declared(g, ms, gauges) && Compatible(f.counters, g.counters)
    ensures Declared(Sum(f, g), ms, gauges)
  {
    var h := Sum(f, g);
    forall k | 0 <= k < |h.counters|
      ensures h.counters[k].id == g.counters[k].id && h.counters[k].value.SameType(g.counters[k].value)
    {
      CompatibleOne(f.counters, g.counters, k);
    }
  }

  lemma FoldedDeclared(fs: seq<TraceFrame>, gauges: iset<string>, k: nat)
    requires Sound(fs, gauges) && Mergeable(Counts(fs)) && k < |FoldCounters(Counts(fs))|
    ensures FoldCounters(Counts(fs))[k].Counters?
    ensures Declared(FoldCounters(Counts(fs))[k], Metas(fs), gauges)
  {
    hide Sound, Declared, Metas, Counts, Compatible;
    SoundCounts(fs, gauges, 2 * k);
    SoundCounts(fs, gauges, 2 * k + 1);
    SumDeclared(Counts(fs)[2 * k], Counts(fs)[2 * k + 1], Metas(fs), gauges);
  }

  lemma SoundLayout(ms: seq<TraceFrame>, cs: seq<TraceFrame>, gauges: iset<string>)
    requires (forall i :: 0 <= i < |ms| ==> ms[i].CounterMetadata?) && Dense(ms)
    requires forall k :: 0 <= k < |cs| ==> cs[k].Counters? && Declared(cs[k], ms, gauges)
    ensures Sound(ms + cs, gauges)
  {
    hide Dense, Declared, Metas, Counts;
    LayoutMetas(ms, cs);
    var r := ms + cs;
    forall i | 0 <= i < |r| && r[i].Counters? ensures Declared(r[i], Metas(r[..i]), gauges) {
      var k := i - |ms|;
      assert r[i] == cs[k];
      LayoutMetas(ms, cs[..k]);
      assert r[..i] == ms + cs[..k];
    }
  }

  lemma LayoutMetas(ms: seq<TraceFrame>, cs: seq<TraceFrame>)
    requires forall i :: 0 <= i < |ms| ==> ms[i].CounterMetadata?
    requires forall k :: 0 <= k < |cs| ==> cs[k].Counters?
    ensures Metas(ms + cs) == ms && Counts(ms + cs) == cs
  {
    FilterAppend(ms, cs);
    AllMetas(ms);
    AllCounts(cs);
  }

  /** A fold keeps every id and name, and leaves a sound trace. */
  lemma FoldKeepsSound(fs: seq<TraceFrame>, gauges: iset<string>)
    requires Sound(fs, gauges)
    ensures Mergeable(Counts(fs)) && Sound(FoldFrames(fs), gauges) && Metas(FoldFrames(fs)) == Metas(fs)
  {
    SoundMergeable(fs, gauges);
    FoldFilters(fs);
    var cs := FoldCounters(Counts(fs));
    forall k | 0 <= k < |cs| ensures cs[k].Counters? && Declared(cs[k], Metas(fs), gauges) {
      FoldedDeclared(fs, gauges, k);
    }
    SoundLayout(Metas(fs), cs, gauges);
  }

  // ----- pushing -----

  ghost predicate NameAt(ms: seq<TraceFrame>, i: int, name: string) {
    0 <= i < |ms| && ms[i].CounterMetadata? && ms[i].metadata.name == name
  }

  ghost predicate Named(ms: seq<TraceFrame>, name: string) {
    exists i :: NameAt(ms, i, name)
  }

  lemma NamedAppend(a: seq<TraceFrame>, b: seq<TraceFrame>, name: string)
    ensures Named(a + b, name) <==> Named(a, name) || Named(b, name)
  {
    if i :| NameAt(a, i, name) { assert NameAt(a + b, i, name); }
    if i :| NameAt(b, i, name) { assert NameAt(a + b, |a| + i, name); }
    if i :| NameAt(a + b, i, name) {
      if i < |a| { assert NameAt(a, i, name); } else { assert NameAt(b, i - |a|, name); }
    }
  }

  /** `check_counter`: metadata frames for the names not seen before, numbered from nextId */
  function NewMetas(
    known: set<string>, nextId: nat, snaps: seq<CounterSnapshot>, stamps: seq<real>): (r: seq<TraceFrame>)
    requires |stamps| == |snaps|
    ensures forall i :: 0 <= i < |r| ==> r[i].CounterMetadata? && r[i].metadata.id == nextId + i
    ensures forall i :: 0 <= i < |r| ==> r[i].metadata.name !in known
    ensures forall i, j :: 0 <= i < j < |r| ==> r[i].metadata.name != r[j].metadata.name
    ensures forall s :: s in snaps && s.name !in known ==> Named(r, s.name)
    decreases |snaps|
  {
    if snaps == [] then [] else
      var s := snaps[0];
      assert snaps == [s] + snaps[1..];
      if s.name in known then NewMetas(known, nextId, snaps[1..], stamps[1..])
      else
        var first := CounterMetadata(stamps[0], Metadata(nextId, s.name, s.doc));
        var rest := NewMetas(known + {s.name}, nextId + 1, snaps[1..], stamps[1..]);
        var r := [first] + rest;
        assert forall i :: 0 < i < |r| ==> r[i] == rest[i - 1];
        assert forall s' :: s' in snaps && s'.name !in known ==> Named(r, s'.name) by {
          forall s' | s' in snaps && s'.name !in known ensures Named(r, s'.name) {
            if s'.name == s.name {
              assert NameAt(r, 0, s'.name);
            } else {
              var i :| NameAt(rest, i, s'.name);
              assert NameAt(r, i + 1, s'.name);
            }
          }
        }
        r
  }

  /** The index finds each name's own metadata. */
  lemma {:induction false} IndexLookup(fs: seq<TraceFrame>, name: string)
    requires Dense(Metas(fs))
    ensures name in CountersOf(fs) <==> Named(Metas(fs), name)
    ensures name in CountersOf(fs) ==>
              var m := CountersOf(fs)[name];
              m.name == name && m.id < |Metas(fs)| && Metas(fs)[m.id].metadata == m
  {
    if fs == [] {
      assert Metas(fs) == [];
    } else {
      var front, last := fs[..|fs| - 1], fs[|fs| - 1];
      var ms, ns := Metas(fs), Metas(front);
      assert forall i :: 0 <= i < |ns| ==> ms[i] == ns[i];
      IndexLookup(front, name);
      var tail := if last.CounterMetadata? then [last] else [];
      assert ms == ns + tail;
      NamedAppend(ns, tail, name);
      if last.CounterMetadata? {
        assert ms[|ns|] == last;
        assert NameAt(tail, 0, last.metadata.name);
      }
    }
  }

  /** A new metadata frame carries the description, and the time, of the first snapshot with its name. */
  lemma {:induction false} NewMetaSource(
    known: set<string>, nextId: nat, snaps: seq<CounterSnapshot>, stamps: seq<real>, i: nat) returns (k: nat)
    requires |stamps| == |snaps| && i < |NewMetas(known, nextId, snaps, stamps)|
    ensures k < |snaps| && forall l :: 0 <= l < k ==> snaps[l].name != snaps[k].name
    ensures NewMetas(known, nextId, snaps, stamps)[i] ==
            CounterMetadata(stamps[k], Metadata(nextId + i, snaps[k].name, snaps[k].doc))
    decreases |snaps|
  {
    k := 0;
    var s, rest, more := snaps[0], snaps[1..], stamps[1..];
    var r := NewMetas(known, nextId, snaps, stamps);
    if s.name in known {
      k := NewMetaSource(known, nextId, rest, more, i);
      assert r[i].metadata.name !in known;
      k := k + 1;
    } else if i > 0 {
      k := NewMetaSource(known + {s.name}, nextId + 1, rest, more, i - 1);
      assert r[0].metadata.name == s.name;
      k := k + 1;
    }
  }

  /** A push's own counter frame */
  function SampleFrame(counters: map<string, Metadata>, snaps: seq<CounterSnapshot>, now: real): (r: TraceFrame)
    requires forall s :: s in snaps ==> s.name in counters
    ensures r.Counters? && |r.counters| == |snaps|
    ensures forall i :: 0 <= i < |snaps| ==> r.counters[i] == TraceCounter(counters[snaps[i].name].id, snaps[i].ctype)
  {
    Counters(now, seq(|snaps|, i requires 0 <= i < |snaps| => TraceCounter(counters[snaps[i].name].id, snaps[i].ctype)))
  }

  /** One push: the snapshots of a profile, with the clock readings for the metadata and for the sample */
  datatype Push = Push(snaps: seq<CounterSnapshot>, stamps: seq<real>, now: real)

  /** What the callers provide: distinct names (a profile lists each metric once), a name keeping its kind */
  ghost predicate GoodPush(e: Push, gauges: iset<string>) {
    && |e.stamps| == |e.snaps|
    && (forall i, j :: 0 <= i < j < |e.snaps| ==> e.snaps[i].name != e.snaps[j].name)
    && (forall i :: 0 <= i < |e.snaps| ==> (e.snaps[i].ctype.Gauge? <==> e.snaps[i].name in gauges))
  }

  function WithMetas(fs: seq<TraceFrame>, e: Push): seq<TraceFrame>
    requires |e.stamps| == |e.snaps|
  {
    fs + NewMetas(CountersOf(fs).Keys, |Metas(fs)|, e.snaps, e.stamps)
  }

  lemma WithMetasFilters(fs: seq<TraceFrame>, e: Push)
    requires |e.stamps| == |e.snaps|
    ensures Metas(WithMetas(fs, e)) == Metas(fs) + NewMetas(CountersOf(fs).Keys, |Metas(fs)|, e.snaps, e.stamps)
    ensures Counts(WithMetas(fs, e)) == Counts(fs)
  {
    var ns := NewMetas(CountersOf(fs).Keys, |Metas(fs)|, e.snaps, e.stamps);
    FilterAppend(fs, ns);
    AllMetas(ns);
  }

  lemma WithMetasDense(fs: seq<TraceFrame>, e: Push)
    requires Dense(Metas(fs)) && |e.stamps| == |e.snaps|
    ensures Dense(Metas(WithMetas(fs, e)))
  {
    WithMetasFilters(fs, e);
    hide Metas, CountersOf, NewMetas, WithMetas;
    var ns := NewMetas(CountersOf(fs).Keys, |Metas(fs)|, e.snaps, e.stamps);
    var ms := Metas(fs);
    forall i | 0 <= i < |ms| ensures ms[i].metadata.name in CountersOf(fs) {
      IndexLookup(fs, ms[i].metadata.name);
      assert NameAt(ms, i, ms[i].metadata.name);
    }
  }

  /** After the metadata, every name of the push has an id: `counter_id(..).unwrap()` does not fail. */
  lemma WithMetasKnows(fs: seq<TraceFrame>, e: Push, s: CounterSnapshot)
    requires Dense(Metas(fs)) && |e.stamps| == |e.snaps| && s in e.snaps
    ensures s.name in CountersOf(WithMetas(fs, e))
  {
    WithMetasFilters(fs, e);
    WithMetasDense(fs, e);
    hide Metas, CountersOf, NewMetas, WithMetas;
    IndexLookup(fs, s.name);
    IndexLookup(WithMetas(fs, e), s.name);
    NamedAppend(Metas(fs), NewMetas(CountersOf(fs).Keys, |Metas(fs)|, e.snaps, e.stamps), s.name);
  }

  /** The sample of a push */
  function Sample(fs: seq<TraceFrame>, e: Push): (r: TraceFrame)
    requires Dense(Metas(fs)) && |e.stamps| == |e.snaps|
    ensures r.Counters? && r.ts == e.now
  {
    assert forall s :: s in e.snaps ==> s.name in CountersOf(WithMetas(fs, e)) by {
      forall s | s in e.snaps ensures s.name in CountersOf(WithMetas(fs, e)) {
        WithMetasKnows(fs, e, s);
      }
    }
    SampleFrame(CountersOf(WithMetas(fs, e)), e.snaps, e.now)
  }

  /** The frames after a push and before any fold */
  function PushFrames(fs: seq<TraceFrame>, e: Push): seq<TraceFrame>
    requires Dense(Metas(fs)) && |e.stamps| == |e.snaps|
  {
    WithMetas(fs, e) + [Sample(fs, e)]
  }

  /** The frame holds the push's values under the ids that ms gives to their names. */
  ghost predicate IsSampleOf(f: TraceFrame, e: Push, ms: seq<TraceFrame>)
    requires forall i :: 0 <= i < |ms| ==> ms[i].CounterMetadata?
  {
    && f.Counters? && f.ts == e.now && |f.counters| == |e.snaps|
    && forall k :: 0 <= k < |e.snaps| ==>
         var c := f.counters[k];
         c.id < |ms| && ms[c.id].metadata.name == e.snaps[k].name && c.value == e.snaps[k].ctype
  }

  lemma SampleIs(fs: seq<TraceFrame>, e: Push)
    requires Dense(Metas(fs)) && |e.stamps| == |e.snaps|
    ensures IsSampleOf(Sample(fs, e), e, Metas(WithMetas(fs, e)))
  {
    WithMetasDense(fs, e);
    var gs, f := WithMetas(fs, e), Sample(fs, e);
    hide Metas, CountersOf, WithMetas, Dense;
    forall i | 0 <= i < |e.snaps|
      ensures var c := f.counters[i];
              c.id < |Metas(gs)| && Metas(gs)[c.id].metadata.name == e.snaps[i].name && c.value == e.snaps[i].ctype
    {
      WithMetasKnows(fs, e, e.snaps[i]);
      IndexLookup(gs, e.snaps[i].name);
    }
  }

  lemma SampleDeclared(fs: seq<TraceFrame>, e: Push, gauges: iset<string>)
    requires Dense(Metas(fs)) && GoodPush(e, gauges)
    ensures Declared(Sample(fs, e), Metas(WithMetas(fs, e)), gauges)
  {
    SampleIs(fs, e);
    hide Metas, CountersOf, WithMetas, Dense;
  }

  lemma SampleLast(gs: seq<TraceFrame>, f: TraceFrame)
    requires f.Counters?
    ensures Metas(gs + [f]) == Metas(gs) && Counts(gs + [f]) == Counts(gs) + [f]
  {
    FilterAppend(gs, [f]);
    AllCounts([f]);
  }

  lemma AppendKeepsSound(fs: seq<TraceFrame>, ms: seq<TraceFrame>, f: TraceFrame, gauges: iset<string>)
    requires Sound(fs, gauges) && f.Counters? && (forall i :: 0 <= i < |ms| ==> ms[i].CounterMetadata?)
    requires Dense(Metas(fs + ms)) && Declared(f, Metas(fs + ms), gauges)
    ensures Sound(fs + ms + [f], gauges)
  {
    hide Dense, Declared, Metas;
    SampleLast(fs + ms, f);
    var r := fs + ms + [f];
    forall i | 0 <= i < |r| && r[i].Counters? ensures Declared(r[i], Metas(r[..i]), gauges) {
      if i < |fs| {
        assert r[..i] == fs[..i] && r[i] == fs[i];
      } else {
        assert r[..i] == fs + ms;
      }
    }
  }

  /** A push keeps the trace sound: ids stay dense and every id of the new sample is declared before it. */
  lemma PushKeepsSound(fs: seq<TraceFrame>, e: Push, gauges: iset<string>)
    requires Sound(fs, gauges) && GoodPush(e, gauges)
    ensures Sound(PushFrames(fs, e), gauges)
    ensures Metas(fs) <= Metas(PushFrames(fs, e))
    ensures Counts(PushFrames(fs, e)) == Counts(fs) + [Sample(fs, e)]
  {
    WithMetasFilters(fs, e);
    WithMetasDense(fs, e);
    SampleDeclared(fs, e, gauges);
    hide Declared, GoodPush, Sample, Metas, Counts, NewMetas, CountersOf;
    var ms := NewMetas(CountersOf(fs).Keys, |Metas(fs)|, e.snaps, e.stamps);
    AppendKeepsSound(fs, ms, Sample(fs, e), gauges);
    SampleLast(WithMetas(fs, e), Sample(fs, e));
  }

  // ----- runs -----

  /** A trace with its history: the raw samples, and the blocks of sample numbers its counter frames stand for */
  datatype State = State(frames: seq<TraceFrame>, raw: seq<TraceFrame>, blocks: seq<seq<nat>>)

  const EMPTY := State([], [], [])

  /** A push, and whether the file has then outgrown its limit */
  datatype Event = Event(push: Push, folds: bool)

  function FoldBlocks(bs: seq<seq<nat>>): (r: seq<seq<nat>>)
    ensures |r| == |bs| / 2
    ensures forall k :: 0 <= k < |r| ==> r[k] == bs[2 * k] + bs[2 * k + 1]
  {
    seq(|bs| / 2, k requires 0 <= k < |bs| / 2 => bs[2 * k] + bs[2 * k + 1])
  }

  ghost function Pushed(st: State, e: Push): State
    requires Dense(Metas(st.frames)) && |e.stamps| == |e.snaps|
  {
    st.(frames := PushFrames(st.frames, e), raw := st.raw + [Sample(st.frames, e)], blocks := st.blocks + [[|st.raw|]])
  }

  ghost function Folded(st: State): State
    requires Mergeable(Counts(st.frames))
  {
    State(FoldFrames(st.frames), st.raw, FoldBlocks(st.blocks))
  }

  ghost predicate GoodPushes(es: seq<Event>, gauges: iset<string>) {
    forall i :: 0 <= i < |es| ==> GoodPush(es[i].push, gauges)
  }

  /** The state after a run of pushes */
  ghost function Run(es: seq<Event>, gauges: iset<string>): (st: State)
    requires GoodPushes(es, gauges)
    ensures Sound(st.frames, gauges)
  {
    if es == [] then EMPTY else
      var st := Run(es[..|es| - 1], gauges);
      var e := es[|es| - 1];
      PushKeepsSound(st.frames, e.push, gauges);
      var pushed := Pushed(st, e.push);
      FoldKeepsSound(pushed.frames, gauges);
      if e.folds then Folded(pushed) else pushed
  }

  /** The last push of a run, and the fold it may have set off */
  lemma RunLast(es: seq<Event>, gauges: iset<string>)
    requires es != [] && GoodPushes(es, gauges)
    ensures var e := es[|es| - 1];
            var st := Run(es[..|es| - 1], gauges);
            && GoodPush(e.push, gauges) && Sound(st.frames, gauges) && Mergeable(Counts(Pushed(st, e.push).frames))
            && Run(es, gauges) == if e.folds then Folded(Pushed(st, e.push)) else Pushed(st, e.push)
  {
    hide Pushed, Folded, Dense, Declared, Mergeable;
    var e := es[|es| - 1];
    var st := Run(es[..|es| - 1], gauges);
    PushedIs(st, e.push, gauges);
    FoldKeepsSound(Pushed(st, e.push).frames, gauges);
  }

  lemma PushedIs(st: State, e: Push, gauges: iset<string>)
    requires Sound(st.frames, gauges) && GoodPush(e, gauges)
    ensures var st', f := Pushed(st, e), Sample(st.frames, e);
            && Sound(st'.frames, gauges) && Metas(st.frames) <= Metas(st'.frames)
            && Counts(st'.frames) == Counts(st.frames) + [f]
            && st' == State(PushFrames(st.frames, e), st.raw + [f], st.blocks + [[|st.raw|]])
  {
    hide Declared, PushFrames, Sample, Metas, Counts;
    PushKeepsSound(st.frames, e, gauges);
  }

  lemma FoldedIs(st: State)
    requires Mergeable(Counts(st.frames))
    ensures var st' := Folded(st);
            && Metas(st'.frames) == Metas(st.frames) && Counts(st'.frames) == FoldCounters(Counts(st.frames))
            && st'.raw == st.raw && st'.blocks == FoldBlocks(st.blocks)
  {
    hide FoldFrames, FoldCounters, FoldBlocks, Metas, Counts, Mergeable;
    FoldFilters(st.frames);
  }

  // ----- what the stored frames mean -----

  /** The samples with the given numbers */
  function Pick(raw: seq<TraceFrame>, b: seq<nat>): (r: seq<TraceFrame>)
    requires forall i :: 0 <= i < |b| ==> b[i] < |raw|
    ensures |r| == |b| && forall i :: 0 <= i < |b| ==> r[i] == raw[b[i]]
  {
    seq(|b|, i requires 0 <= i < |b| => raw[b[i]])
  }

  /** The blocks are nonempty, in order, and share no sample. */
  ghost predicate Ordered(bs: seq<seq<nat>>, n: nat) {
    && (forall k :: 0 <= k < |bs| ==> bs[k] != [])
    && (forall k, i :: 0 <= k < |bs| && 0 <= i < |bs[k]| ==> bs[k][i] < n)
    && (forall k, i, j :: 0 <= k < |bs| && 0 <= i < j < |bs[k]| ==> bs[k][i] < bs[k][j])
    && (forall k, l, i, j :: 0 <= k < l < |bs| && 0 <= i < |bs[k]| && 0 <= j < |bs[l]| ==> bs[k][i] < bs[l][j])
  }

  /** What the samples of a run are when names keep their kinds and the clock does not run backwards */
  ghost predicate GoodSamples(raw: seq<TraceFrame>) {
    Samples(raw) && SameKinds(raw) && TimesOrdered(raw)
  }

  ghost predicate Increasing(b: seq<nat>, n: nat) {
    (forall i :: 0 <= i < |b| ==> b[i] < n) && forall i, j :: 0 <= i < j < |b| ==> b[i] < b[j]
  }

  lemma PickGood(raw: seq<TraceFrame>, b: seq<nat>)
    requires GoodSamples(raw) && Increasing(b, |raw|)
    ensures GoodSamples(Pick(raw, b))
  {
  }

  lemma PickUnbroken(raw: seq<TraceFrame>, b: seq<nat>)
    requires Samples(raw) && Unbroken(raw) && Increasing(b, |raw|)
    ensures Samples(Pick(raw, b)) && Unbroken(Pick(raw, b))
  {
    hide Has, ValueIn;
    var r := Pick(raw, b);
    forall i, j, k, id | 0 <= i < j < k < |r| && GaugeAt(r, i, id) && GaugeAt(r, k, id) ensures Has(r[j], id) {
      assert GaugeAt(raw, b[i], id) && GaugeAt(raw, b[k], id);
    }
  }

  /** Frame f summarises the samples numbered b. */
  ghost predicate Stands(f: TraceFrame, raw: seq<TraceFrame>, b: seq<nat>) {
    Samples(raw) && Increasing(b, |raw|) && Samples(Pick(raw, b)) && Summarises(f, Pick(raw, b))
  }

  ghost predicate BlocksSummarised(st: State) {
    && Samples(st.raw) && Ordered(st.blocks, |st.raw|)
    && |st.blocks| == |Counts(st.frames)|
    && forall k :: 0 <= k < |st.blocks| ==> Stands(Counts(st.frames)[k], st.raw, st.blocks[k])
  }

  lemma FoldBlocksOrdered(bs: seq<seq<nat>>, n: nat)
    requires Ordered(bs, n)
    ensures Ordered(FoldBlocks(bs), n)
  {
    var r := FoldBlocks(bs);
    forall k, i | 0 <= k < |r| && 0 <= i < |r[k]|
      ensures r[k][i] == if i < |bs[2 * k]| then bs[2 * k][i] else bs[2 * k + 1][i - |bs[2 * k]|]
    {
    }
  }

  lemma OrderedIncreasing(bs: seq<seq<nat>>, n: nat, k: nat)
    requires Ordered(bs, n) && k < |bs|
    ensures Increasing(bs[k], n)
  {
  }

  /** The gauges that come back in frame g have lost nothing of the samples numbered x. */
  ghost predicate SeamAt(raw: seq<TraceFrame>, x: seq<nat>, g: TraceFrame) {
    Samples(raw) && Increasing(x, |raw|) && x != [] && g.Counters? && Samples(Pick(raw, x)) && Seamless(Pick(raw, x), g)
  }

  lemma TwoStandIff(f: TraceFrame, g: TraceFrame, raw: seq<TraceFrame>, x: seq<nat>, y: seq<nat>)
    requires GoodSamples(raw) && Stands(f, raw, x) && Stands(g, raw, y) && Increasing(x + y, |raw|)
    ensures f.Counters? && g.Counters? && Compatible(f.counters, g.counters)
    ensures Stands(Sum(f, g), raw, x + y) <==> SeamAt(raw, x, g)
    ensures Unbroken(raw) ==> SeamAt(raw, x, g)
  {
    hide SummaryOf, SameKinds, Unbroken, Seamless, TimesOrdered, SameIds, NoDupIds, Compatible;
    assert Pick(raw, x + y) == Pick(raw, x) + Pick(raw, y);
    PickGood(raw, x + y);
    SumSummarisesIff(f, g, Pick(raw, x), Pick(raw, y));
    if Unbroken(raw) {
      PickUnbroken(raw, x + y);
      UnbrokenIsSeamless(Pick(raw, x), Pick(raw, y), g);
    }
  }

  /** Each pair that a fold merges is seamless. */
  ghost predicate SeamlessFold(st: State)
    requires |st.blocks| == |Counts(st.frames)|
  {
    forall k :: 0 <= k < |st.blocks| / 2 ==> SeamAt(st.raw, st.blocks[2 * k], Counts(st.frames)[2 * k + 1])
  }

  lemma FoldedPair(st: State, k: nat)
    requires BlocksSummarised(st) && GoodSamples(st.raw) && Mergeable(Counts(st.frames)) && k < |st.blocks| / 2
    ensures var cs := Counts(st.frames);
            && (Stands(FoldCounters(cs)[k], st.raw, FoldBlocks(st.blocks)[k]) <==>
                SeamAt(st.raw, st.blocks[2 * k], cs[2 * k + 1]))
            && (Unbroken(st.raw) ==> SeamAt(st.raw, st.blocks[2 * k], cs[2 * k + 1]))
  {
    hide Stands, SeamAt, Ordered, Sum, Counts, GoodSamples, Samples, Unbroken;
    FoldBlocksOrdered(st.blocks, |st.raw|);
    OrderedIncreasing(FoldBlocks(st.blocks), |st.raw|, k);
    var cs := Counts(st.frames);
    TwoStandIff(cs[2 * k], cs[2 * k + 1], st.raw, st.blocks[2 * k], st.blocks[2 * k + 1]);
  }

  /** After a fold the frames summarise the merged blocks exactly when the fold is seamless. */
  lemma FoldKeepsSummariesIff(st: State)
    requires BlocksSummarised(st) && GoodSamples(st.raw) && Mergeable(Counts(st.frames))
    ensures BlocksSummarised(Folded(st)) <==> SeamlessFold(st)
    ensures Unbroken(st.raw) ==> SeamlessFold(st)
  {
    hide Stands, SeamAt, Ordered, Folded, FoldCounters, FoldBlocks, Mergeable, Counts, GoodSamples, Samples, Unbroken;
    FoldedIs(st);
    FoldBlocksOrdered(st.blocks, |st.raw|);
    var cs := Counts(st.frames);
    forall k | 0 <= k < |st.blocks| / 2
      ensures Stands(FoldCounters(cs)[k], st.raw, FoldBlocks(st.blocks)[k]) <==>
              SeamAt(st.raw, st.blocks[2 * k], cs[2 * k + 1])
      ensures Unbroken(st.raw) ==> SeamAt(st.raw, st.blocks[2 * k], cs[2 * k + 1])
    {
      FoldedPair(st, k);
    }
  }

  lemma StandsLater(f: TraceFrame, raw: seq<TraceFrame>, b: seq<nat>, g: TraceFrame)
    requires Stands(f, raw, b) && g.Counters? && NoDupIds(g.counters)
    ensures Stands(f, raw + [g], b)
  {
    hide Summarises;
    assert Pick(raw + [g], b) == Pick(raw, b);
  }

  lemma NewStands(raw: seq<TraceFrame>, g: TraceFrame)
    requires Samples(raw) && g.Counters? && NoDupIds(g.counters)
    ensures Stands(g, raw + [g], [|raw|])
  {
    assert Pick(raw + [g], [|raw|]) == [g];
    SampleSummarisesItself(g);
  }

  lemma OrderedPush(bs: seq<seq<nat>>, n: nat)
    requires Ordered(bs, n)
    ensures Ordered(bs + [[n]], n + 1)
  {
  }

  lemma PushKeepsSummaries(st: State, e: Push, gauges: iset<string>)
    requires BlocksSummarised(st) && Sound(st.frames, gauges) && GoodPush(e, gauges)
    ensures BlocksSummarised(Pushed(st, e))
  {
    hide Stands, Pushed, Dense, PushFrames, Sample, GoodPush, Counts, Metas, Ordered, Declared, Samples;
    SampleGood(st.frames, e, gauges);
    var f := Sample(st.frames, e);
    PushedIs(st, e, gauges);
    NewStands(st.raw, f);
    OrderedPush(st.blocks, |st.raw|);
    var cs, bs := Counts(st.frames) + [f], st.blocks + [[|st.raw|]];
    SamplesAppend(st.raw, f);
    forall k | 0 <= k < |bs| ensures Stands(cs[k], st.raw + [f], bs[k]) {
      if k < |st.blocks| { StandsLater(cs[k], st.raw, bs[k], f); }
    }
  }

  lemma SampleGood(fs: seq<TraceFrame>, e: Push, gauges: iset<string>)
    requires Sound(fs, gauges) && GoodPush(e, gauges)
    ensures Dense(Metas(fs)) && |e.stamps| == |e.snaps| && NoDupIds(Sample(fs, e).counters)
  {
    hide Metas, Sample, Dense;
    SampleDeclared(fs, e, gauges);
  }

  lemma SamplesAppend(raw: seq<TraceFrame>, f: TraceFrame)
    requires Samples(raw) && f.Counters? && NoDupIds(f.counters)
    ensures Samples(raw + [f])
  {
  }

  lemma {:induction false} RawSize(es: seq<Event>, gauges: iset<string>)
    requires GoodPushes(es, gauges)
    ensures |Run(es, gauges).raw| == |es|
  {
    if es != [] {
      RawSize(es[..|es| - 1], gauges);
      RawGrowsBy(es, gauges);
    }
  }

  lemma RawGrowsBy(es: seq<Event>, gauges: iset<string>)
    requires es != [] && GoodPushes(es, gauges)
    ensures Dense(Metas(Run(es[..|es| - 1], gauges).frames)) && |es[|es| - 1].push.stamps| == |es[|es| - 1].push.snaps|
    ensures Run(es, gauges).raw ==
            Run(es[..|es| - 1], gauges).raw + [Sample(Run(es[..|es| - 1], gauges).frames, es[|es| - 1].push)]
  {
    hide Run, Sample, PushFrames, FoldFrames, FoldBlocks, Dense, Declared, Mergeable, Metas, Counts;
    RunLast(es, gauges);
  }

  lemma RawGrows(es: seq<Event>, gauges: iset<string>)
    requires es != [] && GoodPushes(es, gauges)
    ensures |Run(es, gauges).raw| == |es|
    ensures Run(es[..|es| - 1], gauges).raw == Run(es, gauges).raw[..|es| - 1]
  {
    hide Run, Sample, Dense;
    RawSize(es, gauges);
    RawSize(es[..|es| - 1], gauges);
    RawGrowsBy(es, gauges);
  }

  // ----- the samples of a run -----

  ghost function NamesOf(e: Push): set<string> {
    set s | s in e.snaps :: s.name
  }

  /** A gauge reported before and after a push is reported in it. */
  ghost predicate NoGaps(es: seq<Event>, gauges: iset<string>) {
    forall i, j, k, n ::
      0 <= i < j < k < |es| && n in gauges && n in NamesOf(es[i].push) && n in NamesOf(es[k].push) ==>
        n in NamesOf(es[j].push)
  }

  /** The clock does not run backwards. */
  ghost predicate ClockOrdered(es: seq<Event>) {
    forall i, j :: 0 <= i < j < |es| ==> es[i].push.now <= es[j].push.now
  }

  lemma SampleOfLater(f: TraceFrame, e: Push, ms: seq<TraceFrame>, more: seq<TraceFrame>)
    requires forall i :: 0 <= i < |more| ==> more[i].CounterMetadata?
    requires ms <= more && IsSampleOf(f, e, ms)
    ensures IsSampleOf(f, e, more)
  {
  }

  lemma MetasGrow(es: seq<Event>, gauges: iset<string>)
    requires es != [] && GoodPushes(es, gauges)
    ensures Metas(Run(es[..|es| - 1], gauges).frames) <= Metas(Run(es, gauges).frames)
  {
    hide Run, Pushed, Folded, Sample, PushFrames, Dense, Declared, Mergeable, Metas, Counts;
    RunLast(es, gauges);
    var st, e := Run(es[..|es| - 1], gauges), es[|es| - 1];
    PushedIs(st, e.push, gauges);
    FoldedIs(Pushed(st, e.push));
  }

  lemma LastSample(es: seq<Event>, gauges: iset<string>)
    requires es != [] && GoodPushes(es, gauges)
    ensures |Run(es, gauges).raw| == |es|
    ensures IsSampleOf(Run(es, gauges).raw[|es| - 1], es[|es| - 1].push, Metas(Run(es, gauges).frames))
  {
    hide Run, Folded, Sample, WithMetas, IsSampleOf, Dense, Declared, Mergeable, Metas, Counts, GoodPush;
    RunLast(es, gauges);
    var st, e := Run(es[..|es| - 1], gauges), es[|es| - 1];
    GoodStamps(e.push, gauges);
    RawSize(es, gauges);
    RawSize(es[..|es| - 1], gauges);
    RawGrowsBy(es, gauges);
    FoldedIs(Pushed(st, e.push));
    SampleIs(st.frames, e.push);
    SampleLast(WithMetas(st.frames, e.push), Sample(st.frames, e.push));
  }

  lemma GoodStamps(e: Push, gauges: iset<string>)
    requires GoodPush(e, gauges)
    ensures |e.stamps| == |e.snaps|
  {
  }

  /** Each raw sample holds its push's values, under the ids the trace ends with. */
  lemma {:induction false} RawSamples(es: seq<Event>, gauges: iset<string>, i: nat)
    requires GoodPushes(es, gauges) && i < |es|
    ensures |Run(es, gauges).raw| == |es|
    ensures IsSampleOf(Run(es, gauges).raw[i], es[i].push, Metas(Run(es, gauges).frames))
  {
    hide Run, Metas, IsSampleOf, GoodPush;
    LastSample(es, gauges);
    var front := es[..|es| - 1];
    if i < |front| {
      RawSamples(front, gauges, i);
      RawGrows(es, gauges);
      MetasGrow(es, gauges);
      SampleOfLater(Run(front, gauges).raw[i], es[i].push, Metas(Run(front, gauges).frames),
        Metas(Run(es, gauges).frames));
    }
  }

  lemma SamplesCompatible(f: TraceFrame, g: TraceFrame, d: Push, e: Push, ms: seq<TraceFrame>, gauges: iset<string>)
    requires (forall i :: 0 <= i < |ms| ==> ms[i].CounterMetadata?) && Dense(ms)
    requires GoodPush(d, gauges) && GoodPush(e, gauges) && IsSampleOf(f, d, ms) && IsSampleOf(g, e, ms)
    ensures NoDupIds(f.counters) && Compatible(f.counters, g.counters)
  {
  }

  /** A sample has an id exactly when its push reports the name, and a gauge under it only for a gauge's name. */
  lemma SampleReports(f: TraceFrame, e: Push, ms: seq<TraceFrame>, gauges: iset<string>, id: nat)
    requires (forall i :: 0 <= i < |ms| ==> ms[i].CounterMetadata?) && Dense(ms)
    requires GoodPush(e, gauges) && IsSampleOf(f, e, ms)
    ensures Has(f, id) <==> id < |ms| && ms[id].metadata.name in NamesOf(e)
    ensures Has(f, id) && ValueIn(f, id).Gauge? ==> ms[id].metadata.name in gauges
  {
    if i :| 0 <= i < |f.counters| && f.counters[i].id == id {
      assert e.snaps[i].name in NamesOf(e);
    }
    if id < |ms| && ms[id].metadata.name in NamesOf(e) {
      var s :| s in e.snaps && s.name == ms[id].metadata.name;
      var j :| 0 <= j < |e.snaps| && e.snaps[j] == s;
      assert f.counters[j].id == id;
    }
  }

  lemma SamplesUnbroken(raw: seq<TraceFrame>, es: seq<Event>, ms: seq<TraceFrame>, gauges: iset<string>)
    requires (forall i :: 0 <= i < |ms| ==> ms[i].CounterMetadata?) && Dense(ms)
    requires |raw| == |es| && GoodPushes(es, gauges) && NoGaps(es, gauges) && Samples(raw)
    requires forall i :: 0 <= i < |es| ==> IsSampleOf(raw[i], es[i].push, ms)
    ensures Unbroken(raw)
  {
    hide Dense, IsSampleOf, GoodPush, NoDupIds, Has, ValueIn, NamesOf;
    forall i, j, k, id | 0 <= i < j < k < |raw| && GaugeAt(raw, i, id) && GaugeAt(raw, k, id) ensures Has(raw[j], id) {
      SampleReports(raw[i], es[i].push, ms, gauges, id);
      SampleReports(raw[j], es[j].push, ms, gauges, id);
      SampleReports(raw[k], es[k].push, ms, gauges, id);
    }
  }

  lemma SamplesGood(raw: seq<TraceFrame>, es: seq<Event>, ms: seq<TraceFrame>, gauges: iset<string>)
    requires (forall i :: 0 <= i < |ms| ==> ms[i].CounterMetadata?) && Dense(ms)
    requires |raw| == |es| && GoodPushes(es, gauges)
    requires forall i :: 0 <= i < |es| ==> IsSampleOf(raw[i], es[i].push, ms)
    ensures Samples(raw) && SameKinds(raw)
    ensures ClockOrdered(es) ==> TimesOrdered(raw)
  {
    hide Dense, IsSampleOf, GoodPush, NoDupIds, Compatible, Has, NamesOf;
    forall i | 0 <= i < |es| ensures raw[i].Counters? && raw[i].ts == es[i].push.now {
      SampleTime(raw[i], es[i].push, ms);
    }
    forall i | 0 <= i < |es| ensures NoDupIds(raw[i].counters) {
      SamplesCompatible(raw[i], raw[i], es[i].push, es[i].push, ms, gauges);
    }
    forall i, j | 0 <= i < |es| && 0 <= j < |es| ensures Compatible(raw[i].counters, raw[j].counters) {
      SamplesCompatible(raw[i], raw[j], es[i].push, es[j].push, ms, gauges);
    }
  }

  lemma RunSamplesGood(es: seq<Event>, gauges: iset<string>)
    requires GoodPushes(es, gauges)
    ensures |Run(es, gauges).raw| == |es|
    ensures Samples(Run(es, gauges).raw) && SameKinds(Run(es, gauges).raw)
    ensures NoGaps(es, gauges) ==> Unbroken(Run(es, gauges).raw)
    ensures ClockOrdered(es) ==> TimesOrdered(Run(es, gauges).raw)
  {
    hide Run, Metas, Dense, IsSampleOf, GoodPush, Samples, SameKinds, Unbroken, TimesOrdered, NoGaps, ClockOrdered;
    RawSize(es, gauges);
    var raw, ms := Run(es, gauges).raw, Metas(Run(es, gauges).frames);
    forall i | 0 <= i < |es| ensures IsSampleOf(raw[i], es[i].push, ms) {
      RawSamples(es, gauges, i);
    }
    SamplesGood(raw, es, ms, gauges);
    if NoGaps(es, gauges) { SamplesUnbroken(raw, es, ms, gauges); }
  }

  lemma SampleTime(f: TraceFrame, e: Push, ms: seq<TraceFrame>)
    requires (forall i :: 0 <= i < |ms| ==> ms[i].CounterMetadata?) && IsSampleOf(f, e, ms)
    ensures f.Counters? && f.ts == e.now
  {
  }

  /** If push n sets off a fold, the fold is seamless. */
  ghost predicate SeamlessAt(es: seq<Event>, gauges: iset<string>, n: nat)
    requires GoodPushes(es, gauges) && n < |es|
  {
    es[n].folds ==>
      var st := Pushed(Run(es[..n], gauges), es[n].push);
      |st.blocks| == |Counts(st.frames)| && SeamlessFold(st)
  }

  /** The stored counter frames after n pushes summarise ordered disjoint blocks of the raw samples. */
  ghost predicate SummarisedAfter(es: seq<Event>, gauges: iset<string>, n: nat)
    requires GoodPushes(es, gauges) && n <= |es|
  {
    BlocksSummarised(Run(es[..n], gauges))
  }

  lemma SummarisedStep(es: seq<Event>, gauges: iset<string>, n: nat)
    requires GoodPushes(es, gauges) && ClockOrdered(es) && n < |es| && SummarisedAfter(es, gauges, n)
    ensures SummarisedAfter(es, gauges, n + 1) <==> SeamlessAt(es, gauges, n)
    ensures NoGaps(es, gauges) ==> SeamlessAt(es, gauges, n)
  {
    hide Run, Pushed, Folded, SeamlessFold, Dense, Declared, Mergeable, Unbroken, Samples, SameKinds, Metas;
    var front := es[..n + 1];
    assert front[..n] == es[..n] && front[n] == es[n];
    var st := Pushed(Run(es[..n], gauges), es[n].push);
    RunLast(front, gauges);
    PushKeepsSummaries(Run(es[..n], gauges), es[n].push, gauges);
    RunSamplesGood(front, gauges);
    if es[n].folds {
      FoldedIs(st);
      FoldKeepsSummariesIff(st);
    }
  }

  /** In every run, at every moment, the counter frames summarise ordered disjoint blocks of the raw samples if
      and only if every fold was seamless. */
  lemma {:induction false} RunsSummariseIff(es: seq<Event>, gauges: iset<string>, n: nat)
    requires GoodPushes(es, gauges) && ClockOrdered(es) && n <= |es|
    ensures (forall m :: 0 <= m <= n ==> SummarisedAfter(es, gauges, m)) <==>
            (forall m :: 0 <= m < n ==> SeamlessAt(es, gauges, m))
  {
    hide SummarisedAfter, SeamlessAt;
    if n == 0 {
      NothingSummarised(es, gauges);
    } else {
      RunsSummariseIff(es, gauges, n - 1);
      if SummarisedAfter(es, gauges, n - 1) { SummarisedStep(es, gauges, n - 1); }
    }
  }

  lemma NothingSummarised(es: seq<Event>, gauges: iset<string>)
    requires GoodPushes(es, gauges)
    ensures SummarisedAfter(es, gauges, 0)
  {
    assert Run(es[..0], gauges) == EMPTY;
  }

  /** It is enough that no gauge comes back after a gap. */
  lemma {:induction false} RunsSummarise(es: seq<Event>, gauges: iset<string>, n: nat)
    requires GoodPushes(es, gauges) && NoGaps(es, gauges) && ClockOrdered(es) && n <= |es|
    ensures SummarisedAfter(es, gauges, n)
  {
    hide SummarisedAfter, SeamlessAt;
    if n == 0 {
      NothingSummarised(es, gauges);
    } else {
      RunsSummarise(es, gauges, n - 1);
      SummarisedStep(es, gauges, n - 1);
    }
  }

  /** Three pushes of a gauge that is missing from the second; the second and the third fold. */
  function GapInGauge(): seq<Event> {
    var first, again := CounterSnapshot("g", "", Gauge(1.0, 9.0, 5.0, 20.0)),
      CounterSnapshot("g", "", Gauge(2.0, 3.0, 2.0, 5.0));
    [Event(Push([first], [0.0], 0.0), false), Event(Push([], [], 1.0), true), Event(Push([again], [2.0], 2.0), true)]
  }

  /** After the third push the stored frame has lost what the gauge had counted before the gap. */
  lemma ReturningGaugeInRun()
    ensures GoodPushes(GapInGauge(), iset{"g"}) && ClockOrdered(GapInGauge())
    ensures SummarisedAfter(GapInGauge(), iset{"g"}, 2) && !SummarisedAfter(GapInGauge(), iset{"g"}, 3)
  {
    var es, gauges := GapInGauge(), iset{"g"};
    assert GoodPushes(es, gauges) && ClockOrdered(es);
    GapSoFar();
    GapIsSeen();
    hide SummarisedAfter, SeamlessAt;
    SummarisedStep(es, gauges, 2);
  }

  lemma GapSoFar()
    ensures GoodPushes(GapInGauge(), iset{"g"}) && SummarisedAfter(GapInGauge(), iset{"g"}, 2)
  {
    var es, gauges := GapInGauge(), iset{"g"};
    var two := es[..2];
    assert GoodPushes(es, gauges) && GoodPushes(two, gauges) && ClockOrdered(two) && NoGaps(two, gauges);
    hide SummarisedAfter, GoodPush;
    RunsSummarise(two, gauges, 2);
    assert two[..2] == es[..2];
    SameSummary(two, es, gauges, 2);
  }

  lemma SameSummary(es: seq<Event>, fs: seq<Event>, gauges: iset<string>, n: nat)
    requires GoodPushes(es, gauges) && GoodPushes(fs, gauges) && n <= |es| && n <= |fs| && es[..n] == fs[..n]
    ensures SummarisedAfter(es, gauges, n) <==> SummarisedAfter(fs, gauges, n)
  {
  }

  /** The third sample brings the gauge back: the first had five hits of it, the second has none. */
  lemma GapIsSeen()
    ensures GoodPushes(GapInGauge(), iset{"g"}) && !SeamlessAt(GapInGauge(), iset{"g"}, 2)
  {
    hide Run, Pushed, Sound, Counts, Metas, SeamAt, SeamlessAt, IsSampleOf, Dense;
    GapGood();
    var es, gauges := GapInGauge(), iset{"g"};
    hide GapInGauge, GoodPush;
    GapState(es, gauges);
    GapSamples(Pushed(Run(es[..2], gauges), es[2].push).raw, Metas(Run(es, gauges).frames));
    SeamMissing(es, gauges);
  }

  lemma GapGood()
    ensures GoodPushes(GapInGauge(), iset{"g"}) && |GapInGauge()| == 3 && GapInGauge()[2].folds
  {
  }

  /** A fold whose first pair is not seamless */
  lemma SeamMissing(es: seq<Event>, gauges: iset<string>)
    requires GoodPushes(es, gauges) && |es| == 3 && es[2].folds
    requires Dense(Metas(Run(es[..2], gauges).frames)) && |es[2].push.stamps| == |es[2].push.snaps|
    requires var st' := Pushed(Run(es[..2], gauges), es[2].push);
             |st'.blocks| == |Counts(st'.frames)| == 2 && !SeamAt(st'.raw, st'.blocks[0], Counts(st'.frames)[1])
    ensures !SeamlessAt(es, gauges, 2)
  {
    hide Run, Pushed, Sound, Counts, Metas, SeamAt, GoodPush, Dense;
    var st' := Pushed(Run(es[..2], gauges), es[2].push);
    assert !SeamAt(st'.raw, st'.blocks[2 * 0], Counts(st'.frames)[2 * 0 + 1]);
  }

  lemma GapState(es: seq<Event>, gauges: iset<string>)
    requires es == GapInGauge() && gauges == iset{"g"} && GoodPushes(es, gauges) && |es| == 3
    ensures Dense(Metas(Run(es[..2], gauges).frames)) && |es[2].push.stamps| == |es[2].push.snaps|
    ensures var st' := Pushed(Run(es[..2], gauges), es[2].push);
            && st'.blocks == [[0, 1], [2]] && |Counts(st'.frames)| == 2 && |st'.raw| == 3
            && Counts(st'.frames)[1] == st'.raw[2]
            && Dense(Metas(Run(es, gauges).frames))
            && forall i :: 0 <= i < 3 ==> IsSampleOf(st'.raw[i], es[i].push, Metas(Run(es, gauges).frames))
  {
    hide Run, Pushed, Folded, GoodPush, Metas, Dense, Declared, Counts, Blocks, IsSampleOf, GapInGauge, Sample,
         PushFrames;
    var two := es[..2];
    GapBlocks();
    RunBlocks(two, gauges);
    RawSize(two, gauges);
    GoodStamps(es[2].push, gauges);
    PushedIs(Run(two, gauges), es[2].push, gauges);
    RunLast(es, gauges);
    FoldedIs(Pushed(Run(two, gauges), es[2].push));
    forall i | 0 <= i < 3 ensures IsSampleOf(Run(es, gauges).raw[i], es[i].push, Metas(Run(es, gauges).frames)) {
      RawSamples(es, gauges, i);
    }
    assert [[0, 1]] + [[2]] == [[0, 1], [2]];
  }

  lemma GapBlocks()
    ensures Blocks(GapInGauge()[..2]) == [[0, 1]]
  {
    var two := GapInGauge()[..2];
    assert two[..1][..0] == [];
    assert two[..1] == [GapInGauge()[0]];
    assert Blocks(two[..1]) == [[0]];
    assert [[0]] + [[1]] == [[0], [1]] && [0] + [1] == [0, 1];
  }

  lemma GapSamples(raw: seq<TraceFrame>, ms: seq<TraceFrame>)
    requires (forall i :: 0 <= i < |ms| ==> ms[i].CounterMetadata?) && Dense(ms) && |raw| == 3 == |GapInGauge()|
    requires forall i :: 0 <= i < 3 ==> IsSampleOf(raw[i], GapInGauge()[i].push, ms)
    ensures !SeamAt(raw, [0, 1], raw[2])
  {
    var es := GapInGauge();
    assert IsSampleOf(raw[0], es[0].push, ms) && IsSampleOf(raw[1], es[1].push, ms)
           && IsSampleOf(raw[2], es[2].push, ms);
    var v := raw[2].counters[0];
    assert es[2].push.snaps[0].name == es[0].push.snaps[0].name == "g";
    assert raw[0].counters[0].id == v.id;
    hide GapInGauge, Dense, IsSampleOf;
    if SeamAt(raw, [0, 1], raw[2]) {
      var b := Pick(raw, [0, 1]);
      GapBlock(b, v);
    }
  }

  /** Two samples, the first with five hits of the gauge and the second without it */
  lemma GapBlock(b: seq<TraceFrame>, v: TraceCounter)
    requires Samples(b) && |b| == 2 && b[1].counters == [] && v.value.Gauge?
    requires b[0].counters == [TraceCounter(v.id, Gauge(1.0, 9.0, 5.0, 20.0))]
    ensures Returns(b, v) && !AddsNothing(b, v)
  {
    LookupUnique(b[0].counters, 0);
    assert b[..1][..0] == [] && b[..1][0] == b[0];
    assert Has(b[0], v.id) && !Has(b[1], v.id);
    assert Hits(b[..1], v.id) == 5.0;
  }

  // ----- consequences -----

  /** An id, once given to a name, stays with it through every later push and fold. */
  lemma {:induction false} RunsKeepIds(es: seq<Event>, gauges: iset<string>, n: nat)
    requires n <= |es| && GoodPushes(es, gauges)
    ensures Metas(Run(es[..n], gauges).frames) <= Metas(Run(es, gauges).frames)
    ensures Dense(Metas(Run(es, gauges).frames))
  {
    hide Run, Metas, Dense, Declared, GoodPush;
    if n == |es| {
      assert es[..n] == es;
    } else {
      var front := es[..|es| - 1];
      RunsKeepIds(front, gauges, n);
      assert front[..n] == es[..n];
      MetasGrow(es, gauges);
    }
  }

  /** A frame's time lies between the first and the last time of its block. */
  ghost predicate BlocksTimed(st: State) {
    && Ordered(st.blocks, |st.raw|) && |st.blocks| == |Counts(st.frames)|
    && forall k :: 0 <= k < |st.blocks| ==> Timed(Counts(st.frames)[k], st.raw, st.blocks[k])
  }

  ghost predicate Timed(f: TraceFrame, raw: seq<TraceFrame>, b: seq<nat>) {
    b != [] && b[0] < |raw| && b[|b| - 1] < |raw| && raw[b[0]].ts <= f.ts <= raw[b[|b| - 1]].ts
  }

  lemma TwoTimed(f: TraceFrame, g: TraceFrame, raw: seq<TraceFrame>, bs: seq<seq<nat>>, k: nat)
    requires f.Counters? && g.Counters? && Compatible(f.counters, g.counters)
    requires Ordered(bs, |raw|) && TimesOrdered(raw) && k + 1 < |bs|
    requires Timed(f, raw, bs[k]) && Timed(g, raw, bs[k + 1])
    ensures Timed(Sum(f, g), raw, bs[k] + bs[k + 1])
  {
    hide Compatible;
    var x, y := bs[k], bs[k + 1];
    assert x[|x| - 1] < y[0];
    assert x[0] < y[0] && x[|x| - 1] < y[|y| - 1];
    assert (x + y)[0] == x[0] && (x + y)[|x + y| - 1] == y[|y| - 1];
  }

  lemma FoldKeepsTimed(st: State)
    requires BlocksTimed(st) && TimesOrdered(st.raw) && Mergeable(Counts(st.frames))
    ensures BlocksTimed(Folded(st))
  {
    hide Folded, FoldCounters, Counts, Metas, Ordered, Timed, Mergeable, TimesOrdered;
    FoldedIs(st);
    FoldBlocksOrdered(st.blocks, |st.raw|);
    var cs, bs := Counts(st.frames), st.blocks;
    forall k | 0 <= k < |cs| / 2 ensures Timed(FoldCounters(cs)[k], st.raw, FoldBlocks(bs)[k]) {
      FoldedTimed(cs, st.raw, bs, k);
    }
  }

  lemma FoldedTimed(cs: seq<TraceFrame>, raw: seq<TraceFrame>, bs: seq<seq<nat>>, k: nat)
    requires Mergeable(cs) && Ordered(bs, |raw|) && TimesOrdered(raw) && |bs| == |cs| && k < |cs| / 2
    requires forall i :: 0 <= i < |bs| ==> Timed(cs[i], raw, bs[i])
    ensures Timed(FoldCounters(cs)[k], raw, FoldBlocks(bs)[k])
  {
    hide FoldCounters, FoldBlocks, Ordered, Timed, Sum, Compatible, TimesOrdered;
    TwoTimed(cs[2 * k], cs[2 * k + 1], raw, bs, 2 * k);
  }

  lemma PushKeepsTimed(st: State, e: Push, gauges: iset<string>)
    requires BlocksTimed(st) && Sound(st.frames, gauges) && GoodPush(e, gauges)
    ensures BlocksTimed(Pushed(st, e))
  {
    hide Pushed, Dense, PushFrames, Sample, GoodPush, Counts, Metas, Ordered, Declared;
    GoodStamps(e, gauges);
    PushedIs(st, e, gauges);
    OrderedPush(st.blocks, |st.raw|);
    var f := Sample(st.frames, e);
    var cs, bs := Counts(st.frames) + [f], st.blocks + [[|st.raw|]];
    forall k | 0 <= k < |bs| ensures Timed(cs[k], st.raw + [f], bs[k]) {
      assert k < |st.blocks| ==> Timed(Counts(st.frames)[k], st.raw, st.blocks[k]);
    }
  }

  lemma TimedStep(es: seq<Event>, gauges: iset<string>)
    requires es != [] && GoodPushes(es, gauges) && ClockOrdered(es) && BlocksTimed(Run(es[..|es| - 1], gauges))
    ensures BlocksTimed(Run(es, gauges))
  {
    hide Run, Pushed, Folded, BlocksTimed, Dense, Declared, Mergeable, GoodPush, Metas, Samples, SameKinds, Unbroken,
         TimesOrdered, ClockOrdered;
    var e := es[|es| - 1];
    var st := Run(es[..|es| - 1], gauges);
    RunSamplesGood(es, gauges);
    RunLast(es, gauges);
    GoodStamps(e.push, gauges);
    PushKeepsTimed(st, e.push, gauges);
    if e.folds {
      FoldedIs(Pushed(st, e.push));
      FoldKeepsTimed(Pushed(st, e.push));
    }
  }

  lemma {:induction false} RunsKeepTimed(es: seq<Event>, gauges: iset<string>)
    requires GoodPushes(es, gauges) && ClockOrdered(es)
    ensures BlocksTimed(Run(es, gauges))
  {
    if es != [] {
      hide Run, BlocksTimed, GoodPush;
      RunsKeepTimed(es[..|es| - 1], gauges);
      TimedStep(es, gauges);
    }
  }

  /** Stored counter frames are in order of time and none is later than the last push. */
  lemma RunsKeepTimesOrdered(es: seq<Event>, gauges: iset<string>)
    requires GoodPushes(es, gauges) && ClockOrdered(es)
    ensures TimesOrdered(Counts(Run(es, gauges).frames))
    ensures forall f :: f in Counts(Run(es, gauges).frames) ==> es != [] && f.ts <= es[|es| - 1].push.now
  {
    hide Run, Counts, Samples, SameKinds, Unbroken, ClockOrdered, GoodPush, Timed, Ordered;
    RunsKeepTimed(es, gauges);
    RunSamplesGood(es, gauges);
    var st := Run(es, gauges);
    var cs := Counts(st.frames);
    forall i, j | 0 <= i < j < |cs| ensures cs[i].ts <= cs[j].ts {
      BlocksInOrder(st, i, j);
    }
    forall f | f in cs ensures es != [] && f.ts <= es[|es| - 1].push.now {
      var k :| 0 <= k < |cs| && cs[k] == f;
      NotAfterLast(st, k);
      LastTime(es, gauges);
    }
  }

  lemma NotAfterLast(st: State, k: nat)
    requires BlocksTimed(st) && TimesOrdered(st.raw) && k < |st.blocks|
    ensures st.raw != [] && Counts(st.frames)[k].ts <= st.raw[|st.raw| - 1].ts
  {
    hide Counts;
    assert Timed(Counts(st.frames)[k], st.raw, st.blocks[k]);
  }

  lemma LastTime(es: seq<Event>, gauges: iset<string>)
    requires GoodPushes(es, gauges)
    ensures es != [] ==> |Run(es, gauges).raw| == |es| && Run(es, gauges).raw[|es| - 1].ts == es[|es| - 1].push.now
  {
    hide Run, Metas, GoodPush, IsSampleOf;
    if es != [] {
      RawSamples(es, gauges, |es| - 1);
      SampleTime(Run(es, gauges).raw[|es| - 1], es[|es| - 1].push, Metas(Run(es, gauges).frames));
    }
  }

  lemma BlocksInOrder(st: State, i: nat, j: nat)
    requires BlocksTimed(st) && TimesOrdered(st.raw) && i < j < |st.blocks|
    ensures Counts(st.frames)[i].ts <= Counts(st.frames)[j].ts
  {
    hide Counts;
    var x, y := st.blocks[i], st.blocks[j];
    assert Timed(Counts(st.frames)[i], st.raw, x) && Timed(Counts(st.frames)[j], st.raw, y);
    assert x[|x| - 1] < y[0];
  }

  // ----- lost samples -----

  ghost predicate InBlock(bs: seq<seq<nat>>, i: nat) {
    exists k :: 0 <= k < |bs| && i in bs[k]
  }

  lemma InBlockPush(bs: seq<seq<nat>>, n: nat, i: nat)
    ensures InBlock(bs + [[n]], i) <==> InBlock(bs, i) || i == n
  {
    var r := bs + [[n]];
    if k :| 0 <= k < |bs| && i in bs[k] { assert i in r[k]; }
    if i == n { assert i in r[|bs|]; }
  }

  lemma InBlockPrefix(bs: seq<seq<nat>>, n: nat, i: nat)
    requires n <= |bs|
    ensures InBlock(bs[..n], i) ==> InBlock(bs, i)
  {
    if k :| 0 <= k < n && i in bs[..n][k] { assert i in bs[k]; }
  }

  /** A fold keeps the samples of every block but an odd last one. */
  lemma InBlockFold(bs: seq<seq<nat>>, i: nat)
    ensures InBlock(FoldBlocks(bs), i) <==> InBlock(bs[..|bs| - |bs| % 2], i)
  {
    var r, kept := FoldBlocks(bs), bs[..|bs| - |bs| % 2];
    if k :| 0 <= k < |kept| && i in kept[k] { assert i in r[k / 2]; }
    if k :| 0 <= k < |r| && i in r[k] { assert i in kept[2 * k] || i in kept[2 * k + 1]; }
  }

  /** The blocks depend on the folds only. */
  function Blocks(es: seq<Event>): seq<seq<nat>> {
    if es == [] then [] else
      var bs := Blocks(es[..|es| - 1]) + [[|es| - 1]];
      if es[|es| - 1].folds then FoldBlocks(bs) else bs
  }

  lemma StepBlocks(st: State, e: Push, gauges: iset<string>)
    requires Sound(st.frames, gauges) && GoodPush(e, gauges)
    ensures var st' := Pushed(st, e);
            && st'.blocks == st.blocks + [[|st.raw|]] && |Counts(st'.frames)| == |Counts(st.frames)| + 1
            && Mergeable(Counts(st'.frames)) && Folded(st').blocks == FoldBlocks(st'.blocks)
            && |Counts(Folded(st').frames)| == |Counts(st'.frames)| / 2
  {
    hide Pushed, Folded, FoldBlocks, PushFrames, Sample, Metas, Counts, Dense, Declared, Mergeable, GoodPush;
    GoodStamps(e, gauges);
    PushedIs(st, e, gauges);
    FoldKeepsSound(Pushed(st, e).frames, gauges);
    FoldedIs(Pushed(st, e));
  }

  lemma {:induction false} RunBlocks(es: seq<Event>, gauges: iset<string>)
    requires GoodPushes(es, gauges)
    ensures Run(es, gauges).blocks == Blocks(es)
    ensures |Counts(Run(es, gauges).frames)| == |Blocks(es)|
  {
    hide Run, Pushed, Folded, FoldBlocks, Counts, Sound, Mergeable, GoodPush;
    if es == [] {
      EmptyRun(gauges);
    } else {
      RunBlocks(es[..|es| - 1], gauges);
      RunLast(es, gauges);
      RawSize(es[..|es| - 1], gauges);
      StepBlocks(Run(es[..|es| - 1], gauges), es[|es| - 1].push, gauges);
    }
  }

  lemma EmptyRun(gauges: iset<string>)
    ensures Run([], gauges) == EMPTY && Counts([]) == []
  {
  }

  /** Blocks hold the numbers of samples. */
  lemma {:induction false} OnlyNumbered(es: seq<Event>, i: nat)
    requires i >= |es|
    ensures !InBlock(Blocks(es), i)
  {
    if es != [] {
      hide FoldBlocks, InBlock;
      var front := es[..|es| - 1];
      OnlyNumbered(front, i);
      var bs := Blocks(front) + [[|front|]];
      InBlockPush(Blocks(front), |front|, i);
      InBlockFold(bs, i);
      InBlockPrefix(bs, |bs| - |bs| % 2, i);
    }
  }

  lemma LastLostIff(es: seq<Event>, i: nat)
    requires i < |es|
    ensures var front := es[..|es| - 1];
            && (i < |front| ==> (InBlock(Blocks(es), i) <==> InBlock(Blocks(front), i)))
            && (i == |front| ==> (InBlock(Blocks(es), i) <==> !(es[i].folds && |Blocks(front)| % 2 == 0)))
  {
    hide FoldBlocks, InBlock;
    var front := es[..|es| - 1];
    var bs := Blocks(front);
    InBlockPush(bs, |front|, i);
    InBlockFold(bs + [[|front|]], i);
    if |bs| % 2 == 0 {
      assert (bs + [[|front|]])[..|bs|] == bs;
    } else {
      assert (bs + [[|front|]])[..|bs| + 1] == bs + [[|front|]];
    }
    OnlyNumbered(front, |front|);
  }

  lemma {:induction false} BlockLostIff(es: seq<Event>, i: nat)
    requires i < |es|
    ensures !InBlock(Blocks(es), i) <==> es[i].folds && |Blocks(es[..i])| % 2 == 0
  {
    hide Blocks, InBlock;
    LastLostIff(es, i);
    var front := es[..|es| - 1];
    if i < |front| {
      BlockLostIff(front, i);
      assert front[..i] == es[..i];
    }
  }

  /** Exactly which samples are lost: those whose push sets off a fold while the number of stored counter frames
      before it is even. */
  lemma LostIff(es: seq<Event>, gauges: iset<string>, i: nat)
    requires GoodPushes(es, gauges) && i < |es|
    ensures !InBlock(Run(es, gauges).blocks, i) <==> es[i].folds && |Counts(Run(es[..i], gauges).frames)| % 2 == 0
  {
    hide Run, Blocks, InBlock, Counts, GoodPush;
    BlockLostIff(es, i);
    RunBlocks(es, gauges);
    RunBlocks(es[..i], gauges);
  }

  function FoldsIn(es: seq<Event>): nat {
    if es == [] then 0 else FoldsIn(es[..|es| - 1]) + (if es[|es| - 1].folds then 1 else 0)
  }

  ghost function FoldingPushes(es: seq<Event>): set<nat> {
    set i | 0 <= i < |es| && es[i].folds
  }

  lemma {:induction false} FoldsCounted(es: seq<Event>)
    ensures |FoldingPushes(es)| == FoldsIn(es)
  {
    if es != [] {
      var front := es[..|es| - 1];
      FoldsCounted(front);
      assert FoldingPushes(es) == FoldingPushes(front) + (if es[|es| - 1].folds then {|es| - 1} else {});
    }
  }

  ghost function Lost(es: seq<Event>, gauges: iset<string>): set<nat>
    requires GoodPushes(es, gauges)
  {
    set i | 0 <= i < |es| && !InBlock(Run(es, gauges).blocks, i)
  }

  /** So a fold loses at most one sample. */
  lemma LostAtMostFolds(es: seq<Event>, gauges: iset<string>)
    requires GoodPushes(es, gauges)
    ensures |Lost(es, gauges)| <= FoldsIn(es)
  {
    hide Run, InBlock, Counts, GoodPush;
    forall i | i in Lost(es, gauges) ensures i in FoldingPushes(es) {
      LostIff(es, gauges, i);
    }
    FoldsCounted(es);
    var rest := FoldingPushes(es) - Lost(es, gauges);
    assert FoldingPushes(es) == Lost(es, gauges) + rest;
  }

  /** A first push that outgrows the file is lost. */
  lemma FirstPushLost(e: Push, gauges: iset<string>)
    requires GoodPush(e, gauges)
    ensures GoodPushes([Event(e, true)], gauges) && Run([Event(e, true)], gauges).blocks == []
    ensures Lost([Event(e, true)], gauges) == {0}
  {
    var es := [Event(e, true)];
    assert es[..0] == [];
    RunBlocks(es, gauges);
    assert Blocks(es) == [];
  }
}
