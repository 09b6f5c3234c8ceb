/** Where the range of a gauge comes from, and what of an entry never changes, in every interleaving of `ScrapeRuns`. */
module ScrapeRanges {
  import opened Basics
  import opened Counters
  import opened Exporters
  import opened Scraping
  import opened ScrapeRuns

  // ----- what was ever reported -----

  /** The gauges that a step brings in for a name: of a profile read by a scraper, of a description, or the one value
      of a local sample */
  ghost function Brought(op: Op, n: string): iset<CounterType> {
    match op
    case Begin(_, cur, _) => if n in cur then iset{cur[n].ctype} else iset{}
    case Describe(v) => if v.name == n then iset{v.ctype} else iset{}
    case Add(c) =>
      if c.name == n && c.ctype.Gauge? then iset{Gauge(c.ctype.total, c.ctype.total, 1.0, c.ctype.total)} else iset{}
    case _ => iset{}
  }

  ghost function Reported(start: Flat, ops: seq<Op>, n: string): iset<CounterType> {
    if ops == [] then (if n in start then iset{start[n].ctype} else iset{})
    else Reported(start, ops[..|ops| - 1], n) + Brought(ops[|ops| - 1], n)
  }

  ghost predicate LowIn(x: real, r: iset<CounterType>) {
    exists t :: t in r && t.Gauge? && t.min == x
  }

  ghost predicate HighIn(x: real, r: iset<CounterType>) {
    exists t :: t in r && t.Gauge? && t.max == x
  }

  /** Both ends of a gauge's range were reported. */
  ghost predicate Attained(t: CounterType, r: iset<CounterType>) {
    t.Gauge? ==> LowIn(t.min, r) && HighIn(t.max, r)
  }

  lemma AttainedMore(t: CounterType, r: iset<CounterType>, more: iset<CounterType>)
    ensures Attained(t, r) ==> Attained(t, r + more)
    ensures t in r ==> Attained(t, r)
  {
    if Attained(t, r) && t.Gauge? {
      var x :| x in r && x.Gauge? && x.min == t.min;
      var y :| y in r && y.Gauge? && y.max == t.max;
      assert x in r + more && y in r + more;
    }
  }

  lemma HullAttained(a: CounterType, b: CounterType, r: iset<CounterType>)
    requires a.SameType(b) && Attained(a, r) && Attained(b, r)
    ensures a.Merge(b).Some? && Attained(a.Merge(b).value, r) && a.Delta(b).Some? && Attained(a.Delta(b).value, r)
  {
    if a.Gauge? { RangesAreHulls(a, b); }
    hide LowIn, HighIn;
  }

  // ----- everything in a job was reported -----

  ghost predicate AttainedIn(m: Flat, n: string, r: iset<CounterType>) {
    n in m ==> Attained(m[n].ctype, r)
  }

  ghost predicate FedAttained(fed: seq<CounterSnapshot>, n: string, r: iset<CounterType>) {
    forall k :: 0 <= k < |fed| && fed[k].name == n ==> Attained(fed[k].ctype, r)
  }

  ghost predicate TurnAttained(t: Turn, n: string, r: iset<CounterType>) {
    AttainedIn(t.cur, n, r) && FedAttained(t.fed, n, r)
  }

  ghost predicate ScraperAttained(s: Scraper, n: string, r: iset<CounterType>) {
    && (s.shadow.Some? ==> AttainedIn(s.shadow.value, n, r))
    && (s.turn.Some? ==> TurnAttained(s.turn.value, n, r))
  }

  ghost predicate AllAttained(j: Job, n: string, r: iset<CounterType>) {
    && AttainedIn(j.entries, n, r)
    && forall i :: 0 <= i < |j.scrapers| ==> ScraperAttained(j.scrapers[i], n, r)
  }

  lemma InMore(m: Flat, n: string, r: iset<CounterType>, more: iset<CounterType>)
    requires AttainedIn(m, n, r)
    ensures AttainedIn(m, n, r + more)
  {
    if n in m { AttainedMore(m[n].ctype, r, more); }
  }

  lemma ScraperMore(s: Scraper, n: string, r: iset<CounterType>, more: iset<CounterType>)
    requires ScraperAttained(s, n, r)
    ensures ScraperAttained(s, n, r + more)
  {
    hide Attained;
    if s.shadow.Some? { InMore(s.shadow.value, n, r, more); }
    if s.turn.Some? {
      var t := s.turn.value;
      InMore(t.cur, n, r, more);
      forall k | 0 <= k < |t.fed| && t.fed[k].name == n ensures Attained(t.fed[k].ctype, r + more) {
        AttainedMore(t.fed[k].ctype, r, more);
      }
    }
  }

  lemma JobMore(j: Job, n: string, r: iset<CounterType>, more: iset<CounterType>)
    requires AllAttained(j, n, r)
    ensures AllAttained(j, n, r + more)
  {
    hide AttainedIn, ScraperAttained;
    InMore(j.entries, n, r, more);
    forall i | 0 <= i < |j.scrapers| ensures ScraperAttained(j.scrapers[i], n, r + more) {
      ScraperMore(j.scrapers[i], n, r, more);
    }
  }

  /** The counters of a turn have ranges that were reported, also when they are differences. */
  lemma BeginAttained(shadow: Option<Flat>, cur: Flat, fed: seq<CounterSnapshot>, n: string, r: iset<CounterType>)
    requires Feeds(shadow, cur, fed) && AttainedIn(cur, n, r) && (shadow.Some? ==> AttainedIn(shadow.value, n, r))
    ensures FedAttained(fed, n, r)
  {
    hide Attained, ByName;
    forall k | 0 <= k < |fed| && fed[k].name == n ensures Attained(fed[k].ctype, r) {
      ByNameDistinct(fed, k);
      assert fed[k] == ToFeed(shadow, cur)[n];
      if shadow.Some? && n in cur && n in shadow.value {
        HullAttained(cur[n].ctype, shadow.value[n].ctype, r);
      }
    }
  }

  lemma PushAttained(m: Flat, v: CounterSnapshot, n: string, r: iset<CounterType>)
    requires AttainedIn(m, n, r) && (v.name == n ==> Attained(v.ctype, r)) && FlatPush(m, v).Some?
    ensures AttainedIn(FlatPush(m, v).value, n, r)
  {
    hide Attained, Unmatched;
  }

  lemma MergeAttained(m: Flat, v: CounterSnapshot, n: string, r: iset<CounterType>)
    requires AttainedIn(m, n, r) && (v.name == n ==> Attained(v.ctype, r)) && FlatAccumulate(m, v, true).Some?
    ensures AttainedIn(FlatAccumulate(m, v, true).value, n, r)
  {
    if v.name == n { HullAttained(m[n].ctype, v.ctype, r); }
    hide Attained;
  }

  lemma SampleAttained(m: Flat, v: CounterSnapshot, n: string, r: iset<CounterType>)
    requires AttainedIn(m, n, r) && FlatAccumulate(m, v, false).Some?
    ensures AttainedIn(FlatAccumulate(m, v, false).value, n, r + Brought(Add(v), n))
  {
    InMore(m, n, r, Brought(Add(v), n));
    if v.name == n && v.ctype.Gauge? {
      var t := Gauge(v.ctype.total, v.ctype.total, 1.0, v.ctype.total);
      assert t in Brought(Add(v), n);
      AttainedMore(t, r + Brought(Add(v), n), iset{});
    }
    hide Attained;
  }

  lemma StepAttained(j: Job, op: Op, n: string, r: iset<CounterType>)
    requires Enabled(j, op) && AllAttained(j, n, r)
    ensures AllAttained(Apply(j, op), n, r + Brought(op, n))
  {
    hide Attained, FlatPush, FlatAccumulate, Plus, ByName, SumNamed;
    var r' := r + Brought(op, n);
    JobMore(j, n, r, Brought(op, n));
    match op
    case Begin(i, cur, fed) =>
      if n in cur {
        assert cur[n].ctype in r';
        AttainedMore(cur[n].ctype, r', iset{});
      }
      BeginAttained(j.scrapers[i].shadow, cur, fed, n, r');
    case Store(i) => PushAttained(j.entries, NextOf(j, i), n, r');
    case Merge(i) => MergeAttained(j.entries, NextOf(j, i), n, r');
    case Describe(v) =>
      if v.name == n {
        assert v.ctype in r';
        AttainedMore(v.ctype, r', iset{});
      }
      PushAttained(j.entries, v, n, r');
    case Add(c) => SampleAttained(j.entries, c, n, r);
    case _ =>
  }

  lemma StartAttained(start: Flat, scrapers: nat, n: string)
    ensures AllAttained(Start(start, scrapers), n, Reported(start, [], n))
  {
    if n in start { AttainedMore(start[n].ctype, Reported(start, [], n), iset{}); }
    hide Attained;
  }

  /** In every history both ends of a gauge's range are ends of a range that was reported for it: of the start, of a
      profile that a scraper read, of a description, or a local sample. */
  lemma {:induction false} RangesAttained(
    start: Flat, scrapers: nat, ops: seq<Op>, js: seq<Job>, m: nat, n: string)
    requires IsHistory(start, scrapers, ops, js) && m < |js|
    ensures AllAttained(js[m], n, Reported(start, ops[..m], n))
    ensures n in js[m].entries ==> Attained(js[m].entries[n].ctype, Reported(start, ops[..m], n))
  {
    hide Apply, Enabled, Start, Attained, ScraperAttained;
    if m == 0 {
      StartAttained(start, scrapers, n);
    } else {
      RangesAttained(start, scrapers, ops, js, m - 1, n);
      StepAttained(js[m - 1], ops[m - 1], n, Reported(start, ops[..m - 1], n));
      assert ops[..m][..m - 1] == ops[..m - 1];
    }
  }

  // ----- what of an entry never changes -----

  lemma StepKeepsEntry(j: Job, op: Op, n: string)
    requires Enabled(j, op) && n in j.entries
    ensures n in Apply(j, op).entries
    ensures Apply(j, op).entries[n].name == j.entries[n].name && Apply(j, op).entries[n].doc == j.entries[n].doc
    ensures Apply(j, op).entries[n].ctype.SameType(j.entries[n].ctype)
  {
    hide Plus, ByName, SumNamed, Unmatched;
  }

  /** In every history an entry stays once it is there, with the description and the kind it was stored with. */
  lemma {:induction false} EntriesStay(
    start: Flat, scrapers: nat, ops: seq<Op>, js: seq<Job>, k: nat, m: nat, n: string)
    requires IsHistory(start, scrapers, ops, js) && k <= m < |js| && n in js[k].entries
    ensures n in js[m].entries && js[m].entries[n].doc == js[k].entries[n].doc
    ensures js[m].entries[n].ctype.SameType(js[k].entries[n].ctype)
    decreases m - k
  {
    hide Apply, Enabled, Start;
    if k < m {
      EntriesStay(start, scrapers, ops, js, k, m - 1, n);
      StepKeepsEntry(js[m - 1], ops[m - 1], n);
    }
  }
}
