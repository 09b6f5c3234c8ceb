/** Scraping the jobs of other proxies: each scraper adds what changed since it last looked.

    This module has the difference of two profiles, the feeding of an exporter and one turn of the scrape loop.
    What many scrapers and clients do together is in `ScrapeRuns`.
 */
module Scraping {
  import opened Basics
  import opened Counters
  import opened Exporters

  // ----- profiles as maps, and their difference -----

  /** `iter().map(|v| (v.name, v)).collect::<HashMap>()`: later entries win */
  function ByName(cs: seq<CounterSnapshot>): (m: Flat)
    ensures forall n :: n in m ==> m[n].name == n && m[n] in cs
    ensures forall c :: c in cs ==> c.name in m
  {
    if cs == [] then map[] else
      var last := cs[|cs| - 1];
      assert cs == cs[..|cs| - 1] + [last];
      ByName(cs[..|cs| - 1])[last.name := last]
  }

  /** Two snapshots agree on the kind of every name they share. */
  ghost predicate SameKind(a: Flat, b: Flat) {
    forall n :: n in a && n in b ==> a[n].ctype.SameType(b[n].ctype)
  }

  /** What `JobProfile::substract` leaves: differences for the names in both, and, for a name the newer profile
      no longer has, the older value itself */
  function Difference(cur: Flat, prev: Flat): (m: Flat)
    requires SameKind(cur, prev)
    ensures m.Keys == cur.Keys + prev.Keys
  {
    map n | n in cur.Keys + prev.Keys ::
      if n !in prev then cur[n] else if n !in cur then prev[n]
      else cur[n].(ctype := cur[n].ctype.Delta(prev[n].ctype).value)
  }

  /** One turn of the loop of `JobProfile::substract` */
  function SubtractOne(m: Flat, c: CounterSnapshot): Option<Flat> {
    if c.name !in m then Some(m[c.name := c])
    else
      match m[c.name].ctype.Delta(c.ctype)
      case None => None
      case Some(t) => Some(m[c.name := m[c.name].(ctype := t)])
  }

  /** The whole loop, whatever names the older profile repeats */
  function Subtracted(m: Flat, prev: seq<CounterSnapshot>): Option<Flat> {
    if prev == [] then Some(m)
    else
      match Subtracted(m, prev[..|prev| - 1])
      case None => None
      case Some(r) => SubtractOne(r, prev[|prev| - 1])
  }

  /** What an older profile lists under a name, added up */
  ghost function SumNamed(cs: seq<CounterSnapshot>, n: string): (real, real) {
    if cs == [] then ZERO
    else
      var c := cs[|cs| - 1];
      Plus(SumNamed(cs[..|cs| - 1], n), if c.name == n then c.ctype.Amount() else ZERO)
  }

  lemma DeltaSubtracts(a: CounterType, b: CounterType)
    requires a.Delta(b).Some?
    ensures a.Delta(b).value.Amount() == Minus(a.Amount(), b.Amount())
  {
  }

  lemma SubtractOneAt(m: Flat, c: CounterSnapshot, n: string)
    requires n in m && SubtractOne(m, c).Some?
    ensures n in SubtractOne(m, c).value
    ensures SubtractOne(m, c).value[n].ctype.Amount() ==
            Minus(m[n].ctype.Amount(), if c.name == n then c.ctype.Amount() else ZERO)
  {
    if c.name == n { DeltaSubtracts(m[n].ctype, c.ctype); }
  }

  lemma MinusPlus(a: (real, real), b: (real, real), c: (real, real))
    ensures Minus(Minus(a, b), c) == Minus(a, Plus(b, c)) && Minus(a, ZERO) == a
  {
  }

  /** Every older entry is taken off the newer one of its name. */
  lemma {:induction false} SubtractedAmount(m: Flat, prev: seq<CounterSnapshot>, n: string)
    requires n in m && Subtracted(m, prev).Some?
    ensures n in Subtracted(m, prev).value
    ensures Subtracted(m, prev).value[n].ctype.Amount() == Minus(m[n].ctype.Amount(), SumNamed(prev, n))
  {
    hide Plus, Minus, SubtractOne;
    if prev == [] {
      MinusPlus(m[n].ctype.Amount(), ZERO, ZERO);
    } else {
      var front, c := prev[..|prev| - 1], prev[|prev| - 1];
      SubtractedAmount(m, front, n);
      SubtractOneAt(Subtracted(m, front).value, c, n);
      MinusPlus(m[n].ctype.Amount(), SumNamed(front, n), if c.name == n then c.ctype.Amount() else ZERO);
    }
  }

  lemma {:induction false} SubtractedPrefix(m: Flat, prev: seq<CounterSnapshot>, i: nat)
    requires i <= |prev| && Subtracted(m, prev[..i]).None?
    ensures Subtracted(m, prev).None?
    decreases |prev| - i
  {
    if i == |prev| {
      assert prev[..i] == prev;
    } else {
      assert prev[..i + 1][..i] == prev[..i];
      SubtractedPrefix(m, prev, i + 1);
    }
  }

  /** When the older profile lists each name once, the loop computes the difference. */
  lemma {:induction false} SubtractedDistinct(m: Flat, prev: seq<CounterSnapshot>)
    requires DistinctNames(prev)
    ensures Subtracted(m, prev).Some? <==> SameKind(m, ByName(prev))
    ensures SameKind(m, ByName(prev)) ==> Subtracted(m, prev).value == Difference(m, ByName(prev))
  {
    if prev == [] {
      NoDifference(m);
    } else {
      hide ByName, Difference, SameKind;
      var i := |prev| - 1;
      SubtractedDistinct(m, prev[..i]);
      ByNameStep(prev, i);
      assert prev[..i + 1] == prev;
      var p, c := ByName(prev[..i]), prev[i];
      if SameKind(m, p) {
        DifferenceStep(m, p, c);
        DifferenceAt(m, p, c.name);
      } else {
        LessKind(m, p, c);
      }
    }
  }

  lemma LessKind(m: Flat, p: Flat, c: CounterSnapshot)
    requires c.name !in p && !SameKind(m, p)
    ensures !SameKind(m, p[c.name := c])
  {
    var n :| n in m && n in p && !m[n].ctype.SameType(p[n].ctype);
    assert n in p[c.name := c];
  }

  lemma {:induction false} SubtractedNamed(m: Flat, prev: seq<CounterSnapshot>)
    requires Subtracted(m, prev).Some? && forall n :: n in m ==> m[n].name == n
    ensures forall n :: n in Subtracted(m, prev).value ==> Subtracted(m, prev).value[n].name == n
  {
    if prev != [] {
      SubtractedNamed(m, prev[..|prev| - 1]);
    }
  }

  /** `JobProfile::substract`: fails when a name changed its kind; the differences are listed in any order */
  method Substract(cur: seq<CounterSnapshot>, prev: seq<CounterSnapshot>) returns (ok: bool, diff: seq<CounterSnapshot>)
    ensures ok <==> Subtracted(ByName(cur), prev).Some?
    ensures ok ==> DistinctNames(diff) && ByName(diff) == Subtracted(ByName(cur), prev).value
    ensures DistinctNames(prev) ==> (ok <==> SameKind(ByName(cur), ByName(prev)))
    ensures DistinctNames(prev) && ok ==> ByName(diff) == Difference(ByName(cur), ByName(prev))
  {
    hide ByName, Difference, SameKind, DistinctNames;
    ghost var c := ByName(cur);
    if DistinctNames(prev) { SubtractedDistinct(c, prev); }
    var m := ByName(cur);
    var i := 0;
    while i < |prev|
      invariant 0 <= i <= |prev|
      invariant Subtracted(c, prev[..i]) == Some(m)
    {
      var cnt := prev[i];
      assert prev[..i + 1][..i] == prev[..i];
      if cnt.name in m {
        match m[cnt.name].ctype.Delta(cnt.ctype) {
          case None =>
            SubtractedPrefix(c, prev, i + 1);
            return false, [];
          case Some(t) => m := m[cnt.name := m[cnt.name].(ctype := t)];
        }
      } else {
        m := m[cnt.name := cnt];
      }
      i := i + 1;
    }
    assert prev[..i] == prev;
    assert forall n :: n in c ==> c[n].name == n;
    SubtractedNamed(c, prev);
    diff := GroupSnapshot(Group("", "", m), true);
    ListedByName(diff, m);
    ok := true;
  }

  /** A full listing, in any order, gives the map back. */
  lemma ListedByName(cs: seq<CounterSnapshot>, m: Flat)
    requires Lists(cs, m, m.Keys, true) && forall n :: n in m ==> m[n].name == n
    ensures DistinctNames(cs) && ByName(cs) == m
  {
    forall n ensures n in ByName(cs) <==> n in m {
      if n in m { assert m[n] in cs; }
    }
  }

  lemma NoDifference(c: Flat)
    ensures ByName([]) == map[] && SameKind(c, map[]) && Difference(c, map[]) == c
  {
  }

  lemma ByNameStep(cs: seq<CounterSnapshot>, i: nat)
    requires DistinctNames(cs) && i < |cs|
    ensures cs[i].name !in ByName(cs[..i])
    ensures ByName(cs[..i + 1]) == ByName(cs[..i])[cs[i].name := cs[i]]
  {
    var before := cs[..i];
    assert cs[..i + 1][..i] == before;
    assert forall s :: s in before ==> s.name != cs[i].name;
  }

  /** A name that is listed more than once stands for its last entry. */
  lemma {:induction false} ByNameLast(cs: seq<CounterSnapshot>, i: nat)
    requires i < |cs| && forall k :: i < k < |cs| ==> cs[k].name != cs[i].name
    ensures cs[i].name in ByName(cs) && ByName(cs)[cs[i].name] == cs[i]
  {
    if i < |cs| - 1 { ByNameLast(cs[..|cs| - 1], i); }
  }

  lemma ByNameDistinct(cs: seq<CounterSnapshot>, i: nat)
    requires DistinctNames(cs) && i < |cs|
    ensures cs[i].name in ByName(cs) && ByName(cs)[cs[i].name] == cs[i]
  {
    ByNameLast(cs, i);
  }

  lemma DifferenceAt(c: Flat, p: Flat, n: string)
    requires SameKind(c, p) && n !in p
    ensures n in Difference(c, p) <==> n in c
    ensures n in c ==> Difference(c, p)[n] == c[n]
  {
  }

  lemma DifferenceStep(c: Flat, p: Flat, s: CounterSnapshot)
    requires SameKind(c, p) && s.name !in p
    ensures (s.name in c ==> c[s.name].ctype.SameType(s.ctype)) <==> SameKind(c, p[s.name := s])
    ensures SameKind(c, p[s.name := s]) ==>
              Difference(c, p[s.name := s]) ==
                Difference(c, p)[s.name :=
                  if s.name in c then c[s.name].(ctype := c[s.name].ctype.Delta(s.ctype).value) else s]
  {
    var q := p[s.name := s];
    if SameKind(c, q) {
      assert s.name in q;
      assert Difference(c, q).Keys == Difference(c, p).Keys + {s.name};
    }
  }

  ghost function AmountIn(m: Flat, n: string): (real, real) {
    if n in m then m[n].ctype.Amount() else ZERO
  }

  /** Merging a difference back restores the newer amounts, provided every older name is still reported. */
  lemma DifferenceThenMerge(cur: Flat, prev: Flat, n: string)
    requires SameKind(cur, prev) && prev.Keys <= cur.Keys && n in prev
    ensures prev[n].ctype.Merge(Difference(cur, prev)[n].ctype).Some?
    ensures prev[n].ctype.Merge(Difference(cur, prev)[n].ctype).value.Amount() == cur[n].ctype.Amount()
  {
    DeltaThenMerge(cur[n].ctype, prev[n].ctype);
  }

  // ----- feeding an exporter -----

  /** One counter of a scraped profile: `push`, then `accumulate` with merging */
  function Feed(m: Flat, c: CounterSnapshot): Option<Flat> {
    match FlatPush(m, c)
    case None => None
    case Some(m1) => FlatAccumulate(m1, c, true)
  }

  /** All the counters in turn, stopping at the first refusal */
  function FeedAll(m: Flat, cs: seq<CounterSnapshot>): (Flat, bool) {
    if cs == [] then (m, true) else
      var (m1, ok) := FeedAll(m, cs[..|cs| - 1]);
      if !ok then (m1, false)
      else
        var c := cs[|cs| - 1];
        match Feed(m1, c)
        case Some(m2) => (m2, true)
        case None => (if FlatPush(m1, c).Some? then FlatPush(m1, c).value else m1, false)
  }

  /** The inner loop of `scrape_proxy` */
  method FeedExporter(e: Exporter, cs: seq<CounterSnapshot>) returns (ok: bool)
    requires e.Valid()
    modifies e
    ensures e.Valid() && (e.Contents(), ok) == FeedAll(old(e.Contents()), cs)
  {
    hide WellGrouped, Flatten, FlatPush, FlatAccumulate;
    ghost var start := e.Contents();
    var i := 0;
    while i < |cs|
      invariant 0 <= i <= |cs| && e.Valid()
      invariant (e.Contents(), true) == FeedAll(start, cs[..i])
    {
      FeedNext(start, cs, i);
      var pushed := e.Push(cs[i]);
      if !pushed {
        return false;
      }
      var fed := e.Accumulate(cs[i], true);
      if !fed {
        return false;
      }
      i := i + 1;
    }
    assert cs[..i] == cs;
    ok := true;
  }

  lemma FeedNext(m: Flat, cs: seq<CounterSnapshot>, i: nat)
    requires i < |cs| && FeedAll(m, cs[..i]).1
    ensures var m1 := FeedAll(m, cs[..i]).0;
            FeedAll(m, cs[..i + 1]) ==
              match FlatPush(m1, cs[i])
              { case None => (m1, false)
                case Some(m2) =>
                  match FlatAccumulate(m2, cs[i], true) { case None => (m2, false) case Some(m3) => (m3, true) } }
    ensures !FeedAll(m, cs[..i + 1]).1 ==> FeedAll(m, cs) == FeedAll(m, cs[..i + 1])
  {
    assert cs[..i + 1][..i] == cs[..i];
    if !FeedAll(m, cs[..i + 1]).1 { FeedStuck(m, cs, i + 1); }
  }

  lemma {:induction false} FeedStuck(m: Flat, cs: seq<CounterSnapshot>, i: nat)
    requires i <= |cs| && !FeedAll(m, cs[..i]).1
    ensures FeedAll(m, cs) == FeedAll(m, cs[..i])
    decreases |cs| - i
  {
    if i == |cs| {
      assert cs[..i] == cs;
    } else {
      assert cs[..i + 1][..i] == cs[..i];
      FeedStuck(m, cs, i + 1);
    }
  }

  /** A profile that an exporter accepts: its new names are legal, its known ones keep their kind */
  ghost predicate Fits(m: Flat, p: Flat) {
    forall n :: n in p ==> p[n].name == n && if n in m then m[n].ctype.SameType(p[n].ctype) else !Unmatched(n)
  }

  /** Feeding a profile, name by name: a known entry is merged with, a new one is stored and then merged with
      itself */
  function FeedMap(m: Flat, p: Flat): (r: Flat)
    requires Fits(m, p)
    ensures r.Keys == m.Keys + p.Keys
  {
    map n | n in m.Keys + p.Keys ::
      if n !in p then m[n]
      else
        var entry := if n in m then m[n] else p[n];
        entry.(ctype := entry.ctype.Merge(p[n].ctype).value)
  }

  lemma FeedOne(m: Flat, p: Flat, c: CounterSnapshot)
    requires Fits(m, p) && c.name !in p
    ensures Feed(FeedMap(m, p), c).Some? <==> Fits(m, p[c.name := c])
    ensures Fits(m, p[c.name := c]) ==> Feed(FeedMap(m, p), c).value == FeedMap(m, p[c.name := c])
  {
    var q := p[c.name := c];
    assert c.name in q;
    assert forall n :: n in p ==> n in q && q[n] == p[n];
    hide Unmatched;
    var r := FeedMap(m, p);
    assert c.name in r <==> c.name in m;
    if Fits(m, q) {
      var t := FeedMap(m, q);
      assert t == r[c.name := t[c.name]];
      assert Feed(r, c).Some? && Feed(r, c).value == r[c.name := t[c.name]];
    }
  }

  /** The order in which a profile lists its counters does not matter; it is fed in full exactly when it fits. */
  lemma {:induction false} FeedAllIsFeedMap(m: Flat, cs: seq<CounterSnapshot>)
    requires DistinctNames(cs)
    ensures FeedAll(m, cs).1 <==> Fits(m, ByName(cs))
    ensures Fits(m, ByName(cs)) ==> FeedAll(m, cs).0 == FeedMap(m, ByName(cs))
  {
    if cs == [] {
      assert FeedMap(m, map[]) == m;
    } else {
      hide FeedMap, Feed, FlatPush, FlatAccumulate;
      var front, c := cs[..|cs| - 1], cs[|cs| - 1];
      assert c.name !in ByName(front) by {
        assert forall s :: s in front ==> s.name != c.name;
      }
      FeedAllIsFeedMap(m, front);
      if Fits(m, ByName(front)) {
        FeedOne(m, ByName(front), c);
      } else {
        StillUnfit(m, ByName(front), c);
      }
    }
  }

  lemma StillUnfit(m: Flat, p: Flat, c: CounterSnapshot)
    requires !Fits(m, p) && c.name !in p
    ensures !Fits(m, p[c.name := c])
  {
    var n :| n in p && !(p[n].name == n && if n in m then m[n].ctype.SameType(p[n].ctype) else !Unmatched(n));
    assert n in p[c.name := c];
  }

  /** The counters that go in before the first refusal */
  function FedPart(m: Flat, cs: seq<CounterSnapshot>): (r: seq<CounterSnapshot>)
    ensures r <= cs && FeedAll(m, r).1
  {
    if FeedAll(m, cs).1 then cs else FedPart(m, cs[..|cs| - 1])
  }

  /** A refused counter changes nothing: if it was stored, it is merged with itself and not refused. */
  lemma RefusedAddsNothing(m: Flat, c: CounterSnapshot)
    requires Feed(m, c).None? && FlatPush(m, c).Some?
    ensures FlatPush(m, c).value == m
  {
    if c.name !in m {
      MergeAdds(c.ctype, c.ctype);
    }
  }

  /** What a refusal leaves behind is what the counters before it put in. */
  lemma {:induction false} RefusalLeaves(m: Flat, cs: seq<CounterSnapshot>)
    ensures FeedAll(m, cs).0 == FeedAll(m, FedPart(m, cs)).0
  {
    if !FeedAll(m, cs).1 {
      var front, c := cs[..|cs| - 1], cs[|cs| - 1];
      RefusalLeaves(m, front);
      var (m1, ok) := FeedAll(m, front);
      if ok && FlatPush(m1, c).Some? { RefusedAddsNothing(m1, c); }
    }
  }

  lemma MergeAdds(a: CounterType, b: CounterType)
    requires a.SameType(b)
    ensures a.Merge(b).Some? && a.Merge(b).value.Amount() == Plus(a.Amount(), b.Amount())
  {
  }

  /** The same by name: the part fits, and is fed in full. */
  lemma RefusalIsFeedMap(m: Flat, cs: seq<CounterSnapshot>)
    requires DistinctNames(cs)
    ensures Fits(m, ByName(FedPart(m, cs)))
    ensures FeedAll(m, cs).0 == FeedMap(m, ByName(FedPart(m, cs)))
  {
    hide FeedAll, FeedMap, Fits, ByName;
    RefusalLeaves(m, cs);
    FeedAllIsFeedMap(m, FedPart(m, cs));
  }

  // ----- a turn of the scrape loop -----

  /** What a scrape feeds: the profile itself the first time, the difference afterwards */
  function ToFeed(shadow: Option<Flat>, cur: Flat): Flat
    requires shadow.Some? ==> SameKind(cur, shadow.value)
  {
    if shadow.None? then cur else Difference(cur, shadow.value)
  }

  /** A scrape goes through: names keep their kind, and the exporter takes what is fed. */
  ghost predicate Accepts(entries: Flat, shadow: Option<Flat>, cur: Flat) {
    (shadow.Some? ==> SameKind(cur, shadow.value)) && Fits(entries, ToFeed(shadow, cur))
  }

  /** A scraper of another proxy keeps, per job, the last profile it saw. */
  class ProxyScraper {
    var state: map<string, JobProfile>

    constructor ()
      ensures state == map[]
    {
      state := map[];
    }

    /** One turn of the loop of `scrape_proxy` over the profiles.  The list `fed` is what goes to the exporter, up
        to the first refusal; it is none when a name has changed its kind.  On an error the shadow stays. */
    method ScrapeJob(p: JobProfile, exporter: Exporter) returns (ok: bool, ghost fed: Option<seq<CounterSnapshot>>)
      requires exporter.Valid()
      modifies this, exporter
      ensures exporter.Valid()
      ensures p.desc.jobid !in old(state) ==> fed == Some(p.counters)
      ensures p.desc.jobid in old(state) ==>
                var diff := Subtracted(ByName(p.counters), old(state)[p.desc.jobid].counters);
                && (fed.Some? <==> diff.Some?)
                && (fed.Some? ==> DistinctNames(fed.value) && ByName(fed.value) == diff.value)
      ensures fed.Some? ==> (exporter.Contents(), ok) == FeedAll(old(exporter.Contents()), fed.value)
      ensures fed.None? ==> !ok && exporter.Contents() == old(exporter.Contents())
      ensures state == if ok then old(state)[p.desc.jobid := p] else old(state)
    {
      hide WellGrouped, Flatten, ByName, FeedAll, Subtracted, DistinctNames;
      var list := p.counters;
      if p.desc.jobid in state {
        var previous := state[p.desc.jobid];
        ok, list := Substract(p.counters, previous.counters);
        if !ok {
          return false, None;
        }
      }
      fed := Some(list);
      ok := FeedExporter(exporter, list);
      if ok {
        state := state[p.desc.jobid := p];
      }
    }
  }

  /** On profiles that list each metric once: what a turn feeds, and when all of it goes in. */
  lemma TurnFeeds(
    entries: Flat, cur: seq<CounterSnapshot>, prev: Option<seq<CounterSnapshot>>, fed: seq<CounterSnapshot>)
    requires DistinctNames(cur) && (prev.Some? ==> DistinctNames(prev.value))
    requires if prev.None? then fed == cur
             else DistinctNames(fed) && Subtracted(ByName(cur), prev.value) == Some(ByName(fed))
    ensures var shadow := if prev.None? then None else Some(ByName(prev.value));
            && (shadow.Some? ==> SameKind(ByName(cur), shadow.value))
            && ByName(fed) == ToFeed(shadow, ByName(cur))
            && (FeedAll(entries, fed).1 <==> Accepts(entries, shadow, ByName(cur)))
            && (FeedAll(entries, fed).1 ==> FeedAll(entries, fed).0 == FeedMap(entries, ByName(fed)))
  {
    hide ByName, FeedMap, Fits, SameKind, Difference, FeedAll, Subtracted, DistinctNames;
    if prev.Some? { SubtractedDistinct(ByName(cur), prev.value); }
    FeedAllIsFeedMap(entries, fed);
  }
}
