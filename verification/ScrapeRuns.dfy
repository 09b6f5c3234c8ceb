/** Several scrapers and local clients feeding the entries of one job, in every interleaving.

    A step is one critical section of the exporter: storing a description, adding a local value, or storing and then
    merging one counter of a scraped profile.  The main result is that the deltas telescope: an entry holds what it
    started from, plus the last snapshot each scraper saw, plus what its present turn has merged so far.
 */
module ScrapeRuns {
  import opened Basics
  import opened Counters
  import opened Exporters
  import opened Scraping

  type Amounts = map<string, (real, real)>

  function At(a: Amounts, n: string): (real, real) {
    if n in a then a[n] else ZERO
  }

  /** A turn of the scrape loop: the profile read, the counters to feed, how many are merged already, and whether the
      next one has been stored */
  datatype Turn = Turn(cur: Flat, fed: seq<CounterSnapshot>, next: nat, stored: bool)

  /** A scraper's last snapshot of the job, and its present turn */
  datatype Scraper = Scraper(shadow: Option<Flat>, turn: Option<Turn>)

  const IDLE := Scraper(None, None)

  /** One job's exporter and the scrapers that feed it.  Kept for the law only: what each entry started from, what
      dropped scrapers left behind, what local clients added. */
  datatype Job = Job(entries: Flat, base: Amounts, scrapers: seq<Scraper>, retired: Amounts, local: Amounts)

  datatype Op =
    | Begin(i: nat, cur: Flat, fed: seq<CounterSnapshot>)   // scraper i has read the job's profile
    | Store(i: nat)                   // push of the next counter
    | Merge(i: nat)                   // accumulate of the counter just pushed
    | Refuse(i: nat)                  // the next counter is refused: the scraper is dropped
    | Finish(i: nat)                  // the profile becomes the shadow
    | Depart(i: nat)                  // the job has left scraper i's proxy, or the scraper is dropped
    | Describe(v: CounterSnapshot)    // a local client describes a metric
    | Add(c: CounterSnapshot)         // a local client sends an increment or a gauge's sample

  ghost predicate InTurn(j: Job, i: nat) {
    i < |j.scrapers| && j.scrapers[i].turn.Some?
  }

  /** Scraper i has a counter to feed. */
  ghost predicate Feeding(j: Job, i: nat) {
    InTurn(j, i) && j.scrapers[i].turn.value.next < |j.scrapers[i].turn.value.fed|
  }

  ghost function TurnOf(j: Job, i: nat): Turn
    requires InTurn(j, i)
  {
    j.scrapers[i].turn.value
  }

  ghost function NextOf(j: Job, i: nat): CounterSnapshot
    requires Feeding(j, i)
  {
    TurnOf(j, i).fed[TurnOf(j, i).next]
  }

  ghost predicate Enabled(j: Job, op: Op) {
    match op
    case Begin(i, cur, fed) => i < |j.scrapers| && j.scrapers[i].turn.None? && Feeds(j.scrapers[i].shadow, cur, fed)
    case Store(i) => Feeding(j, i) && !TurnOf(j, i).stored && FlatPush(j.entries, NextOf(j, i)).Some?
    case Merge(i) => Feeding(j, i) && TurnOf(j, i).stored && FlatAccumulate(j.entries, NextOf(j, i), true).Some?
    case Refuse(i) =>
      Feeding(j, i) && if TurnOf(j, i).stored then FlatAccumulate(j.entries, NextOf(j, i), true).None?
                       else FlatPush(j.entries, NextOf(j, i)).None?
    case Finish(i) => InTurn(j, i) && TurnOf(j, i).next == |TurnOf(j, i).fed|
    case Depart(i) => i < |j.scrapers| && j.scrapers[i].turn.None?
    case Describe(v) => FlatPush(j.entries, v).Some?
    case Add(c) => FlatAccumulate(j.entries, c, false).Some?
  }

  /** The list is what a scraper with this shadow feeds of the profile, in some order. */
  ghost predicate Feeds(shadow: Option<Flat>, cur: Flat, fed: seq<CounterSnapshot>) {
    && (shadow.Some? ==> SameKind(cur, shadow.value))
    && DistinctNames(fed) && ByName(fed) == ToFeed(shadow, cur)
  }

  /** A turn can always go on, in one way. */
  lemma TurnGoesOn(j: Job, i: nat)
    requires InTurn(j, i) && TurnOf(j, i).next <= |TurnOf(j, i).fed|
    ensures Enabled(j, Store(i)) || Enabled(j, Merge(i)) || Enabled(j, Refuse(i)) || Enabled(j, Finish(i))
    ensures Enabled(j, Refuse(i)) ==> !Enabled(j, Store(i)) && !Enabled(j, Merge(i)) && !Enabled(j, Finish(i))
  {
  }

  /** The starting amounts once v has been pushed: a new entry starts from what it was created with. */
  ghost function BaseWith(j: Job, v: CounterSnapshot): Amounts {
    if v.name in j.entries then j.base else j.base[v.name := v.ctype.Amount()]
  }

  ghost function Pushed(j: Job, v: CounterSnapshot): Job
    requires FlatPush(j.entries, v).Some?
  {
    j.(entries := FlatPush(j.entries, v).value, base := BaseWith(j, v))
  }

  ghost function WithScraper(j: Job, i: nat, s: Scraper): Job
    requires i < |j.scrapers|
  {
    j.(scrapers := j.scrapers[i := s])
  }

  /** Scraper i no longer follows the job; what it saw last stays behind. */
  ghost function Dropped(j: Job, i: nat): Job
    requires i < |j.scrapers|
  {
    var gone := if j.scrapers[i].shadow.Some? then j.scrapers[i].shadow.value else map[];
    j.(retired := map n | n in j.retired.Keys + gone.Keys :: Plus(At(j.retired, n), AmountIn(gone, n)),
       scrapers := j.scrapers[i := IDLE])
  }

  /** What a local client's value counts for: an increment by its amount, a gauge's sample as one hit */
  function Sampled(t: CounterType): (real, real) {
    match t
    case Counter(_, v) => (v, 0.0)
    case Gauge(_, _, _, total) => (1.0, total)
  }

  ghost function Apply(j: Job, op: Op): Job
    requires Enabled(j, op)
  {
    match op
    case Begin(i, cur, fed) => WithScraper(j, i, j.scrapers[i].(turn := Some(Turn(cur, fed, 0, false))))
    case Store(i) =>
      Pushed(WithScraper(j, i, j.scrapers[i].(turn := Some(TurnOf(j, i).(stored := true)))), NextOf(j, i))
    case Merge(i) =>
      var t := TurnOf(j, i).(next := TurnOf(j, i).next + 1, stored := false);
      var entries := FlatAccumulate(j.entries, NextOf(j, i), true).value;
      WithScraper(j, i, j.scrapers[i].(turn := Some(t))).(entries := entries)
    case Refuse(i) => Dropped(j, i)
    case Finish(i) => WithScraper(j, i, Scraper(Some(TurnOf(j, i).cur), None))
    case Depart(i) => Dropped(j, i)
    case Describe(v) => Pushed(j, v)
    case Add(c) =>
      j.(entries := FlatAccumulate(j.entries, c, false).value,
         local := j.local[c.name := Plus(At(j.local, c.name), Sampled(c.ctype))])
  }

  // ----- the conservation law -----

  ghost function LastSeen(shadow: Option<Flat>, n: string): (real, real) {
    match shadow case None => ZERO case Some(m) => AmountIn(m, n)
  }

  /** What a turn has merged so far */
  ghost function MergedIn(turn: Option<Turn>, n: string): (real, real) {
    match turn
    case None => ZERO
    case Some(t) => if t.next <= |t.fed| then SumNamed(t.fed[..t.next], n) else ZERO
  }

  ghost function Seen(s: Scraper, n: string): (real, real) {
    Plus(LastSeen(s.shadow, n), MergedIn(s.turn, n))
  }

  ghost function SumSeen(ss: seq<Scraper>, n: string): (real, real) {
    if ss == [] then ZERO else Plus(SumSeen(ss[..|ss| - 1], n), Seen(ss[|ss| - 1], n))
  }

  lemma {:induction false} SumSeenUpdate(ss: seq<Scraper>, i: nat, s: Scraper, n: string)
    requires i < |ss|
    ensures SumSeen(ss[i := s], n) == Plus(SumSeen(ss, n), Minus(Seen(s, n), Seen(ss[i], n)))
  {
    hide Seen;
    var last := |ss| - 1;
    if i == last {
      assert ss[i := s][..last] == ss[..last];
    } else {
      SumSeenUpdate(ss[..last], i, s, n);
      assert ss[i := s][..last] == ss[..last][i := s];
    }
  }

  ghost function Expected(j: Job, n: string): (real, real) {
    Plus(Plus(At(j.base, n), At(j.retired, n)), Plus(At(j.local, n), SumSeen(j.scrapers, n)))
  }

  ghost predicate LawAt(j: Job, n: string) {
    n in j.entries ==> j.entries[n].ctype.Amount() == Expected(j, n)
  }

  ghost predicate NoneAt(j: Job, n: string) {
    At(j.base, n) == At(j.retired, n) == At(j.local, n) == ZERO
  }

  ghost predicate Conserved(j: Job) {
    (forall n :: LawAt(j, n)) && Tidy(j)
  }

  /** Nothing is on the books for a name without an entry. */
  ghost predicate Tidy(j: Job) {
    && (forall n :: n !in j.entries ==> NoneAt(j, n))
    && (forall i :: 0 <= i < |j.scrapers| ==> Within(j.scrapers[i], j.entries))
  }

  ghost predicate TurnWithin(shadow: Option<Flat>, t: Turn, entries: Flat) {
    && Feeds(shadow, t.cur, t.fed) && t.next <= |t.fed| && (t.stored ==> t.next < |t.fed|)
    && forall k :: 0 <= k < t.next || (k == t.next && t.stored) ==> t.fed[k].name in entries
  }

  ghost predicate Within(s: Scraper, entries: Flat) {
    && (s.shadow.Some? ==> s.shadow.value.Keys <= entries.Keys)
    && (s.turn.Some? ==> TurnWithin(s.shadow, s.turn.value, entries))
  }

  lemma {:induction false} UnlistedIsZero(cs: seq<CounterSnapshot>, n: string)
    requires forall k :: 0 <= k < |cs| ==> cs[k].name != n
    ensures SumNamed(cs, n) == ZERO
  {
    if cs != [] { UnlistedIsZero(cs[..|cs| - 1], n); }
  }

  lemma NotSeen(s: Scraper, entries: Flat, n: string)
    requires Within(s, entries) && n !in entries
    ensures LastSeen(s.shadow, n) == ZERO && MergedIn(s.turn, n) == ZERO && Seen(s, n) == ZERO
  {
    hide SameKind, ByName, ToFeed, DistinctNames;
    if s.turn.Some? { UnlistedIsZero(s.turn.value.fed[..s.turn.value.next], n); }
  }

  lemma {:induction false} UnseenIsZero(ss: seq<Scraper>, entries: Flat, n: string)
    requires (forall i :: 0 <= i < |ss| ==> Within(ss[i], entries)) && n !in entries
    ensures SumSeen(ss, n) == ZERO
  {
    hide Within, Seen;
    if ss != [] {
      UnseenIsZero(ss[..|ss| - 1], entries, n);
      NotSeen(ss[|ss| - 1], entries, n);
    }
  }

  lemma WithinMore(s: Scraper, m: Flat, m': Flat)
    requires Within(s, m) && m.Keys <= m'.Keys
    ensures Within(s, m')
  {
  }

  lemma AddZeros(a: (real, real))
    ensures Plus(Plus(a, ZERO), Plus(ZERO, ZERO)) == a && Plus(a, ZERO) == a && Minus(a, a) == ZERO
  {
  }

  // ----- a push -----

  lemma BaseAt(j: Job, v: CounterSnapshot, n: string)
    ensures At(BaseWith(j, v), n) == if n == v.name && n !in j.entries then v.ctype.Amount() else At(j.base, n)
  {
  }

  lemma PushTidy(j: Job, v: CounterSnapshot)
    requires FlatPush(j.entries, v).Some? && Tidy(j)
    ensures Tidy(Pushed(j, v))
  {
    hide BaseWith, Within, Unmatched;
    var k := Pushed(j, v);
    forall n | n !in k.entries ensures NoneAt(k, n) {
      BaseAt(j, v, n);
      assert NoneAt(j, n);
    }
    forall i | 0 <= i < |k.scrapers| ensures Within(k.scrapers[i], k.entries) {
      WithinMore(j.scrapers[i], j.entries, k.entries);
    }
  }

  /** A push leaves known entries alone and starts a new one from its own amount. */
  lemma PushConserves(j: Job, v: CounterSnapshot)
    requires FlatPush(j.entries, v).Some? && Conserved(j)
    ensures Conserved(Pushed(j, v))
  {
    hide SumSeen, Plus, BaseWith, Within, Unmatched;
    PushTidy(j, v);
    var k := Pushed(j, v);
    forall n ensures LawAt(k, n) {
      BaseAt(j, v, n);
      assert LawAt(j, n);
      if n !in j.entries {
        assert NoneAt(j, n);
        UnseenIsZero(j.scrapers, j.entries, n);
        AddZeros(v.ctype.Amount());
      }
    }
  }

  // ----- a change of one scraper -----

  lemma SeenBooks(
    base: (real, real), retired: (real, real), local: (real, real), sum: (real, real), change: (real, real))
    ensures Plus(Plus(base, retired), Plus(local, Plus(sum, change))) ==
            Plus(Plus(Plus(base, retired), Plus(local, sum)), change)
  {
  }

  /** The books move by what the scraper's share moves. */
  lemma ShareMoves(j: Job, i: nat, s: Scraper, n: string)
    requires i < |j.scrapers|
    ensures Expected(WithScraper(j, i, s), n) == Plus(Expected(j, n), Minus(Seen(s, n), Seen(j.scrapers[i], n)))
  {
    hide SumSeen, Seen, Plus, Minus;
    SumSeenUpdate(j.scrapers, i, s, n);
    SeenBooks(At(j.base, n), At(j.retired, n), At(j.local, n), SumSeen(j.scrapers, n),
      Minus(Seen(s, n), Seen(j.scrapers[i], n)));
  }

  /** Entries alone: the law holds afterwards where an entry moved by as much as the scraper's share. */
  lemma ShareLaw(j: Job, i: nat, s: Scraper, entries: Flat, n: string)
    requires i < |j.scrapers| && LawAt(j, n) && entries.Keys == j.entries.Keys
    ensures LawAt(WithScraper(j, i, s).(entries := entries), n) <==>
            (n in entries ==>
               entries[n].ctype.Amount() ==
                 Plus(j.entries[n].ctype.Amount(), Minus(Seen(s, n), Seen(j.scrapers[i], n))))
  {
    hide SumSeen, Seen, Plus, Minus;
    ShareMoves(j, i, s, n);
  }

  lemma ShareTidy(j: Job, i: nat, s: Scraper, entries: Flat)
    requires i < |j.scrapers| && Tidy(j) && entries.Keys == j.entries.Keys && Within(s, entries)
    ensures Tidy(WithScraper(j, i, s).(entries := entries))
  {
    hide Within;
    var k := WithScraper(j, i, s).(entries := entries);
    forall n | n !in k.entries ensures NoneAt(k, n) {
      assert NoneAt(j, n);
    }
    forall l | 0 <= l < |k.scrapers| ensures Within(k.scrapers[l], k.entries) {
      if l != i { WithinMore(j.scrapers[l], j.entries, entries); }
    }
  }

  lemma Cancels(a: (real, real), d: (real, real))
    ensures a == Plus(a, d) <==> d == ZERO
  {
  }

  /** A scraper's share changes and no entry does: the law holds exactly where the share is the same. */
  lemma ShareConservesIff(j: Job, i: nat, s: Scraper)
    requires i < |j.scrapers| && Conserved(j) && Within(s, j.entries)
    ensures Conserved(WithScraper(j, i, s)) <==> forall n :: Seen(s, n) == Seen(j.scrapers[i], n)
  {
    hide SumSeen, Seen, Plus, Minus, Within, Tidy, LawAt;
    var k := WithScraper(j, i, s);
    assert k == k.(entries := j.entries);
    ShareTidy(j, i, s, j.entries);
    SoundHere(j, i);
    forall n ensures LawAt(k, n) <==> Seen(s, n) == Seen(j.scrapers[i], n) {
      assert LawAt(j, n);
      SameShare(j, i, s, n);
    }
  }

  lemma SoundHere(j: Job, i: nat)
    requires Tidy(j) && i < |j.scrapers|
    ensures Within(j.scrapers[i], j.entries)
  {
  }

  lemma SameShare(j: Job, i: nat, s: Scraper, n: string)
    requires i < |j.scrapers| && LawAt(j, n) && Within(s, j.entries) && Within(j.scrapers[i], j.entries)
    ensures LawAt(WithScraper(j, i, s), n) <==> Seen(s, n) == Seen(j.scrapers[i], n)
  {
    hide SumSeen, Seen, Plus, Minus, Within;
    assert WithScraper(j, i, s) == WithScraper(j, i, s).(entries := j.entries);
    ShareLaw(j, i, s, j.entries, n);
    if n in j.entries {
      Cancels(j.entries[n].ctype.Amount(), Minus(Seen(s, n), Seen(j.scrapers[i], n)));
      MinusZero(Seen(s, n), Seen(j.scrapers[i], n));
    } else {
      NotSeen(s, j.entries, n);
      NotSeen(j.scrapers[i], j.entries, n);
    }
  }

  lemma MinusZero(a: (real, real), b: (real, real))
    ensures Minus(a, b) == ZERO <==> a == b
  {
  }

  lemma BeginConserves(j: Job, i: nat, cur: Flat, fed: seq<CounterSnapshot>)
    requires Enabled(j, Begin(i, cur, fed)) && Conserved(j)
    ensures Conserved(Apply(j, Begin(i, cur, fed)))
  {
    hide LawAt, Feeds, SumNamed, AmountIn, NoneAt;
    var s := j.scrapers[i].(turn := Some(Turn(cur, fed, 0, false)));
    SoundHere(j, i);
    forall n ensures Seen(s, n) == Seen(j.scrapers[i], n) {
      UnlistedIsZero(fed[..0], n);
    }
    ShareConservesIff(j, i, s);
  }

  lemma StoreConserves(j: Job, i: nat)
    requires Enabled(j, Store(i)) && Conserved(j)
    ensures Conserved(Apply(j, Store(i)))
  {
    hide LawAt, Feeds, SumNamed, AmountIn, SumSeen;
    var v, k := NextOf(j, i), Pushed(j, NextOf(j, i));
    PushConserves(j, v);
    SoundHere(j, i);
    WithinMore(j.scrapers[i], j.entries, k.entries);
    var s := j.scrapers[i].(turn := Some(TurnOf(j, i).(stored := true)));
    forall n ensures Seen(s, n) == Seen(k.scrapers[i], n) {
    }
    ShareConservesIff(k, i, s);
    assert Apply(j, Store(i)) == WithScraper(k, i, s);
  }

  // ----- a merge -----

  lemma MergeEntry(m: Flat, v: CounterSnapshot, n: string)
    requires FlatAccumulate(m, v, true).Some?
    ensures var m' := FlatAccumulate(m, v, true).value;
            && m'.Keys == m.Keys && v.name in m
            && (n in m ==> m'[n].ctype.Amount() ==
                             Plus(m[n].ctype.Amount(), if n == v.name then v.ctype.Amount() else ZERO))
  {
    if n in m && n == v.name {
      MergeAdds(m[n].ctype, v.ctype);
    } else if n in m {
      AddZeros(m[n].ctype.Amount());
    }
  }

  lemma SumNamedNext(cs: seq<CounterSnapshot>, k: nat, n: string)
    requires k < |cs|
    ensures SumNamed(cs[..k + 1], n) ==
            Plus(SumNamed(cs[..k], n), if cs[k].name == n then cs[k].ctype.Amount() else ZERO)
  {
    assert cs[..k + 1][..k] == cs[..k];
  }

  lemma PlusMinus(a: (real, real), b: (real, real), c: (real, real))
    ensures Minus(Plus(a, Plus(b, c)), Plus(a, b)) == c
  {
  }

  lemma MergeConserves(j: Job, i: nat)
    requires Enabled(j, Merge(i)) && Conserved(j)
    ensures Conserved(Apply(j, Merge(i)))
  {
    hide LawAt, Feeds, SumNamed, AmountIn, SumSeen, FlatAccumulate, Plus, Minus;
    var v, t, s := NextOf(j, i), TurnOf(j, i), j.scrapers[i];
    var entries := FlatAccumulate(j.entries, v, true).value;
    var s' := s.(turn := Some(t.(next := t.next + 1, stored := false)));
    MergeEntry(j.entries, v, v.name);
    SoundHere(j, i);
    assert Within(s', entries);
    ShareTidy(j, i, s', entries);
    forall n ensures LawAt(Apply(j, Merge(i)), n) {
      assert LawAt(j, n);
      MergeEntry(j.entries, v, n);
      SumNamedNext(t.fed, t.next, n);
      PlusMinus(LastSeen(s.shadow, n), SumNamed(t.fed[..t.next], n), if v.name == n then v.ctype.Amount() else ZERO);
      ShareLaw(j, i, s', entries, n);
    }
  }

  // ----- the end of a turn -----

  /** A name the scraper saw with a nonzero amount is missing from the new profile. */
  ghost predicate Lost(shadow: Option<Flat>, cur: Flat, n: string) {
    shadow.Some? && n in shadow.value && n !in cur && AmountIn(shadow.value, n) != ZERO
  }

  lemma {:induction false} SumNamedDistinct(cs: seq<CounterSnapshot>, n: string)
    requires DistinctNames(cs)
    ensures SumNamed(cs, n) == AmountIn(ByName(cs), n)
  {
    hide ByName, Plus;
    if cs == [] {
      NoDifference(map[]);
    } else {
      var k := |cs| - 1;
      SumNamedDistinct(cs[..k], n);
      ByNameStep(cs, k);
      assert cs[..k + 1] == cs;
      AddZeros(SumNamed(cs[..k], n));
      ZeroAdds(cs[k].ctype.Amount());
    }
  }

  lemma ZeroAdds(a: (real, real))
    ensures Plus(ZERO, a) == a
  {
  }

  /** What a whole turn merges is the change of the snapshot, unless the name was lost. */
  lemma TurnAmount(shadow: Option<Flat>, cur: Flat, n: string)
    requires shadow.Some? ==> SameKind(cur, shadow.value)
    ensures Plus(LastSeen(shadow, n), AmountIn(ToFeed(shadow, cur), n)) == AmountIn(cur, n) <==> !Lost(shadow, cur, n)
  {
  }

  lemma FinishSound(j: Job, i: nat)
    requires Enabled(j, Finish(i)) && Tidy(j)
    ensures Within(Scraper(Some(TurnOf(j, i).cur), None), j.entries)
  {
    var t, s := TurnOf(j, i), j.scrapers[i];
    SoundHere(j, i);
    forall n | n in t.cur ensures n in j.entries {
      assert n in ToFeed(s.shadow, t.cur);
      ListedSomewhere(t.fed, n);
    }
  }

  lemma ListedSomewhere(cs: seq<CounterSnapshot>, n: string)
    requires n in ByName(cs)
    ensures exists k :: 0 <= k < |cs| && cs[k].name == n
  {
    var c := ByName(cs)[n];
    assert c in cs;
  }

  /** The law survives the end of a turn exactly when no name was lost. */
  lemma FinishConservesIff(j: Job, i: nat)
    requires Enabled(j, Finish(i)) && Conserved(j)
    ensures Conserved(Apply(j, Finish(i))) <==> KeepsLaw(j, Finish(i))
  {
    hide LawAt, Plus, SumNamed, AmountIn, ByName, ToFeed, SameKind, DistinctNames, Lost, NoneAt;
    var t, s := TurnOf(j, i), j.scrapers[i];
    var s' := Scraper(Some(t.cur), None);
    SoundHere(j, i);
    FinishSound(j, i);
    forall n ensures Seen(s', n) == Seen(s, n) <==> !Lost(s.shadow, t.cur, n) {
      assert t.fed[..t.next] == t.fed;
      SumNamedDistinct(t.fed, n);
      TurnAmount(s.shadow, t.cur, n);
      AddZeros(AmountIn(t.cur, n));
    }
    ShareConservesIff(j, i, s');
  }

  // ----- a dropped scraper -----

  lemma MovedToRetired(base: (real, real), retired: (real, real), local: (real, real), sum: (real, real),
                       gone: (real, real), merged: (real, real))
    ensures Plus(Plus(base, Plus(retired, gone)), Plus(local, Plus(sum, Minus(ZERO, Plus(gone, merged))))) ==
            Plus(Plus(Plus(base, retired), Plus(local, sum)), Minus(ZERO, merged))
    ensures Plus(ZERO, ZERO) == ZERO
  {
  }

  lemma RetiredAt(j: Job, i: nat, n: string)
    requires i < |j.scrapers|
    ensures At(Dropped(j, i).retired, n) == Plus(At(j.retired, n), LastSeen(j.scrapers[i].shadow, n))
  {
  }

  lemma IdleSeesNothing(n: string)
    ensures Seen(IDLE, n) == ZERO
  {
  }

  /** Dropping a scraper takes off the books what its unfinished turn has merged. */
  lemma DroppedExpects(j: Job, i: nat, n: string)
    requires i < |j.scrapers|
    ensures Expected(Dropped(j, i), n) == Plus(Expected(j, n), Minus(ZERO, MergedIn(j.scrapers[i].turn, n)))
  {
    hide SumSeen, Plus, Minus, At, LastSeen, MergedIn;
    SumSeenUpdate(j.scrapers, i, IDLE, n);
    RetiredAt(j, i, n);
    IdleSeesNothing(n);
    var s := j.scrapers[i];
    MovedToRetired(At(j.base, n), At(j.retired, n), At(j.local, n), SumSeen(j.scrapers, n), LastSeen(s.shadow, n),
      MergedIn(s.turn, n));
  }

  lemma DroppedTidy(j: Job, i: nat)
    requires i < |j.scrapers| && Tidy(j)
    ensures Tidy(Dropped(j, i))
  {
    hide Plus, AmountIn, Within;
    var k := Dropped(j, i);
    forall n | n !in k.entries ensures NoneAt(k, n) {
      assert NoneAt(j, n);
      RetiredAt(j, i, n);
      SoundHere(j, i);
      NotSeen(j.scrapers[i], j.entries, n);
      MovedToRetired(ZERO, ZERO, ZERO, ZERO, ZERO, ZERO);
    }
    forall l | 0 <= l < |k.scrapers| ensures Within(k.scrapers[l], k.entries) {
      if l == i { IdleWithin(k.entries); } else { SoundHere(j, l); }
    }
  }

  lemma IdleWithin(entries: Flat)
    ensures Within(IDLE, entries)
  {
  }

  /** The law survives the drop exactly when the scraper's turn had merged nothing that counts. */
  lemma DropConservesIff(j: Job, i: nat)
    requires i < |j.scrapers| && Conserved(j)
    ensures Conserved(Dropped(j, i)) <==> forall n :: MergedIn(j.scrapers[i].turn, n) == ZERO
  {
    hide Expected, Tidy, Plus, Minus, MergedIn, Dropped;
    var k := Dropped(j, i);
    DroppedTidy(j, i);
    forall n ensures LawAt(k, n) <==> MergedIn(j.scrapers[i].turn, n) == ZERO {
      assert LawAt(j, n);
      DroppedLaw(j, i, n);
    }
  }

  lemma DroppedLaw(j: Job, i: nat, n: string)
    requires i < |j.scrapers| && LawAt(j, n) && Tidy(j)
    ensures LawAt(Dropped(j, i), n) <==> MergedIn(j.scrapers[i].turn, n) == ZERO
  {
    hide Expected, Plus, Minus, MergedIn, Within;
    DroppedExpects(j, i, n);
    var merged := MergedIn(j.scrapers[i].turn, n);
    if n in j.entries {
      Cancels(Expected(j, n), Minus(ZERO, merged));
      MinusZero(ZERO, merged);
    } else {
      SoundHere(j, i);
      NotSeen(j.scrapers[i], j.entries, n);
    }
  }

  // ----- a local client -----

  /** What a local value does to its entry: an increment adds to it, a gauge's sample takes its place. */
  lemma SetAmount(entry: CounterType, v: CounterType)
    requires entry.Set(v).Some?
    ensures entry.SameType(v)
    ensures entry.Set(v).value.Amount() == if v.Gauge? then Sampled(v) else Plus(entry.Amount(), Sampled(v))
  {
  }

  lemma AddIs(j: Job, c: CounterSnapshot, n: string)
    requires Enabled(j, Add(c))
    ensures c.name in j.entries && j.entries[c.name].ctype.Set(c.ctype).Some?
    ensures var k := Apply(j, Add(c));
            && (n in k.entries <==> n in j.entries)
            && (n in j.entries && n != c.name ==> k.entries[n] == j.entries[n])
            && (n == c.name ==> k.entries[n].ctype == j.entries[n].ctype.Set(c.ctype).value)
            && At(k.local, n) == Plus(At(j.local, n), if n == c.name then Sampled(c.ctype) else ZERO)
            && k.base == j.base && k.retired == j.retired && k.scrapers == j.scrapers
  {
    hide Plus, Sampled;
    AddZeros(At(j.local, n));
  }

  lemma AddBooks(base: (real, real), retired: (real, real), local: (real, real), sum: (real, real), more: (real, real))
    ensures Plus(Plus(base, retired), Plus(Plus(local, more), sum)) ==
            Plus(Plus(Plus(base, retired), Plus(local, sum)), more)
    ensures Plus(local, ZERO) == local
  {
  }

  lemma AddAt(j: Job, c: CounterSnapshot, n: string)
    requires Enabled(j, Add(c)) && LawAt(j, n)
    ensures c.name in j.entries
    ensures LawAt(Apply(j, Add(c)), n) <==> (n == c.name && c.ctype.Gauge? ==> j.entries[n].ctype.Amount() == ZERO)
  {
    hide Apply, Enabled, SumSeen, Plus, At, Sampled;
    AddIs(j, c, n);
    if n in j.entries {
      var more := if n == c.name then Sampled(c.ctype) else ZERO;
      AddBooks(At(j.base, n), At(j.retired, n), At(j.local, n), SumSeen(j.scrapers, n), more);
      if n == c.name {
        SetAmount(j.entries[n].ctype, c.ctype);
        SampleCancels(Expected(j, n), more);
      } else {
        AddZeros(Expected(j, n));
      }
    }
  }

  lemma SampleCancels(a: (real, real), b: (real, real))
    ensures b == Plus(a, b) <==> a == ZERO
  {
  }

  /** The law survives a local value exactly when it is an increment or finds a gauge that holds nothing. */
  lemma AddConservesIff(j: Job, c: CounterSnapshot)
    requires Enabled(j, Add(c)) && Conserved(j)
    ensures Conserved(Apply(j, Add(c))) <==> KeepsLaw(j, Add(c))
  {
    hide Apply, Enabled, LawAt, Plus, At, Within;
    var k := Apply(j, Add(c));
    AddIs(j, c, c.name);
    forall n ensures LawAt(k, n) <==> (n == c.name && c.ctype.Gauge? ==> j.entries[n].ctype.Amount() == ZERO) {
      assert LawAt(j, n);
      AddAt(j, c, n);
    }
    AddTidy(j, c);
  }

  lemma AddTidy(j: Job, c: CounterSnapshot)
    requires Enabled(j, Add(c)) && Tidy(j)
    ensures Tidy(Apply(j, Add(c)))
  {
    hide Apply, Enabled, Plus, At, Within;
    var k := Apply(j, Add(c));
    AddIs(j, c, c.name);
    forall n | n !in k.entries ensures NoneAt(k, n) {
      AddIs(j, c, n);
      assert NoneAt(j, n);
      AddBooks(ZERO, ZERO, At(j.local, n), ZERO, ZERO);
    }
    SameNames(j, c);
    forall i | 0 <= i < |k.scrapers| ensures Within(k.scrapers[i], k.entries) {
      WithinMore(j.scrapers[i], j.entries, k.entries);
    }
  }

  lemma SameNames(j: Job, c: CounterSnapshot)
    requires Enabled(j, Add(c))
    ensures Apply(j, Add(c)).entries.Keys == j.entries.Keys
  {
  }

  // ----- every interleaving -----

  /** What is needed of a step, before it is taken, for the law to survive it: no name lost at the end of a turn,
      nothing merged before a refusal, no gauge with data overwritten by a local sample */
  ghost predicate KeepsLaw(j: Job, op: Op)
    requires Enabled(j, op)
  {
    match op
    case Finish(i) => forall n :: !Lost(j.scrapers[i].shadow, TurnOf(j, i).cur, n)
    case Refuse(i) => forall n :: MergedIn(j.scrapers[i].turn, n) == ZERO
    case Add(c) => c.ctype.Gauge? ==> AmountIn(j.entries, c.name) == ZERO
    case _ => true
  }

  lemma StepConservesIff(j: Job, op: Op)
    requires Enabled(j, op) && Conserved(j)
    ensures Conserved(Apply(j, op)) <==> KeepsLaw(j, op)
  {
    hide Conserved, Dropped, MergedIn, Lost, Pushed, AmountIn;
    match op
    case Begin(i, cur, fed) => BeginConserves(j, i, cur, fed);
    case Store(i) => StoreConserves(j, i);
    case Merge(i) => MergeConserves(j, i);
    case Refuse(i) => DropConservesIff(j, i);
    case Finish(i) => FinishConservesIff(j, i);
    case Depart(i) =>
      DropConservesIff(j, i);
      NoTurn();
    case Describe(v) => PushConserves(j, v);
    case Add(c) => AddConservesIff(j, c);
  }

  lemma NoTurn()
    ensures forall n :: MergedIn(None, n) == ZERO
  {
  }

  /** The states js are passed through by the operations ops, from a job with the given entries. */
  ghost predicate IsHistory(start: Flat, scrapers: nat, ops: seq<Op>, js: seq<Job>) {
    && |js| == |ops| + 1 && js[0] == Start(start, scrapers)
    && forall k :: 0 <= k < |ops| ==> Enabled(js[k], ops[k]) && js[k + 1] == Apply(js[k], ops[k])
  }

  ghost function Start(start: Flat, scrapers: nat): Job {
    Job(start, map n | n in start :: start[n].ctype.Amount(), seq(scrapers, _ => IDLE), map[], map[])
  }

  lemma {:induction false} NothingSeen(k: nat, n: string)
    ensures SumSeen(seq(k, _ => IDLE), n) == ZERO
  {
    if k > 0 {
      NothingSeen(k - 1, n);
      assert seq(k, _ => IDLE)[..k - 1] == seq(k - 1, _ => IDLE);
    }
  }

  lemma StartConserved(start: Flat, scrapers: nat)
    ensures Conserved(Start(start, scrapers))
  {
    hide SumSeen;
    var j := Start(start, scrapers);
    assert forall n :: At(j.base, n) == AmountIn(start, n);
    forall n ensures LawAt(j, n) {
      NothingSeen(scrapers, n);
      AddZeros(AmountIn(start, n));
    }
  }

  /** In every interleaving of any number of scrapers and local clients, refusals included: at every moment an
      entry holds what it started from, plus what dropped scrapers left, plus the local values, plus the last
      snapshot each scraper saw and what its present turn has merged, if and only if every step met its condition. */
  lemma {:induction false} DeltasTelescope(start: Flat, scrapers: nat, ops: seq<Op>, js: seq<Job>, m: nat)
    requires IsHistory(start, scrapers, ops, js) && m < |js|
    ensures (forall k :: 0 <= k <= m ==> Conserved(js[k])) <==> (forall k :: 0 <= k < m ==> KeepsLaw(js[k], ops[k]))
  {
    hide Conserved, Apply, Enabled, KeepsLaw, Start;
    if m == 0 {
      StartConserved(start, scrapers);
    } else {
      DeltasTelescope(start, scrapers, ops, js, m - 1);
      assert Enabled(js[m - 1], ops[m - 1]) && js[m - 1 + 1] == Apply(js[m - 1], ops[m - 1]);
      if Conserved(js[m - 1]) {
        StepConservesIff(js[m - 1], ops[m - 1]);
        assert Conserved(js[m]) <==> KeepsLaw(js[m - 1], ops[m - 1]);
      }
    }
  }

  // ----- a turn that no one disturbs -----

  lemma StoreThenMerge(j: Job, i: nat)
    requires Enabled(j, Store(i)) && Enabled(Apply(j, Store(i)), Merge(i))
    ensures var k, t := Apply(Apply(j, Store(i)), Merge(i)), TurnOf(j, i);
            && Feed(j.entries, NextOf(j, i)) == Some(k.entries)
            && InTurn(k, i) && TurnOf(k, i) == t.(next := t.next + 1)
  {
    hide FlatPush, FlatAccumulate, BaseWith;
  }

  lemma FeedMore(m: Flat, cs: seq<CounterSnapshot>, p: nat)
    requires p < |cs| && FeedAll(m, cs[..p]).1 && Feed(FeedAll(m, cs[..p]).0, cs[p]).Some?
    ensures FeedAll(m, cs[..p + 1]) == (Feed(FeedAll(m, cs[..p]).0, cs[p]).value, true)
  {
    hide Feed;
    assert cs[..p + 1][..p] == cs[..p];
  }

  /** Undisturbed, a turn feeds the exporter as the loop over the counters does. */
  lemma {:induction false} TurnIsFeed(
    start: Flat, scrapers: nat, ops: seq<Op>, js: seq<Job>, k: nat, i: nat, t: Turn, p: nat)
    requires IsHistory(start, scrapers, ops, js) && k + 2 * p < |js|
    requires InTurn(js[k], i) && TurnOf(js[k], i) == t && t.next == 0 && !t.stored && p <= |t.fed|
    requires forall q :: 0 <= q < p ==> ops[k + 2 * q] == Store(i) && ops[k + (2 * q + 1)] == Merge(i)
    ensures FeedAll(js[k].entries, t.fed[..p]) == (js[k + 2 * p].entries, true)
    ensures InTurn(js[k + 2 * p], i) && TurnOf(js[k + 2 * p], i) == t.(next := p)
  {
    hide FeedAll, Feed, Apply, Enabled, Start;
    if p == 0 {
      NothingFed(js[k].entries, t.fed);
    } else {
      TurnIsFeed(start, scrapers, ops, js, k, i, t, p - 1);
      var l := k + 2 * (p - 1);
      assert ops[l] == Store(i) && ops[k + (2 * (p - 1) + 1)] == Merge(i);
      assert js[l + 1] == Apply(js[l], ops[l]) && js[l + 1 + 1] == Apply(js[l + 1], ops[l + 1]);
      StoreThenMerge(js[l], i);
      FeedMore(js[k].entries, t.fed, p - 1);
    }
  }

  lemma NothingFed(m: Flat, cs: seq<CounterSnapshot>)
    ensures FeedAll(m, cs[..0]) == (m, true)
  {
  }

  // ----- ranges -----

  /** A gauge's range holds another's. */
  ghost predicate Covers(e: CounterType, v: CounterType) {
    v.Gauge? ==> e.Gauge? && e.min <= v.min && v.max <= e.max
  }

  lemma MergeCovers(a: CounterType, b: CounterType)
    requires a.SameType(b)
    ensures a.Merge(b).Some? && Covers(a.Merge(b).value, a) && Covers(a.Merge(b).value, b)
    ensures Covers(a.Delta(b).value, a)
  {
  }

  lemma CoversItself(a: CounterType)
    ensures Covers(a, a)
  {
  }

  /** A local sample of a gauge spares its range only if the range is that one value. */
  ghost predicate KeepsRange(j: Job, op: Op, n: string)
    requires n in j.entries
  {
    op.Add? && op.c.name == n && op.c.ctype.Gauge? && j.entries[n].ctype.Gauge? ==>
      op.c.ctype.total <= j.entries[n].ctype.min && j.entries[n].ctype.max <= op.c.ctype.total
  }

  /** Exactly the steps that do not narrow the range of an entry */
  lemma StepWidensIff(j: Job, op: Op, n: string)
    requires Enabled(j, op) && n in j.entries
    ensures n in Apply(j, op).entries
    ensures Covers(Apply(j, op).entries[n].ctype, j.entries[n].ctype) <==> KeepsRange(j, op, n)
  {
    CoversItself(j.entries[n].ctype);
    match op
    case Merge(i) => MergedRange(j.entries, NextOf(j, i), n);
    case Add(c) =>
      hide Apply, Enabled;
      AddIs(j, c, n);
    case _ => hide Covers, Plus;
  }

  lemma MergedRange(m: Flat, v: CounterSnapshot, n: string)
    requires FlatAccumulate(m, v, true).Some? && n in m
    ensures var m' := FlatAccumulate(m, v, true).value;
            && n in m' && Covers(m'[n].ctype, m[n].ctype) && (n == v.name ==> Covers(m'[n].ctype, v.ctype))
  {
    CoversItself(m[n].ctype);
    if n == v.name { MergeCovers(m[n].ctype, v.ctype); }
  }

  /** What is fed of a name still in the profile has the range that was read, also as a difference. */
  lemma FedRange(shadow: Option<Flat>, t: Turn, entries: Flat, k: nat)
    requires TurnWithin(shadow, t, entries) && k < |t.fed| && t.fed[k].name in t.cur
    ensures Covers(t.fed[k].ctype, t.cur[t.fed[k].name].ctype)
  {
    var n := t.fed[k].name;
    ByNameDistinct(t.fed, k);
    CoversItself(t.cur[n].ctype);
    assert t.fed[k] == ToFeed(shadow, t.cur)[n];
    if shadow.Some? && n in shadow.value {
      MergeCovers(t.cur[n].ctype, shadow.value[n].ctype);
    }
  }

  /** Merging a counter makes the entry's range hold the range that was read. */
  lemma MergeHoldsRange(j: Job, i: nat)
    requires Enabled(j, Merge(i)) && Tidy(j) && NextOf(j, i).name in TurnOf(j, i).cur
    ensures var n := NextOf(j, i).name;
            && n in Apply(j, Merge(i)).entries
            && Covers(Apply(j, Merge(i)).entries[n].ctype, TurnOf(j, i).cur[n].ctype)
  {
    hide TurnWithin, NoneAt;
    var v, t := NextOf(j, i), TurnOf(j, i);
    SoundHere(j, i);
    FedRange(j.scrapers[i].shadow, t, j.entries, t.next);
    MergeEntry(j.entries, v, v.name);
    MergedRange(j.entries, v, v.name);
  }

  // ----- ranges over a history -----

  lemma StoreTidy(j: Job, i: nat)
    requires Enabled(j, Store(i)) && Tidy(j)
    ensures Tidy(Apply(j, Store(i)))
  {
    hide Feeds, NoneAt, Unmatched;
    var v, k := NextOf(j, i), Pushed(j, NextOf(j, i));
    PushTidy(j, v);
    SoundHere(j, i);
    WithinMore(j.scrapers[i], j.entries, k.entries);
    var s := j.scrapers[i].(turn := Some(TurnOf(j, i).(stored := true)));
    assert Within(s, k.entries);
    ShareTidy(k, i, s, k.entries);
    assert Apply(j, Store(i)) == WithScraper(k, i, s).(entries := k.entries);
  }

  lemma MergeTidy(j: Job, i: nat)
    requires Enabled(j, Merge(i)) && Tidy(j)
    ensures Tidy(Apply(j, Merge(i)))
  {
    hide Feeds, NoneAt, FlatAccumulate;
    var v, t := NextOf(j, i), TurnOf(j, i);
    var entries := FlatAccumulate(j.entries, v, true).value;
    var s := j.scrapers[i].(turn := Some(t.(next := t.next + 1, stored := false)));
    MergeEntry(j.entries, v, v.name);
    SoundHere(j, i);
    assert Within(s, entries);
    ShareTidy(j, i, s, entries);
  }

  lemma BeginTidy(j: Job, i: nat, cur: Flat, fed: seq<CounterSnapshot>)
    requires Enabled(j, Begin(i, cur, fed)) && Tidy(j)
    ensures Tidy(Apply(j, Begin(i, cur, fed)))
  {
    hide Feeds, NoneAt;
    SoundHere(j, i);
    var s := j.scrapers[i].(turn := Some(Turn(cur, fed, 0, false)));
    ShareTidy(j, i, s, j.entries);
    assert WithScraper(j, i, s) == WithScraper(j, i, s).(entries := j.entries);
  }

  lemma FinishTidy(j: Job, i: nat)
    requires Enabled(j, Finish(i)) && Tidy(j)
    ensures Tidy(Apply(j, Finish(i)))
  {
    hide Within, NoneAt;
    FinishSound(j, i);
    var s := Scraper(Some(TurnOf(j, i).cur), None);
    ShareTidy(j, i, s, j.entries);
    assert WithScraper(j, i, s) == WithScraper(j, i, s).(entries := j.entries);
  }

  lemma StepTidy(j: Job, op: Op)
    requires Enabled(j, op) && Tidy(j)
    ensures Tidy(Apply(j, op))
  {
    hide Tidy, Dropped, Pushed, FlatPush, FlatAccumulate;
    match op
    case Begin(i, cur, fed) => BeginTidy(j, i, cur, fed);
    case Store(i) => StoreTidy(j, i);
    case Merge(i) => MergeTidy(j, i);
    case Refuse(i) => DroppedTidy(j, i);
    case Finish(i) => FinishTidy(j, i);
    case Depart(i) => DroppedTidy(j, i);
    case Describe(v) => PushTidy(j, v);
    case Add(c) => AddTidy(j, c);
  }

  lemma {:induction false} HistoriesTidy(start: Flat, scrapers: nat, ops: seq<Op>, js: seq<Job>, m: nat)
    requires IsHistory(start, scrapers, ops, js) && m < |js|
    ensures Tidy(js[m])
  {
    hide Tidy, Apply, Enabled, Start, LawAt;
    if m == 0 {
      StartConserved(start, scrapers);
    } else {
      HistoriesTidy(start, scrapers, ops, js, m - 1);
      assert js[m - 1 + 1] == Apply(js[m - 1], ops[m - 1]);
      StepTidy(js[m - 1], ops[m - 1]);
    }
  }

  /** A gauge's range holds a range merged into it earlier, as long as no local sample has overwritten it since. */
  lemma {:induction false} RangesCover(
    start: Flat, scrapers: nat, ops: seq<Op>, js: seq<Job>, k: nat, m: nat, i: nat, n: string)
    requires IsHistory(start, scrapers, ops, js) && k < m < |js| && ops[k] == Merge(i)
    requires Feeding(js[k], i) && n == NextOf(js[k], i).name && n in TurnOf(js[k], i).cur
    requires forall l :: k < l < m && n in js[l].entries ==> KeepsRange(js[l], ops[l], n)
    ensures n in js[m].entries && Covers(js[m].entries[n].ctype, TurnOf(js[k], i).cur[n].ctype)
  {
    hide Apply, Enabled, KeepsRange, Tidy, TurnOf, NextOf, Start;
    assert js[m - 1 + 1] == Apply(js[m - 1], ops[m - 1]);
    if m == k + 1 {
      HistoriesTidy(start, scrapers, ops, js, k);
      MergeHoldsRange(js[k], i);
    } else {
      RangesCover(start, scrapers, ops, js, k, m - 1, i, n);
      StepWidensIff(js[m - 1], ops[m - 1], n);
    }
  }

  // ----- histories on which the law or a range is lost -----

  /** A history at every moment of which the law holds */
  ghost predicate Kept(start: Flat, scrapers: nat, ops: seq<Op>, js: seq<Job>) {
    IsHistory(start, scrapers, ops, js) && forall k :: 0 <= k <= |ops| ==> Conserved(js[k])
  }

  /** A history whose last step, and no step before it, breaks the law */
  ghost predicate BrokenByLast(start: Flat, scrapers: nat, ops: seq<Op>, js: seq<Job>) {
    && IsHistory(start, scrapers, ops, js) && ops != []
    && (forall k :: 0 <= k < |ops| ==> Conserved(js[k])) && !Conserved(js[|ops|])
  }

  /** A history goes on with any step that is enabled; the law goes with it under the step's condition. */
  lemma Extend(start: Flat, scrapers: nat, ops: seq<Op>, js: seq<Job>, op: Op) returns (ops': seq<Op>, js': seq<Job>)
    requires Kept(start, scrapers, ops, js) && Enabled(js[|ops|], op)
    ensures |ops'| == |ops| + 1 && ops'[|ops|] == op && |js'| == |ops'| + 1
    ensures js'[|ops|] == js[|ops|] && js'[|ops'|] == Apply(js[|ops|], op)
    ensures if KeepsLaw(js[|ops|], op) then Kept(start, scrapers, ops', js')
            else BrokenByLast(start, scrapers, ops', js')
  {
    hide Enabled, Apply, Start, KeepsLaw, Conserved;
    ops', js' := ops + [op], js + [Apply(js[|ops|], op)];
    StepConservesIff(js[|ops|], op);
  }

  lemma NewHistory(scrapers: nat)
    ensures Kept(map[], scrapers, [], [Start(map[], scrapers)])
  {
    hide Conserved, Start;
    StartConserved(map[], scrapers);
  }

  /** Scraper 0 begins a turn with the given counters, and stores and merges the first of them. */
  lemma FirstMerged(
    ops: seq<Op>, js: seq<Job>, cur: Flat, fed: seq<CounterSnapshot>) returns (ops': seq<Op>, js': seq<Job>)
    requires Kept(map[], 1, ops, js) && Enabled(js[|ops|], Begin(0, cur, fed)) && fed != []
    requires Feed(js[|ops|].entries, fed[0]).Some?
    ensures Kept(map[], 1, ops', js') && Feed(js[|ops|].entries, fed[0]) == Some(js'[|ops'|].entries)
    ensures |js'[|ops'|].scrapers| == |js[|ops|].scrapers| >= 1
    ensures js'[|ops'|].scrapers[0] == js[|ops|].scrapers[0].(turn := Some(Turn(cur, fed, 1, false)))
    ensures js'[|ops'|].local == js[|ops|].local
  {
    hide Kept, BrokenByLast, IsHistory, Feeds, BaseWith;
    HasStates(ops, js);
    ops', js' := Extend(map[], 1, ops, js, Begin(0, cur, fed));
    ops', js' := Extend(map[], 1, ops', js', Store(0));
    ops', js' := Extend(map[], 1, ops', js', Merge(0));
  }

  lemma HasStates(ops: seq<Op>, js: seq<Job>)
    requires Kept(map[], 1, ops, js)
    ensures |js| == |ops| + 1
  {
  }

  lemma FedWhenNew(m: Flat, v: CounterSnapshot)
    requires v.name !in m && !Unmatched(v.name)
    ensures Feed(m, v) == Some(m[v.name := v.(ctype := v.ctype.Merge(v.ctype).value)])
  {
    hide Unmatched;
    MergeAdds(v.ctype, v.ctype);
    var merged := v.(ctype := v.ctype.Merge(v.ctype).value);
    assert m[v.name := v][v.name := merged] == m[v.name := merged];
  }

  lemma FeedsOne(v: CounterSnapshot)
    ensures ByName([v]) == map[v.name := v] && Feeds(None, map[v.name := v], [v])
    ensures Feeds(Some(map[v.name := v]), map[], [v])
  {
    NoDifference(map[]);
    assert [v][..0] == [];
    assert ByName([v]) == map[v.name := v];
  }

  /** From nothing, one scraper reads a profile of one metric. */
  lemma ScrapedOnce(v: CounterSnapshot) returns (ops: seq<Op>, js: seq<Job>)
    requires !Unmatched(v.name)
    ensures Kept(map[], 1, ops, js) && |js| == |ops| + 1
    ensures js[|ops|].entries == map[v.name := v.(ctype := v.ctype.Merge(v.ctype).value)]
    ensures js[|ops|].scrapers == [Scraper(Some(map[v.name := v]), None)]
  {
    hide Kept, BrokenByLast, IsHistory, Feeds, Unmatched, Feed;
    NewHistory(1);
    FeedsOne(v);
    FedWhenNew(map[], v);
    ops, js := FirstMerged([], [Start(map[], 1)], map[v.name := v], [v]);
    HasStates(ops, js);
    ops, js := Extend(map[], 1, ops, js, Finish(0));
  }

  /** A counter that disappears from a scraped profile is counted once more instead of being taken back. */
  lemma VanishedCounterBreaksLaw() returns (ops: seq<Op>, js: seq<Job>)
    ensures BrokenByLast(map[], 1, ops, js) && ops[|ops| - 1] == Finish(0)
    ensures js[|ops|].scrapers == [Scraper(Some(map[]), None)]
    ensures "jobs" in js[|ops|].entries && js[|ops|].entries["jobs"].ctype.Amount() == (3.0, 0.0)
  {
    hide Kept, BrokenByLast, IsHistory, Feeds, Unmatched;
    var v := CounterSnapshot("jobs", "", Counter(0, 1.0));
    assert !Unmatched("jobs") by { Legal(); }
    ops, js := ScrapedOnce(v);
    FeedsOne(v);
    ops, js := FirstMerged(ops, js, map[], [v]);
    HasStates(ops, js);
    assert Lost(Some(map["jobs" := v]), map[], "jobs");
    ops, js := Extend(map[], 1, ops, js, Finish(0));
    BrokenStates(ops, js);
  }

  lemma Legal()
    ensures !Unmatched("jobs") && !Unmatched("load") && !Unmatched("a") && Unmatched("b{")
  {
    assert "b{"[1] == '{';
  }

  lemma BrokenStates(ops: seq<Op>, js: seq<Job>)
    requires BrokenByLast(map[], 1, ops, js)
    ensures ops != [] && |js| == |ops| + 1
  {
  }

  /** One local sample of a gauge that a scraper feeds wipes out what was scraped, and its range. */
  lemma LocalGaugeBreaksLaw() returns (ops: seq<Op>, js: seq<Job>)
    ensures BrokenByLast(map[], 1, ops, js) && ops[|ops| - 1].Add?
    ensures var before, after := js[|ops| - 1].entries, js[|ops|].entries;
            && "load" in before && before["load"].ctype == Gauge(1.0, 9.0, 10.0, 40.0)
            && "load" in after && after["load"].ctype == Gauge(4.0, 4.0, 1.0, 4.0)
            && !Covers(after["load"].ctype, before["load"].ctype)
  {
    hide Kept, BrokenByLast, IsHistory, Unmatched;
    var v := CounterSnapshot("load", "", Gauge(1.0, 9.0, 5.0, 20.0));
    assert !Unmatched("load") by { Legal(); }
    ops, js := ScrapedOnce(v);
    var sample := CounterSnapshot("load", "", Gauge(4.0, 4.0, 1.0, 4.0));
    ops, js := Extend(map[], 1, ops, js, Add(sample));
    BrokenStates(ops, js);
  }

  /** A counter merged before a refusal stays in, though the scraper that fed it is dropped. */
  lemma RefusedScrapeBreaksLaw() returns (ops: seq<Op>, js: seq<Job>)
    ensures BrokenByLast(map[], 1, ops, js) && ops[|ops| - 1] == Refuse(0)
    ensures "a" in js[|ops|].entries && js[|ops|].entries["a"].ctype.Amount() == (2.0, 0.0)
    ensures js[|ops|].scrapers == [IDLE]
  {
    hide Kept, BrokenByLast, IsHistory, Unmatched;
    var a, b := CounterSnapshot("a", "", Counter(0, 1.0)), CounterSnapshot("b{", "", Counter(0, 1.0));
    assert !Unmatched("a") && Unmatched("b{") by { Legal(); }
    NewHistory(1);
    FeedsTwo(a, b);
    FedWhenNew(map[], a);
    ops, js := FirstMerged([], [Start(map[], 1)], map["a" := a, "b{" := b], [a, b]);
    HasStates(ops, js);
    OneMerged(a, b);
    assert MergedIn(js[|ops|].scrapers[0].turn, "a") == (1.0, 0.0);
    ops, js := Extend(map[], 1, ops, js, Refuse(0));
    BrokenStates(ops, js);
  }

  lemma FeedsTwo(a: CounterSnapshot, b: CounterSnapshot)
    requires a.name != b.name
    ensures Feeds(None, map[a.name := a, b.name := b], [a, b])
  {
    assert [a, b][..1] == [a];
    FeedsOne(a);
    assert ByName([a, b]) == ByName([a, b][..1])[b.name := b];
  }

  lemma OneMerged(a: CounterSnapshot, b: CounterSnapshot)
    ensures [a, b][..1] == [a] && SumNamed([a], a.name) == Plus(ZERO, a.ctype.Amount())
  {
    assert [a][..0] == [];
  }
}
