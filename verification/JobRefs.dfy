/** Reference counts of jobs: clients and scrapers share a job's exporter, the last one to leave deletes it.

    Each step below is one critical section of the job table's lock, so the runs cover every interleaving.
 */
module JobRefs {
  import opened Basics

  /** A job's entry; exporters are told apart by number */
  datatype PerJob = PerJob(counter: int, exporter: nat, islocal: bool)

  type Table = map<string, PerJob>

  // ----- the two operations on the table -----

  /** `resolve_job`: one more reference, to a new exporter when the job is unknown */
  function Resolve(t: Table, jobid: string, tobesaved: bool, newExporter: nat): Table {
    if jobid in t then
      t[jobid := t[jobid].(counter := t[jobid].counter + 1, islocal := t[jobid].islocal || tobesaved)]
    else t[jobid := PerJob(1, newExporter, tobesaved)]
  }

  datatype Relaxed = Done(t: Table) | SaveFailed(t: Table) | Negative | NoSuchJob

  /** `relax_job`: one reference less; at zero the profile is saved and the entry removed, unless saving fails */
  function Relax(t: Table, jobid: string, saves: bool): Relaxed {
    if jobid !in t then NoSuchJob
    else
      var e := t[jobid].(counter := t[jobid].counter - 1);
      if e.counter < 0 then Negative
      else if e.counter > 0 then Done(t[jobid := e])
      else if saves then Done(t - {jobid})
      else SaveFailed(t[jobid := e])
  }

  class ExporterFactory {
    var perjob: Table
    var nextExporter: nat

    constructor (node: string)
      ensures perjob == Start(node).perjob && nextExporter == Start(node).nextExporter
    {
      perjob := map["main" := PerJob(1, 0, false)][node := PerJob(1, 1, false)];
      nextExporter := 2;
    }

    method ResolveJob(jobid: string, tobesaved: bool) returns (exporter: nat)
      modifies this
      ensures perjob == Resolve(old(perjob), jobid, tobesaved, old(nextExporter))
      ensures jobid in perjob && exporter == perjob[jobid].exporter
      ensures jobid !in old(perjob) ==> exporter == old(nextExporter)
      ensures nextExporter == old(nextExporter) + (if jobid in old(perjob) then 0 else 1)
    {
      if jobid in perjob {
        var e := perjob[jobid];
        e := e.(counter := e.counter + 1);
        if tobesaved {
          e := e.(islocal := true);
        }
        perjob := perjob[jobid := e];
        exporter := e.exporter;
      } else {
        exporter := nextExporter;
        nextExporter := nextExporter + 1;
        perjob := perjob[jobid := PerJob(1, exporter, tobesaved)];
      }
    }

    /** The assertion on the counter is an outcome of its own here. */
    method RelaxJob(jobid: string, saves: bool) returns (r: Relaxed)
      modifies this`perjob
      ensures r == Relax(old(perjob), jobid, saves)
      ensures perjob == match r { case Done(t) => t case SaveFailed(t) => t case _ => old(perjob) }
    {
      if jobid !in perjob {
        return NoSuchJob;
      }
      var e := perjob[jobid].(counter := perjob[jobid].counter - 1);
      if e.counter < 0 {
        return Negative;
      }
      if e.counter == 0 && saves {
        perjob := perjob - {jobid};
        return Done(perjob);
      }
      perjob := perjob[jobid := e];
      r := if e.counter == 0 then SaveFailed(perjob) else Done(perjob);
    }
  }

  // ----- the whole system -----

  /** A connected client: the job id it last announced, if any, and the exporter it writes to */
  datatype Client = Client(jobid: Option<string>, exporter: Option<nat>)

  datatype System = System(
    perjob: Table,
    nextExporter: nat,
    clients: map<nat, Client>,
    scrapers: map<nat, set<string>>,   // the jobs in each scraper's shadow state
    leaked: map<string, nat>)          // references no one will give back, per job

  datatype Step =
    | Connect(c: nat)
    | Announce(c: nat, jobid: string)         // JobDesc
    | Disconnect(c: nat, saves: bool)         // end of the stream
    | Abort(c: nat)                           // the handler stops on an error
    | AddScraper(s: nat)
    | Arrive(s: nat, jobid: string)           // a job appears in a scraped list
    | Depart(s: nat, jobid: string, saves: bool)   // a job disappears from it
    | DropScraper(s: nat)                     // the scrape failed or was removed

  function Leaked(leaked: map<string, nat>, j: string): nat {
    if j in leaked then leaked[j] else 0
  }

  function LeakOne(leaked: map<string, nat>, j: Option<string>): map<string, nat> {
    if j.Some? && j.value != "" then leaked[j.value := Leaked(leaked, j.value) + 1] else leaked
  }

  function LeakAll(leaked: map<string, nat>, js: set<string>): map<string, nat> {
    map j | j in leaked.Keys + js :: Leaked(leaked, j) + (if j in js then 1 else 0)
  }

  predicate Enabled(s: System, st: Step) {
    match st
    case Connect(c) => c !in s.clients
    case Announce(c, _) => c in s.clients
    case Disconnect(c, _) => c in s.clients
    case Abort(c) => c in s.clients
    case AddScraper(x) => x !in s.scrapers
    case Arrive(x, j) => x in s.scrapers && j !in s.scrapers[x]
    case Depart(x, j, _) => x in s.scrapers && j in s.scrapers[x]
    case DropScraper(x) => x in s.scrapers
  }

  /** A client announces a job; what it held before is never given back.  An empty id resolves nothing. */
  function AnnounceStep(s: System, c: nat, jobid: string): System
    requires c in s.clients
  {
    var leaked := LeakOne(s.leaked, s.clients[c].jobid);
    if jobid == "" then
      s.(clients := s.clients[c := s.clients[c].(jobid := Some(""))], leaked := leaked)
    else
      var t := Resolve(s.perjob, jobid, true, s.nextExporter);
      System(t, s.nextExporter + (if jobid in s.perjob then 0 else 1),
        s.clients[c := Client(Some(jobid), Some(t[jobid].exporter))], s.scrapers, leaked)
  }

  datatype Outcome = Ok(s: System) | Panics | MissesJob

  /** A scraper whose `relax_job` fails to save is dropped with everything else it held. */
  function Next(s: System, st: Step): Outcome
    requires Enabled(s, st)
  {
    match st
    case Connect(c) => Ok(s.(clients := s.clients[c := Client(None, None)]))
    case Announce(c, j) => Ok(AnnounceStep(s, c, j))
    case Disconnect(c, saves) =>
      var gone := s.(clients := s.clients - {c});
      var j := s.clients[c].jobid;
      if j.None? || j.value == "" then Ok(gone)
      else (
        match Relax(s.perjob, j.value, saves)
        case Done(t) => Ok(gone.(perjob := t))
        case SaveFailed(t) => Ok(gone.(perjob := t))
        case Negative => Panics
        case NoSuchJob => MissesJob)
    case Abort(c) => Ok(s.(clients := s.clients - {c}, leaked := LeakOne(s.leaked, s.clients[c].jobid)))
    case AddScraper(x) => Ok(s.(scrapers := s.scrapers[x := {}]))
    case Arrive(x, j) =>
      Ok(s.(perjob := Resolve(s.perjob, j, false, s.nextExporter),
        nextExporter := s.nextExporter + (if j in s.perjob then 0 else 1),
            scrapers := s.scrapers[x := s.scrapers[x] + {j}]))
    case Depart(x, j, saves) =>
      (match Relax(s.perjob, j, saves)
       case Done(t) => Ok(s.(perjob := t, scrapers := s.scrapers[x := s.scrapers[x] - {j}]))
       case SaveFailed(t) =>
         Ok(s.(perjob := t, scrapers := s.scrapers - {x}, leaked := LeakAll(s.leaked, s.scrapers[x] - {j})))
       case Negative => Panics
       case NoSuchJob => MissesJob)
    case DropScraper(x) =>
      Ok(s.(scrapers := s.scrapers - {x}, leaked := LeakAll(s.leaked, s.scrapers[x])))
  }

  // ----- who holds a job -----

  ghost predicate ClientHolds(c: Client, j: string) {
    j != "" && c.jobid == Some(j)
  }

  ghost function ClientsOf(clients: map<nat, Client>, j: string): set<nat> {
    set c | c in clients && ClientHolds(clients[c], j)
  }

  ghost function ScrapersOf(scrapers: map<nat, set<string>>, j: string): set<nat> {
    set x | x in scrapers && j in scrapers[x]
  }

  ghost function Holders(s: System, j: string): nat {
    |ClientsOf(s.clients, j)| + |ScrapersOf(s.scrapers, j)|
  }

  /** The summing job and the node's job are registered once by the factory itself. */
  ghost predicate Permanent(j: string, node: string) {
    j == "main" || j == node
  }

  /** The references a job's entry has to count */
  ghost function Owed(s: System, node: string, j: string): nat {
    (if Permanent(j, node) then 1 else 0) + Holders(s, j) + Leaked(s.leaked, j)
  }

  ghost predicate CountedAt(s: System, node: string, j: string) {
    if j in s.perjob then s.perjob[j].counter == Owed(s, node, j) else Owed(s, node, j) == 0
  }

  /** Counters are exact, and a client's exporter is the registered one. */
  ghost predicate Counted(s: System, node: string) {
    && (forall j :: CountedAt(s, node, j))
    && (forall c :: c in s.clients ==> WritesToRegistered(s, s.clients[c]))
  }

  /** A client that announced a job writes to that job's exporter.  One that announced an empty id after it goes on
      writing to the old one, which stays registered because the reference was never given back. */
  ghost predicate WritesToRegistered(s: System, c: Client) {
    && (forall j :: ClientHolds(c, j) ==> j in s.perjob && c.exporter == Some(s.perjob[j].exporter))
    && (c.exporter.Some? ==> exists j :: Backs(s, c, j))
  }

  ghost predicate Backs(s: System, c: Client, j: string) {
    j in s.perjob && c.exporter == Some(s.perjob[j].exporter) && (ClientHolds(c, j) || Leaked(s.leaked, j) >= 1)
  }

  lemma ClientsUpdate(clients: map<nat, Client>, c: nat, x: Client, j: string)
    requires c in clients
    ensures |ClientsOf(clients[c := x], j)| ==
            |ClientsOf(clients, j)| - (if ClientHolds(clients[c], j) then 1 else 0)
            + (if ClientHolds(x, j) then 1 else 0)
    ensures |ClientsOf(clients - {c}, j)| == |ClientsOf(clients, j)| - (if ClientHolds(clients[c], j) then 1 else 0)
  {
    var rest := ClientsOf(clients, j) - {c};
    assert ClientsOf(clients - {c}, j) == rest;
    assert ClientsOf(clients[c := x], j) == if ClientHolds(x, j) then rest + {c} else rest;
    assert ClientsOf(clients, j) == if ClientHolds(clients[c], j) then rest + {c} else rest;
  }

  lemma ClientsAdd(clients: map<nat, Client>, c: nat, j: string)
    requires c !in clients
    ensures ClientsOf(clients[c := Client(None, None)], j) == ClientsOf(clients, j)
  {
  }

  lemma ScrapersUpdate(scrapers: map<nat, set<string>>, x: nat, js: set<string>, j: string)
    requires x in scrapers
    ensures |ScrapersOf(scrapers[x := js], j)| ==
            |ScrapersOf(scrapers, j)| - (if j in scrapers[x] then 1 else 0) + (if j in js then 1 else 0)
    ensures |ScrapersOf(scrapers - {x}, j)| == |ScrapersOf(scrapers, j)| - (if j in scrapers[x] then 1 else 0)
  {
    var rest := ScrapersOf(scrapers, j) - {x};
    assert ScrapersOf(scrapers - {x}, j) == rest;
    assert ScrapersOf(scrapers[x := js], j) == if j in js then rest + {x} else rest;
    assert ScrapersOf(scrapers, j) == if j in scrapers[x] then rest + {x} else rest;
  }

  lemma ScrapersAdd(scrapers: map<nat, set<string>>, x: nat, j: string)
    requires x !in scrapers
    ensures ScrapersOf(scrapers[x := {}], j) == ScrapersOf(scrapers, j)
  {
  }

  lemma HolderIsCounted(s: System, node: string, j: string)
    requires CountedAt(s, node, j)
    requires ClientsOf(s.clients, j) != {} || ScrapersOf(s.scrapers, j) != {} || Permanent(j, node)
    ensures j in s.perjob && s.perjob[j].counter >= 1
  {
    assert |ClientsOf(s.clients, j)| == 0 ==> ClientsOf(s.clients, j) == {};
    assert |ScrapersOf(s.scrapers, j)| == 0 ==> ScrapersOf(s.scrapers, j) == {};
  }

  // ----- every step keeps the counts -----

  /** The entry of job k after a reference to job j was taken or given back */
  lemma ResolveAt(t: Table, j: string, saved: bool, e: nat, k: string)
    ensures k in Resolve(t, j, saved, e) <==> k in t || k == j
    ensures k in Resolve(t, j, saved, e) ==>
              Resolve(t, j, saved, e)[k].counter == (if k in t then t[k].counter else 0) + (if k == j then 1 else 0)
    ensures k in t ==> Resolve(t, j, saved, e)[k].exporter == t[k].exporter
  {
  }

  function Left(r: Relaxed): Table
    requires r.Done? || r.SaveFailed?
  {
    r.t
  }

  lemma RelaxAt(t: Table, j: string, saves: bool, k: string)
    requires j in t && t[j].counter >= 1
    ensures Relax(t, j, saves).Done? || Relax(t, j, saves).SaveFailed?
    ensures Relax(t, j, saves).SaveFailed? ==> t[j].counter == 1
    ensures var t' := Left(Relax(t, j, saves));
            && (k in t' ==> k in t && t'[k].exporter == t[k].exporter &&
                            t'[k].counter == t[k].counter - (if k == j then 1 else 0))
            && (k in t && k !in t' <==> k == j && t[k].counter == 1 && saves)
  {
  }

  lemma LeakOneAt(leaked: map<string, nat>, j: Option<string>, k: string)
    ensures Leaked(LeakOne(leaked, j), k) ==
            Leaked(leaked, k) + (if ClientHolds(Client(j, None), k) then 1 else 0)
  {
  }

  lemma LeakAllAt(leaked: map<string, nat>, js: set<string>, k: string)
    ensures Leaked(LeakAll(leaked, js), k) == Leaked(leaked, k) + (if k in js then 1 else 0)
  {
  }

  lemma AnnounceCounts(s: System, node: string, c: nat, jobid: string, k: string)
    requires c in s.clients && CountedAt(s, node, k)
    ensures CountedAt(AnnounceStep(s, c, jobid), node, k)
  {
    var s' := AnnounceStep(s, c, jobid);
    ClientsUpdate(s.clients, c, s'.clients[c], k);
    LeakOneAt(s.leaked, s.clients[c].jobid, k);
    ResolveAt(s.perjob, jobid, true, s.nextExporter, k);
    hide Leaked, LeakOne, Resolve, ClientsOf, ScrapersOf;
    assert s'.clients == s.clients[c := s'.clients[c]];
  }

  lemma AnnounceWrites(s: System, node: string, c: nat, jobid: string, d: nat)
    requires c in s.clients && Counted(s, node) && d in s.clients
    ensures WritesToRegistered(AnnounceStep(s, c, jobid), AnnounceStep(s, c, jobid).clients[d])
  {
    var s' := AnnounceStep(s, c, jobid);
    var x, x' := s.clients[d], s'.clients[d];
    assert WritesToRegistered(s, x);
    forall k ensures k in s.perjob ==> k in s'.perjob && s'.perjob[k].exporter == s.perjob[k].exporter {
      ResolveAt(s.perjob, jobid, true, s.nextExporter, k);
    }
    forall k ensures Leaked(s'.leaked, k) == Leaked(s.leaked, k) + (if ClientHolds(s.clients[c], k) then 1 else 0) {
      LeakOneAt(s.leaked, s.clients[c].jobid, k);
    }
    hide Resolve, Leaked, LeakOne;
    if d == c && jobid != "" {
      assert Backs(s', x', jobid);
    } else if x.exporter.Some? {
      var j :| Backs(s, x, j);
      assert Backs(s', x', j);
    }
  }

  /** Giving back a reference that is held neither trips the assertion nor misses the job. */
  lemma HeldRelaxes(s: System, node: string, j: string, saves: bool)
    requires Counted(s, node) && (ClientsOf(s.clients, j) != {} || ScrapersOf(s.scrapers, j) != {})
    ensures j in s.perjob && s.perjob[j].counter >= 1
    ensures Relax(s.perjob, j, saves).Done? || Relax(s.perjob, j, saves).SaveFailed?
  {
    assert CountedAt(s, node, j);
    HolderIsCounted(s, node, j);
    RelaxAt(s.perjob, j, saves, j);
  }

  lemma DisconnectCounts(s: System, node: string, c: nat, saves: bool)
    requires c in s.clients && Counted(s, node)
    ensures Next(s, Disconnect(c, saves)).Ok? && Counted(Next(s, Disconnect(c, saves)).s, node)
  {
    var j := s.clients[c].jobid;
    if j.Some? && j.value != "" {
      assert c in ClientsOf(s.clients, j.value);
      HeldRelaxes(s, node, j.value, saves);
    }
    var s' := Next(s, Disconnect(c, saves)).s;
    forall k ensures CountedAt(s', node, k) {
      assert CountedAt(s, node, k);
      DisconnectAt(s, node, c, saves, k);
    }
    forall d | d in s'.clients ensures WritesToRegistered(s', s'.clients[d]) {
      assert WritesToRegistered(s, s.clients[d]);
      StillRegistered(s, node, s', d);
    }
  }

  lemma DisconnectAt(s: System, node: string, c: nat, saves: bool, k: string)
    requires c in s.clients && CountedAt(s, node, k) && Next(s, Disconnect(c, saves)).Ok?
    requires var j := s.clients[c].jobid;
             j.Some? && j.value != "" ==> j.value in s.perjob && s.perjob[j.value].counter >= 1
    ensures CountedAt(Next(s, Disconnect(c, saves)).s, node, k)
    ensures Next(s, Disconnect(c, saves)).s.clients == s.clients - {c}
    ensures var t := Next(s, Disconnect(c, saves)).s.perjob;
            k in t ==> k in s.perjob && t[k].exporter == s.perjob[k].exporter
  {
    ClientsUpdate(s.clients, c, Client(None, None), k);
    var j := s.clients[c].jobid;
    if j.Some? && j.value != "" {
      RelaxAt(s.perjob, j.value, saves, k);
    }
    hide ClientsOf, ScrapersOf, Leaked, Relax;
  }

  /** A client still connected still has its exporter registered. */
  lemma StillRegistered(s: System, node: string, s': System, d: nat)
    requires d in s.clients && WritesToRegistered(s, s.clients[d])
    requires d in s'.clients && s'.clients[d] == s.clients[d]
    requires forall k :: CountedAt(s', node, k)
    requires forall k :: k in s'.perjob && k in s.perjob ==> s'.perjob[k].exporter == s.perjob[k].exporter
    requires forall k :: Leaked(s'.leaked, k) >= Leaked(s.leaked, k)
    ensures WritesToRegistered(s', s'.clients[d])
  {
    hide Leaked;
    var c := s.clients[d];
    forall k | ClientHolds(c, k) || Leaked(s'.leaked, k) >= 1 ensures k in s'.perjob {
      assert CountedAt(s', node, k);
      if ClientHolds(c, k) {
        assert d in ClientsOf(s'.clients, k);
        HolderIsCounted(s', node, k);
      }
    }
    if c.exporter.Some? {
      var j :| Backs(s, c, j);
      assert Backs(s', c, j);
    }
  }

  lemma AbortCounts(s: System, node: string, c: nat)
    requires c in s.clients && Counted(s, node)
    ensures Counted(Next(s, Abort(c)).s, node)
  {
    var s' := Next(s, Abort(c)).s;
    forall k ensures CountedAt(s', node, k) && Leaked(s'.leaked, k) >= Leaked(s.leaked, k) {
      assert CountedAt(s, node, k);
      ClientsUpdate(s.clients, c, Client(None, None), k);
      LeakOneAt(s.leaked, s.clients[c].jobid, k);
    }
    forall d | d in s'.clients ensures WritesToRegistered(s', s'.clients[d]) {
      assert WritesToRegistered(s, s.clients[d]);
      StillRegistered(s, node, s', d);
    }
  }

  lemma ArriveCounts(s: System, node: string, x: nat, j: string)
    requires x in s.scrapers && j !in s.scrapers[x] && Counted(s, node)
    ensures Counted(Next(s, Arrive(x, j)).s, node)
  {
    var s' := Next(s, Arrive(x, j)).s;
    forall k ensures CountedAt(s', node, k) {
      assert CountedAt(s, node, k);
      ScrapersUpdate(s.scrapers, x, s.scrapers[x] + {j}, k);
      ResolveAt(s.perjob, j, false, s.nextExporter, k);
    }
    forall d | d in s'.clients ensures WritesToRegistered(s', s'.clients[d]) {
      assert WritesToRegistered(s, s.clients[d]);
      StillRegistered(s, node, s', d);
    }
  }

  lemma DepartAt(s: System, node: string, x: nat, j: string, saves: bool, k: string)
    requires x in s.scrapers && j in s.scrapers[x] && CountedAt(s, node, k)
    requires j in s.perjob && s.perjob[j].counter >= 1 && Next(s, Depart(x, j, saves)).Ok?
    ensures CountedAt(Next(s, Depart(x, j, saves)).s, node, k)
    ensures Leaked(Next(s, Depart(x, j, saves)).s.leaked, k) >= Leaked(s.leaked, k)
  {
    RelaxAt(s.perjob, j, saves, k);
    ScrapersUpdate(s.scrapers, x, s.scrapers[x] - {j}, k);
    LeakAllAt(s.leaked, s.scrapers[x] - {j}, k);
    hide ClientsOf, ScrapersOf, Leaked, LeakAll, Relax;
  }

  lemma DepartCounts(s: System, node: string, x: nat, j: string, saves: bool)
    requires x in s.scrapers && j in s.scrapers[x] && Counted(s, node)
    ensures Next(s, Depart(x, j, saves)).Ok? && Counted(Next(s, Depart(x, j, saves)).s, node)
  {
    assert x in ScrapersOf(s.scrapers, j);
    HeldRelaxes(s, node, j, saves);
    var s' := Next(s, Depart(x, j, saves)).s;
    forall k ensures CountedAt(s', node, k) && Leaked(s'.leaked, k) >= Leaked(s.leaked, k) {
      assert CountedAt(s, node, k);
      DepartAt(s, node, x, j, saves, k);
    }
    forall d | d in s'.clients ensures WritesToRegistered(s', s'.clients[d]) {
      assert WritesToRegistered(s, s.clients[d]);
      StillRegistered(s, node, s', d);
    }
  }

  lemma DropCounts(s: System, node: string, x: nat)
    requires x in s.scrapers && Counted(s, node)
    ensures Counted(Next(s, DropScraper(x)).s, node)
  {
    var s' := Next(s, DropScraper(x)).s;
    forall k ensures CountedAt(s', node, k) && Leaked(s'.leaked, k) >= Leaked(s.leaked, k) {
      assert CountedAt(s, node, k);
      ScrapersUpdate(s.scrapers, x, {}, k);
      LeakAllAt(s.leaked, s.scrapers[x], k);
    }
    forall d | d in s'.clients ensures WritesToRegistered(s', s'.clients[d]) {
      assert WritesToRegistered(s, s.clients[d]);
      StillRegistered(s, node, s', d);
    }
  }

  lemma AnnounceKeepsCounted(s: System, node: string, c: nat, jobid: string)
    requires c in s.clients && Counted(s, node)
    ensures Counted(AnnounceStep(s, c, jobid), node)
  {
    hide CountedAt, WritesToRegistered, Resolve, LeakOne;
    var s' := AnnounceStep(s, c, jobid);
    forall k ensures CountedAt(s', node, k) {
      AnnounceCounts(s, node, c, jobid, k);
    }
    forall d | d in s'.clients ensures WritesToRegistered(s', s'.clients[d]) {
      AnnounceWrites(s, node, c, jobid, d);
    }
  }

  lemma JoinersCount(s: System, node: string, st: Step)
    requires (st.Connect? || st.AddScraper?) && Enabled(s, st) && Counted(s, node)
    ensures Counted(Next(s, st).s, node)
  {
    var s' := Next(s, st).s;
    forall k ensures CountedAt(s', node, k) {
      assert CountedAt(s, node, k);
      if st.Connect? { ClientsAdd(s.clients, st.c, k); } else { ScrapersAdd(s.scrapers, st.s, k); }
    }
    forall d | d in s'.clients ensures WritesToRegistered(s', s'.clients[d]) {
      if d in s.clients {
        assert WritesToRegistered(s, s.clients[d]);
        StillRegistered(s, node, s', d);
      }
    }
  }

  /** Every step of every client and scraper keeps the counters exact; none trips the assertion of `relax_job` or
      misses its job. */
  lemma NextKeepsCounted(s: System, node: string, st: Step)
    requires Enabled(s, st) && Counted(s, node)
    ensures Next(s, st).Ok? && Counted(Next(s, st).s, node)
  {
    hide Counted;
    match st
    case Connect(c) => JoinersCount(s, node, st);
    case Announce(c, j) => AnnounceKeepsCounted(s, node, c, j);
    case Disconnect(c, saves) => DisconnectCounts(s, node, c, saves);
    case Abort(c) => AbortCounts(s, node, c);
    case AddScraper(x) => JoinersCount(s, node, st);
    case Arrive(x, j) => ArriveCounts(s, node, x, j);
    case Depart(x, j, saves) => DepartCounts(s, node, x, j, saves);
    case DropScraper(x) => DropCounts(s, node, x);
  }

  // ----- every run -----

  /** The factory right after it was built */
  function Start(node: string): System {
    System(map["main" := PerJob(1, 0, false)][node := PerJob(1, 1, false)], 2, map[], map[], map[])
  }

  ghost predicate IsRun(node: string, steps: seq<Step>, ss: seq<System>) {
    && |ss| == |steps| + 1 && ss[0] == Start(node)
    && forall i :: 0 <= i < |steps| ==>
         Enabled(ss[i], steps[i]) && (Next(ss[i], steps[i]).Ok? ==> ss[i + 1] == Next(ss[i], steps[i]).s)
  }

  lemma StartCounted(node: string)
    ensures Counted(Start(node), node)
  {
    forall j ensures CountedAt(Start(node), node, j) {
      assert ClientsOf(map[], j) == {} && ScrapersOf(map[], j) == {};
    }
  }

  /** In every run: no step fails, every counter is what is owed, main and node jobs stay, and a connected client
      writes to the registered exporter. */
  lemma {:induction false} RunsStayCounted(node: string, steps: seq<Step>, ss: seq<System>, i: nat)
    requires IsRun(node, steps, ss) && i < |ss|
    ensures Counted(ss[i], node)
    ensures i < |steps| ==> Next(ss[i], steps[i]).Ok?
    ensures "main" in ss[i].perjob && node in ss[i].perjob
    ensures forall c :: c in ss[i].clients ==> WritesToRegistered(ss[i], ss[i].clients[c])
  {
    hide Counted, Next, Start, Enabled;
    if i == 0 {
      StartCounted(node);
    } else {
      RunsStayCounted(node, steps, ss, i - 1);
      NextKeepsCounted(ss[i - 1], node, steps[i - 1]);
    }
    if i < |steps| { NextKeepsCounted(ss[i], node, steps[i]); }
    PermanentStays(ss[i], node);
  }

  lemma PermanentStays(s: System, node: string)
    requires Counted(s, node)
    ensures "main" in s.perjob && node in s.perjob
    ensures forall c :: c in s.clients ==> WritesToRegistered(s, s.clients[c])
  {
    assert CountedAt(s, node, "main") && CountedAt(s, node, node);
    HolderIsCounted(s, node, "main");
    HolderIsCounted(s, node, node);
  }

  /** The counter is at least the number of live holders, and exactly that (and the permanent reference) when no
      reference was leaked. */
  lemma CounterBoundsHolders(s: System, node: string, j: string)
    requires Counted(s, node) && j in s.perjob
    ensures s.perjob[j].counter >= Holders(s, j)
    ensures s.perjob[j].counter == Holders(s, j) + (if Permanent(j, node) then 1 else 0) <==> Leaked(s.leaked, j) == 0
  {
    assert CountedAt(s, node, j);
  }
}
