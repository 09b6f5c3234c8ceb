/** Whose exporter is whose: over every run of clients and scrapers, each job has an exporter of its own. */
module JobRuns {
  import opened Basics
  import opened JobRefs

  /** A client announces the job. */
  predicate Local(st: Step, j: string) {
    st.Announce? && st.jobid == j && j != ""
  }

  /** One step, seen from one job: its exporter stays what it is as long as the job is registered, and is a new one
      when it is registered. */
  lemma TableStep(s: System, st: Step, j: string)
    requires Enabled(s, st) && Next(s, st).Ok?
    ensures var s' := Next(s, st).s;
            && s.nextExporter <= s'.nextExporter
            && (j in s'.perjob && j in s.perjob ==>
                  && s'.perjob[j].exporter == s.perjob[j].exporter
                  && s'.perjob[j].islocal == (s.perjob[j].islocal || Local(st, j)))
            && (j in s'.perjob && j !in s.perjob ==>
                  && (Local(st, j) || (st.Arrive? && st.jobid == j))
                  && s'.perjob[j].exporter == s.nextExporter < s'.nextExporter
                  && s'.perjob[j].islocal == Local(st, j))
  {
    hide LeakOne, LeakAll;
  }

  /** The step gives back a reference to the job, and saving its profile would succeed. */
  predicate GivesBack(s: System, st: Step, j: string) {
    match st
    case Disconnect(c, saves) => c in s.clients && s.clients[c].jobid == Some(j) && j != "" && saves
    case Depart(_, k, saves) => k == j && saves
    case _ => false
  }

  /** A job leaves the table exactly when its last reference is given back and its profile can be saved. */
  lemma LeavesIff(s: System, node: string, st: Step, j: string)
    requires Enabled(s, st) && Counted(s, node) && j in s.perjob
    ensures Next(s, st).Ok?
    ensures j !in Next(s, st).s.perjob <==> GivesBack(s, st, j) && s.perjob[j].counter == 1
  {
    NextKeepsCounted(s, node, st);
    hide Counted, LeakOne, LeakAll;
    match st
    case Disconnect(c, saves) =>
      var k := s.clients[c].jobid;
      if k.Some? && k.value != "" {
        assert c in ClientsOf(s.clients, k.value);
        HeldRelaxes(s, node, k.value, saves);
        RelaxAt(s.perjob, k.value, saves, j);
      }
    case Depart(x, k, saves) =>
      assert x in ScrapersOf(s.scrapers, k);
      HeldRelaxes(s, node, k, saves);
      RelaxAt(s.perjob, k, saves, j);
    case _ =>
  }

  // ----- no two jobs share an exporter -----

  ghost predicate Own(s: System) {
    && (forall j :: j in s.perjob ==> s.perjob[j].exporter < s.nextExporter)
    && forall j, k :: j in s.perjob && k in s.perjob && s.perjob[j].exporter == s.perjob[k].exporter ==> j == k
  }

  lemma StepKeepsOwn(s: System, st: Step)
    requires Enabled(s, st) && Next(s, st).Ok? && Own(s)
    ensures Own(Next(s, st).s)
  {
    hide Next, Enabled;
    var s' := Next(s, st).s;
    forall j ensures j in s'.perjob ==> s'.perjob[j].exporter < s'.nextExporter {
      TableStep(s, st, j);
    }
    forall j, k | j in s'.perjob && k in s'.perjob && s'.perjob[j].exporter == s'.perjob[k].exporter ensures j == k {
      TableStep(s, st, j);
      TableStep(s, st, k);
    }
  }

  /** In every run, at every moment, different registered jobs have different exporters. */
  lemma {:induction false} RunsKeepOwn(node: string, steps: seq<Step>, ss: seq<System>, i: nat)
    requires IsRun(node, steps, ss) && i < |ss|
    ensures Own(ss[i])
  {
    if i > 0 {
      hide Own, Next, Enabled;
      RunsKeepOwn(node, steps, ss, i - 1);
      RunsStayCounted(node, steps, ss, i - 1);
      StepKeepsOwn(ss[i - 1], steps[i - 1]);
    }
  }

  /** And over time: an exporter that was one job's never becomes another's, even after the first job is gone. */
  lemma {:induction false} NeverReused(
    node: string, steps: seq<Step>, ss: seq<System>, a: nat, b: nat, j: string, k: string)
    requires IsRun(node, steps, ss) && a <= b < |ss| && j in ss[a].perjob && k in ss[b].perjob
    ensures ss[a].nextExporter <= ss[b].nextExporter
    ensures ss[a].perjob[j].exporter == ss[b].perjob[k].exporter ==> j == k
    decreases b - a
  {
    hide Next, Enabled;
    RunsKeepOwn(node, steps, ss, a);
    if a < b {
      RunsStayCounted(node, steps, ss, b - 1);
      TableStep(ss[b - 1], steps[b - 1], k);
      NumbersGrow(node, steps, ss, a, b - 1);
      if k in ss[b - 1].perjob { NeverReused(node, steps, ss, a, b - 1, j, k); }
    }
  }

  lemma {:induction false} NumbersGrow(node: string, steps: seq<Step>, ss: seq<System>, a: nat, b: nat)
    requires IsRun(node, steps, ss) && a <= b < |ss|
    ensures ss[a].nextExporter <= ss[b].nextExporter
    decreases b - a
  {
    hide Next, Enabled;
    if a < b {
      NumbersGrow(node, steps, ss, a, b - 1);
      RunsStayCounted(node, steps, ss, b - 1);
      TableStep(ss[b - 1], steps[b - 1], "");
    }
  }

  // ----- which exporter a client writes to -----

  /** The job a client announced last, empty ids apart, since it connected */
  function LastJob(steps: seq<Step>, c: nat): Option<string> {
    if steps == [] then None
    else
      var last := steps[|steps| - 1];
      if last == Connect(c) then None
      else if last.Announce? && last.c == c && last.jobid != "" then Some(last.jobid)
      else LastJob(steps[..|steps| - 1], c)
  }

  /** The client's exporter is the registered one of that job, kept by a reference that is held or leaked. */
  ghost predicate WritesFor(s: System, c: Client, job: Option<string>) {
    match job
    case None => c.exporter.None?
    case Some(j) => Backs(s, c, j)
  }

  lemma StepWritesFor(s: System, node: string, st: Step, c: nat, job: Option<string>)
    requires Enabled(s, st) && Counted(s, node) && c in s.clients && WritesFor(s, s.clients[c], job)
    requires Next(s, st).Ok? && Counted(Next(s, st).s, node) && c in Next(s, st).s.clients
    requires !(st.Announce? && st.c == c && st.jobid != "")
    ensures WritesFor(Next(s, st).s, Next(s, st).s.clients[c], job)
  {
    hide Counted;
    var s' := Next(s, st).s;
    ClientStep(s, st, c);
    if job.Some? {
      var j := job.value;
      LeaksGrow(s, st, c, j);
      TableStep(s, st, j);
      StaysRegistered(s', node, c, j);
    }
  }

  lemma ClientStep(s: System, st: Step, c: nat)
    requires Enabled(s, st) && Next(s, st).Ok? && c in s.clients && c in Next(s, st).s.clients
    requires !(st.Announce? && st.c == c && st.jobid != "")
    ensures Next(s, st).s.clients[c].exporter == s.clients[c].exporter
  {
    hide Resolve, Relax, LeakOne, LeakAll;
  }

  /** A reference that is held or leaked stays so while the client is connected. */
  lemma LeaksGrow(s: System, st: Step, c: nat, j: string)
    requires Enabled(s, st) && Next(s, st).Ok? && c in s.clients && c in Next(s, st).s.clients
    requires ClientHolds(s.clients[c], j) || Leaked(s.leaked, j) >= 1
    ensures ClientHolds(Next(s, st).s.clients[c], j) || Leaked(Next(s, st).s.leaked, j) >= 1
  {
    hide Resolve, Relax;
    match st
    case Announce(d, _) => LeakOneAt(s.leaked, s.clients[d].jobid, j);
    case Abort(d) => LeakOneAt(s.leaked, s.clients[d].jobid, j);
    case Depart(x, k, _) => LeakAllAt(s.leaked, s.scrapers[x] - {k}, j);
    case DropScraper(x) => LeakAllAt(s.leaked, s.scrapers[x], j);
    case _ =>
  }

  lemma StaysRegistered(s: System, node: string, c: nat, j: string)
    requires Counted(s, node) && c in s.clients && (ClientHolds(s.clients[c], j) || Leaked(s.leaked, j) >= 1)
    ensures j in s.perjob
  {
    assert CountedAt(s, node, j);
    if ClientHolds(s.clients[c], j) {
      assert c in ClientsOf(s.clients, j);
      HolderIsCounted(s, node, j);
    }
  }

  /** In every run a connected client writes to the exporter registered for the job it announced last, also if it has
      announced an empty id since, and no other job has that exporter; a client that announced none writes to none. */
  lemma {:induction false} RunsWriteTo(node: string, steps: seq<Step>, ss: seq<System>, i: nat, c: nat)
    requires IsRun(node, steps, ss) && i < |ss| && c in ss[i].clients
    ensures WritesFor(ss[i], ss[i].clients[c], LastJob(steps[..i], c))
    ensures LastJob(steps[..i], c).Some? ==>
              var j := LastJob(steps[..i], c).value;
              && j in ss[i].perjob && ss[i].clients[c].exporter == Some(ss[i].perjob[j].exporter)
              && forall k :: k in ss[i].perjob && ss[i].clients[c].exporter == Some(ss[i].perjob[k].exporter) ==> k == j
  {
    hide Next, Enabled, Counted;
    RunsKeepOwn(node, steps, ss, i);
    if i > 0 {
      var s, st, front := ss[i - 1], steps[i - 1], steps[..i - 1];
      assert steps[..i][..i - 1] == front;
      RunsStayCounted(node, steps, ss, i - 1);
      RunsStayCounted(node, steps, ss, i);
      if st == Connect(c) {
        NewClient(s, c);
      } else if st.Announce? && st.c == c && st.jobid != "" {
        NewJob(s, c, st.jobid);
      } else {
        OldClient(s, st, c);
        RunsWriteTo(node, steps, ss, i - 1, c);
        StepWritesFor(s, node, st, c, LastJob(front, c));
      }
    }
  }

  lemma NewClient(s: System, c: nat)
    requires Enabled(s, Connect(c))
    ensures Next(s, Connect(c)).s.clients[c] == Client(None, None)
  {
  }

  lemma NewJob(s: System, c: nat, j: string)
    requires Enabled(s, Announce(c, j)) && j != ""
    ensures var s' := Next(s, Announce(c, j)).s; c in s'.clients && Backs(s', s'.clients[c], j)
  {
    hide LeakOne;
  }

  lemma OldClient(s: System, st: Step, c: nat)
    requires Enabled(s, st) && Next(s, st).Ok? && c in Next(s, st).s.clients && st != Connect(c)
    ensures c in s.clients
  {
    hide Resolve, Relax, LeakOne, LeakAll;
  }

  // ----- local jobs -----

  /** A client announced the job in step k, and it has been registered ever since. */
  ghost predicate AnnouncedAt(steps: seq<Step>, ss: seq<System>, i: nat, k: nat, j: string)
    requires i < |ss|
  {
    k < i && k < |steps| && Local(steps[k], j) && forall m :: k < m <= i ==> j in ss[m].perjob
  }

  ghost predicate AnnouncedBefore(steps: seq<Step>, ss: seq<System>, i: nat, j: string)
    requires i < |ss|
  {
    exists k: nat :: AnnouncedAt(steps, ss, i, k, j)
  }

  lemma AnnouncedNext(steps: seq<Step>, ss: seq<System>, i: nat, j: string)
    requires i < |steps| && |ss| == |steps| + 1 && j in ss[i + 1].perjob
    ensures AnnouncedBefore(steps, ss, i + 1, j) <==>
            Local(steps[i], j) || (j in ss[i].perjob && AnnouncedBefore(steps, ss, i, j))
  {
    hide Local;
    if Local(steps[i], j) { assert AnnouncedAt(steps, ss, i + 1, i, j); }
    if j in ss[i].perjob && AnnouncedBefore(steps, ss, i, j) {
      var k: nat :| AnnouncedAt(steps, ss, i, k, j);
      assert AnnouncedAt(steps, ss, i + 1, k, j);
    }
    if AnnouncedBefore(steps, ss, i + 1, j) {
      var k: nat :| AnnouncedAt(steps, ss, i + 1, k, j);
      assert k < i ==> AnnouncedAt(steps, ss, i, k, j);
    }
  }

  /** In every run a job counts as local if and only if a client has announced it since it was registered: scrapers
      do not make it local, nor do they take that away. */
  lemma {:induction false} LocalIff(node: string, steps: seq<Step>, ss: seq<System>, i: nat, j: string)
    requires IsRun(node, steps, ss) && i < |ss| && j in ss[i].perjob
    ensures ss[i].perjob[j].islocal <==> AnnouncedBefore(steps, ss, i, j)
  {
    hide Next, Enabled, AnnouncedBefore, Local;
    if i == 0 {
      NoneAnnounced(steps, ss, j);
    } else {
      RunsStayCounted(node, steps, ss, i - 1);
      TableStep(ss[i - 1], steps[i - 1], j);
      AnnouncedNext(steps, ss, i - 1, j);
      if j in ss[i - 1].perjob { LocalIff(node, steps, ss, i - 1, j); }
    }
  }

  lemma NoneAnnounced(steps: seq<Step>, ss: seq<System>, j: string)
    requires ss != []
    ensures !AnnouncedBefore(steps, ss, 0, j)
  {
  }
}
