/** Every interleaving of clients and server: the accounts, and exactly when a connection is cut. */
module ClientRuns {
  import opened Basics
  import opened Exporters
  import opened ClientFlow

  function Start(node: string, clients: nat): System {
    System(seq(clients, _ => IDLE), map[], map[], map[], node, map[], map[], map[], map[])
  }

  ghost predicate IsRun(node: string, clients: nat, steps: seq<Step>, ss: seq<System>) {
    && |ss| == |steps| + 1 && ss[0] == Start(node, clients)
    && forall i :: 0 <= i < |steps| ==>
         Enabled(ss[i], steps[i]) && (Next(ss[i], steps[i]).Ok? ==> ss[i + 1] == Next(ss[i], steps[i]).s)
  }

  lemma {:induction false} NothingCarried(k: nat, j: string, n: string)
    ensures var cs := seq(k, _ => IDLE);
            CarriedAll(cs, n) == 0.0 && AheadAll(cs, n) == 0.0 && JobAheadAll(cs, j, n) == 0.0
  {
    if k > 0 {
      NothingCarried(k - 1, j, n);
      assert seq(k, _ => IDLE)[..k - 1] == seq(k - 1, _ => IDLE);
    }
  }

  lemma StartSound(node: string, clients: nat)
    ensures Inv(Start(node, clients))
  {
    hide CarriedAll, AheadAll, JobAheadAll, Unmatched;
    var s := Start(node, clients);
    forall j, n ensures ConservedAt(s, j, n) {
      NothingCarried(clients, j, n);
    }
    assert NodeQueue(IDLE) == [];
  }

  /** In every interleaving: what was incremented is pending, in flight, in the main exporter or lost with a cut
      connection; the node's exporter and those of the jobs follow the main one, but for what a job's exporter has
      refused; no value is handled by main or node before its description. */
  lemma {:induction false} RunsConserve(node: string, clients: nat, steps: seq<Step>, ss: seq<System>, i: nat)
    requires IsRun(node, clients, steps, ss) && i < |ss|
    ensures Inv(ss[i]) && ss[i].nodeId == node
    ensures i < |steps| ==> Next(ss[i], steps[i]).Ok? && ss[i + 1] == Next(ss[i], steps[i]).s
  {
    hide Next, Enabled, Inv, KeysGrow;
    if i == 0 {
      StartSound(node, clients);
    } else {
      RunsConserve(node, clients, steps, ss, i - 1);
      NextKeepsInv(ss[i - 1], steps[i - 1]);
    }
    if i < |steps| { NextKeepsInv(ss[i], steps[i]); }
  }

  /** Nothing of a client is on its way. */
  ghost predicate Drained(c: Client, n: string) {
    Carried(c, n) == 0.0 && c.stage.Idle?
  }

  /** When every client has nothing left to send, main and node hold exactly what was incremented and not lost, apart
      from what was carried out a second time for their own ids, and a job what was handled for it and not refused;
      nothing is lost while no connection is cut. */
  lemma DrainedIsComplete(s: System, j: string, n: string)
    requires Inv(s) && forall i :: 0 <= i < |s.clients| ==> Drained(s.clients[i], n)
    ensures MainHolds(s, n) - MainTwice(s, n) == At(s.total, n) - At(s.lost, n)
    ensures NodeHolds(s, n) - JobAt(s.jobs, s.nodeId, n) == At(s.total, n) - At(s.lost, n)
    ensures JobAt(s.jobs, j, n) == At(s.owed, (j, n)) - At(s.missed, (j, n))
    ensures AllOpen(s) ==> At(s.lost, n) == 0.0
  {
    hide SoundClient, Unmatched;
    assert ConservedAt(s, j, n);
    NoneCarried(s.clients, j, n);
  }

  lemma {:induction false} NoneCarried(cs: seq<Client>, j: string, n: string)
    requires forall i :: 0 <= i < |cs| ==> Drained(cs[i], n)
    ensures CarriedAll(cs, n) == 0.0 && AheadAll(cs, n) == 0.0 && JobAheadAll(cs, j, n) == 0.0
  {
    if cs != [] { NoneCarried(cs[..|cs| - 1], j, n); }
  }

  // ----- which job a client is on -----

  /** Step k carries out the client's announcement of a job; an empty id announces none. */
  ghost predicate AnnouncesAt(steps: seq<Step>, ss: seq<System>, k: nat, c: nat, j: string) {
    && k < |steps| && k < |ss| && steps[k] == HandleMain(c) && c < |ss[k].clients|
    && ss[k].clients[c].stream != [] && ss[k].clients[c].stream[0] == JobDesc(j) && j != ""
  }

  ghost predicate SilentBetween(steps: seq<Step>, ss: seq<System>, from: nat, to: nat, c: nat) {
    forall k: nat, j :: from <= k < to ==> !AnnouncesAt(steps, ss, k, c, j)
  }

  lemma StepKeepsJob(s: System, st: Step, c: nat)
    requires Enabled(s, st) && Next(s, st).Ok? && c < |s.clients|
    ensures c < |Next(s, st).s.clients|
    ensures Next(s, st).s.clients[c].job ==
            if st == HandleMain(c) && s.clients[c].stream[0].JobDesc? && s.clients[c].stream[0].job != ""
            then Some(s.clients[c].stream[0].job) else s.clients[c].job
  {
    hide KeysGrow, AddLost, Export, Received, Missing, Unmatched, Owing, Announced;
  }

  /** In every run a client is on the job it announced last, also if it has announced an empty id since. */
  lemma {:induction false} JobIsLastAnnounced(
    node: string, clients: nat, steps: seq<Step>, ss: seq<System>, i: nat, c: nat) returns (k: nat)
    requires IsRun(node, clients, steps, ss) && i < |ss| && c < clients
    ensures |ss[i].clients| == clients
    ensures ss[i].clients[c].job.Some? ==>
              k < i && AnnouncesAt(steps, ss, k, c, ss[i].clients[c].job.value) && SilentBetween(steps, ss, k + 1, i, c)
    ensures ss[i].clients[c].job.None? ==> SilentBetween(steps, ss, 0, i, c)
  {
    hide Next, Inv, Enabled;
    k := 0;
    if i > 0 {
      var p := i - 1;
      k := JobIsLastAnnounced(node, clients, steps, ss, p, c);
      RunsConserve(node, clients, steps, ss, p);
      StepKeepsJob(ss[p], steps[p], c);
      StreamThere(ss[p], steps[p]);
      var stream := ss[p].clients[c].stream;
      if steps[p] == HandleMain(c) && stream[0].JobDesc? && stream[0].job != "" {
        assert AnnouncesAt(steps, ss, p, c, stream[0].job);
        k := p;
      }
    }
  }

  lemma StreamThere(s: System, st: Step)
    requires Enabled(s, st)
    ensures st.HandleMain? ==> st.c < |s.clients| && s.clients[st.c].stream != []
  {
  }

  // ----- exactly when a job's exporter refuses a value -----

  /** Step k carried out a description of the name in the job's exporter. */
  ghost predicate DescribedAt(steps: seq<Step>, ss: seq<System>, k: nat, j: string, n: string) {
    && k < |steps| && k < |ss| && steps[k].HandleJob? && steps[k].c < |ss[k].clients|
    && ss[k].clients[steps[k].c].stage == NodeDone(Desc(n)) && ss[k].clients[steps[k].c].job == Some(j)
  }

  ghost predicate DescribedBefore(steps: seq<Step>, ss: seq<System>, i: nat, j: string, n: string) {
    exists k :: 0 <= k < i && DescribedAt(steps, ss, k, j, n)
  }

  function JobKeys(jobs: map<string, Amounts>, j: string): set<string> {
    if j in jobs then jobs[j].Keys else {}
  }

  lemma AnnouncedKeys(jobs: map<string, Amounts>, k: string, j: string)
    ensures JobKeys(Announced(jobs, k), j) == JobKeys(jobs, j)
  {
  }

  lemma MainJobKeys(s: System, i: nat, j: string)
    requires Enabled(s, HandleMain(i)) && InMain(s, i).Ok?
    ensures JobKeys(InMain(s, i).s.jobs, j) == JobKeys(s.jobs, j)
  {
    hide Unmatched, Concerns, Announce, Announced, Cut, TakeMain, WithJob, JobKeys;
    var cmd := s.clients[i].stream[0];
    if cmd.JobDesc? { AnnouncedKeys(s.jobs, cmd.job, j); }
  }

  /** Only a description carried out there brings a name into a job's own exporter. */
  lemma StepJobKeys(s: System, st: Step, j: string, n: string)
    requires Enabled(s, st) && Next(s, st).Ok? && !BuiltIn(s, j)
    ensures n in JobKeys(Next(s, st).s.jobs, j) <==>
            || n in JobKeys(s.jobs, j)
            || (st.HandleJob? && s.clients[st.c].stage == NodeDone(Desc(n)) && s.clients[st.c].job == Some(j))
  {
    hide InMain, InNode, InJob, ClientNext, AddLost, Concerns;
    if st.HandleMain? {
      MainJobKeys(s, st.c, j);
    } else if st.HandleNode? {
      NodeJobKeys(s, st.c);
    } else if st.HandleJob? {
      JobJobKeys(s, st.c, j, n);
    }
  }

  lemma NodeJobKeys(s: System, i: nat)
    requires Enabled(s, HandleNode(i)) && InNode(s, i).Ok?
    ensures InNode(s, i).s.jobs == s.jobs
  {
    hide Unmatched, Concerns, Export;
  }

  lemma JobJobKeys(s: System, i: nat, j: string, n: string)
    requires Enabled(s, HandleJob(i)) && InJob(s, i).Ok? && !BuiltIn(s, j)
    ensures n in JobKeys(InJob(s, i).s.jobs, j) <==>
            n in JobKeys(s.jobs, j) || (s.clients[i].stage == NodeDone(Desc(n)) && s.clients[i].job == Some(j))
  {
    hide Unmatched, Concerns, Cut, TakeJob, Missing, Received;
    var c := s.clients[i];
    ReceivedAt(s.jobs[c.job.value], c.stage.cmd, n);
  }

  lemma {:induction false} JobKnowsIff(
    node: string, clients: nat, steps: seq<Step>, ss: seq<System>, i: nat, j: string, n: string)
    requires IsRun(node, clients, steps, ss) && i < |ss| && j != MAIN && j != node
    ensures n in JobKeys(ss[i].jobs, j) <==> DescribedBefore(steps, ss, i, j, n)
  {
    hide Next, Enabled, Inv;
    if i > 0 {
      RunsConserve(node, clients, steps, ss, i - 1);
      JobKnowsIff(node, clients, steps, ss, i - 1, j, n);
      StepJobKeys(ss[i - 1], steps[i - 1], j, n);
      InRange(ss[i - 1], steps[i - 1]);
      assert DescribedBefore(steps, ss, i, j, n) <==>
             DescribedBefore(steps, ss, i - 1, j, n) || DescribedAt(steps, ss, i - 1, j, n);
    }
  }

  lemma InRange(s: System, st: Step)
    requires Enabled(s, st)
    ensures st.c < |s.clients|
  {
  }

  lemma InJobCutsIff(s: System, i: nat)
    requires Enabled(s, HandleJob(i)) && Inv(s)
    ensures InJob(s, i).Ok? && s.clients[i].job.Some? && s.clients[i].link.Open?
    ensures var c := s.clients[i];
            InJob(s, i).s.clients[i].link == Unknown <==>
            c.stage.cmd.Value? && !BuiltIn(s, c.job.value) && c.stage.cmd.name !in JobKeys(s.jobs, c.job.value)
  {
    NextSucceeds(s, HandleJob(i));
    assert SoundClient(s, s.clients[i]);
    hide ConservedAt, Unmatched, Concerns, InSequence, Cut, TakeJob, Missing, Judged;
  }

  /** In every run: carrying out a value for the job cuts the connection if and only if the job has an exporter of its
      own and no description of the name was carried out there before, by any client. */
  lemma MissIff(node: string, clients: nat, steps: seq<Step>, ss: seq<System>, i: nat)
    requires IsRun(node, clients, steps, ss) && i < |steps| && steps[i].HandleJob?
    ensures steps[i].c < |ss[i].clients| == |ss[i + 1].clients|
    ensures var c := ss[i].clients[steps[i].c];
            && c.job.Some? && c.stage.NodeDone? && c.link.Open?
            && (ss[i + 1].clients[steps[i].c].link == Unknown <==>
                && c.stage.cmd.Value? && c.job.value != MAIN && c.job.value != node
                && !DescribedBefore(steps, ss, i, c.job.value, c.stage.cmd.name))
  {
    RunsConserve(node, clients, steps, ss, i);
    hide Inv, InJob, DescribedBefore;
    InJobCutsIff(ss[i], steps[i].c);
    var c := ss[i].clients[steps[i].c];
    if c.stage.cmd.Value? && !BuiltIn(ss[i], c.job.value) {
      JobKnowsIff(node, clients, steps, ss, i, c.job.value, c.stage.cmd.name);
    }
  }

  // ----- clients on the ids of main and node -----

  /** Increments are in exactly one place if and only if nothing was added to main a second time. */
  lemma OnceIff(s: System, n: string)
    requires Inv(s)
    ensures At(s.total, n) == CarriedAll(s.clients, n) + MainHolds(s, n) + At(s.lost, n) <==> MainTwice(s, n) == 0.0
    ensures MainHolds(s, n) - MainTwice(s, n) == NodeHolds(s, n) - JobAt(s.jobs, s.nodeId, n) + AheadAll(s.clients, n)
  {
    hide SoundClient, Unmatched, CarriedAll, AheadAll, JobAt;
    assert ConservedAt(s, MAIN, n);
  }

  /** No client is on the job or about to announce it, and nothing was carried out for it. */
  ghost predicate Unclaimed(s: System, j: string) {
    && j !in s.jobs
    && forall i :: 0 <= i < |s.clients| ==> s.clients[i].job != Some(j) && JobDesc(j) !in s.clients[i].stream
  }

  lemma StepUnclaimed(s: System, st: Step, j: string)
    requires Enabled(s, st) && Next(s, st).Ok? && Inv(s) && Unclaimed(s, j) && j != "" && st != SendJob(st.c, j)
    ensures Unclaimed(Next(s, st).s, j)
  {
    assert SoundClient(s, s.clients[st.c]);
    ActorUnclaimed(s, st, j);
    hide Inv, Next, Enabled, SoundClient, KeysGrow;
  }

  lemma ActorUnclaimed(s: System, st: Step, j: string)
    requires Enabled(s, st) && Next(s, st).Ok? && SoundClient(s, s.clients[st.c]) && Unclaimed(s, j)
    requires j != "" && !(st.SendJob? && st.job == j)
    ensures j !in Next(s, st).s.jobs
    ensures var c := Next(s, st).s.clients[st.c]; c.job != Some(j) && JobDesc(j) !in c.stream
  {
    hide InOrder, Unmatched, Concerns, AddLost, Export, Received, Missing, Cut, TakeMain, TakeJob, Announce;
    var c := s.clients[st.c];
    OutboxHasValues(s, c);
    if st.HandleMain? {
      assert c.stream == [c.stream[0]] + c.stream[1..];
    }
  }

  lemma OutboxHasValues(s: System, c: Client)
    requires SoundClient(s, c)
    ensures c.outbox != [] ==> c.outbox[0].Value?
  {
  }

  /** As long as no client announces main's id nothing is added to main a second time; likewise for the node. */
  lemma {:induction false} RunsUnclaimed(
    node: string, clients: nat, steps: seq<Step>, ss: seq<System>, i: nat, j: string)
    requires IsRun(node, clients, steps, ss) && i < |ss| && j != ""
    requires forall k :: 0 <= k < i ==> !(steps[k].SendJob? && steps[k].job == j)
    ensures Unclaimed(ss[i], j) && forall n :: JobAt(ss[i].jobs, j, n) == 0.0
  {
    hide Next, Enabled, Inv;
    if i > 0 {
      RunsUnclaimed(node, clients, steps, ss, i - 1, j);
      RunsConserve(node, clients, steps, ss, i - 1);
      StepUnclaimed(ss[i - 1], steps[i - 1], j);
    }
  }

  // ----- clients that announce their job first -----

  /** The commands of a client that its job's exporter has still to see */
  function JobQueue(c: Client): seq<Command> {
    (if c.stage.Idle? then [] else [c.stage.cmd]) + c.stream
  }

  predicate Announces(cmd: Command) {
    cmd.JobDesc? && cmd.job != ""
  }

  ghost predicate HasAnnounce(q: seq<Command>) {
    exists i :: 0 <= i < |q| && Announces(q[i])
  }

  /** Announcements come before everything else. */
  ghost predicate AnnouncesFirst(q: seq<Command>) {
    forall i, k :: 0 <= i < k < |q| && Announces(q[k]) ==> q[i].JobDesc?
  }

  /** The names the exporter of the job will know that the client is on when it comes to the queue */
  ghost function KnownThere(jobs: map<string, Amounts>, c: Client): set<string> {
    if HasAnnounce(JobQueue(c)) || c.job.None? then {} else JobKeys(jobs, c.job.value)
  }

  ghost predicate Settled(jobs: map<string, Amounts>, c: Client) {
    c.link.Open? ==>
      && AnnouncesFirst(JobQueue(c))
      && ((c.job.None? && !HasAnnounce(JobQueue(c))) || InSequence(KnownThere(jobs, c), c.handles, JobQueue(c)))
  }

  ghost predicate AllSettled(s: System) {
    forall i :: 0 <= i < |s.clients| ==> Settled(s.jobs, s.clients[i]) && s.clients[i].link != Unknown
  }

  /** As the client library does: the job is announced before any metric is described. */
  ghost predicate EarlyStep(s: System, st: Step) {
    st.SendJob? && st.job != "" && st.c < |s.clients| ==> s.clients[st.c].handles == {}
  }

  lemma OthersStaySettled(jobs: map<string, Amounts>, jobs': map<string, Amounts>, c: Client)
    requires Settled(jobs, c) && JobsGrow(jobs, jobs')
    ensures Settled(jobs', c)
  {
    hide InSequence, AnnouncesFirst;
    if c.link.Open? && !(c.job.None? && !HasAnnounce(JobQueue(c))) {
      SequenceWider(KnownThere(jobs, c), KnownThere(jobs', c), c.handles, JobQueue(c));
    }
  }

  lemma AnnounceAppend(q: seq<Command>, cmd: Command)
    ensures HasAnnounce(q + [cmd]) <==> HasAnnounce(q) || Announces(cmd)
    ensures !Announces(cmd) && AnnouncesFirst(q) ==> AnnouncesFirst(q + [cmd])
    ensures (forall x :: x in q ==> x.JobDesc?) ==> AnnouncesFirst(q + [cmd])
  {
    var r := q + [cmd];
    if i :| 0 <= i < |q| && Announces(q[i]) { assert Announces(r[i]); }
    if Announces(cmd) { assert Announces(r[|q|]); }
  }

  lemma AnnounceRest(q: seq<Command>)
    requires q != []
    ensures HasAnnounce(q) <==> Announces(q[0]) || HasAnnounce(q[1..])
    ensures AnnouncesFirst(q) ==> AnnouncesFirst(q[1..])
    ensures AnnouncesFirst(q) && !q[0].JobDesc? ==> !HasAnnounce(q)
  {
    var r := q[1..];
    if i :| 0 <= i < |r| && Announces(r[i]) { assert Announces(q[i + 1]); }
    if i :| 0 <= i < |q| && Announces(q[i]) {
      if i > 0 { assert Announces(r[i - 1]); }
    }
  }

  /** Something is sent: a description, a value of a described name, or an announcement of a client without names. */
  lemma SenderStaysSettled(s: System, c: Client, cmd: Command)
    requires SoundClient(s, c) && Settled(s.jobs, c) && c.link.Open? && (cmd.Value? ==> cmd.name in c.handles)
    requires Announces(cmd) ==> c.handles == {}
    ensures Settled(s.jobs, Sent(c, cmd))
  {
    hide InSequence, Unmatched, InOrder;
    var q := JobQueue(c);
    assert JobQueue(Sent(c, cmd)) == q + [cmd];
    AnnounceAppend(q, cmd);
    if Announces(cmd) {
      NothingNamed(s, c);
      EmptySequence(q + [cmd]);
    } else if !(c.job.None? && !HasAnnounce(q)) {
      SequenceMore(KnownThere(s.jobs, c), c.handles, q, cmd);
    }
  }

  lemma NothingNamed(s: System, c: Client)
    requires SoundClient(s, c) && c.link.Open? && c.handles == {}
    ensures forall x :: x in JobQueue(c) ==> x.JobDesc?
  {
    hide InOrder, Unmatched;
  }

  lemma EmptySequence(q: seq<Command>)
    requires forall i :: 0 <= i < |q| ==> q[i].JobDesc?
    ensures InSequence({}, {}, q)
  {
  }

  lemma ClientStaysSettled(s: System, c: Client, st: Step)
    requires SoundClient(s, c) && Settled(s.jobs, c) && ClientSide(st) && ClientEnabled(c, st)
    requires st.SendJob? && st.job != "" ==> c.handles == {}
    ensures Settled(s.jobs, ClientNext(c, st))
  {
    if st.SendValue? && c.link.Open? { assert SoundClient(s, c) && c.outbox[0].name in c.handles; }
    hide InSequence, Unmatched, SoundClient, AnnouncesFirst, HasAnnounce;
    if st.SendJob? && c.link.Open? {
      SenderStaysSettled(s, c, JobDesc(st.job));
    } else if st.SendDesc? && c.link.Open? {
      SenderStaysSettled(s, c, Desc(st.name));
    } else if st.SendValue? && c.link.Open? {
      SenderStaysSettled(s, c, c.outbox[0]);
      SameQueue(s.jobs, Sent(c, c.outbox[0]), ClientNext(c, st));
    } else {
      SameQueue(s.jobs, c, ClientNext(c, st));
    }
  }

  lemma SameQueue(jobs: map<string, Amounts>, c: Client, c': Client)
    requires Settled(jobs, c) && c'.handles == c.handles && c'.job == c.job && c'.link == c.link
    requires c'.stage == c.stage && c'.stream == c.stream
    ensures Settled(jobs, c')
  {
    hide InSequence, AnnouncesFirst, HasAnnounce;
  }

  lemma MainStaysSettled(s: System, i: nat)
    requires Enabled(s, HandleMain(i)) && SoundClient(s, s.clients[i]) && Settled(s.jobs, s.clients[i])
             && InMain(s, i).Ok?
    ensures Settled(InMain(s, i).s.jobs, InMain(s, i).s.clients[i]) && InMain(s, i).s.clients[i].link != Unknown
  {
    hide InSequence, Unmatched, InOrder, Judged, Announce, Cut, TakeMain, AnnouncesFirst, HasAnnounce, KeysGrow;
    var c, s' := s.clients[i], InMain(s, i).s;
    var cmd := c.stream[0];
    assert SoundClient(s, c) && c.link.Open? by { OpenWhenBusy(s, c); }
    assert JobQueue(c) == c.stream;
    if cmd.JobDesc? {
      hide Concerns;
      AnnouncedSettled(s, i);
    } else if s'.clients[i].link.Open? {
      assert JobQueue(s'.clients[i]) == [cmd] + c.stream[1..] == c.stream;
    }
  }

  lemma OpenWhenBusy(s: System, c: Client)
    requires SoundClient(s, c) && (c.stream != [] || !c.stage.Idle?)
    ensures c.link.Open?
  {
  }

  lemma AnnouncedSettled(s: System, i: nat)
    requires Enabled(s, HandleMain(i)) && s.clients[i].link.Open? && Settled(s.jobs, s.clients[i])
    requires s.clients[i].stream[0].JobDesc?
    ensures var s' := Announce(s, i, s.clients[i].stream[0].job); Settled(s'.jobs, s'.clients[i])
  {
    hide InSequence, Unmatched, KeysGrow;
    var c := s.clients[i];
    var s', q := Announce(s, i, c.stream[0].job), c.stream;
    var c' := s'.clients[i];
    assert JobQueue(c) == q && JobQueue(c') == q[1..];
    AnnounceRest(q);
    hide HasAnnounce, AnnouncesFirst, Announced;
    if !(c.job.None? && !HasAnnounce(q)) {
      SequenceLess(KnownThere(s.jobs, c), KnownThere(s.jobs, c), c.handles, q);
      SequenceWider(KnownThere(s.jobs, c), KnownThere(s'.jobs, c'), c.handles, q[1..]);
    }
  }

  lemma NodeStaysSettled(s: System, i: nat)
    requires Enabled(s, HandleNode(i)) && SoundClient(s, s.clients[i]) && Settled(s.jobs, s.clients[i])
             && InNode(s, i).Ok?
    ensures Settled(InNode(s, i).s.jobs, InNode(s, i).s.clients[i])
    ensures InNode(s, i).s.clients[i].link == s.clients[i].link
  {
    hide InSequence, Unmatched, InOrder, Judged, Concerns, Export;
    var c, s' := s.clients[i], InNode(s, i).s;
    OpenWhenBusyToo(s, c);
    AnnounceRest(JobQueue(c));
    hide HasAnnounce, AnnouncesFirst;
    assert JobQueue(c)[1..] == c.stream;
  }

  lemma OpenWhenBusyToo(s: System, c: Client)
    requires SoundClient(s, c) && !c.stage.Idle?
    ensures c.link.Open? && !c.stage.cmd.JobDesc?
  {
  }

  lemma JobStaysSettled(s: System, i: nat)
    requires Enabled(s, HandleJob(i)) && SoundClient(s, s.clients[i]) && Settled(s.jobs, s.clients[i])
             && InJob(s, i).Ok?
    ensures Settled(InJob(s, i).s.jobs, InJob(s, i).s.clients[i]) && InJob(s, i).s.clients[i].link != Unknown
  {
    hide InSequence, Unmatched, InOrder, Judged, KeysGrow, Cut, Missing, Received;
    var c, s' := s.clients[i], InJob(s, i).s;
    OpenWhenBusyToo(s, c);
    var q, cmd, j := JobQueue(c), c.stage.cmd, c.job.value;
    AnnounceRest(q);
    hide HasAnnounce, AnnouncesFirst;
    var known := s.jobs[j].Keys + {cmd.name};
    assert q[0] == cmd && q[1..] == c.stream;
    SequenceLess(s.jobs[j].Keys, known, c.handles, q);
    ReceivedAt(s.jobs[j], cmd, cmd.name);
    assert JobQueue(s'.clients[i]) == c.stream;
  }

  lemma StepStaysSettled(s: System, st: Step)
    requires Enabled(s, st) && Inv(s) && AllSettled(s) && EarlyStep(s, st) && Next(s, st).Ok?
    ensures AllSettled(Next(s, st).s)
  {
    assert SoundClient(s, s.clients[st.c]);
    ActorStaysSettled(s, st);
    hide Inv, Next, Settled, Enabled, SoundClient;
    var s' := Next(s, st).s;
    forall i | 0 <= i < |s'.clients| ensures Settled(s'.jobs, s'.clients[i]) && s'.clients[i].link != Unknown {
      if i != st.c { OthersStaySettled(s.jobs, s'.jobs, s.clients[i]); }
    }
  }

  lemma ActorStaysSettled(s: System, st: Step)
    requires Enabled(s, st) && SoundClient(s, s.clients[st.c]) && AllSettled(s) && EarlyStep(s, st) && Next(s, st).Ok?
    ensures Settled(Next(s, st).s.jobs, Next(s, st).s.clients[st.c]) && Next(s, st).s.clients[st.c].link != Unknown
  {
    hide InMain, InNode, InJob, ClientNext, AddLost, Settled, SoundClient;
    var c := s.clients[st.c];
    assert Settled(s.jobs, c);
    if ClientSide(st) {
      ClientStaysSettled(s, c, st);
      ClientKeepsLink(c, st);
    } else if st.HandleMain? {
      MainStaysSettled(s, st.c);
    } else if st.HandleNode? {
      NodeStaysSettled(s, st.c);
    } else {
      JobStaysSettled(s, st.c);
    }
  }

  lemma ClientKeepsLink(c: Client, st: Step)
    requires ClientSide(st) && ClientEnabled(c, st)
    ensures ClientNext(c, st).link == c.link
  {
  }

  ghost predicate EarlySteps(steps: seq<Step>, ss: seq<System>) {
    |ss| == |steps| + 1 && forall k :: 0 <= k < |steps| ==> EarlyStep(ss[k], steps[k])
  }

  /** When jobs are announced first, no value is ever refused by a job's exporter. */
  lemma {:induction false} EarlyNeverMisses(node: string, clients: nat, steps: seq<Step>, ss: seq<System>, i: nat)
    requires IsRun(node, clients, steps, ss) && EarlySteps(steps, ss) && i < |ss|
    ensures AllSettled(ss[i])
  {
    hide Next, Enabled, Inv, AllSettled, EarlyStep;
    if i == 0 {
      StartSettled(node, clients);
    } else {
      EarlyNeverMisses(node, clients, steps, ss, i - 1);
      RunsConserve(node, clients, steps, ss, i - 1);
      StepStaysSettled(ss[i - 1], steps[i - 1]);
    }
  }

  lemma StartSettled(node: string, clients: nat)
    ensures AllSettled(Start(node, clients))
  {
    assert JobQueue(IDLE) == [];
  }

  // ----- exactly when a connection is cut -----

  ghost predicate LegalSteps(steps: seq<Step>) {
    forall k :: 0 <= k < |steps| && steps[k].SendDesc? ==> !Unmatched(steps[k].name)
  }

  ghost predicate LegalHandles(s: System) {
    forall i, n :: 0 <= i < |s.clients| && n in s.clients[i].handles ==> !Unmatched(n)
  }

  /** Only a description sent on an open connection gives a client a name. */
  lemma HandlesAfter(s: System, st: Step)
    requires Enabled(s, st) && Next(s, st).Ok?
    ensures Next(s, st).s.clients[st.c].handles ==
            s.clients[st.c].handles + (if st.SendDesc? && s.clients[st.c].link.Open? then {st.name} else {})
  {
    hide Unmatched, AddLost, Concerns, Announce, Cut, TakeMain, TakeJob, Missing, Export;
  }

  lemma StepKeepsLegal(s: System, st: Step)
    requires Enabled(s, st) && Next(s, st).Ok? && LegalHandles(s) && (st.SendDesc? ==> !Unmatched(st.name))
    ensures LegalHandles(Next(s, st).s)
  {
    hide Unmatched, Next, Enabled, KeysGrow;
    HandlesAfter(s, st);
  }

  lemma {:induction false} RunsKeepLegal(node: string, clients: nat, steps: seq<Step>, ss: seq<System>, i: nat)
    requires IsRun(node, clients, steps, ss) && LegalSteps(steps) && i < |ss|
    ensures LegalHandles(ss[i])
  {
    hide Next, Enabled, Unmatched, Inv;
    if i > 0 {
      RunsKeepLegal(node, clients, steps, ss, i - 1);
      RunsConserve(node, clients, steps, ss, i - 1);
      StepKeepsLegal(ss[i - 1], steps[i - 1]);
    }
  }

  lemma LegalIsOpen(s: System)
    requires Inv(s) && LegalHandles(s) && AllSettled(s)
    ensures AllOpen(s)
  {
    hide ConservedAt, InOrder, InHand, Unmatched, Settled;
    forall i | 0 <= i < |s.clients| ensures s.clients[i].link.Open? {
      assert SoundClient(s, s.clients[i]) && s.clients[i].link != Unknown;
    }
  }

  /** Client i has described the name, or had no connection left to do it on. */
  ghost predicate Spoke(s: System, i: nat, n: string) {
    i < |s.clients| && (!s.clients[i].link.Open? || n in s.clients[i].handles)
  }

  lemma StepKeepsSpoken(s: System, st: Step, i: nat, n: string)
    requires Enabled(s, st) && Next(s, st).Ok?
    ensures Spoke(s, i, n) ==> Spoke(Next(s, st).s, i, n)
    ensures st == SendDesc(i, n) ==> Spoke(Next(s, st).s, i, n)
  {
    hide Next, Enabled, KeysGrow;
    CutLoses(s, st);
    HandlesAfter(s, st);
  }

  lemma {:induction false} RunsKeepSpoken(node: string, clients: nat, steps: seq<Step>, ss: seq<System>, k: nat, m: nat)
    requires IsRun(node, clients, steps, ss) && k < m < |ss| && steps[k].SendDesc?
    ensures Spoke(ss[m], steps[k].c, steps[k].name)
  {
    hide Next, Enabled, Unmatched, Spoke, Inv;
    RunsConserve(node, clients, steps, ss, m - 1);
    if m > k + 1 { RunsKeepSpoken(node, clients, steps, ss, k, m - 1); }
    StepKeepsSpoken(ss[m - 1], steps[m - 1], steps[k].c, steps[k].name);
  }

  /** When jobs are announced first and the streams are drained: no connection has been cut, and so nothing lost, if
      and only if every name that was ever described is legal. */
  lemma UncutIffLegal(node: string, clients: nat, steps: seq<Step>, ss: seq<System>)
    requires IsRun(node, clients, steps, ss) && EarlySteps(steps, ss)
    requires forall i :: 0 <= i < |ss[|steps|].clients| ==> ss[|steps|].clients[i].stream == []
    ensures AllOpen(ss[|steps|]) <==> LegalSteps(steps)
    ensures LegalSteps(steps) ==> forall n :: At(ss[|steps|].lost, n) == 0.0
  {
    hide Next, Enabled, Unmatched, EarlyStep, ConservedAt, AllSettled;
    var s := ss[|steps|];
    RunsConserve(node, clients, steps, ss, |steps|);
    EarlyNeverMisses(node, clients, steps, ss, |steps|);
    if LegalSteps(steps) {
      RunsKeepLegal(node, clients, steps, ss, |steps|);
      LegalIsOpen(s);
    }
    if AllOpen(s) {
      forall k | 0 <= k < |steps| && steps[k].SendDesc? ensures !Unmatched(steps[k].name) {
        RunsKeepSpoken(node, clients, steps, ss, k, |steps|);
        assert SoundClient(s, s.clients[steps[k].c]);
        assert Desc(steps[k].name) !in s.clients[steps[k].c].stream;
      }
    }
  }

  // ----- runs on which increments are lost or counted twice -----

  const NODE := "node"

  /** A run goes on with any step that is enabled. */
  lemma Extend(node: string, clients: nat, steps: seq<Step>, ss: seq<System>, st: Step)
    returns (steps': seq<Step>, ss': seq<System>)
    requires IsRun(node, clients, steps, ss) && Enabled(ss[|steps|], st)
    ensures Next(ss[|steps|], st).Ok? && IsRun(node, clients, steps', ss') && |steps'| == |steps| + 1
            && |ss'| == |steps'| + 1
    ensures ss'[|steps'|] == Next(ss[|steps|], st).s && steps'[|steps|] == st
  {
    hide Enabled, Next, Start, Inv;
    RunsConserve(node, clients, steps, ss, |steps|);
    NextKeepsInv(ss[|steps|], st);
    steps', ss' := steps + [st], ss + [Next(ss[|steps|], st).s];
  }

  /** A run of one client, which is now as given */
  ghost predicate AloneAt(steps: seq<Step>, ss: seq<System>, c: Client) {
    IsRun(NODE, 1, steps, ss) && |ss| == |steps| + 1 && ss[|steps|].clients == [c]
  }

  /** The client takes a step on its own side. */
  lemma Goes(steps: seq<Step>, ss: seq<System>, c: Client, st: Step) returns (steps': seq<Step>, ss': seq<System>)
    requires AloneAt(steps, ss, c) && c.link.Open? && ClientSide(st) && st.c == 0 && ClientEnabled(c, st)
    ensures AloneAt(steps', ss', ClientNext(c, st))
    ensures var s, s' := ss[|steps|], ss'[|steps'|];
            s' == s.(clients := s'.clients, total := s'.total) && (!st.Inc? ==> s'.total == s.total)
    ensures st.Inc? ==> ss'[|steps'|].total == ss[|steps|].total[st.name := At(ss[|steps|].total, st.name) + st.amount]
  {
    hide IsRun, ClientNext, Concerns, ClientEnabled;
    steps', ss' := Extend(NODE, 1, steps, ss, st);
    assert [c][0 := ClientNext(c, st)] == [ClientNext(c, st)];
  }

  /** Main takes the only client's next command. */
  lemma MainGoes(steps: seq<Step>, ss: seq<System>, c: Client, cmd: Command, rest: seq<Command>)
    returns (steps': seq<Step>, ss': seq<System>)
    requires AloneAt(steps, ss, c) && c.stage.Idle? && c.stream == [cmd] + rest
    requires if cmd.Desc? then !Refused(ss[|steps|].main, cmd.name) else cmd.Value? && cmd.name in ss[|steps|].main
    ensures AloneAt(steps', ss', c.(stream := rest, stage := MainDone(cmd)))
    ensures var s, s' := ss[|steps|], ss'[|steps'|];
            s' == s.(clients := s'.clients, main := Export(s.main, cmd), owed := s'.owed)
  {
    hide IsRun, Concerns, Export, Owing, Unmatched;
    steps', ss' := Extend(NODE, 1, steps, ss, HandleMain(0));
    assert c.stream[1..] == rest;
    assert [c][0 := c.(stream := rest, stage := MainDone(cmd))] == [c.(stream := rest, stage := MainDone(cmd))];
  }

  lemma NodeGoes(steps: seq<Step>, ss: seq<System>, c: Client) returns (steps': seq<Step>, ss': seq<System>)
    requires AloneAt(steps, ss, c) && c.stage.MainDone? && !c.stage.cmd.JobDesc?
    requires if c.stage.cmd.Desc? then !Refused(ss[|steps|].node, c.stage.cmd.name)
             else c.stage.cmd.name in ss[|steps|].node
    ensures AloneAt(steps', ss', c.(stage := if c.job.Some? then NodeDone(c.stage.cmd) else Idle))
    ensures var s, s' := ss[|steps|], ss'[|steps'|];
            s' == s.(clients := s'.clients, node := Export(s.node, c.stage.cmd))
  {
    hide IsRun, Concerns, Export, Unmatched;
    steps', ss' := Extend(NODE, 1, steps, ss, HandleNode(0));
    var c' := c.(stage := if c.job.Some? then NodeDone(c.stage.cmd) else Idle);
    assert [c][0 := c'] == [c'];
  }

  lemma NewRun() returns (steps: seq<Step>, ss: seq<System>)
    ensures AloneAt(steps, ss, IDLE) && ss[|steps|] == Start(NODE, 1)
  {
    steps, ss := [], [Start(NODE, 1)];
    assert seq(1, _ => IDLE) == [IDLE];
  }

  lemma Brackets()
    ensures !Unmatched("a") && Unmatched("b{")
  {
    assert "b{"[1] == '{';
  }

  /** The client as it is with one counter described and nothing on its way */
  function WithCounter(job: Option<string>): Client {
    IDLE.(pending := map["a" := 0.0], handles := {"a"}, job := job)
  }

  /** Main and node know the counter, and nothing else has happened. */
  ghost predicate OnlyCounter(s: System) {
    && s.main == s.node == map["a" := 0.0] && s.jobs == map[] && s.total == s.lost == map[] && s.missed == map[]
    && s.nodeId == NODE
  }

  /** The client describes a counter; it has announced no job. */
  lemma DescribeFirst() returns (steps: seq<Step>, ss: seq<System>)
    ensures AloneAt(steps, ss, WithCounter(None)) && OnlyCounter(ss[|steps|])
  {
    hide IsRun;
    Brackets();
    hide Unmatched;
    steps, ss := NewRun();
    var entered := IDLE.(pending := map["a" := 0.0]);
    steps, ss := Goes(steps, ss, IDLE, Insert(0, "a"));
    assert ClientNext(IDLE, Insert(0, "a")) == entered;
    steps, ss := Goes(steps, ss, entered, SendDesc(0, "a"));
    var described := WithCounter(None).(stream := [Desc("a")]);
    assert ClientNext(entered, SendDesc(0, "a")) == described by {
      assert entered.stream + [Desc("a")] == [Desc("a")] && entered.handles + {"a"} == {"a"};
    }
    assert [Desc("a")] == [Desc("a")] + [];
    steps, ss := MainGoes(steps, ss, described, Desc("a"), []);
    steps, ss := NodeGoes(steps, ss, WithCounter(None).(stage := MainDone(Desc("a"))));
  }

  /** The client counts one on the counter and sends the value. */
  lemma CountOne(steps: seq<Step>, ss: seq<System>, c: Client) returns (steps': seq<Step>, ss': seq<System>)
    requires AloneAt(steps, ss, c) && c.link.Open? && "a" in c.pending && c.pending["a"] == 0.0 && "a" in c.handles
    requires c.marked == {} && c.outbox == [] && ss[|steps|].total == map[]
    ensures AloneAt(steps', ss', c.(stream := c.stream + [Value("a", 1.0)]))
    ensures ss'[|steps'|] == ss[|steps|].(clients := ss'[|steps'|].clients, total := map["a" := 1.0])
  {
    hide IsRun;
    var v := Value("a", 1.0);
    steps', ss' := Goes(steps, ss, c, Inc(0, "a", 1.0));
    var counted := c.(pending := c.pending["a" := 1.0]);
    assert ClientNext(c, Inc(0, "a", 1.0)) == counted;
    steps', ss' := Goes(steps', ss', counted, Mark(0, "a"));
    var marked := counted.(marked := {"a"});
    assert ClientNext(counted, Mark(0, "a")) == marked by { assert counted.marked + {"a"} == {"a"}; }
    steps', ss' := Goes(steps', ss', marked, Collect(0, "a"));
    var collected := c.(outbox := [v]);
    assert ClientNext(marked, Collect(0, "a")) == collected by {
      assert marked.pending["a" := 0.0] == c.pending && marked.marked - {"a"} == {} && marked.outbox + [v] == [v];
    }
    steps', ss' := Goes(steps', ss', collected, SendValue(0));
    assert ClientNext(collected, SendValue(0)) == c.(stream := c.stream + [v]) by { assert [v][1..] == []; }
  }

  /** A description with an unmatched bracket takes the increments behind it with it, those of other counters too. */
  lemma IllegalNameLosesIncrements() returns (steps: seq<Step>, ss: seq<System>)
    ensures IsRun(NODE, 1, steps, ss) && |ss| == |steps| + 1 && |ss[|steps|].clients| == 1
    ensures At(ss[|steps|].lost, "a") == 1.0 && At(ss[|steps|].main, "a") == 0.0 && At(ss[|steps|].total, "a") == 1.0
    ensures ss[|steps|].clients[0].link == BadName
  {
    hide IsRun, Concerns, AddLost, InCommands;
    Brackets();
    hide Unmatched;
    steps, ss := DescribeFirst();
    var c := WithCounter(None);
    steps, ss := Goes(steps, ss, c, Insert(0, "b{"));
    c := ClientNext(c, Insert(0, "b{"));
    steps, ss := Goes(steps, ss, c, SendDesc(0, "b{"));
    c := ClientNext(c, SendDesc(0, "b{"));
    assert c.stream == [Desc("b{")];
    steps, ss := CountOne(steps, ss, c);
    var s := ss[|steps|];
    assert s.clients[0].stream == [Desc("b{"), Value("a", 1.0)];
    assert s.clients[0].stream[1..] == [Value("a", 1.0)];
    LostAt(s.lost, [Value("a", 1.0)], "a");
    OneCommand("a");
    steps, ss := Extend(NODE, 1, steps, ss, HandleMain(0));
  }

  lemma OneCommand(n: string)
    ensures InCommands([Value(n, 1.0)], n) == 1.0
  {
    assert [Value(n, 1.0)][..0] == [];
  }

  /** A client that changes its job goes on sending values of what it described before: the new job's exporter does
      not know the name, and the connection is cut. */
  lemma LateJobCuts() returns (steps: seq<Step>, ss: seq<System>)
    ensures IsRun(NODE, 1, steps, ss) && |ss| == |steps| + 1 && |ss[|steps|].clients| == 1
    ensures ss[|steps|].clients[0].link == Unknown
    ensures At(ss[|steps|].main, "a") == 1.0 && At(ss[|steps|].missed, ("j", "a")) == 1.0
  {
    hide IsRun, Concerns;
    steps, ss := DescribeFirst();
    steps, ss := AnnounceLate(steps, ss, "j");
    var c := WithCounter(Some("j"));
    steps, ss := CountOne(steps, ss, c);
    var v := Value("a", 1.0);
    assert c.stream + [v] == [v] + [];
    steps, ss := MainGoes(steps, ss, c.(stream := c.stream + [v]), v, []);
    steps, ss := NodeGoes(steps, ss, c.(stream := [], stage := MainDone(v)));
    steps, ss := Extend(NODE, 1, steps, ss, HandleJob(0));
  }

  lemma AnnounceLate(steps: seq<Step>, ss: seq<System>, j: string) returns (steps': seq<Step>, ss': seq<System>)
    requires AloneAt(steps, ss, WithCounter(None)) && OnlyCounter(ss[|steps|]) && j != ""
    ensures AloneAt(steps', ss', WithCounter(Some(j)))
    ensures var s' := ss'[|steps'|];
            && s'.main == s'.node == map["a" := 0.0] && s'.jobs == map[j := map[]] && s'.nodeId == NODE
            && s'.total == map[] && s'.missed == map[]
  {
    hide IsRun, Concerns;
    var c := WithCounter(None);
    steps', ss' := Goes(steps, ss, c, SendJob(0, j));
    var sent := c.(stream := [JobDesc(j)]);
    assert ClientNext(c, SendJob(0, j)) == sent by { assert c.stream + [JobDesc(j)] == [JobDesc(j)]; }
    steps', ss' := Extend(NODE, 1, steps', ss', HandleMain(0));
    assert WithJob(sent, j) == WithCounter(Some(j)) by { assert sent.stream[1..] == []; }
    assert [sent][0 := WithCounter(Some(j))] == [WithCounter(Some(j))];
  }

  /** A client on the job "main" has each of its increments counted twice. */
  lemma CountedTwice() returns (steps: seq<Step>, ss: seq<System>)
    ensures IsRun(NODE, 1, steps, ss) && |ss| == |steps| + 1 && |ss[|steps|].clients| == 1
    ensures At(ss[|steps|].total, "a") == 1.0 && MainHolds(ss[|steps|], "a") == 2.0
            && NodeHolds(ss[|steps|], "a") == 1.0
    ensures Drained(ss[|steps|].clients[0], "a") && ss[|steps|].clients[0].link.Open?
  {
    hide IsRun, Concerns;
    steps, ss := DescribeFirst();
    steps, ss := AnnounceLate(steps, ss, MAIN);
    var c := WithCounter(Some(MAIN));
    steps, ss := CountOne(steps, ss, c);
    var v := Value("a", 1.0);
    assert c.stream + [v] == [v] + [];
    steps, ss := MainGoes(steps, ss, c.(stream := c.stream + [v]), v, []);
    steps, ss := NodeGoes(steps, ss, c.(stream := [], stage := MainDone(v)));
    steps, ss := Extend(NODE, 1, steps, ss, HandleJob(0));
  }
}
