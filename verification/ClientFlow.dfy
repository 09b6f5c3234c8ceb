/** Counter increments on their way from instrumented programs to the proxy.

    Each client keeps pending increments, a list of values it is about to send and a byte stream; the server
    handles the streams in any order, each command first in the main exporter, then in the node's, then in that of
    the job the client has announced.  Nothing is counted twice, and nothing is lost unless a connection is cut.
    Counters only: a gauge is overwritten by design.
 */
module ClientFlow {
  import opened Basics
  import opened Exporters

  type Amounts = map<string, real>

  datatype Command = JobDesc(job: string) | Desc(name: string) | Value(name: string, value: real)

  /** How far the server is with the present command of a client */
  datatype Stage = Idle | MainDone(cmd: Command) | NodeDone(cmd: Command)

  /** A connection, and why it was cut: a description whose name is refused, or a value that the job's exporter does
      not know */
  datatype Link = Open | BadName | Unknown

  /** One instrumented process and its connection.  `handles` are the counters its threads may increment; `marked`
      those a dump has found updated and has not read yet; `job` is the one the server has resolved for it. */
  datatype Client = Client(
    pending: Amounts,
    handles: set<string>,
    marked: set<string>,
    outbox: seq<Command>,
    stream: seq<Command>,
    stage: Stage,
    job: Option<string>,
    link: Link)

  const IDLE := Client(map[], {}, {}, [], [], Idle, None, Open)

  /** The clients and the exporters: what main and node took of each command, and what was carried out for each job,
      in its exporter or, for the ids of main and node, in theirs.  Kept for the accounts only: all increments made,
        those lost with a connection,
      and per job and name what was handled for it and what its exporter refused. */
  datatype System = System(
    clients: seq<Client>,
    main: Amounts,
    node: Amounts,
    jobs: map<string, Amounts>,
    nodeId: string,
    total: Amounts,
    lost: Amounts,
    owed: map<(string, string), real>,
    missed: map<(string, string), real>)

  const MAIN := "main"

  /** Under these ids `resolve_job` hands out the main exporter and the node's themselves. */
  predicate BuiltIn(s: System, j: string) {
    j == MAIN || j == s.nodeId
  }

  /** What the main exporter and the node's hold of a name: what was carried out there for every client, and once more
      for the clients on its own id.  The node's entry replaces main's if the ids are the same. */
  function MainHolds(s: System, n: string): real {
    At(s.main, n) + MainTwice(s, n)
  }

  function MainTwice(s: System, n: string): real {
    if s.nodeId == MAIN then 0.0 else JobAt(s.jobs, MAIN, n)
  }

  function NodeHolds(s: System, n: string): real {
    At(s.node, n) + JobAt(s.jobs, s.nodeId, n)
  }

  datatype Step =
    | SendJob(c: nat, job: string)       // the client announces its job
    | Insert(c: nat, name: string)       // push_entry enters the counter in the table
    | SendDesc(c: nat, name: string)     // push_entry sends the description and returns the handle
    | Inc(c: nat, name: string, amount: real)
    | Mark(c: nat, name: string)         // dump_values: updated() holds
    | Collect(c: nat, name: string)      // dump_values: the value is copied and reset
    | SendValue(c: nat)                  // dump_values: the next collected value is sent
    | HandleMain(c: nat)                 // the server takes the next command, and carries it out in main
    | HandleNode(c: nat)                 // and then in the node's exporter
    | HandleJob(c: nat)                  // and then in the job's

  function At<K>(m: map<K, real>, n: K): real {
    if n in m then m[n] else 0.0
  }

  /** A counter's table entry: a new name starts at zero, a known one is left alone. */
  function Listed(m: Amounts, n: string): Amounts {
    if n in m then m else m[n := 0.0]
  }

  // ----- the client's side -----

  predicate ClientSide(st: Step) {
    !st.HandleMain? && !st.HandleNode? && !st.HandleJob?
  }

  predicate ClientEnabled(c: Client, st: Step)
    requires ClientSide(st)
  {
    match st
    case SendJob(_, _) => true
    case Insert(_, _) => true
    case SendDesc(_, n) => n in c.pending
    case Inc(_, n, _) => n in c.handles && n in c.pending
    case Mark(_, n) => n in c.pending && c.pending[n] > 0.0
    case Collect(_, n) => n in c.marked && n in c.pending
    case SendValue(_) => c.outbox != []
  }

  /** What a step does to the client.  On a cut connection a send fails: a description gives no handle, and the
      values collected are gone. */
  function ClientNext(c: Client, st: Step): Client
    requires ClientSide(st) && ClientEnabled(c, st)
  {
    match st
    case SendJob(_, j) => if !c.link.Open? then c else c.(stream := c.stream + [JobDesc(j)])
    case Insert(_, n) => c.(pending := Listed(c.pending, n))
    case SendDesc(_, n) =>
      if !c.link.Open? then c else c.(stream := c.stream + [Desc(n)], handles := c.handles + {n})
    case Inc(_, n, amount) => c.(pending := c.pending[n := c.pending[n] + amount])
    case Mark(_, n) => c.(marked := c.marked + {n})
    case Collect(_, n) =>
      c.(pending := c.pending[n := 0.0], marked := c.marked - {n}, outbox := c.outbox + [Value(n, c.pending[n])])
    case SendValue(_) =>
      if !c.link.Open? then c.(outbox := []) else c.(outbox := c.outbox[1..], stream := c.stream + [c.outbox[0]])
  }

  // ----- the server's side -----

  /** A description of an unknown name with unmatched brackets is refused. */
  predicate Refused(m: Amounts, n: string) {
    n !in m && Unmatched(n)
  }

  function NamesIn(cmds: seq<Command>): set<string> {
    set c | c in cmds && !c.JobDesc? :: c.name
  }

  /** Commands that no one will handle any more */
  function AddLost(lost: Amounts, cmds: seq<Command>): Amounts {
    map n | n in lost.Keys + NamesIn(cmds) :: At(lost, n) + InCommands(cmds, n)
  }

  /** `push` of a description or `accumulate` of a value in one exporter that does not refuse it */
  function Export(m: Amounts, cmd: Command): Amounts
    requires cmd.Desc? || (cmd.Value? && cmd.name in m)
  {
    if cmd.Desc? then Listed(m, cmd.name) else m[cmd.name := m[cmd.name] + cmd.value]
  }

  datatype Outcome = Ok(s: System) | NoSuchKey | RefusesLater

  function Announced(jobs: map<string, Amounts>, j: string): map<string, Amounts> {
    if j in jobs then jobs else jobs[j := map[]]
  }

  /** What the handler owes the client's job once main has taken a value */
  function Owing(s: System, c: Client, cmd: Command): map<(string, string), real> {
    if c.job.Some? && cmd.Value? then
      s.owed[(c.job.value, cmd.name) := At(s.owed, (c.job.value, cmd.name)) + cmd.value]
    else s.owed
  }

  /** `push` or `accumulate` for a job.  Main and node know the name of a value they have just taken. */
  function Received(m: Amounts, cmd: Command): Amounts
    requires !cmd.JobDesc?
  {
    if cmd.Desc? then Listed(m, cmd.name) else m[cmd.name := At(m, cmd.name) + cmd.value]
  }

  lemma ReceivedAt(m: Amounts, cmd: Command, n: string)
    requires !cmd.JobDesc?
    ensures At(Received(m, cmd), n) == At(m, n) + InCommand(cmd, n)
    ensures Received(m, cmd).Keys == m.Keys + {cmd.name}
  {
  }

  ghost predicate JobsGrow(jobs: map<string, Amounts>, jobs': map<string, Amounts>) {
    forall j :: j in jobs ==> j in jobs' && jobs[j].Keys <= jobs'[j].Keys
  }

  lemma AnnouncedGrows(jobs: map<string, Amounts>, j: string)
    ensures JobsGrow(jobs, jobs) && JobsGrow(jobs, Announced(jobs, j)) && jobs.Keys <= Announced(jobs, j).Keys
    ensures j in Announced(jobs, j)
  {
  }

  lemma ReceivedGrows(jobs: map<string, Amounts>, j: string, cmd: Command)
    requires j in jobs && !cmd.JobDesc?
    ensures JobsGrow(jobs, jobs[j := Received(jobs[j], cmd)])
  {
  }

  ghost predicate KeysGrow(s: System, s': System) {
    s.main.Keys <= s'.main.Keys && s.node.Keys <= s'.node.Keys && JobsGrow(s.jobs, s'.jobs)
  }

  /** A step concerns one client and takes no name out of an exporter. */
  ghost predicate Concerns(s: System, s': System, i: nat) {
    i < |s.clients| == |s'.clients| && s'.clients == s.clients[i := s'.clients[i]] && s'.nodeId == s.nodeId
    && KeysGrow(s, s')
  }

  /** The handler ends: what is left in the stream is lost. */
  function Cut(s: System, i: nat, rest: seq<Command>, link: Link): (r: System)
    requires i < |s.clients|
    ensures i < |r.clients| && Concerns(s, r, i) && r.main == s.main && r.node == s.node && r.jobs == s.jobs
    ensures r.clients[i] == s.clients[i].(stream := [], stage := Idle, link := link)
  {
    AnnouncedGrows(s.jobs, "");
    hide JobsGrow, AddLost;
    var c := s.clients[i].(stream := [], stage := Idle, link := link);
    s.(clients := s.clients[i := c], lost := AddLost(s.lost, rest))
  }

  function WithJob(c: Client, job: string): Client
    requires c.stream != []
  {
    c.(stream := c.stream[1..], job := if job == "" then c.job else Some(job))
  }

  /** An empty job id resolves nothing. */
  function Announce(s: System, i: nat, job: string): (r: System)
    requires i < |s.clients| && s.clients[i].stream != []
    ensures i < |r.clients| && Concerns(s, r, i) && r.main == s.main && r.node == s.node && r.lost == s.lost
    ensures r.clients[i] == WithJob(s.clients[i], job)
    ensures s.jobs.Keys <= r.jobs.Keys && (job != "" ==> job in r.jobs)
    ensures r.jobs == if job == "" then s.jobs else Announced(s.jobs, job)
  {
    AnnouncedGrows(s.jobs, job);
    hide WithJob, JobsGrow, Announced;
    var jobs := if job == "" then s.jobs else Announced(s.jobs, job);
    s.(clients := s.clients[i := WithJob(s.clients[i], job)], jobs := jobs)
  }

  function TakeMain(s: System, i: nat): (r: System)
    requires i < |s.clients| && s.clients[i].stream != []
    requires var cmd := s.clients[i].stream[0]; cmd.Desc? || (cmd.Value? && cmd.name in s.main)
    ensures i < |r.clients| && Concerns(s, r, i) && r.node == s.node && r.jobs == s.jobs && r.lost == s.lost
    ensures r.clients[i] == s.clients[i].(stream := s.clients[i].stream[1..], stage := MainDone(s.clients[i].stream[0]))
    ensures r.main == Export(s.main, s.clients[i].stream[0])
  {
    var c := s.clients[i];
    var cmd := c.stream[0];
    AnnouncedGrows(s.jobs, "");
    ExportKeys(s.main, cmd);
    hide JobsGrow, Export, Owing;
    s.(clients := s.clients[i := c.(stream := c.stream[1..], stage := MainDone(cmd))], main := Export(s.main, cmd),
       owed := Owing(s, c, cmd))
  }

  /** The next command in the main exporter; a refused description cuts the connection. */
  function InMain(s: System, i: nat): (r: Outcome)
    requires i < |s.clients| && s.clients[i].stream != []
    ensures r.Ok? ==> i < |r.s.clients| && Concerns(s, r.s, i)
  {
    var cmd := s.clients[i].stream[0];
    if cmd.JobDesc? then Ok(Announce(s, i, cmd.job))
    else if cmd.Desc? && Refused(s.main, cmd.name) then Ok(Cut(s, i, s.clients[i].stream[1..], BadName))
    else if cmd.Value? && cmd.name !in s.main then NoSuchKey
    else Ok(TakeMain(s, i))
  }

  /** The same command in the node's exporter */
  function InNode(s: System, i: nat): (r: Outcome)
    requires i < |s.clients| && s.clients[i].stage.MainDone?
    ensures r.Ok? ==> i < |r.s.clients| && Concerns(s, r.s, i)
  {
    var c := s.clients[i];
    var cmd := c.stage.cmd;
    AnnouncedGrows(s.jobs, "");
    hide JobsGrow, Unmatched;
    if cmd.JobDesc? || (cmd.Desc? && Refused(s.node, cmd.name)) then RefusesLater
    else if cmd.Value? && cmd.name !in s.node then NoSuchKey
    else
      var stage := if c.job.Some? then NodeDone(cmd) else Idle;
      Ok(s.(clients := s.clients[i := c.(stage := stage)], node := Export(s.node, cmd)))
  }

  function TakeJob(s: System, i: nat): (r: System)
    requires i < |s.clients| && s.clients[i].stage.NodeDone? && !s.clients[i].stage.cmd.JobDesc?
    requires s.clients[i].job.Some? && s.clients[i].job.value in s.jobs
    ensures i < |r.clients| && Concerns(s, r, i) && r.main == s.main && r.node == s.node && r.lost == s.lost
    ensures r.clients[i] == s.clients[i].(stage := Idle) && r.jobs.Keys == s.jobs.Keys
    ensures var j := s.clients[i].job.value; r.jobs == s.jobs[j := Received(s.jobs[j], s.clients[i].stage.cmd)]
  {
    var c := s.clients[i];
    var j := c.job.value;
    ReceivedGrows(s.jobs, j, c.stage.cmd);
    hide Received, JobsGrow;
    s.(clients := s.clients[i := c.(stage := Idle)], jobs := s.jobs[j := Received(s.jobs[j], c.stage.cmd)])
  }

  lemma ExportKeys(m: Amounts, cmd: Command)
    requires cmd.Desc? || (cmd.Value? && cmd.name in m)
    ensures Export(m, cmd).Keys == m.Keys + {cmd.name}
  {
  }

  function Missing(s: System, j: string, cmd: Command): map<(string, string), real>
    requires cmd.Value?
  {
    s.missed[(j, cmd.name) := At(s.missed, (j, cmd.name)) + cmd.value]
  }

  /** The job's exporter does not know the name of the value. */
  predicate Misses(s: System, j: string, cmd: Command) {
    cmd.Value? && !BuiltIn(s, j) && j in s.jobs && cmd.name !in s.jobs[j]
  }

  /** And in the job's, which may not know the name of a value: that cuts the connection. */
  function InJob(s: System, i: nat): (r: Outcome)
    requires i < |s.clients| && s.clients[i].stage.NodeDone?
    ensures r.Ok? ==> i < |r.s.clients| && Concerns(s, r.s, i)
  {
    var c := s.clients[i];
    var cmd := c.stage.cmd;
    if c.job.None? || c.job.value !in s.jobs || cmd.JobDesc? then RefusesLater
    else if cmd.Desc? && Refused(s.jobs[c.job.value], cmd.name) then RefusesLater
    else if Misses(s, c.job.value, cmd) then
      Ok(Cut(s, i, c.stream, Unknown).(missed := Missing(s, c.job.value, cmd)))
    else Ok(TakeJob(s, i))
  }

  predicate Enabled(s: System, st: Step) {
    && st.c < |s.clients|
    && var c := s.clients[st.c];
       if ClientSide(st) then ClientEnabled(c, st)
       else if st.HandleMain? then c.stage.Idle? && c.stream != []
       else if st.HandleNode? then c.stage.MainDone?
       else c.stage.NodeDone?
  }

  /** Increments count towards the total; a failed send loses what was collected. */
  function Next(s: System, st: Step): (r: Outcome)
    requires Enabled(s, st)
    ensures r.Ok? ==> st.c < |r.s.clients| && Concerns(s, r.s, st.c)
    ensures ClientSide(st) ==> r.Ok?
  {
    var c := s.clients[st.c];
    AnnouncedGrows(s.jobs, "");
    hide JobsGrow, ClientNext, AddLost, InMain, InNode, InJob;
    if ClientSide(st) then
      Ok(s.(clients := s.clients[st.c := ClientNext(c, st)],
            total := if st.Inc? then s.total[st.name := At(s.total, st.name) + st.amount] else s.total,
            lost := if st.SendValue? && !c.link.Open? then AddLost(s.lost, c.outbox) else s.lost))
    else if st.HandleMain? then InMain(s, st.c)
    else if st.HandleNode? then InNode(s, st.c)
    else InJob(s, st.c)
  }

  // ----- the accounts -----

  function InCommand(cmd: Command, n: string): real {
    if cmd.Value? && cmd.name == n then cmd.value else 0.0
  }

  function InCommands(cmds: seq<Command>, n: string): real {
    if cmds == [] then 0.0 else InCommands(cmds[..|cmds| - 1], n) + InCommand(cmds[|cmds| - 1], n)
  }

  lemma EmptyCommands(n: string)
    ensures InCommands([], n) == 0.0
  {
  }

  lemma {:induction false} InCommandsSplit(cmds: seq<Command>, n: string)
    requires cmds != []
    ensures InCommands(cmds, n) == InCommand(cmds[0], n) + InCommands(cmds[1..], n)
  {
    if |cmds| > 1 {
      InCommandsSplit(cmds[..|cmds| - 1], n);
      assert cmds[1..][..|cmds| - 2] == cmds[..|cmds| - 1][1..];
    }
  }

  lemma InCommandsAppend(cmds: seq<Command>, cmd: Command, n: string)
    ensures InCommands(cmds + [cmd], n) == InCommands(cmds, n) + InCommand(cmd, n)
  {
    assert (cmds + [cmd])[..|cmds|] == cmds;
  }

  lemma {:induction false} Unnamed(cmds: seq<Command>, n: string)
    requires n !in NamesIn(cmds)
    ensures InCommands(cmds, n) == 0.0
  {
    if cmds != [] {
      var front, last := cmds[..|cmds| - 1], cmds[|cmds| - 1];
      assert last in cmds && (!last.JobDesc? ==> last.name in NamesIn(cmds));
      assert forall c :: c in front ==> c in cmds;
      Unnamed(front, n);
    }
  }

  lemma LostAt(lost: Amounts, cmds: seq<Command>, n: string)
    ensures At(AddLost(lost, cmds), n) == At(lost, n) + InCommands(cmds, n)
  {
    if n !in NamesIn(cmds) { Unnamed(cmds, n); }
  }

  /** What a client still has on its side: pending, collected, or in its stream */
  function Carried(c: Client, n: string): real {
    At(c.pending, n) + InCommands(c.outbox, n) + InCommands(c.stream, n)
  }

  /** What main has taken of a client's command and node has not */
  function Ahead(c: Client, n: string): real {
    if c.stage.MainDone? then InCommand(c.stage.cmd, n) else 0.0
  }

  /** What main has taken of a client's command and the job has not */
  function JobAhead(c: Client, j: string, n: string): real {
    if c.job == Some(j) && !c.stage.Idle? then InCommand(c.stage.cmd, n) else 0.0
  }

  function CarriedAll(cs: seq<Client>, n: string): real {
    if cs == [] then 0.0 else CarriedAll(cs[..|cs| - 1], n) + Carried(cs[|cs| - 1], n)
  }

  function AheadAll(cs: seq<Client>, n: string): real {
    if cs == [] then 0.0 else AheadAll(cs[..|cs| - 1], n) + Ahead(cs[|cs| - 1], n)
  }

  function JobAheadAll(cs: seq<Client>, j: string, n: string): real {
    if cs == [] then 0.0 else JobAheadAll(cs[..|cs| - 1], j, n) + JobAhead(cs[|cs| - 1], j, n)
  }

  lemma {:induction false} SumsUpdate(cs: seq<Client>, i: nat, c: Client, j: string, n: string)
    requires i < |cs|
    ensures CarriedAll(cs[i := c], n) == CarriedAll(cs, n) - Carried(cs[i], n) + Carried(c, n)
    ensures AheadAll(cs[i := c], n) == AheadAll(cs, n) - Ahead(cs[i], n) + Ahead(c, n)
    ensures JobAheadAll(cs[i := c], j, n) == JobAheadAll(cs, j, n) - JobAhead(cs[i], j, n) + JobAhead(c, j, n)
  {
    hide Carried, Ahead, JobAhead;
    var last := |cs| - 1;
    if i == last {
      assert cs[i := c][..last] == cs[..last];
    } else {
      SumsUpdate(cs[..last], i, c, j, n);
      assert cs[i := c][..last] == cs[..last][i := c];
    }
  }

  function JobAt(jobs: map<string, Amounts>, j: string, n: string): real {
    if j in jobs then At(jobs[j], n) else 0.0
  }

  /** Every increment is in exactly one place, not counting what was carried out for a job; node and jobs lack of main
      what is being handled, and a job what its exporter refused. */
  ghost predicate ConservedAt(s: System, j: string, n: string) {
    && At(s.total, n) == CarriedAll(s.clients, n) + At(s.main, n) + At(s.lost, n)
    && At(s.main, n) == At(s.node, n) + AheadAll(s.clients, n)
    && At(s.owed, (j, n)) == JobAt(s.jobs, j, n) + JobAheadAll(s.clients, j, n) + At(s.missed, (j, n))
  }

  /** What the step of one client changes, account by account */
  ghost predicate Balanced(s: System, s': System, i: nat, j: string, n: string) {
    && Concerns(s, s', i)
    && var c, c' := s.clients[i], s'.clients[i];
    && Carried(c', n) + (At(s'.main, n) - At(s.main, n)) + (At(s'.lost, n) - At(s.lost, n)) ==
       Carried(c, n) + (At(s'.total, n) - At(s.total, n))
    && At(s'.main, n) - At(s.main, n) == (At(s'.node, n) - At(s.node, n)) + (Ahead(c', n) - Ahead(c, n))
    && At(s'.owed, (j, n)) - At(s.owed, (j, n)) ==
       (JobAt(s'.jobs, j, n) - JobAt(s.jobs, j, n)) + (JobAhead(c', j, n) - JobAhead(c, j, n))
       + (At(s'.missed, (j, n)) - At(s.missed, (j, n)))
  }

  lemma ClientBalances(s: System, st: Step, j: string, n: string)
    requires Enabled(s, st) && ClientSide(st)
    ensures Balanced(s, Next(s, st).s, st.c, j, n)
  {
    hide InCommands, AddLost;
    var c := s.clients[st.c];
    EmptyCommands(n);
    if st.SendJob? {
      InCommandsAppend(c.stream, JobDesc(st.job), n);
    } else if st.SendDesc? {
      InCommandsAppend(c.stream, Desc(st.name), n);
    } else if st.Collect? {
      InCommandsAppend(c.outbox, Value(st.name, c.pending[st.name]), n);
    } else if st.SendValue? {
      InCommandsSplit(c.outbox, n);
      InCommandsAppend(c.stream, c.outbox[0], n);
      LostAt(s.lost, c.outbox, n);
    }
  }

  lemma ExportAt(m: Amounts, cmd: Command, n: string)
    requires cmd.Desc? || (cmd.Value? && cmd.name in m)
    ensures At(Export(m, cmd), n) == At(m, n) + InCommand(cmd, n)
    ensures m.Keys <= Export(m, cmd).Keys && Export(m, cmd).Keys <= m.Keys + {cmd.name} && cmd.name in Export(m, cmd)
  {
  }

  lemma OwingAt(s: System, c: Client, cmd: Command, j: string, n: string)
    ensures At(Owing(s, c, cmd), (j, n)) == At(s.owed, (j, n)) + (if c.job == Some(j) then InCommand(cmd, n) else 0.0)
  {
  }

  lemma TakeMainBalances(s: System, i: nat, j: string, n: string)
    requires Enabled(s, HandleMain(i))
    requires var cmd := s.clients[i].stream[0]; cmd.Desc? || (cmd.Value? && cmd.name in s.main)
    ensures Balanced(s, TakeMain(s, i), i, j, n)
  {
    hide InCommands, Owing, Export, At, KeysGrow;
    var c := s.clients[i];
    InCommandsSplit(c.stream, n);
    OwingAt(s, c, c.stream[0], j, n);
    ExportAt(s.main, c.stream[0], n);
  }

  lemma RefusalBalances(s: System, i: nat, j: string, n: string)
    requires Enabled(s, HandleMain(i)) && s.clients[i].stream[0].Desc?
    ensures Balanced(s, Cut(s, i, s.clients[i].stream[1..], BadName), i, j, n)
  {
    hide InCommands, AddLost, At, KeysGrow;
    EmptyCommands(n);
    InCommandsSplit(s.clients[i].stream, n);
    LostAt(s.lost, s.clients[i].stream[1..], n);
  }

  lemma AnnouncedAt(jobs: map<string, Amounts>, k: string, j: string, n: string)
    ensures JobAt(Announced(jobs, k), j, n) == JobAt(jobs, j, n)
  {
  }

  lemma AnnounceBalances(s: System, i: nat, j: string, n: string)
    requires Enabled(s, HandleMain(i)) && s.clients[i].stream[0].JobDesc?
    ensures Balanced(s, Announce(s, i, s.clients[i].stream[0].job), i, j, n)
  {
    hide InCommands, At, JobAt, Announced, KeysGrow;
    InCommandsSplit(s.clients[i].stream, n);
    AnnouncedAt(s.jobs, s.clients[i].stream[0].job, j, n);
  }

  lemma MainBalances(s: System, i: nat, j: string, n: string)
    requires Enabled(s, HandleMain(i)) && InMain(s, i).Ok?
    ensures Balanced(s, InMain(s, i).s, i, j, n)
  {
    hide Balanced, Refused, Announce, Cut, TakeMain, Concerns;
    var cmd := s.clients[i].stream[0];
    if cmd.JobDesc? {
      AnnounceBalances(s, i, j, n);
    } else if cmd.Desc? && Refused(s.main, cmd.name) {
      RefusalBalances(s, i, j, n);
    } else {
      TakeMainBalances(s, i, j, n);
    }
  }

  lemma NodeBalances(s: System, i: nat, j: string, n: string)
    requires Enabled(s, HandleNode(i)) && InNode(s, i).Ok?
    ensures Balanced(s, InNode(s, i).s, i, j, n)
  {
    hide InCommands, Unmatched, Export, KeysGrow, At;
    ExportAt(s.node, s.clients[i].stage.cmd, n);
  }

  lemma TakeJobBalances(s: System, i: nat, j: string, n: string)
    requires Enabled(s, HandleJob(i)) && s.clients[i].job.Some? && s.clients[i].job.value in s.jobs
    requires !s.clients[i].stage.cmd.JobDesc?
    ensures Balanced(s, TakeJob(s, i), i, j, n)
  {
    hide InCommands, Received, At, KeysGrow;
    ReceivedAt(s.jobs[s.clients[i].job.value], s.clients[i].stage.cmd, n);
  }

  lemma MissingAt(s: System, k: string, cmd: Command, j: string, n: string)
    requires cmd.Value?
    ensures At(Missing(s, k, cmd), (j, n)) == At(s.missed, (j, n)) + (if k == j then InCommand(cmd, n) else 0.0)
  {
  }

  lemma MissBalances(s: System, i: nat, j: string, n: string)
    requires Enabled(s, HandleJob(i)) && s.clients[i].job.Some? && s.clients[i].stage.cmd.Value?
    ensures var c := s.clients[i];
            Balanced(s, Cut(s, i, c.stream, Unknown).(missed := Missing(s, c.job.value, c.stage.cmd)), i, j, n)
  {
    hide InCommands, AddLost, Missing, At;
    EmptyCommands(n);
    LostAt(s.lost, s.clients[i].stream, n);
    MissingAt(s, s.clients[i].job.value, s.clients[i].stage.cmd, j, n);
  }

  lemma JobBalances(s: System, i: nat, j: string, n: string)
    requires Enabled(s, HandleJob(i)) && InJob(s, i).Ok?
    ensures Balanced(s, InJob(s, i).s, i, j, n)
  {
    hide Balanced, Refused, Cut, TakeJob, Concerns, Missing;
    var c := s.clients[i];
    if Misses(s, c.job.value, c.stage.cmd) {
      MissBalances(s, i, j, n);
    } else {
      TakeJobBalances(s, i, j, n);
    }
  }

  lemma BalancedConserves(s: System, s': System, i: nat, j: string, n: string)
    requires Balanced(s, s', i, j, n) && ConservedAt(s, j, n)
    ensures ConservedAt(s', j, n)
  {
    hide Carried, Ahead, JobAhead, CarriedAll, AheadAll, JobAheadAll, JobAt, At;
    SumsUpdate(s.clients, i, s'.clients[i], j, n);
  }

  lemma NextConserves(s: System, st: Step, j: string, n: string)
    requires Enabled(s, st) && Next(s, st).Ok? && ConservedAt(s, j, n)
    ensures ConservedAt(Next(s, st).s, j, n)
  {
    hide Next, Balanced, ConservedAt, Enabled;
    StepBalances(s, st, j, n);
    BalancedConserves(s, Next(s, st).s, st.c, j, n);
  }

  lemma StepBalances(s: System, st: Step, j: string, n: string)
    requires Enabled(s, st) && Next(s, st).Ok?
    ensures Balanced(s, Next(s, st).s, st.c, j, n)
  {
    hide InMain, InNode, InJob, Balanced, ClientNext, AddLost;
    if ClientSide(st) {
      ClientBalances(s, st, j, n);
    } else if st.HandleMain? {
      MainBalances(s, st.c, j, n);
    } else if st.HandleNode? {
      NodeBalances(s, st.c, j, n);
    } else {
      JobBalances(s, st.c, j, n);
    }
  }

  // ----- the order of descriptions and values -----

  /** The commands of a client that the node's exporter has still to see */
  function NodeQueue(c: Client): seq<Command> {
    (if c.stage.MainDone? then [c.stage.cmd] else []) + c.stream
  }

  /** A name the client may send values for is known to the exporter or described earlier in the queue. */
  ghost predicate Described(known: set<string>, cmds: seq<Command>, n: string) {
    n in known || Desc(n) in cmds
  }

  /** Every value comes after its description. */
  ghost predicate InSequence(known: set<string>, handles: set<string>, q: seq<Command>) {
    && (forall n :: n in handles ==> Described(known, q, n))
    && (forall i :: 0 <= i < |q| && q[i].Value? ==> Described(known, q[..i], q[i].name))
  }

  ghost predicate InOrder(node: Amounts, c: Client) {
    && (forall n :: n in c.pending && c.pending[n] != 0.0 ==> n in c.handles)
    && c.marked <= c.handles
    && (forall i :: 0 <= i < |c.outbox| ==> c.outbox[i].Value? && c.outbox[i].name in c.handles)
    && (!c.link.Open? ==> c.stream == [] && c.stage.Idle?)
    && (c.link.Open? ==> InSequence(node.Keys, c.handles, NodeQueue(c)))
  }

  /** What the stream holds is of names the client has described.  Of those the exporter refuses, the description is
      still in the stream, or the connection is cut. */
  ghost predicate Judged(c: Client) {
    match c.link
    case Open =>
      && (forall cmd :: cmd in c.stream && !cmd.JobDesc? ==> cmd.name in c.handles)
      && (forall n :: n in c.handles && Unmatched(n) ==> Desc(n) in c.stream)
    case BadName => exists n :: n in c.handles && Unmatched(n)
    case Unknown => true
  }

  ghost predicate InHand(s: System, c: Client) {
    && (!c.stage.Idle? ==> !c.stage.cmd.JobDesc? && c.stage.cmd.name in c.handles)
    && (!c.stage.Idle? && c.stage.cmd.Desc? ==> c.stage.cmd.name in s.main)
    && (c.stage.NodeDone? ==> c.job.Some?)
    && (c.job.Some? ==> c.job.value in s.jobs)
  }

  ghost predicate SoundClient(s: System, c: Client) {
    InOrder(s.node, c) && Judged(c) && InHand(s, c)
  }

  ghost predicate AllOpen(s: System) {
    forall i :: 0 <= i < |s.clients| ==> s.clients[i].link.Open?
  }

  ghost predicate Inv(s: System) {
    && (forall j, n :: ConservedAt(s, j, n))
    && (forall i :: 0 <= i < |s.clients| ==> SoundClient(s, s.clients[i]))
    && s.node.Keys <= s.main.Keys && (forall n :: n in s.main ==> !Unmatched(n))
    && (AllOpen(s) ==> forall n :: At(s.lost, n) == 0.0)
  }

  lemma SequenceMore(known: set<string>, handles: set<string>, q: seq<Command>, cmd: Command)
    requires InSequence(known, handles, q) && (cmd.Value? ==> cmd.name in handles)
    ensures InSequence(known, handles, q + [cmd])
    ensures cmd.Desc? ==> InSequence(known, handles + {cmd.name}, q + [cmd])
  {
    var r := q + [cmd];
    assert forall i :: 0 <= i < |q| ==> r[..i] == q[..i];
    assert r[..|q|] == q;
    assert cmd in r;
    assert forall x :: x in q ==> x in r;
  }

  lemma SequenceLess(known: set<string>, known': set<string>, handles: set<string>, q: seq<Command>)
    requires InSequence(known, handles, q) && q != [] && known <= known'
    requires q[0].Desc? ==> q[0].name in known'
    ensures InSequence(known', handles, q[1..])
    ensures q[0].Value? ==> q[0].name in known
  {
    var rest := q[1..];
    assert q[..0] == [];
    forall n | Described(known, q, n) ensures Described(known', rest, n) {
      if Desc(n) in q && q[0] != Desc(n) { assert q == [q[0]] + rest; }
    }
    forall i | 0 <= i < |rest| && rest[i].Value? ensures Described(known', rest[..i], rest[i].name) {
      var n := rest[i].name;
      assert rest[i] == q[i + 1] && Described(known, q[..i + 1], n);
      assert q[..i + 1] == [q[0]] + rest[..i];
    }
  }

  lemma SequenceWider(known: set<string>, known': set<string>, handles: set<string>, q: seq<Command>)
    requires InSequence(known, handles, q) && known <= known'
    ensures InSequence(known', handles, q)
  {
  }

  lemma OthersStaySound(s: System, s': System, c: Client)
    requires SoundClient(s, c) && KeysGrow(s, s')
    ensures SoundClient(s', c)
  {
    hide InSequence, Unmatched;
    if c.link.Open? { SequenceWider(s.node.Keys, s'.node.Keys, c.handles, NodeQueue(c)); }
  }

  /** A change on the client's side alone */
  lemma QuietStaysSound(s: System, c: Client, c': Client)
    requires SoundClient(s, c) && c' == c.(pending := c'.pending, marked := c'.marked, outbox := c'.outbox)
    requires forall n :: n in c'.pending && c'.pending[n] != 0.0 ==> n in c.handles
    requires c'.marked <= c.handles
    requires forall i :: 0 <= i < |c'.outbox| ==> c'.outbox[i].Value? && c'.outbox[i].name in c.handles
    ensures SoundClient(s, c')
  {
    hide InSequence, Unmatched;
    assert NodeQueue(c') == NodeQueue(c);
  }

  function Sent(c: Client, cmd: Command): Client {
    c.(stream := c.stream + [cmd], handles := if cmd.Desc? then c.handles + {cmd.name} else c.handles)
  }

  lemma SenderStaysSound(s: System, c: Client, cmd: Command)
    requires SoundClient(s, c) && c.link.Open? && (cmd.Value? ==> cmd.name in c.handles)
    ensures SoundClient(s, Sent(c, cmd))
  {
    hide InSequence, Unmatched;
    assert NodeQueue(Sent(c, cmd)) == NodeQueue(c) + [cmd];
    SequenceMore(s.node.Keys, c.handles, NodeQueue(c), cmd);
    assert forall x :: x in c.stream + [cmd] <==> x in c.stream || x == cmd;
  }

  lemma ClientStaysSound(s: System, c: Client, st: Step)
    requires SoundClient(s, c) && ClientSide(st) && ClientEnabled(c, st)
    ensures SoundClient(s, ClientNext(c, st))
  {
    hide InSequence, Unmatched, Judged, InHand, NodeQueue;
    if st.SendJob? {
      if c.link.Open? { SenderStaysSound(s, c, JobDesc(st.job)); }
    } else if st.SendDesc? {
      if c.link.Open? { SenderStaysSound(s, c, Desc(st.name)); }
    } else if st.SendValue? && c.link.Open? {
      var sent := c.(outbox := c.outbox[1..]);
      QuietStaysSound(s, c, sent);
      SenderStaysSound(s, sent, c.outbox[0]);
    } else {
      QuietStaysSound(s, c, ClientNext(c, st));
    }
  }

  /** Neither main nor node ever misses a key, and nothing is refused once main has taken it. */
  lemma NextSucceeds(s: System, st: Step)
    requires Enabled(s, st) && Inv(s)
    ensures Next(s, st).Ok?
  {
    hide InSequence, Unmatched, ConservedAt;
    var c := s.clients[st.c];
    assert SoundClient(s, c);
    if (st.HandleMain? || st.HandleNode?) && c.link.Open? {
      var q := NodeQueue(c);
      var known := s.node.Keys + (if q[0].Desc? then {q[0].name} else {});
      SequenceLess(s.node.Keys, known, c.handles, q);
    }
  }

  lemma AnnounceStaysSound(s: System, i: nat)
    requires Enabled(s, HandleMain(i)) && SoundClient(s, s.clients[i]) && s.clients[i].stream[0].JobDesc?
    ensures var s' := Announce(s, i, s.clients[i].stream[0].job); SoundClient(s', s'.clients[i])
  {
    hide InSequence, Unmatched, Concerns, Announce;
    var c, s' := s.clients[i], Announce(s, i, s.clients[i].stream[0].job);
    assert NodeQueue(c) == c.stream && NodeQueue(s'.clients[i]) == c.stream[1..];
    SequenceLess(s.node.Keys, s.node.Keys, c.handles, c.stream);
    RestJudged(c);
  }

  lemma RestJudged(c: Client)
    requires c.link.Open? && Judged(c) && c.stream != []
    ensures forall x :: x in c.stream[1..] ==> x in c.stream
    ensures forall n :: Desc(n) in c.stream ==> c.stream[0] == Desc(n) || Desc(n) in c.stream[1..]
  {
    assert c.stream == [c.stream[0]] + c.stream[1..];
  }

  lemma TakeMainStaysSound(s: System, i: nat)
    requires Enabled(s, HandleMain(i)) && SoundClient(s, s.clients[i])
    requires var cmd := s.clients[i].stream[0];
             if cmd.Desc? then !Refused(s.main, cmd.name) else cmd.Value? && cmd.name in s.main
    requires forall n :: n in s.main ==> !Unmatched(n)
    ensures SoundClient(TakeMain(s, i), TakeMain(s, i).clients[i])
  {
    hide InSequence, Unmatched, Concerns, Export, TakeMain;
    var c, s' := s.clients[i], TakeMain(s, i);
    var cmd := c.stream[0];
    assert cmd in c.stream;
    assert NodeQueue(c) == c.stream == [cmd] + c.stream[1..] == NodeQueue(s'.clients[i]);
    ExportAt(s.main, cmd, cmd.name);
    RestJudged(c);
  }

  lemma CutStaysSound(s: System, i: nat, rest: seq<Command>, link: Link)
    requires i < |s.clients| && SoundClient(s, s.clients[i]) && !link.Open?
    requires link == BadName ==> exists n :: n in s.clients[i].handles && Unmatched(n)
    ensures SoundClient(Cut(s, i, rest, link), Cut(s, i, rest, link).clients[i])
  {
    hide InSequence, Unmatched, Concerns, Cut;
  }

  lemma MainStaysSound(s: System, i: nat)
    requires Enabled(s, HandleMain(i)) && SoundClient(s, s.clients[i]) && InMain(s, i).Ok?
    requires forall n :: n in s.main ==> !Unmatched(n)
    ensures SoundClient(InMain(s, i).s, InMain(s, i).s.clients[i])
  {
    hide SoundClient, Unmatched, Announce, Cut, TakeMain, Concerns;
    var cmd := s.clients[i].stream[0];
    if cmd.JobDesc? {
      AnnounceStaysSound(s, i);
    } else if cmd.Desc? && Refused(s.main, cmd.name) {
      HeadHeld(s, i);
      CutStaysSound(s, i, s.clients[i].stream[1..], BadName);
    } else {
      TakeMainStaysSound(s, i);
    }
  }

  lemma HeadHeld(s: System, i: nat)
    requires Enabled(s, HandleMain(i)) && SoundClient(s, s.clients[i]) && !s.clients[i].stream[0].JobDesc?
    ensures s.clients[i].stream[0].name in s.clients[i].handles
  {
    hide InSequence, Unmatched;
    assert s.clients[i].stream[0] in s.clients[i].stream;
  }

  lemma NodeStaysSound(s: System, i: nat)
    requires Enabled(s, HandleNode(i)) && SoundClient(s, s.clients[i]) && InNode(s, i).Ok?
    ensures SoundClient(InNode(s, i).s, InNode(s, i).s.clients[i])
  {
    hide InSequence, Unmatched, Export, Concerns;
    var c, s' := s.clients[i], InNode(s, i).s;
    assert NodeQueue(c)[1..] == NodeQueue(s'.clients[i]);
    ExportAt(s.node, c.stage.cmd, c.stage.cmd.name);
    SequenceLess(s.node.Keys, s'.node.Keys, c.handles, NodeQueue(c));
  }

  lemma JobStaysSound(s: System, i: nat)
    requires Enabled(s, HandleJob(i)) && SoundClient(s, s.clients[i]) && InJob(s, i).Ok?
    ensures SoundClient(InJob(s, i).s, InJob(s, i).s.clients[i])
  {
    hide InSequence, Unmatched, Cut, TakeJob, Concerns, Missing, Refused;
    var c, s' := s.clients[i], InJob(s, i).s;
    assert s'.clients[i].link.Open? ==> NodeQueue(c) == NodeQueue(s'.clients[i]);
  }

  lemma ActorStaysSound(s: System, st: Step)
    requires Enabled(s, st) && Next(s, st).Ok? && Inv(s)
    ensures SoundClient(Next(s, st).s, Next(s, st).s.clients[st.c])
  {
    hide SoundClient, Unmatched, ConservedAt, AddLost, InMain, InNode, InJob, ClientNext, KeysGrow;
    var c := s.clients[st.c];
    assert SoundClient(s, c);
    if ClientSide(st) {
      ClientStaysSound(s, c, st);
      OthersStaySound(s, Next(s, st).s, ClientNext(c, st));
    } else if st.HandleMain? {
      MainStaysSound(s, st.c);
    } else if st.HandleNode? {
      NodeStaysSound(s, st.c);
    } else {
      JobStaysSound(s, st.c);
    }
  }

  lemma TakeMainLegal(s: System, i: nat)
    requires Enabled(s, HandleMain(i)) && InMain(s, i).Ok? && forall n :: n in s.main ==> !Unmatched(n)
    ensures forall n :: n in InMain(s, i).s.main ==> !Unmatched(n)
  {
    hide Unmatched, Concerns, Announce, Cut, TakeMain;
  }

  /** What main is done with main knows. */
  lemma MainHas(s: System, i: nat)
    requires Enabled(s, HandleNode(i)) && SoundClient(s, s.clients[i]) && s.node.Keys <= s.main.Keys
    ensures !s.clients[i].stage.cmd.JobDesc? && s.clients[i].stage.cmd.name in s.main
  {
    hide InSequence, Unmatched;
    var c := s.clients[i];
    var q := NodeQueue(c);
    var known := s.node.Keys + (if q[0].Desc? then {q[0].name} else {});
    SequenceLess(s.node.Keys, known, c.handles, q);
  }

  lemma NodeBelowMain(s: System, i: nat)
    requires Enabled(s, HandleNode(i)) && SoundClient(s, s.clients[i]) && s.node.Keys <= s.main.Keys && InNode(s, i).Ok?
    ensures InNode(s, i).s.main == s.main && InNode(s, i).s.node.Keys <= s.main.Keys
  {
    hide SoundClient, Unmatched, Concerns;
    MainHas(s, i);
  }

  lemma MainKeepsNode(s: System, i: nat)
    requires i < |s.clients| && s.clients[i].stream != [] && InMain(s, i).Ok?
    ensures InMain(s, i).s.node == s.node
  {
    hide Unmatched, Concerns, Announce, Cut, TakeMain;
  }

  lemma JobKeepsBoth(s: System, i: nat)
    requires i < |s.clients| && s.clients[i].stage.NodeDone? && InJob(s, i).Ok?
    ensures InJob(s, i).s.node == s.node && InJob(s, i).s.main == s.main
  {
    hide Unmatched, Concerns, Cut, TakeJob, Missing;
  }

  lemma ExportersStaySound(s: System, st: Step)
    requires Enabled(s, st) && Next(s, st).Ok? && Inv(s)
    ensures var s' := Next(s, st).s;
            s'.node.Keys <= s'.main.Keys && forall n :: n in s'.main ==> !Unmatched(n)
  {
    hide ConservedAt, SoundClient, Unmatched, AddLost, ClientNext, InMain, InNode, InJob;
    assert SoundClient(s, s.clients[st.c]);
    if st.HandleMain? {
      TakeMainLegal(s, st.c);
      MainKeepsNode(s, st.c);
    } else if st.HandleNode? {
      NodeBelowMain(s, st.c);
    } else if st.HandleJob? {
      JobKeepsBoth(s, st.c);
    }
  }

  lemma MainLoses(s: System, i: nat)
    requires Enabled(s, HandleMain(i)) && InMain(s, i).Ok?
    ensures InMain(s, i).s.clients[i].link.Open? ==> s.clients[i].link.Open? && InMain(s, i).s.lost == s.lost
  {
    hide Unmatched, Concerns, Announce, Cut, TakeMain, Export;
  }

  lemma JobLoses(s: System, i: nat)
    requires Enabled(s, HandleJob(i)) && InJob(s, i).Ok?
    ensures InJob(s, i).s.clients[i].link.Open? ==> s.clients[i].link.Open? && InJob(s, i).s.lost == s.lost
  {
    hide Unmatched, Concerns, Cut, TakeJob, Missing;
  }

  lemma NodeLoses(s: System, i: nat)
    requires Enabled(s, HandleNode(i)) && InNode(s, i).Ok?
    ensures InNode(s, i).s.lost == s.lost && InNode(s, i).s.clients[i].link == s.clients[i].link
  {
    hide Unmatched, Concerns, Export;
  }

  /** Only a cut connection loses anything, and it stays cut. */
  lemma CutLoses(s: System, st: Step)
    requires Enabled(s, st) && Next(s, st).Ok?
    ensures Next(s, st).s.clients[st.c].link.Open? ==> s.clients[st.c].link.Open? && Next(s, st).s.lost == s.lost
  {
    hide AddLost, InMain, InNode, InJob, KeysGrow;
    if st.HandleMain? {
      MainLoses(s, st.c);
    } else if st.HandleNode? {
      NodeLoses(s, st.c);
    } else if st.HandleJob? {
      JobLoses(s, st.c);
    }
  }

  lemma LossStaysExplained(s: System, st: Step)
    requires Enabled(s, st) && Next(s, st).Ok?
    ensures AllOpen(Next(s, st).s) ==> AllOpen(s) && Next(s, st).s.lost == s.lost
  {
    hide Next, KeysGrow;
    CutLoses(s, st);
    var s' := Next(s, st).s;
    assert forall i :: 0 <= i < |s.clients| && !s.clients[i].link.Open? ==> !s'.clients[i].link.Open?;
  }

  /** Every step of every client, and the server's handling, keeps the accounts and the order. */
  lemma NextKeepsInv(s: System, st: Step)
    requires Enabled(s, st) && Inv(s)
    ensures Next(s, st).Ok? && Inv(Next(s, st).s)
  {
    hide Next, SoundClient, ConservedAt, Unmatched, AllOpen, KeysGrow;
    NextSucceeds(s, st);
    ActorStaysSound(s, st);
    ExportersStaySound(s, st);
    LossStaysExplained(s, st);
    var s' := Next(s, st).s;
    forall j, n ensures ConservedAt(s', j, n) {
      NextConserves(s, st, j, n);
    }
    forall i | 0 <= i < |s'.clients| ensures SoundClient(s', s'.clients[i]) {
      if i != st.c { OthersStaySound(s, s', s.clients[i]); }
    }
  }
}
