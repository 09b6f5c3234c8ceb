/** The client library in imperative form: each call is a sequence of the client's steps. */
module ClientLibrary {
  import opened Basics
  import opened ClientFlow

  /** The steps, on the client's side, lead from one state of the client to the other. */
  ghost predicate Leads(c: Client, steps: seq<Step>, c': Client) {
    if steps == [] then c == c'
    else
      var front, last := steps[..|steps| - 1], steps[|steps| - 1];
      ClientSide(last) && exists d :: Leads(c, front, d) && ClientEnabled(d, last) && c' == ClientNext(d, last)
  }

  lemma LeadsOn(c: Client, steps: seq<Step>, d: Client, st: Step)
    requires Leads(c, steps, d) && ClientSide(st) && ClientEnabled(d, st)
    ensures Leads(c, steps + [st], ClientNext(d, st))
  {
    assert (steps + [st])[..|steps|] == steps;
  }

  class MetricProxyClient {
    var counters: Amounts
    var stream: seq<Command>
    ghost var handles: set<string>

    /** The client between calls, and within one with what the call has marked and collected */
    ghost function View(marked: set<string>, outbox: seq<Command>): Client
      reads this
    {
      Client(counters, handles, marked, outbox, stream, Idle, None, Open)
    }

    /** What has been counted for a name and not yet taken by the server */
    ghost function Outstanding(n: string): real
      reads this
    {
      Carried(View({}, []), n)
    }

    /** `new`: the job is announced before anything else */
    constructor (job: string)
      ensures View({}, []) == ClientNext(IDLE, SendJob(0, job))
    {
      counters, handles := map[], {};
      stream := [JobDesc(job)];
      assert [] + [JobDesc(job)] == [JobDesc(job)];
    }

    /** `inc`: what is outstanding grows by the increment, for this name only */
    method Inc(name: string, increment: real)
      requires name in counters && name in handles
      modifies this`counters
      ensures View({}, []) == ClientNext(old(View({}, [])), ClientFlow.Inc(0, name, increment))
      ensures forall n :: Outstanding(n) == old(Outstanding(n)) + (if n == name then increment else 0.0)
    {
      counters := counters[name := counters[name] + increment];
    }

    /** `push_entry` for a counter: a known name keeps its value */
    method PushEntry(name: string)
      modifies this
      ensures View({}, []) == ClientNext(ClientNext(old(View({}, [])), Insert(0, name)), SendDesc(0, name))
      ensures forall n :: Outstanding(n) == old(Outstanding(n))
    {
      if name !in counters {
        counters := counters[name := 0.0];
      }
      stream := stream + [Desc(name)];
      handles := handles + {name};
      forall n ensures Outstanding(n) == old(Outstanding(n)) {
        InCommandsAppend(old(stream), Desc(name), n);
      }
    }

    /** `dump_values`: each updated counter is read and cleared, and then the values are sent; what is outstanding
        does not change */
    method DumpValues() returns (ghost steps: seq<Step>)
      modifies this`counters, this`stream
      ensures Leads(old(View({}, [])), steps, View({}, []))
      ensures old(stream) <= stream && Dumps(stream[|old(stream)|..], old(counters))
      ensures Reset(old(counters), counters)
      ensures forall n :: Outstanding(n) == old(Outstanding(n))
    {
      hide Leads, InCommands, ClientNext, Dumps, Reset;
      ghost var start := View({}, []);
      EmptySent();
      var values;
      values, steps := CollectValues();
      ghost var all := values;
      assert stream + all == old(stream) + all;
      while values != []
        invariant Leads(start, steps, View({}, values)) && Reset(old(counters), counters)
        invariant stream + values == old(stream) + all && old(stream) <= stream
        invariant forall n :: Outstanding(n) + InCommands(values, n) == old(Outstanding(n))
        decreases |values|
      {
        LeadsOn(start, steps, View({}, values), SendValue(0));
        SentNext(View({}, values));
        SendMoves(stream, values);
        steps := steps + [SendValue(0)];
        assert values == [values[0]] + values[1..];
        stream := stream + [values[0]];
        values := values[1..];
      }
      assert stream == old(stream) + all && stream[|old(stream)|..] == all;
    }

    /** The part of `dump_values` under the table's lock */
    method CollectValues() returns (values: seq<Command>, ghost steps: seq<Step>)
      modifies this`counters
      ensures Leads(old(View({}, [])), steps, View({}, values))
      ensures Dumps(values, old(counters)) && Reset(old(counters), counters)
      ensures forall n :: Outstanding(n) + InCommands(values, n) == old(Outstanding(n))
    {
      hide Leads, InCommands, ClientNext, Dumping, Dumps, Reset;
      ghost var start := View({}, []);
      values, steps := [], [];
      DumpBegins(counters);
      LeadsNowhere(start);
      EmptySent();
      var names := counters.Keys;
      while names != {}
        invariant names <= counters.Keys && Leads(start, steps, View({}, values))
        invariant Dumping(old(counters), counters, values, names)
        invariant forall n :: Outstanding(n) + InCommands(values, n) == old(Outstanding(n))
        decreases |names|
      {
        var name :| name in names;
        DumpGoesOn(old(counters), counters, values, names, name);
        if counters[name] > 0.0 {
          ghost var c := View({}, values);
          CollectedNext(c, name);
          LeadsOn(start, steps, c, Mark(0, name));
          LeadsOn(start, steps + [Mark(0, name)], c.(marked := {name}), Collect(0, name));
          steps := steps + [Mark(0, name)] + [Collect(0, name)];
          CollectMoves(values, Value(name, counters[name]));
          values := values + [Value(name, counters[name])];
          counters := counters[name := 0.0];
        }
        names := names - {name};
      }
      DumpEnds(old(counters), counters, values);
    }
  }

  /** A counter above zero has started again; the others are as they were. */
  ghost predicate ResetAt(before: Amounts, after: Amounts, n: string)
    requires n in before && n in after
  {
    if before[n] > 0.0 then after[n] == 0.0 else after[n] == before[n]
  }

  /** After a dump no counter is above zero. */
  ghost predicate Reset(before: Amounts, after: Amounts) {
    && before.Keys == after.Keys
    && forall n :: n in before ==> ResetAt(before, after, n) && after[n] <= 0.0
  }

  /** The commands are the values of the counters above zero among the given names, each once and nothing else. */
  ghost predicate DumpsOf(vs: seq<Command>, m: Amounts, names: set<string>) {
    && (forall i, j :: 0 <= i < j < |vs| ==> vs[i] != vs[j])
    && (forall v :: v in vs <==> v.Value? && v.name in names && v.name in m && m[v.name] > 0.0 && v.value == m[v.name])
  }

  ghost predicate Dumps(vs: seq<Command>, m: Amounts) {
    DumpsOf(vs, m, m.Keys)
  }

  /** The counters with the given names are still to be looked at. */
  ghost predicate Dumping(before: Amounts, now: Amounts, vs: seq<Command>, names: set<string>) {
    && names <= now.Keys == before.Keys
    && (forall n :: n in before ==> if n in names then now[n] == before[n] else ResetAt(before, now, n))
    && DumpsOf(vs, before, before.Keys - names)
  }

  lemma DumpBegins(m: Amounts)
    ensures Dumping(m, m, [], m.Keys)
  {
  }

  lemma DumpGoesOn(before: Amounts, now: Amounts, vs: seq<Command>, names: set<string>, n: string)
    requires Dumping(before, now, vs, names) && n in names
    ensures n in now
    ensures if now[n] > 0.0 then Dumping(before, now[n := 0.0], vs + [Value(n, now[n])], names - {n})
            else Dumping(before, now, vs, names - {n})
  {
    hide DumpsOf;
    DumpsMore(vs, before, before.Keys - names, n);
    assert before.Keys - (names - {n}) == (before.Keys - names) + {n};
  }

  lemma DumpEnds(before: Amounts, now: Amounts, vs: seq<Command>)
    requires Dumping(before, now, vs, {})
    ensures Dumps(vs, before) && Reset(before, now)
  {
    assert before.Keys - {} == before.Keys;
  }

  lemma DumpsMore(vs: seq<Command>, m: Amounts, names: set<string>, n: string)
    requires DumpsOf(vs, m, names) && n in m && n !in names
    ensures DumpsOf(if m[n] > 0.0 then vs + [Value(n, m[n])] else vs, m, names + {n})
  {
    forall i | 0 <= i < |vs| ensures vs[i] != Value(n, m[n]) {
      assert vs[i] in vs;
    }
  }

  lemma EmptySent()
    ensures forall n :: InCommands([], n) == 0.0
  {
  }

  lemma LeadsNowhere(c: Client)
    ensures Leads(c, [], c)
  {
  }

  lemma SentNext(c: Client)
    requires c.outbox != [] && c.link.Open?
    ensures ClientNext(c, SendValue(0)) == c.(outbox := c.outbox[1..], stream := c.stream + [c.outbox[0]])
  {
  }

  lemma CollectedNext(c: Client, name: string)
    requires name in c.pending && c.pending[name] > 0.0 && c.marked == {}
    ensures ClientNext(c, Mark(0, name)) == c.(marked := {name})
    ensures ClientNext(c.(marked := {name}), Collect(0, name)) ==
            c.(pending := c.pending[name := 0.0], outbox := c.outbox + [Value(name, c.pending[name])])
  {
    assert c.marked + {name} == {name} && {name} - {name} == {};
  }

  lemma SendMoves(stream: seq<Command>, values: seq<Command>)
    requires values != []
    ensures forall n :: InCommands(stream + [values[0]], n) + InCommands(values[1..], n) ==
                        InCommands(stream, n) + InCommands(values, n)
  {
    forall n ensures InCommands(stream + [values[0]], n) + InCommands(values[1..], n) ==
                     InCommands(stream, n) + InCommands(values, n) {
      InCommandsSplit(values, n);
      InCommandsAppend(stream, values[0], n);
    }
  }

  lemma CollectMoves(values: seq<Command>, v: Command)
    ensures forall n :: InCommands(values + [v], n) == InCommands(values, n) + InCommand(v, n)
  {
    forall n ensures InCommands(values + [v], n) == InCommands(values, n) + InCommand(v, n) {
      InCommandsAppend(values, v, n);
    }
  }
}
