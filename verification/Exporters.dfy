/** The metric store of a job: groups of entries that share a basename, seen as one map from full names.

    Metric names such as `total{interface="lo"}` are grouped by the part before the first brace.
 */
module Exporters {
  import opened Basics
  import opened Counters

  type Flat = map<string, CounterSnapshot>

  datatype Group = Group(basename: string, doc: string, ht: Flat)

  type Index = map<string, Group>

  /** `name.split('{')[0]` */
  function Basename(name: string): (r: string)
    ensures |r| <= |name| && r == name[..|r|] && '{' !in r
    ensures |r| < |name| ==> name[|r|] == '{'
  {
    if name == "" || name[0] == '{' then ""
    else
      assert name == [name[0]] + name[1..];
      [name[0]] + Basename(name[1..])
  }

  /** An opening brace without a closing one is refused. */
  predicate Unmatched(name: string) {
    '{' in name && '}' !in name
  }

  /** Which names are legal: those without an opening brace, and those with a closing one, labelled names such as
      `total{interface="lo"}` among them. */
  lemma UnmatchedNames(a: string, b: string)
    ensures '{' !in a ==> !Unmatched(a)
    ensures !Unmatched(a + "}" + b) && !Unmatched(a + "{" + b + "}")
    ensures '}' !in a && '}' !in b ==> Unmatched(a + "{" + b)
  {
    assert (a + "}" + b)[|a|] == '}';
    assert (a + "{" + b + "}")[|a| + 1 + |b|] == '}';
    assert (a + "{" + b)[|a|] == '{';
  }

  /** Every entry sits under its own name, in the group of its own basename; no group is empty. */
  ghost predicate WellGrouped(ht: Index) {
    && (forall b :: b in ht ==> ht[b].basename == b && ht[b].ht != map[])
    && (forall b, n {:trigger n in ht[b].ht} :: b in ht && n in ht[b].ht ==> Basename(n) == b && ht[b].ht[n].name == n)
  }

  function Names(ht: Index): set<string> {
    set b, n | b in ht && n in ht[b].ht :: n
  }

  /** The flat map that the two levels stand for */
  ghost function Flatten(ht: Index): (m: Flat)
    requires WellGrouped(ht)
    ensures forall n :: n in m <==> Basename(n) in ht && n in ht[Basename(n)].ht
    ensures forall n :: n in m ==> m[n] == ht[Basename(n)].ht[n] && m[n].name == n
  {
    map n | n in Names(ht) :: ht[Basename(n)].ht[n]
  }

  ghost function Before(ht: Index, b: string): Flat {
    if b in ht then ht[b].ht else map[]
  }

  lemma StoreGrouped(ht: Index, g: Group, s: CounterSnapshot)
    requires WellGrouped(ht) && g.basename == Basename(s.name)
    requires g.ht == Before(ht, g.basename)[s.name := s]
    ensures WellGrouped(ht[g.basename := g])
  {
    hide Basename;
    var ht' := ht[g.basename := g];
    assert s.name in g.ht;
    forall b, n | b in ht' && n in ht'[b].ht ensures Basename(n) == b && ht'[b].ht[n].name == n {
      if b != g.basename {
        assert n in ht[b].ht;
      } else if n != s.name {
        assert n in Before(ht, b);
        assert n in ht[b].ht;
      }
    }
  }

  /** Storing an entry in its group is storing it in the flat map. */
  lemma Store(ht: Index, g: Group, s: CounterSnapshot)
    requires WellGrouped(ht) && g.basename == Basename(s.name)
    requires g.ht == Before(ht, g.basename)[s.name := s]
    ensures WellGrouped(ht[g.basename := g])
    ensures Flatten(ht[g.basename := g]) == Flatten(ht)[s.name := s]
  {
    hide WellGrouped, Basename, Flatten, Before;
    StoreGrouped(ht, g, s);
    var m, m' := Flatten(ht)[s.name := s], Flatten(ht[g.basename := g]);
    forall n ensures (n in m' <==> n in m) && (n in m ==> m'[n] == m[n]) {
      StoredAt(ht, g, s, n);
    }
  }

  lemma StoredAt(ht: Index, g: Group, s: CounterSnapshot, n: string)
    requires WellGrouped(ht) && WellGrouped(ht[g.basename := g]) && g.basename == Basename(s.name)
    requires g.ht == Before(ht, g.basename)[s.name := s]
    ensures n in Flatten(ht[g.basename := g]) <==> n == s.name || n in Flatten(ht)
    ensures n in Flatten(ht[g.basename := g]) ==>
              Flatten(ht[g.basename := g])[n] == if n == s.name then s else Flatten(ht)[n]
  {
    hide WellGrouped, Basename, Flatten;
    if Basename(n) == g.basename {
      assert n in g.ht <==> n == s.name || n in Before(ht, g.basename);
    }
  }

  lemma GroupName(ht: Index, b: string)
    requires WellGrouped(ht) && b in ht
    ensures ht[b].basename == b
  {
  }

  // ----- pushing -----

  /** `ExporterEntryGroup::push` on a group */
  function GroupPush(g: Group, v: CounterSnapshot): Option<Group> {
    if v.name in g.ht then Some(g)
    else if Unmatched(v.name) then None
    else Some(g.(ht := g.ht[v.name := v]))
  }

  /** `Exporter::push`: None is a refusal, which leaves the index alone */
  function IndexPush(ht: Index, v: CounterSnapshot): Option<Index> {
    var b := Basename(v.name);
    var g := if b in ht then ht[b] else Group(b, v.doc, map[]);
    match GroupPush(g, v)
    case None => None
    case Some(g') => Some(ht[b := g'])
  }

  /** The same on the flat map: a known name is left as it is, a new one is stored */
  function FlatPush(m: Flat, v: CounterSnapshot): Option<Flat> {
    if v.name in m then Some(m)
    else if Unmatched(v.name) then None
    else Some(m[v.name := v])
  }

  /** The grouped push refines the flat one and keeps the grouping. */
  lemma PushRefines(ht: Index, v: CounterSnapshot)
    requires WellGrouped(ht)
    ensures IndexPush(ht, v).Some? <==> FlatPush(Flatten(ht), v).Some?
    ensures IndexPush(ht, v).Some? ==>
              && WellGrouped(IndexPush(ht, v).value)
              && Flatten(IndexPush(ht, v).value) == FlatPush(Flatten(ht), v).value
    ensures IndexPush(ht, v).Some? ==>
              forall b :: b in IndexPush(ht, v).value ==>
                IndexPush(ht, v).value[b].doc == if b in ht then ht[b].doc else v.doc
  {
    hide WellGrouped, Basename, Flatten, Unmatched;
    var b := Basename(v.name);
    if v.name in Flatten(ht) {
      assert ht[b := ht[b]] == ht;
    } else if !Unmatched(v.name) {
      if b in ht { GroupName(ht, b); }
      Store(ht, if b in ht then ht[b].(ht := ht[b].ht[v.name := v]) else Group(b, v.doc, map[v.name := v]), v);
    }
  }

  // ----- accumulating -----

  /** The new value of an entry: merged, or set as a local client's sample is */
  function Accumulated(entry: CounterSnapshot, v: CounterSnapshot, merge: bool): Option<CounterSnapshot> {
    match (if merge then entry.ctype.Merge(v.ctype) else entry.ctype.Set(v.ctype))
    case None => None
    case Some(t) => Some(entry.(ctype := t))
  }

  function IndexAccumulate(ht: Index, v: CounterSnapshot, merge: bool): Option<Index> {
    var b := Basename(v.name);
    if b !in ht || v.name !in ht[b].ht then None
    else
      match Accumulated(ht[b].ht[v.name], v, merge)
      case None => None
      case Some(s) => Some(ht[b := ht[b].(ht := ht[b].ht[v.name := s])])
  }

  function FlatAccumulate(m: Flat, v: CounterSnapshot, merge: bool): Option<Flat> {
    if v.name !in m then None
    else
      match Accumulated(m[v.name], v, merge)
      case None => None
      case Some(s) => Some(m[v.name := s])
  }

  /** Accumulating touches exactly one name; it is refused for an unknown name or another kind of value. */
  lemma AccumulateRefines(ht: Index, v: CounterSnapshot, merge: bool)
    requires WellGrouped(ht)
    ensures IndexAccumulate(ht, v, merge).Some? <==> FlatAccumulate(Flatten(ht), v, merge).Some?
    ensures IndexAccumulate(ht, v, merge).Some? ==>
              && WellGrouped(IndexAccumulate(ht, v, merge).value)
              && Flatten(IndexAccumulate(ht, v, merge).value) == FlatAccumulate(Flatten(ht), v, merge).value
    ensures IndexAccumulate(ht, v, merge).Some? ==>
              && Flatten(ht).Keys == Flatten(IndexAccumulate(ht, v, merge).value).Keys && v.name in Flatten(ht)
              && forall n :: n in Flatten(ht) ==>
                   && Flatten(IndexAccumulate(ht, v, merge).value)[n].doc == Flatten(ht)[n].doc
                   && (n != v.name ==> Flatten(IndexAccumulate(ht, v, merge).value)[n] == Flatten(ht)[n])
  {
    hide WellGrouped, Basename, Flatten;
    var b := Basename(v.name);
    if v.name in Flatten(ht) {
      GroupName(ht, b);
      match Accumulated(ht[b].ht[v.name], v, merge)
      case None =>
      case Some(s) => Store(ht, ht[b].(ht := ht[b].ht[v.name := s]), s);
    }
  }

  // ----- listing -----

  ghost predicate DistinctNames(cs: seq<CounterSnapshot>) {
    forall i, j :: 0 <= i < j < |cs| ==> cs[i].name != cs[j].name
  }

  /** The list holds, once each, the entries of m under the given names that are to be shown. */
  ghost predicate Lists(cs: seq<CounterSnapshot>, m: Flat, names: set<string>, full: bool) {
    && DistinctNames(cs)
    && (forall c :: c in cs <==> c.name in names && c.name in m && c == m[c.name] && (full || c.ctype.HasData()))
  }

  lemma ListsMore(cs: seq<CounterSnapshot>, m: Flat, names: set<string>, full: bool, n: string)
    requires Lists(cs, m, names, full) && n in m && n !in names && m[n].name == n
    ensures Lists(if full || m[n].ctype.HasData() then cs + [m[n]] else cs, m, names + {n}, full)
  {
    forall i | 0 <= i < |cs| ensures cs[i].name != n {
      assert cs[i] in cs;
    }
  }

  lemma ListsJoin(
    cs: seq<CounterSnapshot>, ds: seq<CounterSnapshot>, m: Flat, a: set<string>, b: set<string>, full: bool)
    requires Lists(cs, m, a, full) && Lists(ds, m, b, full) && a !! b
    ensures Lists(cs + ds, m, a + b, full)
  {
    forall i, j | 0 <= i < |cs| && 0 <= j < |ds| ensures cs[i].name != ds[j].name {
      assert cs[i] in cs && ds[j] in ds;
    }
  }

  /** An entry is listed if it has a value or hits, or if all are asked for. */
  lemma Shown(cs: seq<CounterSnapshot>, m: Flat, full: bool)
    requires Lists(cs, m, m.Keys, full) && forall n :: n in m ==> m[n].name == n
    ensures forall n :: n in m ==> (m[n] in cs <==> full || m[n].ctype.Amount().0 != 0.0)
  {
  }

  /** `ExporterEntryGroup::snapshot` */
  method GroupSnapshot(g: Group, full: bool) returns (cs: seq<CounterSnapshot>)
    requires forall n :: n in g.ht ==> g.ht[n].name == n
    ensures Lists(cs, g.ht, g.ht.Keys, full)
  {
    hide Lists;
    cs := [];
    var names := g.ht.Keys;
    NothingListed(g.ht, full);
    assert g.ht.Keys - names == {};
    while names != {}
      invariant names <= g.ht.Keys
      invariant Lists(cs, g.ht, g.ht.Keys - names, full)
      decreases |names|
    {
      var n :| n in names;
      ListsMore(cs, g.ht, g.ht.Keys - names, full, n);
      assert g.ht.Keys - (names - {n}) == (g.ht.Keys - names) + {n};
      var value := g.ht[n];
      if full || value.ctype.HasData() {
        cs := cs + [value];
      }
      names := names - {n};
    }
    assert g.ht.Keys - names == g.ht.Keys;
  }

  lemma NothingListed(m: Flat, full: bool)
    ensures Lists([], m, {}, full)
  {
  }

  /** The names in some of the groups */
  ghost function NamesIn(ht: Index, bs: set<string>): set<string>
    requires WellGrouped(ht)
  {
    set n | n in Flatten(ht) && Basename(n) in bs
  }

  lemma GroupListed(ht: Index, b: string, cs: seq<CounterSnapshot>, full: bool)
    requires WellGrouped(ht) && b in ht && Lists(cs, ht[b].ht, ht[b].ht.Keys, full)
    ensures Lists(cs, Flatten(ht), NamesIn(ht, {b}), full)
  {
    var m := Flatten(ht);
    forall c ensures c in cs <==> c.name in NamesIn(ht, {b}) && c == m[c.name] && (full || c.ctype.HasData()) {
      assert c.name in ht[b].ht ==> Basename(c.name) == b;
    }
  }

  lemma NamesSplit(ht: Index, bs: set<string>, b: string)
    requires WellGrouped(ht) && b !in bs
    ensures NamesIn(ht, bs) !! NamesIn(ht, {b}) && NamesIn(ht, bs) + NamesIn(ht, {b}) == NamesIn(ht, bs + {b})
  {
  }

  class Exporter {
    var ht: Index

    ghost predicate Valid()
      reads this
    {
      WellGrouped(ht)
    }

    ghost function Contents(): Flat
      requires Valid()
      reads this
    {
      Flatten(ht)
    }

    constructor ()
      ensures Valid() && Contents() == map[]
    {
      ht := map[];
    }

    method Push(value: CounterSnapshot) returns (ok: bool)
      requires Valid()
      modifies this
      ensures Valid()
      ensures ok == FlatPush(old(Contents()), value).Some?
      ensures Contents() == if ok then FlatPush(old(Contents()), value).value else old(Contents())
      ensures !ok ==> ht == old(ht)
    {
      PushRefines(ht, value);
      var b := Basename(value.name);
      if b in ht {
        match GroupPush(ht[b], value) {
          case None => return false;
          case Some(g) => ht := ht[b := g];
        }
      } else {
        match GroupPush(Group(b, value.doc, map[]), value) {
          case None => return false;
          case Some(g) => ht := ht[b := g];
        }
      }
      return true;
    }

    method Accumulate(value: CounterSnapshot, merge: bool) returns (ok: bool)
      requires Valid()
      modifies this
      ensures Valid()
      ensures ok == FlatAccumulate(old(Contents()), value, merge).Some?
      ensures Contents() == if ok then FlatAccumulate(old(Contents()), value, merge).value else old(Contents())
    {
      AccumulateRefines(ht, value, merge);
      var b := Basename(value.name);
      if b !in ht || value.name !in ht[b].ht {
        return false;
      }
      match Accumulated(ht[b].ht[value.name], value, merge) {
        case None => return false;
        case Some(s) => ht := ht[b := ht[b].(ht := ht[b].ht[value.name := s])];
      }
      return true;
    }

    method Get(metric: string) returns (r: Option<CounterSnapshot>)
      requires Valid()
      ensures r == if metric in Contents() then Some(Contents()[metric]) else None
    {
      var b := Basename(metric);
      if b in ht && metric in ht[b].ht {
        r := Some(ht[b].ht[metric]);
      } else {
        r := None;
      }
    }

    /** `profile`: every entry once, or every entry that holds data, in any order */
    method Profile(full: bool) returns (cs: seq<CounterSnapshot>)
      requires Valid()
      ensures Lists(cs, Contents(), Contents().Keys, full)
      ensures forall n :: n in Contents() ==>
                (Contents()[n] in cs <==> full || Contents()[n].ctype.Amount().0 != 0.0)
    {
      hide Lists, WellGrouped, Flatten, NamesIn;
      cs := [];
      var groups := ht.Keys;
      NothingListed(Flatten(ht), full);
      AllNames(ht);
      assert ht.Keys - groups == {};
      while groups != {}
        invariant groups <= ht.Keys
        invariant Lists(cs, Flatten(ht), NamesIn(ht, ht.Keys - groups), full)
        decreases |groups|
      {
        var b :| b in groups;
        OwnNames(ht, b);
        var snaps := GroupSnapshot(ht[b], full);
        GroupListed(ht, b, snaps, full);
        NamesSplit(ht, ht.Keys - groups, b);
        ListsJoin(cs, snaps, Flatten(ht), NamesIn(ht, ht.Keys - groups), NamesIn(ht, {b}), full);
        assert ht.Keys - (groups - {b}) == (ht.Keys - groups) + {b};
        cs := cs + snaps;
        groups := groups - {b};
      }
      assert ht.Keys - groups == ht.Keys;
      AllNames(ht);
      Shown(cs, Contents(), full);
    }
  }

  lemma OwnNames(ht: Index, b: string)
    requires WellGrouped(ht) && b in ht
    ensures forall n :: n in ht[b].ht ==> ht[b].ht[n].name == n
  {
  }

  lemma AllNames(ht: Index)
    requires WellGrouped(ht)
    ensures NamesIn(ht, ht.Keys) == Flatten(ht).Keys && NamesIn(ht, {}) == {}
  {
  }
}
