/** `submit_batch`: named items, sorted dependencies first, stored one by one, taken back on failure. */
module BatchSubmit {
  import opened Cascade
  import opened CascadeTermination
  import opened Decimals
  import opened Dependencies
  import opened Graphs
  import opened Jobs
  import JobTable
  import opened Text
  import opened Topology

  datatype DependsSpec = Absent | Commas(text: string) | Entries(entries: seq<string>)

  /** One item: its local name (or id), its dependencies, its request, and whether `submit` accepts it. */
  datatype Item = Item(name: Option<string>, id: Option<string>, dependsOn: DependsSpec, request: Request,
                       runAt: Option<string>, key: Option<string>, accepted: bool)

  datatype BatchError = NoItems | EmptyName(index: nat) | DuplicateName(name: string) | Unsorted(error: SortError)

  /** `order` is the storing order; `ids` maps names to job ids; `deps` holds names, `resolved` job ids. */
  datatype Plan =
    | Invalid(error: BatchError)
    | Planned(names: seq<string>, order: seq<string>, ids: map<string, string>,
              specs: map<string, Item>, deps: map<string, seq<string>>, resolved: map<string, seq<string>>)

  function SplitCommas(s: string, part: string): seq<string> {
    if s == "" then [part]
    else if s[0] == ',' then [part] + SplitCommas(s[1..], "")
    else SplitCommas(s[1..], part + [s[0]])
  }

  function Joined(parts: seq<string>): string {
    if parts == [] then "" else if |parts| == 1 then parts[0] else parts[0] + "," + Joined(parts[1..])
  }

  /** Splitting at the commas: the parts hold none, and joined by commas they are the text again. */
  lemma {:induction false} SplitIsJoined(s: string, part: string)
    requires ',' !in part
    ensures var parts := SplitCommas(s, part);
      parts != [] && Joined(parts) == part + s && forall i | 0 <= i < |parts| :: ',' !in parts[i]
  {
    if s == "" {
      assert part + s == part;
    } else if s[0] == ',' {
      SplitIsJoined(s[1..], "");
      var rest := SplitCommas(s[1..], "");
      assert ([part] + rest)[1..] == rest;
      assert "" + s[1..] == s[1..] && part + "," + s[1..] == part + s;
    } else {
      SplitIsJoined(s[1..], part + [s[0]]);
      assert part + [s[0]] + s[1..] == part + s;
    }
  }

  function DependencyList(d: DependsSpec): seq<string> {
    match d
    case Absent => []
    case Commas(text) => Cleaned(SplitCommas(text, ""))
    case Entries(entries) => Cleaned(entries)
  }

  function NameOf(item: Item, i: nat): string {
    match (item.name, item.id)
    case (Some(name), _) => Strip(name)
    case (None, Some(id)) => Strip(id)
    case (None, None) => "job-" + Decimal(i)
  }

  /** A name of the batch becomes its job id; anything else is taken as a job id. */
  function Resolve(deps: seq<string>, ids: map<string, string>): (r: seq<string>)
    ensures forall x :: x in r <==> exists d :: d in deps && x == if d in ids then ids[d] else d
  {
    if deps == [] then []
    else
      var d := deps[0];
      [if d in ids then ids[d] else d] + Resolve(deps[1..], ids)
  }

  ghost predicate Injective(ids: map<string, string>) {
    forall a, b | a in ids && b in ids && ids[a] == ids[b] :: a == b
  }

  ghost function ItemNames(items: seq<Item>): seq<string> {
    seq(|items|, i requires 0 <= i < |items| => NameOf(items[i], i))
  }

  ghost function ItemDeps(items: seq<Item>): seq<seq<string>> {
    seq(|items|, i requires 0 <= i < |items| => DependencyList(items[i].dependsOn))
  }

  /** What the first loop has gathered: distinct names, each with its dependencies and its new id. */
  ghost predicate Gathered(names: seq<string>, lists: seq<seq<string>>, newIds: seq<string>,
                           deps: map<string, seq<string>>, ids: map<string, string>,
                           items: seq<Item>, specs: map<string, Item>) {
    && |names| <= |items| && |names| <= |lists| && |names| <= |newIds| && Distinct(names)
    && (forall n :: n in deps <==> n in names)
    && (forall n :: n in ids <==> n in names)
    && (forall n :: n in specs <==> n in names)
    && (forall k | 0 <= k < |names| :: specs[names[k]] == items[k])
    && (forall k | 0 <= k < |names| :: deps[names[k]] == lists[k])
    && (forall k | 0 <= k < |names| :: ids[names[k]] == newIds[k])
  }

  lemma GatherOne(names: seq<string>, lists: seq<seq<string>>, newIds: seq<string>,
                  deps: map<string, seq<string>>, ids: map<string, string>,
                  items: seq<Item>, specs: map<string, Item>, name: string)
    requires Gathered(names, lists, newIds, deps, ids, items, specs) && name !in names
    requires |names| < |lists| && |names| < |newIds| && |names| < |items|
    ensures Gathered(names + [name], lists, newIds, deps[name := lists[|names|]], ids[name := newIds[|names|]],
                     items, specs[name := items[|names|]])
  {
    DistinctSnoc(names, name);
  }

  method GatherItems(items: seq<Item>, newIds: seq<string>)
    returns (error: Option<BatchError>, names: seq<string>, deps: map<string, seq<string>>, ids: map<string, string>, specs: map<string, Item>)
    requires |newIds| >= |items|
    ensures error.None? ==> names == ItemNames(items) && "" !in names && Gathered(names, ItemDeps(items), newIds, deps, ids, items, specs)
    ensures error.Some? ==> match error.value
              case EmptyName(i) => i < |items| && ItemNames(items)[i] == ""
              case DuplicateName(n) => n in ItemNames(items) && !Distinct(ItemNames(items))
              case _ => false
  {
    names, deps, ids, specs := [], map[], map[], map[];
    ghost var wanted, lists := ItemNames(items), ItemDeps(items);
    var i := 0;
    while i < |items|
      invariant 0 <= i <= |items| && names == wanted[..i] && "" !in names
      invariant Gathered(names, lists, newIds, deps, ids, items, specs)
    {
      var name, list := NameOf(items[i], i), DependencyList(items[i].dependsOn);
      assert name == wanted[i] && list == lists[i];
      if name == "" {
        error := Some(EmptyName(i));
        return;
      }
      if name in deps {
        error := Some(DuplicateName(name));
        return;
      }
      GatherOne(names, lists, newIds, deps, ids, items, specs, name);
      names := names + [name];
      deps := deps[name := list];
      ids := ids[name := newIds[i]];
      specs := specs[name := items[i]];
      i := i + 1;
    }
    error := None;
  }

  lemma GatheredIdsAreNew(names: seq<string>, lists: seq<seq<string>>, newIds: seq<string>,
                          deps: map<string, seq<string>>, ids: map<string, string>, items: seq<Item>, specs: map<string, Item>)
    requires Gathered(names, lists, newIds, deps, ids, items, specs) && Distinct(newIds)
    ensures Injective(ids) && forall n | n in ids :: ids[n] in newIds
  {
    forall a, b | a in ids && b in ids && ids[a] == ids[b] ensures a == b {
      var j :| 0 <= j < |names| && names[j] == a;
      var k :| 0 <= k < |names| && names[k] == b;
    }
  }

  /** The plan the caller goes on with: names, new ids and an order in which dependencies come first. */
  ghost predicate Sound(items: seq<Item>, newIds: seq<string>, p: Plan)
    requires p.Planned?
  {
    && p.names == ItemNames(items) && "" !in p.names && Gathered(p.names, ItemDeps(items), newIds, p.deps, p.ids, items, p.specs)
    && Injective(p.ids) && (forall n | n in p.ids :: p.ids[n] in newIds)
    && Distinct(p.order) && Elements(p.order) == Elements(p.names)
    && TargetsFirst(BatchGraph(p.names, p.deps), p.order)
    && p.resolved == map n | n in p.deps :: Resolve(p.deps[n], p.ids)
  }

  ghost predicate ListsDeps(items: seq<Item>, deps: map<string, seq<string>>) {
    && deps.Keys == Elements(ItemNames(items))
    && forall k | 0 <= k < |items| :: ItemNames(items)[k] in deps && deps[ItemNames(items)[k]] == ItemDeps(items)[k]
  }

  /** What is wrong with a batch that is refused with `error`. */
  ghost predicate Refuses(items: seq<Item>, error: BatchError) {
    match error
    case NoItems => items == []
    case EmptyName(i) => i < |items| && ItemNames(items)[i] == ""
    case DuplicateName(n) => n in ItemNames(items) && !Distinct(ItemNames(items))
    case Unsorted(_) => exists deps :: ListsDeps(items, deps) && !Acyclic(BatchGraph(ItemNames(items), deps))
  }

  lemma GatheredLists(items: seq<Item>, newIds: seq<string>, names: seq<string>, deps: map<string, seq<string>>,
                      ids: map<string, string>, specs: map<string, Item>)
    requires names == ItemNames(items) && Gathered(names, ItemDeps(items), newIds, deps, ids, items, specs)
    ensures ListsDeps(items, deps)
  {
  }

  lemma PlanIsSound(items: seq<Item>, newIds: seq<string>, p: Plan)
    requires p.Planned? && p.names == ItemNames(items) && "" !in p.names && Distinct(newIds)
    requires Gathered(p.names, ItemDeps(items), newIds, p.deps, p.ids, items, p.specs)
    requires Distinct(p.order) && Elements(p.order) == Elements(p.names) && TargetsFirst(BatchGraph(p.names, p.deps), p.order)
    requires p.resolved == map n | n in p.deps :: Resolve(p.deps[n], p.ids)
    ensures Sound(items, newIds, p)
  {
    GatheredIdsAreNew(p.names, ItemDeps(items), newIds, p.deps, p.ids, items, p.specs);
  }

  method PrepareBatchItems(items: seq<Item>, newIds: seq<string>) returns (r: Plan)
    requires |newIds| >= |items| && Distinct(newIds)
    ensures r.Planned? ==> Sound(items, newIds, r)
    ensures r == Invalid(NoItems) <==> items == []
    ensures r.Invalid? ==> Refuses(items, r.error)
  {
    if items == [] {
      return Invalid(NoItems);
    }
    var error, names, deps, ids, specs := GatherItems(items, newIds);
    if error.Some? {
      return Invalid(error.value);
    }
    var resolved := map n | n in deps :: Resolve(deps[n], ids);
    var sorted := TopologicalNames(names, deps);
    if sorted.Rejected? {
      GatheredLists(items, newIds, names, deps, ids, specs);
      return Invalid(Unsorted(sorted.error));
    }
    r := Planned(names, sorted.order, ids, specs, deps, resolved);
    PlanIsSound(items, newIds, r);
  }

  /** What `normalize_request` leaves: stripped entries, no blank ones. */
  predicate Normal(entries: seq<string>) {
    forall d | d in entries :: d != "" && Stripped(d)
  }

  lemma {:induction false} NormalIsCleaned(entries: seq<string>)
    requires Normal(entries)
    ensures Cleaned(entries) == entries
  {
    if entries != [] {
      StripProjects(entries[0]);
      NormalIsCleaned(entries[1..]);
    }
  }

  lemma {:induction false} CleanedIsNormal(entries: seq<string>)
    ensures Normal(Cleaned(entries))
  {
    if entries != [] {
      StripProjects(entries[0]);
      CleanedIsNormal(entries[1..]);
    }
  }

  lemma CycleAvoidsNew(rows: Rows, id: string, row: Row, a: string)
    requires id !in rows && id !in Targets(row.request.dependsOn)
    requires forall j | j in rows :: id !in Targets(rows[j].request.dependsOn)
    requires OnCycle(DependencyGraph(rows[id := row]), a)
    ensures OnCycle(DependencyGraph(rows), a)
  {
    var g, h := DependencyGraph(rows), DependencyGraph(rows[id := row]);
    var p :| |p| >= 2 && Connects(h, p, a, a);
    assert Edge(h, p[|p| - 2], p[|p| - 1]);
    WalkAvoids(g, h, p, id);
    assert Connects(g, p, a, a);
  }

  /** A new row that nothing points to yet, itself included, keeps the dependency graph acyclic. */
  lemma AddRowKeepsAcyclic(rows: Rows, id: string, row: Row)
    requires id !in rows && Acyclic(DependencyGraph(rows))
    requires id !in Targets(row.request.dependsOn)
    requires forall j | j in rows :: id !in Targets(rows[j].request.dependsOn)
    ensures Acyclic(DependencyGraph(rows[id := row]))
  {
    var h := DependencyGraph(rows[id := row]);
    forall a ensures !OnCycle(h, a) {
      if OnCycle(h, a) { CycleAvoidsNew(rows, id, row, a); }
    }
  }

  lemma {:induction false} WalkAvoids(g: Graph<string>, h: Graph<string>, p: seq<string>, id: string)
    requires forall a, b | Edge(h, a, b) :: b != id
    requires forall a, b | a != id && Edge(h, a, b) :: Edge(g, a, b)
    requires IsPath(h, p) && p[0] != id
    ensures IsPath(g, p)
  {
    forall i, j | 0 <= i && j == i + 1 && j < |p| ensures Edge(g, p[i], p[j]) {
      if i > 0 { assert Edge(h, p[i - 1], p[i]); }
      assert Edge(h, p[i], p[j]);
    }
  }

  /** In an acyclic graph no verdict speaks of a cycle; with all targets stored none speaks of a missing job. */
  lemma NoCycleNoMissing(rows: Rows, id: string)
    requires id in rows && Acyclic(DependencyGraph(rows))
    requires forall d | d in Targets(rows[id].request.dependsOn) :: d in rows
    ensures Gate(rows, rows[id].request.dependsOn, id) != Blocked(InCycle)
    ensures forall d :: Gate(rows, rows[id].request.dependsOn, id) != Blocked(NotFound(d))
  {
    var g, deps := DependencyGraph(rows), rows[id].request.dependsOn;
    if Cyclic(rows, id, deps) {
      var d :| d in Targets(deps) && Reaches(g, d, id);
      assert Edge(g, id, d);
      EdgeClosesCycle(g, id, d);
    }
    ScanFindsTargets(rows, deps, id);
  }

  lemma {:induction false} ScanFindsTargets(rows: Rows, entries: seq<string>, id: string)
    ensures forall d | Scan(rows, entries, id) == Blocked(NotFound(d)) :: d in Targets(entries) && d !in rows
    ensures Scan(rows, entries, id) != Blocked(InCycle)
  {
    if entries != [] { ScanFindsTargets(rows, entries[1..], id); }
  }

  /** Ids that no row has and no row mentions: what `uuid4` gives. */
  ghost predicate Unused(rows: Rows, newIds: seq<string>) {
    forall f | f in newIds :: f !in rows && f != "" && Stripped(f) &&
                              forall j | j in rows :: f !in rows[j].request.dependsOn
  }

  ghost predicate NormalRows(rows: Rows) {
    forall j | j in rows :: Normal(rows[j].request.dependsOn)
  }

  /** Everything a plan mentions that is not an item of the batch is already stored. */
  ghost predicate ExternalsExist(rows: Rows, p: Plan)
    requires p.Planned?
  {
    forall n, d | n in p.deps && d in p.deps[n] && d !in p.ids :: d in rows
  }

  ghost predicate NoKeyReuse(rows: Rows, specs: map<string, Item>) {
    && (forall n, j | n in specs && specs[n].key.Some? && j in rows :: rows[j].idempotencyKey != specs[n].key)
    && (forall n, m | n in specs && m in specs && n != m && specs[n].key.Some? :: specs[n].key != specs[m].key)
  }
}
