/** Kahn's sort over the named items of one batch. */
module Topology {
  import opened Graphs
  import opened Text

  datatype SortError =
    | DuplicateNames
    | SelfReference(name: string)
    | DependencyCycle(involving: seq<string>)

  datatype SortResult = Sorted(order: seq<string>) | Rejected(error: SortError)

  function EntriesOf(deps: map<string, seq<string>>, name: string): seq<string> {
    if name in deps then deps[name] else []
  }

  /** The entries that name another item of the batch, stripped, in order and with repetitions. */
  function Local(entries: seq<string>, names: set<string>): seq<string> {
    if entries == [] then []
    else
      var d := Strip(entries[|entries| - 1]);
      Local(entries[..|entries| - 1], names) + (if d != "" && d in names then [d] else [])
  }

  lemma {:induction false} LocalStaysInBatch(entries: seq<string>, names: set<string>)
    ensures Elements(Local(entries, names)) <= names
  {
    if entries != [] { LocalStaysInBatch(entries[..|entries| - 1], names); }
  }

  /** Every item's own list of entries that name items of the batch. */
  ghost function LocalMap(names: set<string>, deps: map<string, seq<string>>): (r: map<string, seq<string>>)
    ensures r.Keys == names
  {
    map n | n in names :: Local(EntriesOf(deps, n), names)
  }

  /** Item to the items of the batch it depends on. */
  ghost function BatchGraph(names: seq<string>, deps: map<string, seq<string>>): Graph<string> {
    GraphOf(LocalMap(Elements(names), deps))
  }

  ghost function GraphOf(local: map<string, seq<string>>): Graph<string> {
    map n | n in local :: Elements(local[n])
  }

  /** How many entries are still waiting, that is, not among `done`. */
  function Waiting(entries: seq<string>, done: set<string>): (k: nat)
    ensures k == 0 <==> forall d | d in entries :: d in done
    ensures k <= |entries|
  {
    if entries == [] then 0
    else Waiting(entries[..|entries| - 1], done) + (if entries[|entries| - 1] in done then 0 else 1)
  }

  lemma {:induction false} WaitingNone(entries: seq<string>)
    ensures Waiting(entries, {}) == |entries|
  {
    if entries != [] { WaitingNone(entries[..|entries| - 1]); }
  }

  lemma {:induction false} WaitingLess(entries: seq<string>, done: set<string>, n: string)
    requires n !in done
    ensures Waiting(entries, done + {n}) == Waiting(entries, done) - Times(entries, n)
  {
    if entries != [] {
      WaitingLess(entries[..|entries| - 1], done, n);
    }
  }

  /** How often `d` occurs. */
  function Times(entries: seq<string>, d: string): nat {
    if entries == [] then 0
    else Times(entries[..|entries| - 1], d) + (if entries[|entries| - 1] == d then 1 else 0)
  }

  /** `incoming` and `edges` record exactly the entries of `local`, repetitions included. */
  ghost predicate Tally(names: set<string>, local: map<string, seq<string>>, incoming: map<string, int>, edges: map<string, seq<string>>)
    requires local.Keys == names
  {
    && incoming.Keys == names && edges.Keys == names
    && (forall n | n in names :: incoming[n] == |local[n]|)
    && (forall d, n {:trigger Times(edges[d], n)} | d in names ::
          Times(edges[d], n) == if n in names then Times(local[n], d) else 0)
  }

  lemma TallyAdd(names: set<string>, local: map<string, seq<string>>, n: string, heard: seq<string>, d: string,
                 incoming: map<string, int>, edges: map<string, seq<string>>)
    requires local.Keys == names && n in names && d in names
    requires Tally(names, local[n := heard], incoming, edges)
    ensures Tally(names, local[n := heard + [d]], incoming[n := incoming[n] + 1], edges[d := edges[d] + [n]])
  {
    var incoming', edges' := incoming[n := incoming[n] + 1], edges[d := edges[d] + [n]];
    assert incoming'.Keys == names && edges'.Keys == names;
    forall e, m | e in names
      ensures Times(edges'[e], m) == if m in names then Times(local[n := heard + [d]][m], e) else 0
    {
      TallyCell(names, local, n, heard, d, incoming, edges, e, m);
    }
  }

  lemma TallyCell(names: set<string>, local: map<string, seq<string>>, n: string, heard: seq<string>, d: string,
                  incoming: map<string, int>, edges: map<string, seq<string>>, e: string, m: string)
    requires local.Keys == names && n in names && d in names && e in names
    requires Tally(names, local[n := heard], incoming, edges)
    ensures Times(edges[d := edges[d] + [n]][e], m) == if m in names then Times(local[n := heard + [d]][m], e) else 0
  {
    assert Times(edges[e], m) == if m in names then Times(local[n := heard][m], e) else 0;
    TallyAddAt(edges[e], if m in names then local[n := heard][m] else [], n, d, m, e);
  }

  lemma TallyAddAt(children: seq<string>, entries: seq<string>, n: string, d: string, m: string, e: string)
    ensures Times(children + [n], m) == Times(children, m) + (if m == n then 1 else 0)
    ensures Times(entries + [d], e) == Times(entries, e) + (if e == d then 1 else 0)
  {
    TimesSnoc(children, n, m);
    TimesSnoc(entries, d, e);
  }

  lemma TimesSnoc(s: seq<string>, x: string, y: string)
    ensures Times(s + [x], y) == Times(s, y) + (if x == y then 1 else 0)
  {
    assert (s + [x])[..|s|] == s;
  }

  /** The inner loop: counts the entries of one item. `loop` reports an entry that names the item itself. */
  method CountEntries(name: string, entries: seq<string>, names: set<string>, incoming: map<string, int>,
                      edges: map<string, seq<string>>, ghost local: map<string, seq<string>>)
    returns (loop: bool, incoming': map<string, int>, edges': map<string, seq<string>>)
    requires local.Keys == names && name in names
    requires Tally(names, local[name := []], incoming, edges)
    ensures loop <==> name in Local(entries, names)
    ensures !loop ==> Tally(names, local[name := Local(entries, names)], incoming', edges')
  {
    incoming', edges', loop := incoming, edges, false;
    var j := 0;
    while j < |entries|
      invariant 0 <= j <= |entries|
      invariant name !in Local(entries[..j], names)
      invariant Tally(names, local[name := Local(entries[..j], names)], incoming', edges')
    {
      var dep := Strip(entries[j]);
      assert entries[..j + 1][..j] == entries[..j];
      ghost var heard := Local(entries[..j], names);
      if dep == "" {
        assert Local(entries[..j + 1], names) == heard;
      } else if dep == name {
        LocalKeepsPrefix(entries, j + 1, names);
        assert Local(entries[..j + 1], names) == heard + [name];
        assert Local(entries, names)[|heard|] == name;
        loop := true;
        return;
      } else if dep in names {
        TallyAdd(names, local, name, heard, dep, incoming', edges');
        assert Local(entries[..j + 1], names) == heard + [dep];
        edges' := edges'[dep := edges'[dep] + [name]];
        incoming' := incoming'[name := incoming'[name] + 1];
      } else {
        assert Local(entries[..j + 1], names) == heard;
      }
      j := j + 1;
    }
    assert entries[..j] == entries;
  }

  /** What the outer loop has recorded once it has been through the items in `seen`. */
  ghost function Only(local: map<string, seq<string>>, seen: set<string>): (r: map<string, seq<string>>)
    ensures r.Keys == local.Keys
  {
    map n | n in local :: if n in seen then local[n] else []
  }

  lemma OnlyNext(local: map<string, seq<string>>, seen: set<string>, n: string)
    requires n in local && n !in seen
    ensures Only(local, seen)[n := []] == Only(local, seen)
    ensures Only(local, seen)[n := local[n]] == Only(local, seen + {n})
  {
  }

  lemma OnlyAll(local: map<string, seq<string>>, seen: set<string>)
    requires forall n | n in local :: n in seen
    ensures Only(local, seen) == local
  {
  }

  /** `seen` holds the first `i` names. */
  ghost predicate SawFirst(names: seq<string>, i: nat, seen: set<string>) {
    forall k | 0 <= k < |names| :: names[k] in seen <==> k < i
  }

  lemma SawNext(names: seq<string>, i: nat, seen: set<string>)
    requires Distinct(names) && i < |names| && SawFirst(names, i, seen)
    ensures names[i] !in seen && SawFirst(names, i + 1, seen + {names[i]})
  {
  }

  lemma TallyOfNothing(names: set<string>, local: map<string, seq<string>>)
    requires local.Keys == names
    ensures Tally(names, Only(local, {}), map n | n in names :: 0, map n | n in names :: [])
  {
  }

  /** The first two loops of the sort. `loop` holds the first item found to depend on itself, if any. */
  method CountEdges(names: seq<string>, deps: map<string, seq<string>>, ghost local: map<string, seq<string>>)
    returns (loop: seq<string>, incoming: map<string, int>, edges: map<string, seq<string>>)
    requires Distinct(names) && local == LocalMap(Elements(names), deps)
    ensures loop != [] ==> loop == [loop[0]] && loop[0] in local && loop[0] in local[loop[0]]
    ensures loop == [] ==> forall n | n in local :: n !in local[n]
    ensures loop == [] ==> Tally(Elements(names), local, incoming, edges)
  {
    var nameSet := Elements(names);
    incoming, edges := map n | n in nameSet :: 0, map n | n in nameSet :: [];
    loop := [];
    ghost var seen: set<string> := {};
    TallyOfNothing(nameSet, local);
    var i := 0;
    while i < |names|
      invariant 0 <= i <= |names|
      invariant SawFirst(names, i, seen)
      invariant Tally(nameSet, Only(local, seen), incoming, edges)
      invariant forall n | n in local && n in seen :: n !in local[n]
    {
      SawNext(names, i, seen);
      OnlyNext(local, seen, names[i]);
      var self;
      self, incoming, edges :=
        CountEntries(names[i], EntriesOf(deps, names[i]), nameSet, incoming, edges, Only(local, seen));
      if self {
        loop := [names[i]];
        return;
      }
      seen := seen + {names[i]};
      i := i + 1;
    }
    OnlyAll(local, seen);
  }

  lemma {:induction false} LocalKeepsPrefix(entries: seq<string>, k: nat, names: set<string>)
    requires k <= |entries|
    ensures Local(entries[..k], names) <= Local(entries, names)
  {
    if k < |entries| {
      LocalKeepsPrefix(entries[..|entries| - 1], k, names);
      assert entries[..|entries| - 1][..k] == entries[..k];
    } else {
      assert entries[..k] == entries;
    }
  }

  lemma {:induction false} TimesPrefix(s: seq<string>, k: nat, x: string)
    requires k <= |s|
    ensures Times(s[..k], x) <= Times(s, x)
  {
    if k < |s| {
      TimesPrefix(s[..|s| - 1], k, x);
      assert s[..|s| - 1][..k] == s[..k];
    } else {
      assert s[..k] == s;
    }
  }

  lemma TakeNext(s: seq<string>, k: nat)
    requires k < |s|
    ensures s[..k + 1] == s[..k] + [s[k]]
  {
  }

  lemma TimesNext(s: seq<string>, k: nat)
    requires k < |s|
    ensures forall c :: Times(s[..k + 1], c) == Times(s[..k], c) + (if c == s[k] then 1 else 0)
    ensures 0 < Times(s[..k + 1], s[k]) <= Times(s, s[k])
  {
    TakeNext(s, k);
    forall c ensures Times(s[..k + 1], c) == Times(s[..k], c) + (if c == s[k] then 1 else 0) {
      TimesSnoc(s[..k], s[k], c);
    }
    TimesPrefix(s, k + 1, s[k]);
  }

  /** `incoming` counts what each item waits for; `front` is what waits for nothing and is not done. */
  ghost predicate Counts(local: map<string, seq<string>>, incoming: map<string, int>, done: set<string>, front: set<string>) {
    && incoming.Keys == local.Keys
    && (forall n | n in local :: incoming[n] == Waiting(local[n], done))
    && (forall n | n in local :: n in done + front <==> incoming[n] == 0)
    && done !! front
  }

  /** The counters once the children in `freed` have been released, one by one, after `n` was ordered. */
  ghost predicate Counted(local: map<string, seq<string>>, done: set<string>, freed: seq<string>, incoming: map<string, int>) {
    && incoming.Keys == local.Keys
    && (forall c | c in local :: incoming[c] == Waiting(local[c], done) - Times(freed, c))
  }

  /** The queue holds what waits for nothing any more. */
  ghost predicate Queued(done: set<string>, incoming: map<string, int>, ready: seq<string>) {
    && (forall c | c in incoming :: (c in done || c in ready) <==> incoming[c] == 0)
    && Distinct(ready) && Elements(ready) <= incoming.Keys && Elements(ready) !! done
  }

  ghost predicate Releasing(local: map<string, seq<string>>, done: set<string>, n: string, freed: seq<string>,
                            incoming: map<string, int>, ready: seq<string>) {
    Counted(local, done, freed, incoming) && Queued(done + {n}, incoming, ready)
  }

  /** A child that is still to be released waits for `n`. */
  lemma ChildWaits(local: map<string, seq<string>>, done: set<string>, n: string, children: seq<string>, k: nat,
                   incoming: map<string, int>, ready: seq<string>)
    requires k < |children| && Releasing(local, done, n, children[..k], incoming, ready)
    requires n !in done && forall c :: Times(children, c) == if c in local then Times(local[c], n) else 0
    ensures children[k] in local && incoming[children[k]] > 0
  {
    TimesNext(children, k);
    if children[k] in local { WaitingLess(local[children[k]], done, n); }
  }

  lemma CountOneLess(local: map<string, seq<string>>, done: set<string>, freed: seq<string>, child: string, incoming: map<string, int>)
    requires Counted(local, done, freed, incoming) && child in local
    ensures Counted(local, done, freed + [child], incoming[child := incoming[child] - 1])
  {
    forall c ensures Times(freed + [child], c) == Times(freed, c) + (if c == child then 1 else 0) {
      TimesSnoc(freed, child, c);
    }
  }

  lemma QueueIfFree(done: set<string>, incoming: map<string, int>, ready: seq<string>, child: string)
    requires Queued(done, incoming, ready) && child in incoming && incoming[child] > 0
    ensures var left := incoming[child] - 1;
            Queued(done, incoming[child := left], if left == 0 then ready + [child] else ready)
  {
    DistinctSnoc(ready, child);
  }

  lemma ReleaseOne(local: map<string, seq<string>>, done: set<string>, n: string, freed: seq<string>, child: string,
                   incoming: map<string, int>, ready: seq<string>)
    requires Releasing(local, done, n, freed, incoming, ready) && child in local && incoming[child] > 0
    ensures var left := incoming[child] - 1;
            Releasing(local, done, n, freed + [child], incoming[child := left], if left == 0 then ready + [child] else ready)
  {
    CountOneLess(local, done, freed, child, incoming);
    QueueIfFree(done + {n}, incoming, ready, child);
  }

  lemma AllReleased(local: map<string, seq<string>>, done: set<string>, n: string, children: seq<string>,
                    incoming: map<string, int>, ready: seq<string>)
    requires Releasing(local, done, n, children, incoming, ready)
    requires n !in done && forall c :: Times(children, c) == if c in local then Times(local[c], n) else 0
    ensures Counts(local, incoming, done + {n}, Elements(ready))
  {
    forall c | c in local ensures incoming[c] == Waiting(local[c], done + {n}) {
      WaitingLess(local[c], done, n);
    }
  }

  /** The loop over the children of the item `n` that has just been ordered. */
  method ReleaseChildren(n: string, children: seq<string>, incoming: map<string, int>, ready: seq<string>,
                         ghost local: map<string, seq<string>>, ghost done: set<string>)
    returns (incoming': map<string, int>, ready': seq<string>)
    requires n in local && n !in done && incoming.Keys == local.Keys
    requires forall c :: Times(children, c) == if c in local then Times(local[c], n) else 0
    requires forall c | c in local :: incoming[c] == Waiting(local[c], done)
    requires forall c | c in local :: (c in done + {n} || c in ready) <==> incoming[c] == 0
    requires Distinct(ready) && Elements(ready) <= local.Keys && Elements(ready) !! done + {n}
    ensures Distinct(ready') && Elements(ready') <= local.Keys
    ensures Counts(local, incoming', done + {n}, Elements(ready'))
  {
    incoming', ready' := incoming, ready;
    var k := 0;
    while k < |children|
      invariant 0 <= k <= |children|
      invariant Releasing(local, done, n, children[..k], incoming', ready')
    {
      var child := children[k];
      ChildWaits(local, done, n, children, k, incoming', ready');
      ReleaseOne(local, done, n, children[..k], child, incoming', ready');
      TakeNext(children, k);
      incoming' := incoming'[child := incoming'[child] - 1];
      if incoming'[child] == 0 {
        ready' := ready' + [child];
      }
      k := k + 1;
    }
    assert children[..k] == children;
    AllReleased(local, done, n, children, incoming', ready');
  }

  /** Following dependencies from `n` can lead into a cycle. */
  ghost predicate LeadsToCycle(g: Graph<string>, n: string) {
    exists m :: Reaches(g, n, m) && OnCycle(g, m)
  }

  /** Every dependency of an ordered item is ordered before it. */
  ghost predicate DependenciesFirst(local: map<string, seq<string>>, ordered: seq<string>) {
    forall k, d | 0 <= k < |ordered| && ordered[k] in local && d in local[ordered[k]] :: d in ordered[..k]
  }

  /** An item that was never ordered leads to a cycle among such items. */
  lemma StuckLeadsToCycle(local: map<string, seq<string>>, done: set<string>, n: string)
    requires forall m | m in local && m !in done :: exists d :: d in local[m] && d in local && d !in done
    requires n in local && n !in done
    ensures LeadsToCycle(GraphOf(local), n)
  {
    var g := GraphOf(local);
    var stuck := set m | m in local && m !in done && Reaches(g, n, m);
    ReachesSelf(g, n);
    assert n in stuck;
    forall m | m in stuck ensures m in g && g[m] * stuck != {} {
      var d :| d in local[m] && d in local && d !in done;
      ReachesSnoc(g, n, m, d);
      assert d in g[m] * stuck;
    }
    var c := StuckSetHasCycle(g, stuck);
  }

  /** An ordered item does not lead to a cycle. */
  lemma OrderedAvoidsCycles(local: map<string, seq<string>>, ordered: seq<string>, n: string)
    requires Distinct(ordered) && DependenciesFirst(local, ordered) && n in ordered
    ensures !LeadsToCycle(GraphOf(local), n)
  {
    var g := GraphOf(local);
    var safe := map a | a in Elements(ordered) && a in local :: g[a];
    if LeadsToCycle(g, n) {
      var m :| Reaches(g, n, m) && OnCycle(g, m);
      var p :| Connects(g, p, n, m);
      var s := iset a | a in ordered;
      ClosedUnderPath(g, s, p);
      var q :| |q| >= 2 && Connects(g, q, m, m);
      PathStaysInside(g, safe, s, q);
      assert Connects(safe, q, m, m);
      assert OnCycle(safe, m);
      forall a, b | Edge(safe, a, b) ensures exists i, j :: 0 <= i < j < |ordered| && ordered[i] == b && ordered[j] == a {
        var j :| 0 <= j < |ordered| && ordered[j] == a;
        var i :| 0 <= i < j && ordered[..j][i] == b;
      }
      TargetsFirstIsAcyclic(safe, ordered);
    }
  }

  lemma {:induction false} PathStaysInside(g: Graph<string>, part: Graph<string>, s: iset<string>, p: seq<string>)
    requires forall a, b | a in s && Edge(g, a, b) :: b in s && Edge(part, a, b)
    requires IsPath(g, p) && p[0] in s
    ensures IsPath(part, p)
  {
    if |p| > 1 {
      assert Edge(g, p[0], p[1]);
      PathStaysInside(g, part, s, p[1..]);
      forall i, j | 0 <= i && j == i + 1 && j < |p| ensures Edge(part, p[i], p[j]) {
        if i > 0 { assert Edge(part, p[1..][i - 1], p[1..][j - 1]); }
      }
    }
  }

  /** The names that are not among `done`, in their own order. */
  function Left(names: seq<string>, done: set<string>): (r: seq<string>)
    ensures forall n :: n in r <==> n in names && n !in done
  {
    if names == [] then []
    else (if names[0] in done then [] else [names[0]]) + Left(names[1..], done)
  }

  /** The names with nothing incoming, in their own order. */
  function Ready(names: seq<string>, incoming: map<string, int>): (r: seq<string>)
    requires Elements(names) <= incoming.Keys
    ensures forall n :: n in r <==> n in names && incoming[n] == 0
    ensures Distinct(names) ==> Distinct(r)
  {
    if names == [] then []
    else
      assert names[0] in Elements(names);
      assert Elements(names[1..]) <= Elements(names);
      (if incoming[names[0]] == 0 then [names[0]] else []) + Ready(names[1..], incoming)
  }

  lemma NothingDoneYet(names: set<string>, local: map<string, seq<string>>, incoming: map<string, int>,
                       edges: map<string, seq<string>>, front: set<string>)
    requires local.Keys == names && Tally(names, local, incoming, edges)
    requires front == set n | n in names && incoming[n] == 0
    ensures Counts(local, incoming, {}, front)
  {
    forall n | n in local ensures incoming[n] == Waiting(local[n], {}) { WaitingNone(local[n]); }
  }

  /** What holds between two rounds of the sort. */
  ghost predicate Underway(local: map<string, seq<string>>, incoming: map<string, int>, ordered: seq<string>, ready: seq<string>) {
    && Distinct(ordered) && Distinct(ready)
    && Elements(ordered) <= local.Keys && Elements(ready) <= local.Keys
    && Counts(local, incoming, Elements(ordered), Elements(ready))
    && DependenciesFirst(local, ordered)
  }

  /** What is left when nothing is ready is exactly what leads to a cycle. */
  lemma StuckExactly(local: map<string, seq<string>>, incoming: map<string, int>, ordered: seq<string>, deps: map<string, seq<string>>)
    requires local == LocalMap(local.Keys, deps) && Underway(local, incoming, ordered, [])
    ensures forall n | n in local :: n !in ordered <==> LeadsToCycle(GraphOf(local), n)
  {
    forall n, d | n in local && d in local[n] ensures d in local {
      LocalStaysInBatch(EntriesOf(deps, n), local.Keys);
      assert d in Elements(local[n]);
    }
    forall n | n in local ensures n !in ordered <==> LeadsToCycle(GraphOf(local), n) {
      if n in ordered {
        OrderedAvoidsCycles(local, ordered, n);
      } else {
        StuckLeadsToCycle(local, Elements(ordered), n);
      }
    }
  }

  lemma SortedIsSound(local: map<string, seq<string>>, ordered: seq<string>)
    requires Distinct(ordered) && DependenciesFirst(local, ordered) && Elements(ordered) == local.Keys
    ensures TargetsFirst(GraphOf(local), ordered) && Acyclic(GraphOf(local))
  {
    var g := GraphOf(local);
    forall a, b | Edge(g, a, b) ensures exists i, j :: 0 <= i < j < |ordered| && ordered[i] == b && ordered[j] == a {
      assert a in Elements(ordered);
      var j :| 0 <= j < |ordered| && ordered[j] == a;
      var i :| 0 <= i < j && ordered[..j][i] == b;
    }
    TargetsFirstIsAcyclic(g, ordered);
  }

  lemma OrderFront(local: map<string, seq<string>>, incoming: map<string, int>, ordered: seq<string>, ready: seq<string>)
    requires Underway(local, incoming, ordered, ready) && ready != []
    ensures Distinct(ordered + [ready[0]]) && Distinct(ready[1..])
    ensures Elements(ordered + [ready[0]]) == Elements(ordered) + {ready[0]} <= local.Keys
    ensures |ordered| < |local|
    ensures ready[0] !in ordered && Elements(ready[1..]) <= local.Keys
    ensures Elements(ready[1..]) !! Elements(ordered) + {ready[0]}
    ensures forall c | c in local :: (c in Elements(ordered) + {ready[0]} || c in ready[1..]) <==> incoming[c] == 0
  {
    var n := ready[0];
    FrontElement(ready);
    assert n in Elements(ready) && n !in Elements(ordered);
    DistinctSnoc(ordered, n);
    DistinctSize(ordered + [n]);
    SubsetSize(Elements(ordered + [n]), local.Keys);
  }

  lemma FrontElement(ready: seq<string>)
    requires ready != [] && Distinct(ready)
    ensures Elements(ready) == {ready[0]} + Elements(ready[1..]) && ready[0] !in ready[1..] && Distinct(ready[1..])
  {
    assert ready == [ready[0]] + ready[1..];
  }

  lemma OrderKeepsDependenciesFirst(local: map<string, seq<string>>, ordered: seq<string>, n: string)
    requires DependenciesFirst(local, ordered) && n in local && Waiting(local[n], Elements(ordered)) == 0
    ensures DependenciesFirst(local, ordered + [n])
  {
    var after := ordered + [n];
    forall k, d | 0 <= k < |after| && after[k] in local && d in local[after[k]] ensures d in after[..k] {
      if k == |ordered| {
        assert after[..k] == ordered;
        assert d in Elements(ordered);
      } else {
        assert after[..k] == ordered[..k];
      }
    }
  }

  /** The main loop: order whatever is ready until nothing is. */
  method OrderReady(start: seq<string>, counts: map<string, int>, edges: map<string, seq<string>>, ghost local: map<string, seq<string>>)
    returns (ordered: seq<string>, ghost incoming: map<string, int>)
    requires Tally(local.Keys, local, counts, edges)
    requires Underway(local, counts, [], start)
    ensures Underway(local, incoming, ordered, [])
  {
    ordered, incoming := [], counts;
    var pending, ready := counts, start;
    while ready != []
      invariant incoming == pending
      invariant Underway(local, incoming, ordered, ready)
      decreases |local| - |ordered|
    {
      ghost var done := Elements(ordered);
      var n := ready[0];
      assert n in Elements(ready);
      OrderFront(local, incoming, ordered, ready);
      OrderKeepsDependenciesFirst(local, ordered, n);
      ready := ready[1..];
      ordered := ordered + [n];
      pending, ready := ReleaseChildren(n, edges[n], pending, ready, local, done);
      incoming := pending;
    }
  }

  lemma AllOrdered(names: seq<string>, local: map<string, seq<string>>, ordered: seq<string>)
    requires Distinct(names) && local.Keys == Elements(names) && Distinct(ordered) && Elements(ordered) <= local.Keys
    ensures |ordered| == |names| ==> Elements(ordered) == Elements(names)
    ensures |ordered| != |names| ==> exists n :: n in names && n !in ordered
  {
    DistinctSize(names);
    DistinctSize(ordered);
    SubsetSize(Elements(ordered), local.Keys);
    if forall n | n in names :: n in ordered {
      assert Elements(names) == Elements(ordered);
    }
  }

  method TopologicalNames(names: seq<string>, deps: map<string, seq<string>>) returns (r: SortResult)
    ensures r == Rejected(DuplicateNames) <==> !Distinct(names)
    // Sound: a permutation of the names in which every dependency comes first.
    ensures r.Sorted? ==> Distinct(r.order) && Elements(r.order) == Elements(names)
    ensures r.Sorted? ==> TargetsFirst(BatchGraph(names, deps), r.order)
    // Complete: distinct names are rejected exactly when the batch has a cycle.
    ensures Distinct(names) ==> (r.Sorted? <==> Acyclic(BatchGraph(names, deps)))
    // The error names what is wrong.
    ensures r.Rejected? && r.error.SelfReference? ==>
              Edge(BatchGraph(names, deps), r.error.name, r.error.name)
    ensures r.Rejected? && r.error.DependencyCycle? ==>
              && (forall n :: !Edge(BatchGraph(names, deps), n, n))
              && forall n :: n in r.error.involving <==> n in names && LeadsToCycle(BatchGraph(names, deps), n)
  {
    if |Elements(names)| != |names| {
      if Distinct(names) { DistinctSize(names); }
      return Rejected(DuplicateNames);
    }
    SizeDistinct(names);
    ghost var local := LocalMap(Elements(names), deps);
    ghost var g := GraphOf(local);
    var loop, incoming, edges := CountEdges(names, deps, local);
    if loop != [] {
      ReachesSelf(g, loop[0]);
      EdgeClosesCycle(g, loop[0], loop[0]);
      return Rejected(SelfReference(loop[0]));
    }
    var ready := Ready(names, incoming);
    NothingDoneYet(Elements(names), local, incoming, edges, Elements(ready));
    assert Underway(local, incoming, [], ready) by { assert Elements<string>([]) == {}; }
    var ordered, left := OrderReady(ready, incoming, edges, local);
    AllOrdered(names, local, ordered);
    if |ordered| != |names| {
      StuckExactly(local, left, ordered, deps);
      return Rejected(DependencyCycle(Left(names, Elements(ordered))));
    }
    SortedIsSound(local, ordered);
    return Sorted(ordered);
  }
}
