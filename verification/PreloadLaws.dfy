/** What a preload plan does, in the terms of its snapshot: memory, placement, and what it may not leave out. */
module PreloadLaws {
  import opened Jobs
  import opened KeepAlive
  import opened Numbers
  import opened Preload
  import opened PreloadSafety

  // Names.

  /** The resident name an alias stands for, or the name itself. */
  ghost predicate CanonicalFor(x: Inputs, model: string, canon: string) {
    (model, canon) in x.state.alias || (canon == model && forall e | e in x.state.alias :: e.0 != model)
  }

  lemma CanonicalForIs(x: Inputs, model: string, canon: string)
    requires DistinctAliases(x.state.alias) && CanonicalFor(x, model, canon)
    ensures Canonical(x.state.alias, model) == canon
  {
    CanonicalIs(x.state.alias, model);
  }

  /** The alias entered first for a resident name. */
  lemma {:induction false} FirstAliasIs(alias: seq<(string, string)>, name: string, i: nat)
    requires i < |alias| && alias[i].1 == name && forall k | 0 <= k < i :: alias[k].1 != name
    ensures FirstAlias(alias, name) == alias[i].0
  {
    if i > 0 { FirstAliasIs(alias[1..], name, i - 1); }
  }

  lemma {:induction false} NoAliasIs(alias: seq<(string, string)>, name: string)
    requires forall e | e in alias :: e.1 != name
    ensures FirstAlias(alias, name) == name
  {
    if alias != [] { NoAliasIs(alias[1..], name); }
  }

  /** Presence: one of the residents is the model, its canonical name, or what an alias of either stands for. */
  lemma HostHasMeans(h: HostView, model: string, canon: string, x: Inputs)
    requires DistinctAliases(x.state.alias) && CanonicalFor(x, model, canon)
    ensures HostHas(h, model, x.state.alias) <==>
      exists m :: m in h.loaded && m.name != "" &&
        (m.name in {model, canon} || exists e :: e in x.state.alias && e.0 in {model, canon} && e.1 == m.name)
  {
    CanonicalForIs(x, model, canon);
  }

  // Memory.

  /** What the residents take, added up one by one; a size that is not positive does not count. */
  predicate PartialSums(used: seq<int>, loaded: seq<RunningModel>) {
    && |used| == |loaded| + 1 && used[0] == 0
    && forall i | 0 <= i < |loaded| :: used[i + 1] == used[i] + if loaded[i].sizeVram > 0 then loaded[i].sizeVram else 0
  }

  lemma {:induction false} UsedFrom(used: seq<int>, loaded: seq<RunningModel>, i: nat)
    requires PartialSums(used, loaded) && i <= |loaded|
    ensures used[i] + Used(loaded[i..]) == used[|loaded|]
    decreases |loaded| - i
  {
    if i < |loaded| {
      assert loaded[i..][0] == loaded[i] && loaded[i..][1..] == loaded[i + 1..];
      UsedFrom(used, loaded, i + 1);
    }
  }

  predicate TotalIs(x: Inputs, h: HostView, total: Option<int>) {
    && (x.cfg.budget.Some? ==> total == x.cfg.budget)
    && (x.cfg.budget.None? && h.index in x.state.hardCap ==> total == Some(x.state.hardCap[h.index]))
    && (x.cfg.budget.None? && h.index !in x.state.hardCap ==> total == None)
  }

  /** The estimate from the disk, without its fraction. */
  predicate WholePart(n: int, disk: int, ratio: real) {
    var y := disk as real * ratio;
    if y >= 0.0 then n as real <= y < n as real + 1.0 else n as real - 1.0 < y <= n as real
  }

  predicate OnDisk(x: Inputs, name: string) {
    name in x.state.disk && x.state.disk[name] != 0
  }

  /** The size that is expected: observed under the canonical name, or the model's, or guessed from the disk. */
  ghost predicate SizeIs(x: Inputs, model: string, canon: string, size: Option<int>) {
    if canon in x.state.observed then size == Some(x.state.observed[canon])
    else if model in x.state.observed then size == Some(x.state.observed[model])
    else if OnDisk(x, canon) then size.Some? && WholePart(size.value, x.state.disk[canon], x.cfg.diskToVram)
    else if OnDisk(x, model) then size.Some? && WholePart(size.value, x.state.disk[model], x.cfg.diskToVram)
    else size == x.cfg.unknownSize
  }

  lemma WholePartIs(n: int, disk: int, ratio: real)
    requires WholePart(n, disk, ratio)
    ensures FromDisk(disk, ratio) == n
  {
    var y := disk as real * ratio;
    if y >= 0.0 { FloorIs(n, y); } else { FloorIs(-n, -y); }
  }

  lemma FloorIs(n: int, y: real)
    requires n as real <= y < n as real + 1.0
    ensures y.Floor == n
  {
  }

  lemma EstimateFromDisk(x: Inputs, model: string, canon: string, disk: int)
    requires Canonical(x.state.alias, model) == canon && canon !in x.state.observed && model !in x.state.observed
    requires if OnDisk(x, canon) then disk == x.state.disk[canon] else OnDisk(x, model) && disk == x.state.disk[model]
    ensures Estimate(model, x.state, x.cfg) == Some(FromDisk(disk, x.cfg.diskToVram))
  {
  }

  lemma EstimateIs(x: Inputs, model: string, canon: string, size: Option<int>)
    requires DistinctAliases(x.state.alias) && CanonicalFor(x, model, canon) && SizeIs(x, model, canon, size)
    ensures Estimate(model, x.state, x.cfg) == size
  {
    CanonicalForIs(x, model, canon);
    if canon !in x.state.observed && model !in x.state.observed && (OnDisk(x, canon) || OnDisk(x, model)) {
      var disk := if OnDisk(x, canon) then x.state.disk[canon] else x.state.disk[model];
      WholePartIs(size.value, disk, x.cfg.diskToVram);
      EstimateFromDisk(x, model, canon, disk);
    }
  }

  /** What is left of a total once the margin is taken off holds what is used and the new model. */
  predicate InBudget(used: int, size: int, total: int, margin: real) {
    (used + size) as real <= total as real * (1.0 - margin)
  }

  lemma BelowFloor(n: int, y: real)
    ensures n <= y.Floor <==> n as real <= y
  {
  }

  lemma InBudgetIs(used: int, size: int, total: int, cfg: Config)
    ensures InBudget(used, size, total, cfg.margin) <==> used + size <= Ceiling(total, cfg)
  {
    BelowFloor(used + size, total as real * (1.0 - cfg.margin));
  }

  /** Room: within the budget, if the size is positive; a model of unknown size is for a job to run next. */
  lemma RoomMeans(x: Inputs, h: HostView, model: string, canon: string, total: Option<int>, size: Option<int>, used: seq<int>)
    requires DistinctAliases(x.state.alias) && CanonicalFor(x, model, canon)
    requires TotalIs(x, h, total) && SizeIs(x, model, canon, size) && PartialSums(used, h.loaded)
    ensures size.None? ==> (HasRoom(model, h, x) <==> model != "" && exists j :: j in x.demand.nextRunnable && j.model == model && j.supportsPreload)
    ensures size.Some? && total.None? ==> (HasRoom(model, h, x) <==> size.value <= 0)
    ensures size.Some? && total.Some? ==>
              (HasRoom(model, h, x) <==> size.value <= 0 || InBudget(used[|h.loaded|], size.value, total.value, x.cfg.margin))
  {
    EstimateIs(x, model, canon, size);
    UsedFrom(used, h.loaded, 0);
    assert h.loaded[0..] == h.loaded;
    if size.Some? && total.Some? {
      InBudgetIs(used[|h.loaded|], size.value, total.value, x.cfg);
    }
  }

  /**
   * Memory is never overbooked: on a host whose total is known, what is resident and the model that the plan loads
   * stay within the total less the margin.
   */
  lemma LoadStaysInBudget(x: Inputs, i: nat, h: HostView, canon: string, total: int, size: int, used: seq<int>)
    requires DistinctHosts(x.hosts) && DistinctAliases(x.state.alias)
    requires i < |Plan(x)| && Plan(x)[i].op.Preload? && h in x.hosts && h.index == Plan(x)[i].host
    requires TotalIs(x, h, Some(total)) && PartialSums(used, h.loaded)
    requires CanonicalFor(x, Plan(x)[i].model, canon) && SizeIs(x, Plan(x)[i].model, canon, Some(size)) && size > 0
    ensures InBudget(used[|h.loaded|], size, total, x.cfg.margin)
  {
    PlannedIsDue(x, i);
    LoadHasRoom(Plan(x)[i], h, x);
    RoomMeans(x, h, Plan(x)[i].model, canon, Some(total), Some(size), used);
  }

  lemma PlannedIsDue(x: Inputs, i: nat)
    requires DistinctHosts(x.hosts) && i < |Plan(x)|
    ensures Due(Plan(x)[i], x)
  {
    PlanIsSafe(x);
  }

  lemma LoadHasRoom(a: Action, h: HostView, x: Inputs)
    requires DistinctHosts(x.hosts) && a.op.Preload? && Due(a, x) && h in x.hosts && h.index == a.host
    requires Total(h, x.state, x.cfg).Some?
    ensures HasRoom(a.model, h, x)
  {
    var g :| LoadIsDue(a, g, x);
    SameHost(x.hosts, g, h);
  }

  // What a plan may not leave out, and what its actions carry.

  /** The three parts of a plan that is not empty for want of hosts. */
  lemma PlanSplits(x: Inputs) returns (refreshes: seq<Action>, loads: seq<Action>, unloads: seq<Action>)
    requires DistinctHosts(x.hosts) && x.hosts != []
    ensures Plan(x) == refreshes + loads + unloads
    ensures refreshes == Front(AllRefreshes(x.hosts, x), Cap(x.cfg))
    ensures loads == LoadsFrom(FirstJobs(Upcoming(x.demand)), x, refreshes, 0)
    ensures x.cfg.unloadUnused ==>
              unloads == Front(AllUnloads(x.hosts, x, HostsOf(refreshes + loads)), Larger(0, Cap(x.cfg) - |refreshes + loads|))
    ensures AllDue(refreshes, Refresh, x) && AllDue(loads, Preload, x) && AllDue(unloads, Unload, x)
  {
    refreshes := Front(AllRefreshes(x.hosts, x), Cap(x.cfg));
    loads := LoadsFrom(FirstJobs(Upcoming(x.demand)), x, refreshes, 0);
    RefreshPart(x);
    LoadPart(x, refreshes);
    unloads := [];
    if x.cfg.unloadUnused {
      var reserved, room := HostsOf(refreshes + loads), Larger(0, Cap(x.cfg) - |refreshes + loads|);
      unloads := Front(AllUnloads(x.hosts, x, reserved), room);
      UnloadPart(x, reserved, room);
    }
  }

  /** The plan is not full. */
  predicate HasSpare(x: Inputs, actions: seq<Action>) {
    |actions| < 1 || |actions| < x.cfg.maxConcurrent
  }

  /** The host runs nothing and loads nothing. */
  predicate AtRest(h: HostView) {
    h.busyJobs == 0 && h.preloadInflight == ""
  }

  ghost predicate AskedFor(jobs: seq<JobView>, model: string) {
    model != "" && exists j :: j in jobs && j.model == model && j.supportsPreload
  }

  lemma AskedIsModel(jobs: seq<JobView>, model: string)
    ensures AskedFor(jobs, model) <==> model in Models(jobs)
  {
  }

  /** Some job that runs, is next or comes soon asks for the model. */
  ghost predicate Wanted(x: Inputs, model: string) {
    AskedFor(x.demand.processing, model) || AskedFor(x.demand.nextRunnable, model) || AskedFor(x.demand.soon, model)
  }

  lemma WantedIsKept(x: Inputs, model: string)
    ensures Wanted(x, model) <==> model in Keep(x.demand)
  {
    AskedIsModel(x.demand.processing, model);
    AskedIsModel(x.demand.nextRunnable, model);
    AskedIsModel(x.demand.soon, model);
  }

  /** The wanted name under which a resident is kept: its own, or what that stands for, or the alias entered first for it. */
  ghost predicate KeptAs(x: Inputs, name: string, canon: string, first: string, r: string) {
    && name != "" && CanonicalFor(x, name, canon)
    && (if exists e :: e in x.state.alias && e.1 == name
        then exists i :: 0 <= i < |x.state.alias| && x.state.alias[i] == (first, name) && forall k | 0 <= k < i :: x.state.alias[k].1 != name
        else first == name)
    && Wanted(x, r)
    && r == if Wanted(x, name) then name else if Wanted(x, canon) then canon else first
  }

  lemma KeptIsRequested(x: Inputs, name: string, canon: string, first: string, r: string)
    requires DistinctAliases(x.state.alias) && KeptAs(x, name, canon, first, r)
    ensures Requested(name, x) == Some(r)
  {
    CanonicalForIs(x, name, canon);
    WantedIsKept(x, name);
    WantedIsKept(x, canon);
    WantedIsKept(x, r);
    if e :| e in x.state.alias && e.1 == name {
      var i :| 0 <= i < |x.state.alias| && x.state.alias[i] == (first, name) && forall k | 0 <= k < i :: x.state.alias[k].1 != name;
      FirstAliasIs(x.state.alias, name, i);
    } else {
      NoAliasIs(x.state.alias, name);
    }
  }

  /** The jobs to be run next, then soon. */
  function Coming(x: Inputs): seq<JobView> {
    x.demand.nextRunnable + x.demand.soon
  }

  lemma ComingAsked(x: Inputs, model: string)
    requires AskedFor(Coming(x), model)
    ensures KeepAliveFor(model, Coming(x), x.cfg.keepAlive, x.cfg.keepAliveMax).Some?
  {
    var j :| j in Coming(x) && j.model == model && j.supportsPreload;
    RemainingElements(Coming(x), model);
    assert j in Remaining(Coming(x), model);
  }

  lemma {:induction false} HostRefreshIn(loaded: seq<RunningModel>, h: HostView, x: Inputs, m: RunningModel)
    requires m in loaded && RefreshOf(m, h, x).Some?
    ensures RefreshOf(m, h, x).value in HostRefreshes(loaded, h, x)
  {
    if m != loaded[0] {
      HostRefreshIn(loaded[1..], h, x, m);
      if RefreshOf(loaded[0], h, x).Some? {
        assert RefreshOf(m, h, x).value in [RefreshOf(loaded[0], h, x).value] + HostRefreshes(loaded[1..], h, x);
      }
    }
  }

  lemma {:induction false} RefreshIn(hosts: seq<HostView>, x: Inputs, h: HostView, a: Action)
    requires h in hosts && Busy(h) == 0 && a in HostRefreshes(h.loaded, h, x)
    ensures a in AllRefreshes(hosts, x)
  {
    if h != hosts[0] { RefreshIn(hosts[1..], x, h, a); }
  }

  /**
   * A plan with room to spare refreshes every resident of a host at rest that a coming job asks for, under the
   * wanted name and with the keep-alive chosen for it.
   */
  lemma RefreshIsPlanned(x: Inputs, h: HostView, m: RunningModel, canon: string, first: string, r: string)
    requires DistinctHosts(x.hosts) && DistinctAliases(x.state.alias)
    requires h in x.hosts && AtRest(h) && m in h.loaded && KeptAs(x, m.name, canon, first, r) && AskedFor(Coming(x), r)
    requires HasSpare(x, Plan(x))
    ensures var setting := KeepAliveFor(r, Coming(x), x.cfg.keepAlive, x.cfg.keepAliveMax);
            setting.Some? && Action(Refresh, r, h.index, setting.value, "generate") in Plan(x)
  {
    KeptIsRequested(x, m.name, canon, first, r);
    ComingAsked(x, r);
    HostRefreshIn(h.loaded, h, x, m);
    DueIsRefreshed(x, h, RefreshOf(m, h, x).value);
  }

  lemma DueIsRefreshed(x: Inputs, h: HostView, a: Action)
    requires DistinctHosts(x.hosts) && h in x.hosts && Busy(h) == 0 && a in HostRefreshes(h.loaded, h, x) && HasSpare(x, Plan(x))
    ensures a in Plan(x)
  {
    RefreshIn(x.hosts, x, h, a);
    var refreshes, loads, unloads := PlanSplits(x);
    SpareIsAll(AllRefreshes(x.hosts, x), refreshes, Cap(x.cfg));
    InParts(a, refreshes, loads, unloads);
  }

  lemma SpareIsAll(all: seq<Action>, some: seq<Action>, n: nat)
    requires some == Front(all, n) && |some| < n
    ensures some == all
  {
  }

  lemma InParts(a: Action, refreshes: seq<Action>, loads: seq<Action>, unloads: seq<Action>)
    ensures a in refreshes + loads + unloads <==> a in refreshes || a in loads || a in unloads
  {
  }

  /** Where an absent model goes: the lowest host at rest that ran it lately, or else the lowest one at rest; none that cools. */
  ghost predicate GoesTo(x: Inputs, h: HostView, model: string) {
    && h in x.hosts && Open(x, h, model)
    && if exists g :: g in x.hosts && Open(x, g, model) && model in g.recent
       then model in h.recent && forall g | g in x.hosts && Open(x, g, model) && model in g.recent :: h.index <= g.index
       else forall g | g in x.hosts && Open(x, g, model) :: h.index <= g.index
  }

  predicate Open(x: Inputs, h: HostView, model: string) {
    AtRest(h) && (if (model, h.index) in x.state.cooldown then x.state.cooldown[(model, h.index)] else 0.0) <= x.now
  }

  lemma OpenIsIdle(x: Inputs, h: HostView, model: string)
    ensures Open(x, h, model) <==> Idle(h, model, x)
  {
  }

  /** An absent model is placed exactly there, and nowhere if no host is open. */
  lemma AbsentGoesTo(x: Inputs, h: HostView, model: string, inNext: bool)
    requires DistinctHosts(x.hosts) && h in x.hosts && !Resident(model, x)
    ensures PlaceModel(model, x, inNext) == Some(h.index) <==> GoesTo(x, h, model)
  {
    PlacementOfAbsent(model, x, inNext);
    forall g | g in x.hosts ensures Open(x, g, model) <==> Idle(g, model, x) { OpenIsIdle(x, g, model); }
    LowestIs(x, RecentIdle, model, h);
    LowestIs(x, AnyIdle, model, h);
    if Lowest(x.hosts, RecentIdle, model, x).Some? {
      var g := LowestFits(RecentIdle, model, x);
      assert Open(x, g, model) && model in g.recent;
    } else {
      forall g | g in x.hosts && Open(x, g, model) ensures model !in g.recent { assert !Fits(RecentIdle, g, model, x); }
    }
  }

  lemma LowestIs(x: Inputs, w: Want, model: string, h: HostView)
    requires DistinctHosts(x.hosts) && h in x.hosts
    ensures Lowest(x.hosts, w, model, x) == Some(h.index) <==>
            Fits(w, h, model, x) && forall g | g in x.hosts && Fits(w, g, model, x) :: h.index <= g.index
  {
    if Lowest(x.hosts, w, model, x).Some? {
      var g := LowestFits(w, model, x);
      if g.index == h.index { SameHost(x.hosts, g, h); }
    }
  }

  lemma {:induction false} LeastBusyIs(hosts: seq<HostView>, model: string, x: Inputs)
    ensures var r := LeastBusyResident(hosts, model, x);
      && (r.Some? <==> exists h :: h in hosts && HostHas(h, model, x.state.alias))
      && (r.Some? ==> exists h :: h in hosts && HostHas(h, model, x.state.alias) && Busy(h) == r.value)
      && forall h | h in hosts && HostHas(h, model, x.state.alias) :: r.Some? && r.value <= Busy(h)
  {
    if hosts != [] {
      LeastBusyIs(hosts[1..], model, x);
      var rest := LeastBusyResident(hosts[1..], model, x);
      if rest.Some? {
        var h :| h in hosts[1..] && HostHas(h, model, x.state.alias) && Busy(h) == rest.value;
        assert h in hosts;
      }
      assert hosts[0] in hosts;
    }
  }

  /** Some host has the model, but no open host has it or ran it lately. */
  ghost predicate HeldElsewhere(x: Inputs, model: string) {
    && Resident(model, x)
    && forall g | g in x.hosts && Open(x, g, model) :: !HostHas(g, model, x.state.alias) && model !in g.recent
  }

  lemma ElsewhereLooks(x: Inputs, model: string)
    requires HeldElsewhere(x, model)
    ensures Lowest(x.hosts, WarmIdle, model, x).None? && Lowest(x.hosts, RecentIdle, model, x).None?
    ensures Lowest(x.hosts, AnyIdle, model, x).Some? <==> exists g :: g in x.hosts && Open(x, g, model)
    ensures Lowest(x.hosts, ResidentIdle, model, x).Some? <==> exists g :: g in x.hosts && AtRest(g) && HostHas(g, model, x.state.alias)
  {
    forall g | g in x.hosts ensures Open(x, g, model) <==> Idle(g, model, x) { OpenIsIdle(x, g, model); }
    NoneFits(x, WarmIdle, model);
    NoneFits(x, RecentIdle, model);
    SomeFits(x, AnyIdle, model);
    SomeFits(x, ResidentIdle, model);
  }

  /** Such a model goes to the lowest host at rest that has it, cooling or not, if any host is open; and else nowhere. */
  lemma PlacementAtRest(x: Inputs, h: HostView, model: string, inNext: bool)
    requires DistinctHosts(x.hosts) && h in x.hosts && HeldElsewhere(x, model)
    requires exists g :: g in x.hosts && AtRest(g) && HostHas(g, model, x.state.alias)
    ensures PlaceModel(model, x, inNext) == Some(h.index) <==>
      && (exists g :: g in x.hosts && Open(x, g, model))
      && AtRest(h) && HostHas(h, model, x.state.alias)
      && forall g | g in x.hosts && AtRest(g) && HostHas(g, model, x.state.alias) :: h.index <= g.index
  {
    ElsewhereLooks(x, model);
    LowestIs(x, ResidentIdle, model, h);
  }

  /** With every host that has it busy, only a job to run next goes to the lowest open host, and only if all of them are busy enough. */
  lemma PlacementSpillsOver(x: Inputs, h: HostView, model: string, inNext: bool)
    requires DistinctHosts(x.hosts) && h in x.hosts && HeldElsewhere(x, model)
    requires forall g | g in x.hosts && HostHas(g, model, x.state.alias) :: !AtRest(g)
    ensures PlaceModel(model, x, inNext) == Some(h.index) <==>
      && inNext
      && (forall g | g in x.hosts && HostHas(g, model, x.state.alias) ::
            g.busyJobs + (if g.preloadInflight == "" then 0 else 1) >= x.cfg.spilloverBusy)
      && Open(x, h, model) && forall g | g in x.hosts && Open(x, g, model) :: h.index <= g.index
  {
    ElsewhereLooks(x, model);
    OpenLowest(x, h, model);
    LeastBusyIs(x.hosts, model, x);
  }

  lemma OpenLowest(x: Inputs, h: HostView, model: string)
    requires DistinctHosts(x.hosts) && h in x.hosts
    ensures Lowest(x.hosts, AnyIdle, model, x) == Some(h.index) <==>
            Open(x, h, model) && forall g | g in x.hosts && Open(x, g, model) :: h.index <= g.index
  {
    forall g | g in x.hosts ensures Open(x, g, model) <==> Fits(AnyIdle, g, model, x) { OpenIsIdle(x, g, model); }
    LowestIs(x, AnyIdle, model, h);
  }

  lemma NoneFits(x: Inputs, w: Want, model: string)
    requires forall g | g in x.hosts :: !Fits(w, g, model, x)
    ensures Lowest(x.hosts, w, model, x).None?
  {
  }

  lemma SomeFits(x: Inputs, w: Want, model: string)
    ensures Lowest(x.hosts, w, model, x).Some? <==> exists g :: g in x.hosts && Fits(w, g, model, x)
  {
  }

  /** Each load is that of one of the jobs, where its model is placed. */
  lemma {:induction false} LoadsAre(jobs: seq<JobView>, x: Inputs, issued: seq<Action>, loads: nat, a: Action) returns (j: JobView)
    requires a in LoadsFrom(jobs, x, issued, loads)
    ensures j in jobs && PlaceModel(j.model, x, InNext(j.model, x)) == Some(a.host) && a == PreloadOf(j, a.host, x)
  {
    var first := Decided(jobs[0], x, issued, loads);
    if first == Some(a) {
      j := jobs[0];
    } else {
      j := LoadsAre(jobs[1..], x, Snoc(issued, first), if first.None? then loads else loads + 1, a);
    }
  }

  predicate TotalsAreUnknown(x: Inputs) {
    x.cfg.budget.None? && forall g | g in x.hosts :: g.index !in x.state.hardCap
  }

  /** What a plan holds besides leaves room for this load. */
  ghost predicate LeavesRoomFor(x: Inputs, model: string, h: HostView) {
    && HasSpare(x, Plan(x))
    && (forall a | a in Plan(x) && a.host == h.index :: a.op.Unload? || (a.op.Preload? && a.model == model))
    && if TotalsAreUnknown(x)
       then (AskedFor(x.demand.nextRunnable, model) || x.demand.nextRunnable == []) && forall a | a in Plan(x) && a.op.Preload? :: a.model == model
       else HasRoom(model, h, x)
  }

  /**
   * A plan loads every model that a coming job asks for and that is resident nowhere, on the host where it goes, as
   * long as the plan is not full, nothing else is done on that host, and there is room. With no total known there is
   * room for one load only, and if some job is to run next only for such a job.
   */
  lemma LoadIsPlanned(x: Inputs, job: JobView, h: HostView)
    requires DistinctHosts(x.hosts) && job in Coming(x) && job.supportsPreload && job.model != ""
    requires (forall g | g in x.hosts :: !HostHas(g, job.model, x.state.alias)) && GoesTo(x, h, job.model)
    requires LeavesRoomFor(x, job.model, h)
    ensures exists a :: a in Plan(x) && a.op.Preload? && a.model == job.model && a.host == h.index
  {
    var refreshes, loads, unloads := PlanSplits(x);
    var j := FirstFor(x, job);
    NothingLeftOut(FirstJobs(Upcoming(x.demand)), x, refreshes, 0, j, h);
    if exists a :: a in loads && a.model == job.model {
      LoadIsThere(x, refreshes, loads, unloads, job.model, h);
    } else {
      StillLoadable(x, refreshes, loads, unloads, job.model, h);
      assert false;
    }
  }

  lemma FirstFor(x: Inputs, job: JobView) returns (j: JobView)
    requires job in Coming(x) && job.supportsPreload && job.model != ""
    ensures j in FirstJobs(Upcoming(x.demand)) && j.model == job.model
  {
    FirstJobsMeaning(Upcoming(x.demand));
    assert ModelIn(FirstJobs(Upcoming(x.demand)), job.model);
    j :| j in FirstJobs(Upcoming(x.demand)) && j.model == job.model;
  }

  lemma LoadIsThere(x: Inputs, refreshes: seq<Action>, loads: seq<Action>, unloads: seq<Action>, model: string, h: HostView)
    requires DistinctHosts(x.hosts) && Plan(x) == refreshes + loads + unloads
    requires loads == LoadsFrom(FirstJobs(Upcoming(x.demand)), x, refreshes, 0) && AllDue(loads, Preload, x)
    requires !Resident(model, x) && GoesTo(x, h, model) && exists a :: a in loads && a.model == model
    ensures exists a :: a in Plan(x) && a.op.Preload? && a.model == model && a.host == h.index
  {
    var a :| a in loads && a.model == model;
    var j := LoadsAre(FirstJobs(Upcoming(x.demand)), x, refreshes, 0, a);
    AbsentGoesTo(x, h, model, InNext(model, x));
    InParts(a, refreshes, loads, unloads);
  }

  lemma StillLoadable(x: Inputs, refreshes: seq<Action>, loads: seq<Action>, unloads: seq<Action>, model: string, h: HostView)
    requires DistinctHosts(x.hosts) && Plan(x) == refreshes + loads + unloads
    requires AllDue(refreshes, Refresh, x) && AllDue(loads, Preload, x)
    requires (forall g | g in x.hosts :: !HostHas(g, model, x.state.alias)) && GoesTo(x, h, model) && LeavesRoomFor(x, model, h)
    requires forall a | a in loads :: a.model != model
    ensures Loadable(model, h, x, HostsOf(refreshes + loads), |loads| > 0)
  {
    AbsentGoesTo(x, h, model, InNext(model, x));
    OpenIsIdle(x, h, model);
    AskedIsModel(x.demand.nextRunnable, model);
    forall a | a in refreshes || a in loads ensures a in Plan(x) && a.host != h.index { InParts(a, refreshes, loads, unloads); }
    if loads != [] {
      assert loads[0] in loads && loads[0].op.Preload?;
    }
  }

  /** A load keeps the model as long as is chosen for it, or by the configured default if that is nothing, for the kind of the first job that asks. */
  lemma LoadCarries(x: Inputs, i: nat, k: nat)
    requires DistinctHosts(x.hosts) && i < |Plan(x)| && Plan(x)[i].op.Preload? && k < |Coming(x)|
    requires Coming(x)[k].model == Plan(x)[i].model && Coming(x)[k].supportsPreload
    requires forall m | 0 <= m < k :: Coming(x)[m].model != Plan(x)[i].model || !Coming(x)[m].supportsPreload
    ensures var a, setting := Plan(x)[i], KeepAliveFor(Plan(x)[i].model, Coming(x), x.cfg.keepAlive, x.cfg.keepAliveMax);
      && setting.Some?
      && a.keepAlive == (if setting.value == Number(0.0) then x.cfg.keepAlive else setting.value)
      && a.kind == (if Coming(x)[k].kind == "" then "generate" else Coming(x)[k].kind)
  {
    var a := Plan(x)[i];
    var refreshes, loads, unloads := PlanSplits(x);
    InParts(a, refreshes, loads, unloads);
    assert a in loads;
    var j := LoadsAre(FirstJobs(Upcoming(x.demand)), x, refreshes, 0, a);
    FirstJobsMeaning(Upcoming(x.demand));
    FirstIsFirst(Upcoming(x.demand), j, k);
    assert Coming(x)[k] in Coming(x);
    ComingAsked(x, a.model);
  }

  lemma {:induction false} FirstIsFirst(jobs: seq<JobView>, j: JobView, k: nat)
    requires j in FirstJobs(jobs) && k < |jobs| && jobs[k].model == j.model && jobs[k].supportsPreload && j.model != ""
    requires forall m | 0 <= m < k :: jobs[m].model != j.model || !jobs[m].supportsPreload
    ensures j == jobs[k]
  {
    var before, last := jobs[..|jobs| - 1], jobs[|jobs| - 1];
    FirstJobsMeaning(before);
    if k < |jobs| - 1 {
      assert before[k] in before;
      FirstIsFirst(before, j, k);
    } else {
      forall o | o in FirstJobs(before) ensures o.model != j.model {
        var m :| 0 <= m < |before| && before[m] == o;
      }
    }
  }

  /** A host at rest whose residents nothing asks for, by their names or first aliases, gets an unload if nothing else is done there. */
  lemma UnloadIsPlanned(x: Inputs, h: HostView, m: RunningModel, first: string)
    requires DistinctHosts(x.hosts) && x.cfg.unloadUnused && h in x.hosts && AtRest(h) && m in h.loaded && m.name != ""
    requires first == FirstAlias(x.state.alias, m.name)
    requires !Wanted(x, m.name) && m.name !in x.demand.storeWide && !Wanted(x, first) && first !in x.demand.storeWide
    requires HasSpare(x, Plan(x)) && forall a | a in Plan(x) && a.host == h.index :: a.op.Unload?
    ensures exists a :: a in Plan(x) && a.op.Unload? && a.host == h.index
  {
    var refreshes, loads, unloads := PlanSplits(x);
    WantedIsKept(x, m.name);
    WantedIsKept(x, first);
    forall a | a in refreshes || a in loads ensures a in Plan(x) && a.host != h.index {
      InParts(a, refreshes, loads, unloads);
    }
    var reserved := HostsOf(refreshes + loads);
    FirstUnusedIs(h.loaded, x);
    var a := UnloadOf(FirstUnused(h.loaded, x).value, h, x);
    UnloadIn(x.hosts, x, reserved, h);
    SpareIsAll(AllUnloads(x.hosts, x, reserved), unloads, Larger(0, Cap(x.cfg) - |refreshes + loads|));
    InParts(a, refreshes, loads, unloads);
  }

  lemma {:induction false} UnloadIn(hosts: seq<HostView>, x: Inputs, reserved: set<int>, h: HostView)
    requires h in hosts && Busy(h) == 0 && h.index !in reserved && FirstUnused(h.loaded, x).Some?
    ensures UnloadOf(FirstUnused(h.loaded, x).value, h, x) in AllUnloads(hosts, x, reserved)
  {
    if h != hosts[0] { UnloadIn(hosts[1..], x, reserved, h); }
  }
}
