/** The preload planner: which models to load, keep or drop on which host, from one snapshot. */
module Preload {
  import opened Jobs
  import opened KeepAlive
  import opened Numbers

  datatype RunningModel = RunningModel(name: string, sizeVram: int)

  datatype HostView = HostView(
    index: int, busyJobs: nat, preloadInflight: string, loaded: seq<RunningModel>, recent: seq<string>)

  datatype Demand = Demand(processing: seq<JobView>, nextRunnable: seq<JobView>, soon: seq<JobView>, storeWide: set<string>)

  datatype Config = Config(
    margin: real, budget: Option<int>, diskToVram: real, unknownSize: Option<int>,
    keepAlive: Setting, keepAliveMax: Setting, unloadUnused: bool, maxConcurrent: int, spilloverBusy: int)

  /** `alias` keeps the order in which its entries were added; its keys are distinct. */
  datatype State = State(
    observed: map<string, int>, disk: map<string, int>, alias: seq<(string, string)>,
    hardCap: map<int, int>, cooldown: map<(string, int), real>)

  datatype Op = Preload | Refresh | Unload

  datatype Action = Action(op: Op, model: string, host: int, keepAlive: Setting, kind: string)

  datatype Inputs = Inputs(demand: Demand, hosts: seq<HostView>, state: State, cfg: Config, now: real)

  // Names.

  /** `alias.get(model, model)`. */
  function Canonical(alias: seq<(string, string)>, model: string): string {
    if alias == [] then model else if alias[0].0 == model then alias[0].1 else Canonical(alias[1..], model)
  }

  /** The first alias entered for a resident name, or the name itself. */
  function FirstAlias(alias: seq<(string, string)>, name: string): string {
    if alias == [] then name else if alias[0].1 == name then alias[0].0 else FirstAlias(alias[1..], name)
  }

  function Models(jobs: seq<JobView>): set<string> {
    set j | j in jobs && j.model != "" && j.supportsPreload :: j.model
  }

  function Keep(d: Demand): set<string> {
    Models(d.processing) + Models(d.nextRunnable) + Models(d.soon)
  }

  function StoreWide(d: Demand): set<string> {
    d.storeWide + Keep(d)
  }

  // Hosts.

  predicate Loads(h: HostView, name: string) {
    exists m :: m in h.loaded && m.name == name && name != ""
  }

  /** The model, its canonical name, or an alias that maps to a resident name. */
  predicate HostHas(h: HostView, model: string, alias: seq<(string, string)>) {
    || Loads(h, model)
    || Loads(h, Canonical(alias, model))
    || exists e :: e in alias && (e.0 == model || e.0 == Canonical(alias, model)) && Loads(h, e.1)
  }

  function Busy(h: HostView): nat {
    h.busyJobs + if h.preloadInflight != "" then 1 else 0
  }

  predicate Cooling(model: string, host: int, state: State, now: real) {
    (if (model, host) in state.cooldown then state.cooldown[(model, host)] else 0.0) > now
  }

  function Used(loaded: seq<RunningModel>): nat {
    if loaded == [] then 0 else (if loaded[0].sizeVram > 0 then loaded[0].sizeVram else 0) + Used(loaded[1..])
  }

  function Total(h: HostView, state: State, cfg: Config): Option<int> {
    if cfg.budget.Some? then cfg.budget
    else if h.index in state.hardCap then Some(state.hardCap[h.index])
    else None
  }

  function Ceiling(total: int, cfg: Config): int {
    (total as real * (1.0 - cfg.margin)).Floor
  }

  function Usable(h: HostView, state: State, cfg: Config): int {
    var total := Total(h, state, cfg);
    if total.None? then 0 else Larger(0, Ceiling(total.value, cfg) - Used(h.loaded))
  }

  /** Python's `int()` on a float. */
  function Truncate(x: real): int {
    if x >= 0.0 then x.Floor else -((-x).Floor)
  }

  function FromDisk(disk: int, ratio: real): int {
    Truncate(disk as real * ratio)
  }

  function Lookup(m: map<string, int>, key: string): int {
    if key in m then m[key] else 0
  }

  function Estimate(model: string, state: State, cfg: Config): Option<int> {
    var canon := Canonical(state.alias, model);
    if canon in state.observed then Some(state.observed[canon])
    else if model in state.observed then Some(state.observed[model])
    else
      var disk := if Lookup(state.disk, canon) != 0 then Lookup(state.disk, canon) else Lookup(state.disk, model);
      if disk != 0 then Some(FromDisk(disk, cfg.diskToVram)) else cfg.unknownSize
  }

  // Placement.

  datatype Want = WarmIdle | RecentIdle | AnyIdle | ResidentIdle

  predicate Idle(h: HostView, model: string, x: Inputs) {
    Busy(h) == 0 && !Cooling(model, h.index, x.state, x.now)
  }

  predicate Fits(w: Want, h: HostView, model: string, x: Inputs) {
    match w
    case WarmIdle => Idle(h, model, x) && HostHas(h, model, x.state.alias)
    case RecentIdle => Idle(h, model, x) && model in h.recent
    case AnyIdle => Idle(h, model, x)
    case ResidentIdle => Busy(h) == 0 && HostHas(h, model, x.state.alias)
  }

  /** The lowest index among the hosts that fit. */
  function Lowest(hosts: seq<HostView>, w: Want, model: string, x: Inputs): (r: Option<int>)
    ensures r.Some? ==> exists h :: h in hosts && Fits(w, h, model, x) && h.index == r.value
    ensures forall h | h in hosts && Fits(w, h, model, x) :: r.Some? && r.value <= h.index
  {
    if hosts == [] then None
    else
      var rest := Lowest(hosts[1..], w, model, x);
      assert hosts == [hosts[0]] + hosts[1..];
      if Fits(w, hosts[0], model, x) && (rest.None? || hosts[0].index <= rest.value) then Some(hosts[0].index) else rest
  }

  /** How busy the least busy host is that has the model. */
  function LeastBusyResident(hosts: seq<HostView>, model: string, x: Inputs): Option<nat> {
    if hosts == [] then None
    else
      var rest := LeastBusyResident(hosts[1..], model, x);
      if HostHas(hosts[0], model, x.state.alias) && (rest.None? || Busy(hosts[0]) <= rest.value) then Some(Busy(hosts[0])) else rest
  }

  predicate Resident(model: string, x: Inputs) {
    exists h :: h in x.hosts && HostHas(h, model, x.state.alias)
  }

  function PlaceModel(model: string, x: Inputs, inNext: bool): Option<int> {
    var warm := Lowest(x.hosts, WarmIdle, model, x);
    var recent := Lowest(x.hosts, RecentIdle, model, x);
    var idle := Lowest(x.hosts, AnyIdle, model, x);
    if warm.Some? then warm
    else if recent.Some? then recent
    else if idle.None? then None
    else if Resident(model, x) then
      var idleResident := Lowest(x.hosts, ResidentIdle, model, x);
      if idleResident.Some? then idleResident
      else
        var busy := LeastBusyResident(x.hosts, model, x);
        if inNext && busy.Some? && busy.value >= x.cfg.spilloverBusy then idle else None
    else idle
  }

  lemma LowestFits(w: Want, model: string, x: Inputs) returns (h: HostView)
    requires Lowest(x.hosts, w, model, x).Some?
    ensures h in x.hosts && Fits(w, h, model, x) && Lowest(x.hosts, w, model, x) == Some(h.index)
  {
    h :| h in x.hosts && Fits(w, h, model, x) && h.index == Lowest(x.hosts, w, model, x).value;
  }

  /** Only hosts that run nothing are chosen, and a cooling one only to find the model already there. */
  lemma PlacementIsIdle(model: string, x: Inputs, inNext: bool) returns (h: HostView)
    requires PlaceModel(model, x, inNext).Some?
    ensures h in x.hosts && h.index == PlaceModel(model, x, inNext).value && Busy(h) == 0
    ensures Cooling(model, h.index, x.state, x.now) ==> HostHas(h, model, x.state.alias)
  {
    var place := PlaceModel(model, x, inNext);
    if Lowest(x.hosts, WarmIdle, model, x).Some? {
      h := LowestFits(WarmIdle, model, x);
    } else if Lowest(x.hosts, RecentIdle, model, x).Some? {
      h := LowestFits(RecentIdle, model, x);
    } else if Resident(model, x) && Lowest(x.hosts, ResidentIdle, model, x).Some? {
      h := LowestFits(ResidentIdle, model, x);
    } else {
      h := LowestFits(AnyIdle, model, x);
    }
  }

  /** A model that is resident nowhere goes to the lowest idle host that ran it lately, or else to the lowest idle host. */
  lemma PlacementOfAbsent(model: string, x: Inputs, inNext: bool)
    requires !Resident(model, x)
    ensures PlaceModel(model, x, inNext) ==
            if Lowest(x.hosts, RecentIdle, model, x).Some? then Lowest(x.hosts, RecentIdle, model, x)
            else Lowest(x.hosts, AnyIdle, model, x)
    ensures PlaceModel(model, x, inNext).Some? <==> exists h :: h in x.hosts && Idle(h, model, x)
  {
    forall h | h in x.hosts ensures !Fits(WarmIdle, h, model, x) { assert !HostHas(h, model, x.state.alias); }
    forall h | h in x.hosts && Idle(h, model, x) ensures Lowest(x.hosts, AnyIdle, model, x).Some? {
      assert Fits(AnyIdle, h, model, x);
    }
    if Lowest(x.hosts, RecentIdle, model, x).Some? {
      var h := LowestFits(RecentIdle, model, x);
      assert Fits(AnyIdle, h, model, x);
    } else if Lowest(x.hosts, AnyIdle, model, x).Some? {
      var h := LowestFits(AnyIdle, model, x);
      assert Idle(h, model, x);
    }
  }

  /** A model that an idle host has, not cooling there, stays with the lowest such host. */
  lemma PlacementOfWarm(model: string, x: Inputs, inNext: bool, h: HostView)
    requires h in x.hosts && Idle(h, model, x) && HostHas(h, model, x.state.alias)
    ensures PlaceModel(model, x, inNext) == Lowest(x.hosts, WarmIdle, model, x)
    ensures PlaceModel(model, x, inNext).Some? && PlaceModel(model, x, inNext).value <= h.index
  {
    assert Fits(WarmIdle, h, model, x);
  }

  // Planning.

  function Cap(cfg: Config): nat {
    Larger(1, cfg.maxConcurrent)
  }

  function Upcoming(d: Demand): seq<JobView> {
    d.nextRunnable + d.soon
  }

  function SettingFor(model: string, x: Inputs): Option<Setting> {
    KeepAliveFor(model, Upcoming(x.demand), x.cfg.keepAlive, x.cfg.keepAliveMax)
  }

  ghost predicate DistinctHosts(hosts: seq<HostView>) {
    forall i, j | 0 <= i < j < |hosts| :: hosts[i].index != hosts[j].index
  }

  /** The demanded name under which a resident model is refreshed, if there is one. */
  function Requested(name: string, x: Inputs): Option<string> {
    var keep, canon := Keep(x.demand), Canonical(x.state.alias, name);
    if name == "" || (name !in keep && canon !in keep) then
      var first := FirstAlias(x.state.alias, name);
      if first in keep then Some(first) else None
    else Some(if name in keep then name else canon)
  }

  /** The refresh of a resident model, if it is to be kept alive a while longer. */
  function RefreshOf(m: RunningModel, h: HostView, x: Inputs): Option<Action> {
    var requested := Requested(m.name, x);
    if requested.None? then None
    else
      var setting := SettingFor(requested.value, x);
      if setting.None? then None else Some(Action(Refresh, requested.value, h.index, setting.value, "generate"))
  }

  function Cons(a: Option<Action>, rest: seq<Action>): seq<Action> {
    if a.None? then rest else [a.value] + rest
  }

  function Snoc(actions: seq<Action>, a: Option<Action>): seq<Action> {
    if a.None? then actions else actions + [a.value]
  }

  lemma SnocCons(done: seq<Action>, a: Option<Action>, rest: seq<Action>)
    ensures done + Cons(a, rest) == Snoc(done, a) + rest
  {
  }

  /** The refreshes due on one idle host, in the order in which its models are listed. */
  function HostRefreshes(loaded: seq<RunningModel>, h: HostView, x: Inputs): seq<Action> {
    if loaded == [] then []
    else Cons(RefreshOf(loaded[0], h, x), HostRefreshes(loaded[1..], h, x))
  }

  /** All refreshes due, host by host. */
  function AllRefreshes(hosts: seq<HostView>, x: Inputs): seq<Action> {
    if hosts == [] then []
    else if Busy(hosts[0]) > 0 then AllRefreshes(hosts[1..], x)
    else HostRefreshes(hosts[0].loaded, hosts[0], x) + AllRefreshes(hosts[1..], x)
  }

  function Front(actions: seq<Action>, n: nat): seq<Action> {
    if |actions| <= n then actions else actions[..n]
  }

  lemma FrontOfSum(done: seq<Action>, next: seq<Action>, rest: seq<Action>, n: nat)
    requires |done| < n
    ensures |next| >= n - |done| ==> Front(done + (next + rest), n) == done + Front(next, n - |done|)
    ensures done + (next + rest) == done + next + rest
  {
  }

  lemma RefreshStep(done: seq<Action>, h: HostView, i: nat, x: Inputs)
    requires i < |h.loaded|
    ensures done + HostRefreshes(h.loaded[i..], h, x) ==
            Snoc(done, RefreshOf(h.loaded[i], h, x)) + HostRefreshes(h.loaded[i + 1..], h, x)
  {
    assert h.loaded[i..][0] == h.loaded[i] && h.loaded[i..][1..] == h.loaded[i + 1..];
    SnocCons(done, RefreshOf(h.loaded[i], h, x), HostRefreshes(h.loaded[i + 1..], h, x));
  }

  method RefreshHost(h: HostView, x: Inputs, room: nat) returns (actions: seq<Action>)
    requires room >= 1
    ensures actions == Front(HostRefreshes(h.loaded, h, x), room)
  {
    actions := [];
    ghost var all := HostRefreshes(h.loaded, h, x);
    ghost var toCome := all;
    var i := 0;
    assert h.loaded[0..] == h.loaded;
    while i < |h.loaded|
      invariant 0 <= i <= |h.loaded| && |actions| < room
      invariant toCome == HostRefreshes(h.loaded[i..], h, x) && all == actions + toCome
    {
      RefreshStep(actions, h, i, x);
      actions := Snoc(actions, RefreshOf(h.loaded[i], h, x));
      if |actions| >= room {
        return;
      }
      toCome := HostRefreshes(h.loaded[i + 1..], h, x);
      i := i + 1;
    }
  }

  /** The refresh pass: the first of all refreshes due, as many as the plan may hold. */
  method RefreshPass(x: Inputs) returns (actions: seq<Action>)
    ensures actions == Front(AllRefreshes(x.hosts, x), Cap(x.cfg))
  {
    actions := [];
    ghost var all := AllRefreshes(x.hosts, x);
    ghost var toCome := all;
    var cap := Cap(x.cfg);
    var i := 0;
    assert x.hosts[0..] == x.hosts;
    while i < |x.hosts|
      invariant 0 <= i <= |x.hosts| && |actions| < cap
      invariant toCome == AllRefreshes(x.hosts[i..], x) && all == actions + toCome
    {
      var h := x.hosts[i];
      assert x.hosts[i..][0] == h && x.hosts[i..][1..] == x.hosts[i + 1..];
      toCome := AllRefreshes(x.hosts[i + 1..], x);
      if Busy(h) == 0 {
        var more := RefreshHost(h, x, cap - |actions|);
        FrontOfSum(actions, HostRefreshes(h.loaded, h, x), toCome, cap);
        actions := actions + more;
        if |actions| >= cap {
          return;
        }
      }
      i := i + 1;
    }
  }

  // The preload pass.

  predicate InNext(model: string, x: Inputs) {
    model in Models(x.demand.nextRunnable)
  }

  predicate TotalsUnknown(x: Inputs) {
    forall h | h in x.hosts :: Total(h, x.state, x.cfg).None?
  }

  function HostAt(hosts: seq<HostView>, index: int): (h: HostView)
    requires exists h :: h in hosts && h.index == index
    ensures h in hosts && h.index == index
  {
    if hosts[0].index == index then hosts[0]
    else
      assert hosts == [hosts[0]] + hosts[1..];
      HostAt(hosts[1..], index)
  }

  /** The estimate leaves room on the host; a model of unknown size is loaded only for a job to run next. */
  predicate HasRoom(model: string, h: HostView, x: Inputs) {
    var vram := Estimate(model, x.state, x.cfg);
    if vram.None? then InNext(model, x) else vram.value <= Usable(h, x.state, x.cfg)
  }

  /** With no total known: one load per plan, and not for a job to run soon while some job is to run next. */
  predicate MaySpeculate(model: string, x: Inputs, speculated: bool) {
    !speculated && (InNext(model, x) || x.demand.nextRunnable == [])
  }

  /** The model is loaded on this host if the plan has room. */
  predicate Loadable(model: string, h: HostView, x: Inputs, reserved: set<int>, speculated: bool) {
    && !Resident(model, x)
    && PlaceModel(model, x, InNext(model, x)) == Some(h.index)
    && h.index !in reserved && Busy(h) == 0 && !Cooling(model, h.index, x.state, x.now)
    && if TotalsUnknown(x) then MaySpeculate(model, x, speculated) else HasRoom(model, h, x)
  }

  function FirstSupported(jobs: seq<JobView>): Option<string> {
    if jobs == [] then None else if jobs[0].supportsPreload then Some(jobs[0].model) else FirstSupported(jobs[1..])
  }

  lemma {:induction false} FirstSupportedIsNext(jobs: seq<JobView>)
    ensures FirstSupported(jobs).Some? && FirstSupported(jobs).value != "" ==> FirstSupported(jobs).value in Models(jobs)
  {
    if jobs != [] {
      FirstSupportedIsNext(jobs[1..]);
      assert jobs[0] in jobs && forall j | j in jobs[1..] :: j in jobs;
    }
  }

  function PreloadOf(job: JobView, host: int, x: Inputs): Action {
    var setting := SettingFor(job.model, x);
    Action(Preload, job.model, host, if setting.None? || setting.value == Number(0.0) then x.cfg.keepAlive else setting.value,
           if job.kind == "" then "generate" else job.kind)
  }

  /** The decision about one job. */
  method ConsiderJob(job: JobView, x: Inputs, reserved: set<int>, speculated: bool) returns (a: Option<Action>)
    requires DistinctHosts(x.hosts) && job.model != ""
    ensures a.Some? ==> exists h :: h in x.hosts && Loadable(job.model, h, x, reserved, speculated) && a.value == PreloadOf(job, h.index, x)
    ensures a.None? ==> forall h | h in x.hosts :: !Loadable(job.model, h, x, reserved, speculated)
  {
    var model := job.model;
    if Resident(model, x) {
      return None;
    }
    var inNext := InNext(model, x);
    var place := PlaceModel(model, x, inNext);
    if place.None? || place.value in reserved {
      return None;
    }
    var chosen := PlacementIsIdle(model, x, inNext);
    var host := HostAt(x.hosts, place.value);
    SameHost(x.hosts, host, chosen);
    if Busy(host) > 0 {
      return None;
    }
    if Cooling(model, host.index, x.state, x.now) {
      return None;
    }
    var vram := Estimate(model, x.state, x.cfg);
    if TotalsUnknown(x) {
      if speculated && !inNext {
        return None;
      }
      if !inNext && x.demand.nextRunnable != [] {
        FirstSupportedIsNext(x.demand.nextRunnable);
        if FirstSupported(x.demand.nextRunnable) != Some(model) {
          return None;
        }
      }
      if speculated {
        return None;
      }
    } else {
      if vram.None? {
        if !inNext {
          return None;
        }
      } else if vram.value > Usable(host, x.state, x.cfg) {
        return None;
      }
    }
    return Some(PreloadOf(job, place.value, x));
  }

  lemma SameHost(hosts: seq<HostView>, a: HostView, b: HostView)
    requires DistinctHosts(hosts) && a in hosts && b in hosts && a.index == b.index
    ensures a == b
  {
  }

  predicate ModelIn(jobs: seq<JobView>, model: string) {
    exists j :: j in jobs && j.model == model
  }

  /** The first job of each model that supports preloading. */
  function FirstJobs(jobs: seq<JobView>): seq<JobView> {
    if jobs == [] then []
    else
      var before, j := FirstJobs(jobs[..|jobs| - 1]), jobs[|jobs| - 1];
      if !j.supportsPreload || j.model == "" || ModelIn(before, j.model) then before else before + [j]
  }

  method OrderedJobs(d: Demand) returns (ordered: seq<JobView>)
    ensures ordered == FirstJobs(Upcoming(d))
  {
    var jobs := Upcoming(d);
    var seen: set<string> := {};
    ordered := [];
    var i := 0;
    while i < |jobs|
      invariant 0 <= i <= |jobs| && ordered == FirstJobs(jobs[..i])
      invariant forall m :: m in seen <==> ModelIn(ordered, m)
    {
      var j := jobs[i];
      assert jobs[..i + 1][..i] == jobs[..i];
      if j.supportsPreload && j.model != "" && j.model !in seen {
        assert ModelIn(ordered + [j], j.model) by { assert j in ordered + [j]; }
        assert forall m :: ModelIn(ordered + [j], m) <==> ModelIn(ordered, m) || m == j.model;
        seen := seen + {j.model};
        ordered := ordered + [j];
      }
      i := i + 1;
    }
    assert jobs[..i] == jobs;
  }

  /** One job per model to be run next or soon, and for each such model the first of its jobs. */
  lemma {:induction false} FirstJobsMeaning(jobs: seq<JobView>)
    ensures var r := FirstJobs(jobs);
      && (forall j | j in r :: j in jobs && j.supportsPreload && j.model != "")
      && (forall a, b | 0 <= a < b < |r| :: r[a].model != r[b].model)
      && (forall j | j in jobs && j.supportsPreload && j.model != "" :: ModelIn(r, j.model))
  {
    if jobs != [] {
      var before, last := jobs[..|jobs| - 1], jobs[|jobs| - 1];
      FirstJobsMeaning(before);
      assert jobs == before + [last];
      var r := FirstJobs(before);
      assert forall a | 0 <= a < |r| :: r[a] in r;
      forall j | j in jobs && j.supportsPreload && j.model != "" ensures ModelIn(FirstJobs(jobs), j.model) {
        if j in before {
          var k :| k in r && k.model == j.model;
          assert k in FirstJobs(jobs);
        } else if !ModelIn(r, last.model) {
          assert last in FirstJobs(jobs);
        }
      }
    }
  }

  lemma FirstJobsNamed(jobs: seq<JobView>)
    ensures var r := FirstJobs(jobs); forall i | 0 <= i < |r| :: r[i].model != ""
  {
    FirstJobsMeaning(jobs);
    var r := FirstJobs(jobs);
    forall i | 0 <= i < |r| ensures r[i].model != "" { assert r[i] in r; }
  }

  function HostsOf(actions: seq<Action>): set<int> {
    set a | a in actions :: a.host
  }

  /** The load decided on for a job, after `issued` had been issued, `loads` of them loads. */
  ghost function Decided(job: JobView, x: Inputs, issued: seq<Action>, loads: nat): Option<Action> {
    var place := PlaceModel(job.model, x, InNext(job.model, x));
    if place.Some? && exists h :: h in x.hosts && Loadable(job.model, h, x, HostsOf(issued), loads > 0)
    then Some(PreloadOf(job, place.value, x)) else None
  }

  /** The loads of the pass: job by job, until the plan is full. */
  ghost function LoadsFrom(jobs: seq<JobView>, x: Inputs, issued: seq<Action>, loads: nat): seq<Action> {
    if jobs == [] || |issued| >= Cap(x.cfg) then []
    else
      var a := Decided(jobs[0], x, issued, loads);
      Cons(a, LoadsFrom(jobs[1..], x, Snoc(issued, a), if a.None? then loads else loads + 1))
  }

  /** The decision about the next job, and what is reserved and speculated after it. */
  method ConsiderNext(job: JobView, x: Inputs, ghost issued: seq<Action>, loads: nat, reserved: set<int>, speculated: bool)
    returns (a: Option<Action>, taken: set<int>, guessed: bool)
    requires DistinctHosts(x.hosts) && job.model != ""
    requires reserved == HostsOf(issued) && (TotalsUnknown(x) ==> (speculated <==> loads > 0))
    ensures a == Decided(job, x, issued, loads)
    ensures taken == HostsOf(Snoc(issued, a))
    ensures TotalsUnknown(x) ==> (guessed <==> loads > 0 || a.Some?)
  {
    a := ConsiderJob(job, x, reserved, speculated);
    assert forall h :: Loadable(job.model, h, x, reserved, speculated) == Loadable(job.model, h, x, reserved, loads > 0);
    HostsOfSnoc(issued, a);
    taken := reserved + if a.Some? then {a.value.host} else {};
    guessed := speculated || (a.Some? && TotalsUnknown(x));
  }

  /** The loads decided so far, and those still to come. */
  ghost function WithLoads(jobs: seq<JobView>, i: nat, x: Inputs, issued: seq<Action>, done: seq<Action>): seq<Action>
    requires i <= |jobs|
  {
    done + LoadsFrom(jobs[i..], x, issued, |done|)
  }

  lemma LoadsStep(jobs: seq<JobView>, i: nat, x: Inputs, issued: seq<Action>, done: seq<Action>, a: Option<Action>)
    requires i < |jobs| && |issued| < Cap(x.cfg) && a == Decided(jobs[i], x, issued, |done|)
    ensures WithLoads(jobs, i, x, issued, done) == WithLoads(jobs, i + 1, x, Snoc(issued, a), Snoc(done, a))
  {
    assert jobs[i..][0] == jobs[i] && jobs[i..][1..] == jobs[i + 1..];
    SnocCons(done, a, LoadsFrom(jobs[i + 1..], x, Snoc(issued, a), |Snoc(done, a)|));
  }

  lemma LoadsStart(jobs: seq<JobView>, x: Inputs, issued: seq<Action>)
    ensures WithLoads(jobs, 0, x, issued, []) == LoadsFrom(jobs, x, issued, 0)
  {
    assert jobs[0..] == jobs && [] + LoadsFrom(jobs, x, issued, 0) == LoadsFrom(jobs, x, issued, 0);
  }

  lemma LoadsEnd(jobs: seq<JobView>, i: nat, x: Inputs, issued: seq<Action>, done: seq<Action>)
    requires i <= |jobs| && (i == |jobs| || |issued| >= Cap(x.cfg))
    ensures WithLoads(jobs, i, x, issued, done) == done
  {
    assert done + [] == done;
  }

  method PreloadPass(x: Inputs, refreshes: seq<Action>) returns (preloads: seq<Action>)
    requires DistinctHosts(x.hosts)
    ensures preloads == LoadsFrom(FirstJobs(Upcoming(x.demand)), x, refreshes, 0)
  {
    var ordered := OrderedJobs(x.demand);
    FirstJobsNamed(Upcoming(x.demand));
    LoadsStart(ordered, x, refreshes);
    var reserved := HostsOf(refreshes);
    var speculated := false;
    var cap := Cap(x.cfg);
    preloads := [];
    ghost var issued := refreshes;
    var i := 0;
    while i < |ordered| && |refreshes| + |preloads| < cap
      invariant 0 <= i <= |ordered| && |issued| == |refreshes| + |preloads| && reserved == HostsOf(issued)
      invariant WithLoads(ordered, i, x, issued, preloads) == WithLoads(ordered, 0, x, refreshes, [])
      invariant TotalsUnknown(x) ==> (speculated <==> |preloads| > 0)
    {
      var a: Option<Action>;
      a, reserved, speculated := ConsiderNext(ordered[i], x, issued, |preloads|, reserved, speculated);
      LoadsStep(ordered, i, x, issued, preloads, a);
      issued := Snoc(issued, a);
      preloads := Snoc(preloads, a);
      i := i + 1;
    }
    LoadsEnd(ordered, i, x, issued, preloads);
  }

  lemma HostsOfSnoc(issued: seq<Action>, a: Option<Action>)
    ensures HostsOf(Snoc(issued, a)) == HostsOf(issued) + if a.Some? then {a.value.host} else {}
  {
    if a.Some? { HostsGrow(issued, a.value); }
  }

  lemma HostsGrow(a: seq<Action>, c: Action)
    ensures HostsOf(a + [c]) == HostsOf(a) + {c.host}
  {
    forall h ensures h in HostsOf(a + [c]) <==> h in HostsOf(a) + {c.host} {
      if h == c.host { assert c in a + [c]; }
      if h in HostsOf(a) {
        var e :| e in a && e.host == h;
        assert e in a + [c];
      }
      if h in HostsOf(a + [c]) {
        var e :| e in a + [c] && e.host == h;
        assert e in a || e == c;
      }
    }
  }

  // The unload pass.

  /** Nothing in the store asks for the resident name, nor for its first alias. */
  predicate Unused(m: RunningModel, x: Inputs) {
    && m.name != ""
    && FirstAlias(x.state.alias, m.name) !in StoreWide(x.demand)
    && m.name !in StoreWide(x.demand)
  }

  function UnloadOf(m: RunningModel, h: HostView, x: Inputs): Action {
    Action(Unload, FirstAlias(x.state.alias, m.name), h.index, Number(0.0), "generate")
  }

  function FirstUnused(loaded: seq<RunningModel>, x: Inputs): Option<RunningModel> {
    if loaded == [] then None else if Unused(loaded[0], x) then Some(loaded[0]) else FirstUnused(loaded[1..], x)
  }

  /** The unloads due: one for each idle host that no action of the plan touches and that has an unused model. */
  function AllUnloads(hosts: seq<HostView>, x: Inputs, reserved: set<int>): seq<Action> {
    if hosts == [] then []
    else
      var h, rest := hosts[0], AllUnloads(hosts[1..], x, reserved);
      var unused := FirstUnused(h.loaded, x);
      if Busy(h) > 0 || h.index in reserved || unused.None? then rest else [UnloadOf(unused.value, h, x)] + rest
  }

  method UnloadHost(h: HostView, x: Inputs, reserved: set<int>) returns (a: Option<Action>)
    ensures a == if h.index in reserved || FirstUnused(h.loaded, x).None? then None
                 else Some(UnloadOf(FirstUnused(h.loaded, x).value, h, x))
  {
    var i := 0;
    assert h.loaded[0..] == h.loaded;
    while i < |h.loaded|
      invariant 0 <= i <= |h.loaded|
      invariant h.index in reserved || FirstUnused(h.loaded, x) == FirstUnused(h.loaded[i..], x)
    {
      var m := h.loaded[i];
      assert h.loaded[i..][0] == m && h.loaded[i..][1..] == h.loaded[i + 1..];
      if Unused(m, x) {
        if h.index !in reserved {
          return Some(UnloadOf(m, h, x));
        }
      }
      i := i + 1;
    }
    return None;
  }

  method UnloadPass(x: Inputs, issued: nat, reserved: set<int>) returns (unloads: seq<Action>)
    requires DistinctHosts(x.hosts) && issued <= Cap(x.cfg)
    ensures unloads == if x.cfg.unloadUnused then Front(AllUnloads(x.hosts, x, reserved), Cap(x.cfg) - issued) else []
  {
    unloads := [];
    if !x.cfg.unloadUnused {
      return;
    }
    ghost var all := AllUnloads(x.hosts, x, reserved);
    ghost var toCome := all;
    var taken: set<int> := reserved;
    var i := 0;
    assert x.hosts[0..] == x.hosts;
    while i < |x.hosts|
      invariant 0 <= i <= |x.hosts| && issued + |unloads| <= Cap(x.cfg)
      invariant toCome == AllUnloads(x.hosts[i..], x, reserved) && all == unloads + toCome
      invariant forall k | i <= k < |x.hosts| :: x.hosts[k].index in taken <==> x.hosts[k].index in reserved
    {
      if issued + |unloads| >= Cap(x.cfg) {
        return;
      }
      var h := x.hosts[i];
      assert x.hosts[i..][0] == h && x.hosts[i..][1..] == x.hosts[i + 1..];
      toCome := AllUnloads(x.hosts[i + 1..], x, reserved);
      if Busy(h) == 0 {
        var a := UnloadHost(h, x, taken);
        if a.Some? {
          unloads := unloads + [a.value];
          taken := taken + {h.index};
        }
      }
      i := i + 1;
    }
  }

  // The plan.

  /** A plan is the first refreshes due, then the loads, then the unloads, together never more than the cap. */
  ghost function Plan(x: Inputs): seq<Action> {
    if x.hosts == [] then []
    else
      var refreshes := Front(AllRefreshes(x.hosts, x), Cap(x.cfg));
      var loads := LoadsFrom(FirstJobs(Upcoming(x.demand)), x, refreshes, 0);
      var room := Larger(0, Cap(x.cfg) - |refreshes + loads|);
      refreshes + loads + if x.cfg.unloadUnused then Front(AllUnloads(x.hosts, x, HostsOf(refreshes + loads)), room) else []
  }

  lemma {:induction false} LoadsFit(jobs: seq<JobView>, x: Inputs, issued: seq<Action>, loads: nat)
    requires |issued| <= Cap(x.cfg)
    ensures |issued| + |LoadsFrom(jobs, x, issued, loads)| <= Cap(x.cfg)
  {
    if jobs != [] && |issued| < Cap(x.cfg) {
      var a := Decided(jobs[0], x, issued, loads);
      LoadsFit(jobs[1..], x, if a.None? then issued else issued + [a.value], if a.None? then loads else loads + 1);
    }
  }

  /** The final slice to the cap never removes anything. */
  method PlanActions(x: Inputs) returns (actions: seq<Action>)
    requires DistinctHosts(x.hosts)
    ensures actions == Plan(x) && |actions| <= Cap(x.cfg)
  {
    if x.hosts == [] {
      return [];
    }
    var refreshes := RefreshPass(x);
    LoadsFit(FirstJobs(Upcoming(x.demand)), x, refreshes, 0);
    var loads := PreloadPass(x, refreshes);
    var unloads := UnloadPass(x, |refreshes + loads|, HostsOf(refreshes + loads));
    var issued := refreshes + loads + unloads;
    actions := issued[..if |issued| <= Cap(x.cfg) then |issued| else Cap(x.cfg)];
    assert actions == issued;
  }
}
