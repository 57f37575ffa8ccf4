/** What every preload plan keeps to, whatever the demand, the hosts and the settings. */
module PreloadSafety {
  import opened Jobs
  import opened KeepAlive
  import opened Numbers
  import opened Preload

  /** A refresh keeps a resident model of an idle host that some job to run next or soon asks for. */
  ghost predicate RefreshIsDue(a: Action, h: HostView, m: RunningModel, x: Inputs) {
    && h in x.hosts && h.index == a.host && Busy(h) == 0 && m in h.loaded
    && a.model in Keep(x.demand) && (exists j :: j in Upcoming(x.demand) && j.model == a.model && j.supportsPreload)
    && SettingFor(a.model, x) == Some(a.keepAlive)
    && (a.model == m.name || a.model == Canonical(x.state.alias, m.name) || a.model == FirstAlias(x.state.alias, m.name))
  }

  /** A load puts a model that a job to run next or soon asks for, and that is resident nowhere, on an idle host. */
  ghost predicate LoadIsDue(a: Action, h: HostView, x: Inputs) {
    && h in x.hosts && h.index == a.host && Busy(h) == 0
    && a.model in Models(Upcoming(x.demand))
    && (forall other | other in x.hosts :: !HostHas(other, a.model, x.state.alias))
    && !Cooling(a.model, a.host, x.state, x.now)
    && (TotalsUnknown(x) || HasRoom(a.model, h, x))
  }

  /** An unload drops a resident model of an idle host whose name and first alias nothing asks for. */
  ghost predicate UnloadIsDue(a: Action, h: HostView, m: RunningModel, x: Inputs) {
    && x.cfg.unloadUnused && h in x.hosts && h.index == a.host && Busy(h) == 0 && m in h.loaded && m.name != ""
    && a.model == FirstAlias(x.state.alias, m.name)
    && a.model !in StoreWide(x.demand) && m.name !in StoreWide(x.demand)
  }

  ghost predicate Due(a: Action, x: Inputs) {
    match a.op
    case Refresh => exists h, m :: RefreshIsDue(a, h, m, x)
    case Preload => exists h :: LoadIsDue(a, h, x)
    case Unload => exists h, m :: UnloadIsDue(a, h, m, x)
  }

  ghost predicate AllDue(actions: seq<Action>, op: Op, x: Inputs) {
    forall i | 0 <= i < |actions| :: actions[i].op == op && Due(actions[i], x)
  }

  ghost predicate Apart(actions: seq<Action>, reserved: set<int>) {
    && (forall i | 0 <= i < |actions| :: actions[i].host !in reserved)
    && forall i, j | 0 <= i < j < |actions| :: actions[i].host != actions[j].host
  }

  lemma RefreshIsJustified(m: RunningModel, h: HostView, x: Inputs)
    requires h in x.hosts && Busy(h) == 0 && m in h.loaded && RefreshOf(m, h, x).Some?
    ensures RefreshIsDue(RefreshOf(m, h, x).value, h, m, x)
  {
    var model := Requested(m.name, x).value;
    RemainingElements(Upcoming(x.demand), model);
    var remain := Remaining(Upcoming(x.demand), model);
    assert remain[0] in remain;
  }

  lemma {:induction false} HostRefreshesDue(loaded: seq<RunningModel>, h: HostView, x: Inputs)
    requires h in x.hosts && Busy(h) == 0 && forall m | m in loaded :: m in h.loaded
    ensures AllDue(HostRefreshes(loaded, h, x), Refresh, x)
  {
    if loaded != [] {
      HostRefreshesDue(loaded[1..], h, x);
      var a := RefreshOf(loaded[0], h, x);
      if a.Some? { RefreshIsJustified(loaded[0], h, x); }
    }
  }

  lemma {:induction false} AllRefreshesDue(hosts: seq<HostView>, x: Inputs)
    requires forall h | h in hosts :: h in x.hosts
    ensures AllDue(AllRefreshes(hosts, x), Refresh, x)
  {
    if hosts != [] {
      AllRefreshesDue(hosts[1..], x);
      if Busy(hosts[0]) == 0 { HostRefreshesDue(hosts[0].loaded, hosts[0], x); }
    }
  }

  lemma LoadIsJustified(job: JobView, x: Inputs, issued: seq<Action>, loads: nat)
    requires job in Upcoming(x.demand) && job.supportsPreload && job.model != ""
    requires Decided(job, x, issued, loads).Some?
    ensures var a := Decided(job, x, issued, loads).value;
            a.op.Preload? && Due(a, x) && a.host !in HostsOf(issued) && (TotalsUnknown(x) ==> loads == 0)
  {
    var h :| h in x.hosts && Loadable(job.model, h, x, HostsOf(issued), loads > 0);
    assert LoadIsDue(Decided(job, x, issued, loads).value, h, x);
  }

  /** The loads are due, on hosts that nothing else in the plan touches, and there is one at most when no total is known. */
  lemma {:induction false} LoadsAreDue(jobs: seq<JobView>, x: Inputs, issued: seq<Action>, loads: nat)
    requires forall j | j in jobs :: j in Upcoming(x.demand) && j.supportsPreload && j.model != ""
    ensures AllDue(LoadsFrom(jobs, x, issued, loads), Preload, x)
    ensures Apart(LoadsFrom(jobs, x, issued, loads), HostsOf(issued))
    ensures TotalsUnknown(x) ==> |LoadsFrom(jobs, x, issued, loads)| + (if loads > 0 then 1 else 0) <= 1
  {
    if jobs != [] && |issued| < Cap(x.cfg) {
      var a := Decided(jobs[0], x, issued, loads);
      var rest := LoadsFrom(jobs[1..], x, Snoc(issued, a), if a.None? then loads else loads + 1);
      LoadsAreDue(jobs[1..], x, Snoc(issued, a), if a.None? then loads else loads + 1);
      if a.Some? {
        LoadIsJustified(jobs[0], x, issued, loads);
        HostsGrow(issued, a.value);
        ConsApart(a.value, rest, HostsOf(issued));
        ConsDue(a.value, rest, Preload, x);
      }
    }
  }

  lemma ConsApart(a: Action, rest: seq<Action>, reserved: set<int>)
    requires a.host !in reserved && Apart(rest, reserved + {a.host})
    ensures Apart([a] + rest, reserved)
  {
  }

  lemma ConsDue(a: Action, rest: seq<Action>, op: Op, x: Inputs)
    requires a.op == op && Due(a, x) && AllDue(rest, op, x)
    ensures AllDue([a] + rest, op, x)
  {
  }

  lemma {:induction false} FirstUnusedIs(loaded: seq<RunningModel>, x: Inputs)
    ensures FirstUnused(loaded, x).Some? ==> FirstUnused(loaded, x).value in loaded && Unused(FirstUnused(loaded, x).value, x)
    ensures FirstUnused(loaded, x).None? ==> forall m | m in loaded :: !Unused(m, x)
  {
    if loaded != [] { FirstUnusedIs(loaded[1..], x); }
  }

  lemma {:induction false} AllUnloadsDue(hosts: seq<HostView>, x: Inputs, reserved: set<int>)
    requires x.cfg.unloadUnused && DistinctHosts(hosts) && forall h | h in hosts :: h in x.hosts
    ensures AllDue(AllUnloads(hosts, x, reserved), Unload, x) && Apart(AllUnloads(hosts, x, reserved), reserved)
    ensures forall a | a in AllUnloads(hosts, x, reserved) :: exists h :: h in hosts && h.index == a.host
  {
    if hosts != [] {
      var h, rest := hosts[0], AllUnloads(hosts[1..], x, reserved);
      AllUnloadsDue(hosts[1..], x, reserved);
      FirstUnusedIs(h.loaded, x);
      var unused := FirstUnused(h.loaded, x);
      if !(Busy(h) > 0 || h.index in reserved || unused.None?) {
        var a := UnloadOf(unused.value, h, x);
        assert UnloadIsDue(a, h, unused.value, x);
        ConsDue(a, rest, Unload, x);
        forall i | 0 <= i < |rest| ensures rest[i].host != h.index {
          assert rest[i] in rest;
          var other :| other in hosts[1..] && other.index == rest[i].host;
          var k :| 0 <= k < |hosts[1..]| && hosts[1..][k] == other;
          assert hosts[k + 1].index != hosts[0].index;
        }
      }
    }
  }

  lemma FrontKeeps(actions: seq<Action>, n: nat, op: Op, x: Inputs, reserved: set<int>)
    requires AllDue(actions, op, x)
    ensures AllDue(Front(actions, n), op, x)
    ensures Apart(actions, reserved) ==> Apart(Front(actions, n), reserved)
  {
  }

  lemma RefreshPart(x: Inputs)
    ensures AllDue(Front(AllRefreshes(x.hosts, x), Cap(x.cfg)), Refresh, x)
  {
    AllRefreshesDue(x.hosts, x);
    FrontKeeps(AllRefreshes(x.hosts, x), Cap(x.cfg), Refresh, x, {});
  }

  lemma LoadPart(x: Inputs, refreshes: seq<Action>)
    requires |refreshes| <= Cap(x.cfg)
    ensures var loads := LoadsFrom(FirstJobs(Upcoming(x.demand)), x, refreshes, 0);
      && AllDue(loads, Preload, x) && Apart(loads, HostsOf(refreshes)) && (TotalsUnknown(x) ==> |loads| <= 1)
      && |refreshes + loads| <= Cap(x.cfg)
  {
    FirstJobsMeaning(Upcoming(x.demand));
    LoadsAreDue(FirstJobs(Upcoming(x.demand)), x, refreshes, 0);
    LoadsFit(FirstJobs(Upcoming(x.demand)), x, refreshes, 0);
  }

  lemma UnloadPart(x: Inputs, reserved: set<int>, room: nat)
    requires DistinctHosts(x.hosts) && x.cfg.unloadUnused
    ensures var unloads := Front(AllUnloads(x.hosts, x, reserved), room);
            AllDue(unloads, Unload, x) && Apart(unloads, reserved) && |unloads| <= room
  {
    AllUnloadsDue(x.hosts, x, reserved);
    FrontKeeps(AllUnloads(x.hosts, x, reserved), room, Unload, x, reserved);
  }

  lemma PlanParts(x: Inputs) returns (refreshes: seq<Action>, loads: seq<Action>, unloads: seq<Action>)
    requires DistinctHosts(x.hosts)
    ensures Plan(x) == refreshes + loads + unloads && |refreshes + loads + unloads| <= Cap(x.cfg)
    ensures AllDue(refreshes, Refresh, x) && AllDue(loads, Preload, x) && AllDue(unloads, Unload, x)
    ensures Apart(loads, HostsOf(refreshes)) && Apart(unloads, HostsOf(refreshes + loads))
    ensures TotalsUnknown(x) ==> |loads| <= 1
  {
    refreshes, loads, unloads := [], [], [];
    if x.hosts != [] {
      refreshes := Front(AllRefreshes(x.hosts, x), Cap(x.cfg));
      RefreshPart(x);
      loads := LoadsFrom(FirstJobs(Upcoming(x.demand)), x, refreshes, 0);
      LoadPart(x, refreshes);
      if x.cfg.unloadUnused {
        var reserved, room := HostsOf(refreshes + loads), Cap(x.cfg) - |refreshes + loads|;
        unloads := Front(AllUnloads(x.hosts, x, reserved), room);
        UnloadPart(x, reserved, room);
      }
    }
  }

  /**
   * Every action of a plan is due; no host has two actions unless they are refreshes; without any known
   * total there is one load at most; and the plan is within the cap.
   */
  lemma PlanIsSafe(x: Inputs)
    requires DistinctHosts(x.hosts)
    ensures |Plan(x)| <= 1 || |Plan(x)| <= x.cfg.maxConcurrent
    ensures forall i | 0 <= i < |Plan(x)| :: Due(Plan(x)[i], x)
    ensures forall i, j | 0 <= i < j < |Plan(x)| && Plan(x)[i].host == Plan(x)[j].host :: Plan(x)[i].op.Refresh? && Plan(x)[j].op.Refresh?
    ensures x.cfg.budget.None? && (forall h | h in x.hosts :: h.index !in x.state.hardCap) ==>
              forall i, j | 0 <= i < j < |Plan(x)| :: !(Plan(x)[i].op.Preload? && Plan(x)[j].op.Preload?)
  {
    var refreshes, loads, unloads := PlanParts(x);
    Together(refreshes, loads, unloads, x);
  }

  lemma Together(refreshes: seq<Action>, loads: seq<Action>, unloads: seq<Action>, x: Inputs)
    requires AllDue(refreshes, Refresh, x) && AllDue(loads, Preload, x) && AllDue(unloads, Unload, x)
    requires Apart(loads, HostsOf(refreshes)) && Apart(unloads, HostsOf(refreshes + loads))
    requires TotalsUnknown(x) ==> |loads| <= 1
    ensures var plan := refreshes + loads + unloads;
      && (forall i | 0 <= i < |plan| :: Due(plan[i], x))
      && (forall i, j | 0 <= i < j < |plan| && plan[i].host == plan[j].host :: plan[i].op.Refresh? && plan[j].op.Refresh?)
      && (TotalsUnknown(x) ==> forall i, j | 0 <= i < j < |plan| :: !(plan[i].op.Preload? && plan[j].op.Preload?))
  {
    var plan := refreshes + loads + unloads;
    var r, l := |refreshes|, |refreshes + loads|;
    forall i, j | 0 <= i < j < |plan| && j >= r ensures plan[i].host != plan[j].host {
      if j >= l {
        assert plan[j] == unloads[j - l];
        if i < l { assert plan[i] in refreshes + loads; }
      } else if i < r {
        assert plan[i] in refreshes;
      }
    }
  }

  /** A plan with room to spare left no load out: every job's model is loaded by it, or no host allows it any more. */
  lemma {:induction false} NothingLeftOut(jobs: seq<JobView>, x: Inputs, issued: seq<Action>, loads: nat, job: JobView, h: HostView)
    requires job in jobs && h in x.hosts
    requires |issued + LoadsFrom(jobs, x, issued, loads)| < Cap(x.cfg)
    ensures var more := LoadsFrom(jobs, x, issued, loads);
            (exists a :: a in more && a.model == job.model) ||
            !Loadable(job.model, h, x, HostsOf(issued + more), loads + |more| > 0)
  {
    var a := Decided(jobs[0], x, issued, loads);
    var next, count := Snoc(issued, a), if a.None? then loads else loads + 1;
    var rest := LoadsFrom(jobs[1..], x, next, count);
    SnocCons(issued, a, rest);
    if job != jobs[0] {
      NothingLeftOut(jobs[1..], x, next, count, job, h);
      if loaded: Action :| loaded in rest && loaded.model == job.model {
        assert loaded in Cons(a, rest);
      }
    } else if a.Some? {
      assert a.value in Cons(a, rest);
    } else {
      StaysClosed(job.model, h, x, issued, rest, loads);
    }
  }

  /** A host that did not allow a load does not allow it after more has been issued. */
  lemma StaysClosed(model: string, h: HostView, x: Inputs, issued: seq<Action>, more: seq<Action>, loads: nat)
    requires !Loadable(model, h, x, HostsOf(issued), loads > 0)
    ensures !Loadable(model, h, x, HostsOf(issued + more), loads + |more| > 0)
  {
    HostsWithin(issued, issued + more);
  }

  lemma HostsWithin(a: seq<Action>, b: seq<Action>)
    requires a <= b
    ensures HostsOf(a) <= HostsOf(b)
  {
    forall h | h in HostsOf(a) ensures h in HostsOf(b) {
      var e :| e in a && e.host == h;
      assert e in b;
    }
  }

  // Unloading a demanded model.

  /** A host on which only `name` is resident. */
  function Running(name: string): HostView {
    HostView(0, 0, "", [RunningModel(name, 0)], [])
  }

  /** Some demanded model is one that the planner takes for present where `name` is. */
  ghost predicate Demanded(name: string, x: Inputs) {
    exists model :: model in StoreWide(x.demand) && HostHas(Running(name), model, x.state.alias)
  }

  lemma RunningLoads(name: string, other: string)
    ensures Loads(Running(name), other) <==> name == other && name != ""
  {
    assert RunningModel(name, 0) in Running(name).loaded;
  }

  /** A host has a model exactly when one of its residents by itself would do. */
  lemma HostHasByResident(h: HostView, model: string, alias: seq<(string, string)>)
    ensures HostHas(h, model, alias) <==> exists m :: m in h.loaded && HostHas(Running(m.name), model, alias)
  {
    forall other | Loads(h, other) ensures exists m :: m in h.loaded && m.name == other && Loads(Running(m.name), other) {
      RunningLoads(other, other);
    }
    forall m, other | m in h.loaded && Loads(Running(m.name), other) ensures Loads(h, other) {
      RunningLoads(m.name, other);
    }
  }

  ghost predicate DistinctAliases(alias: seq<(string, string)>) {
    forall i, j | 0 <= i < j < |alias| :: alias[i].0 != alias[j].0
  }

  lemma {:induction false} CanonicalIs(alias: seq<(string, string)>, model: string)
    requires DistinctAliases(alias)
    ensures Canonical(alias, model) == model || (model, Canonical(alias, model)) in alias
    ensures forall e | e in alias && e.0 == model :: Canonical(alias, model) == e.1
  {
    if alias != [] {
      assert forall i | 0 <= i < |alias[1..]| :: alias[1..][i] == alias[i + 1];
      CanonicalIs(alias[1..], model);
      if alias[0].0 == model {
        forall e | e in alias && e.0 == model ensures e == alias[0] {
          var i :| 0 <= i < |alias| && alias[i] == e;
        }
        assert (model, alias[0].1) == alias[0];
      }
    }
  }

  /** Some alias of the name, other than the first, is demanded, or some alias of an alias of it. */
  ghost predicate AliasDemanded(name: string, x: Inputs) {
    var alias := x.state.alias;
    exists e :: e in alias && e.1 == name &&
      ((e.0 != FirstAlias(alias, name) && e.0 in StoreWide(x.demand))
       || exists f :: f in alias && f.1 == e.0 && f.0 in StoreWide(x.demand))
  }

  /**
   * A model the planner unloads is demanded after all, by the planner's own test of presence, exactly when an
   * alias of it other than the first is, or an alias of an alias: only the first alias is looked at.
   */
  lemma UnloadIsDemandedIff(a: Action, h: HostView, m: RunningModel, x: Inputs)
    requires UnloadIsDue(a, h, m, x) && DistinctAliases(x.state.alias)
    ensures Demanded(m.name, x) <==> AliasDemanded(m.name, x)
  {
    var alias, name := x.state.alias, m.name;
    forall other ensures Loads(Running(name), other) <==> name == other { RunningLoads(name, other); }
    if Demanded(name, x) {
      var model :| model in StoreWide(x.demand) && HostHas(Running(name), model, alias);
      CanonicalIs(alias, model);
      if Canonical(alias, model) == name {
        assert (model, name) in alias;
      } else {
        var e :| e in alias && (e.0 == model || e.0 == Canonical(alias, model)) && e.1 == name;
        assert (model, Canonical(alias, model)) in alias;
      }
    }
    if AliasDemanded(name, x) { AliasServes(name, x); }
  }

  lemma AliasServes(name: string, x: Inputs)
    requires name != "" && DistinctAliases(x.state.alias) && AliasDemanded(name, x)
    ensures Demanded(name, x)
  {
    var alias := x.state.alias;
    var e :| e in alias && e.1 == name &&
      ((e.0 != FirstAlias(alias, name) && e.0 in StoreWide(x.demand)) || exists f :: f in alias && f.1 == e.0 && f.0 in StoreWide(x.demand));
    RunningLoads(name, e.1);
    if e.0 in StoreWide(x.demand) {
      assert HostHas(Running(name), e.0, alias);
    } else {
      var f :| f in alias && f.1 == e.0 && f.0 in StoreWide(x.demand);
      CanonicalIs(alias, f.0);
      assert HostHas(Running(name), f.0, alias);
    }
  }

  const TWO_ALIASES := Inputs(
    Demand([JobView("llama:latest", "", Unset, true)], [], [], {}),
    [HostView(0, 0, "", [RunningModel("llama-8b", 0)], [])],
    State(map[], map[], [("llama", "llama-8b"), ("llama:latest", "llama-8b")], map[], map[]),
    Config(0.2, None, 1.0, None, Words("5m"), Words("30m"), true, 1, 1), 0.0)

  lemma TwoAliasesDemand()
    ensures Keep(TWO_ALIASES.demand) == StoreWide(TWO_ALIASES.demand) == {"llama:latest"}
    ensures Upcoming(TWO_ALIASES.demand) == []
  {
    var job := TWO_ALIASES.demand.processing[0];
    assert Models([job]) == {"llama:latest"} by { assert job in [job]; }
    assert Models([]) == {};
  }

  lemma TwoAliasesRefreshNothing()
    ensures AllRefreshes(TWO_ALIASES.hosts, TWO_ALIASES) == []
  {
    TwoAliasesDemand();
    var h := TWO_ALIASES.hosts[0];
    assert HostRefreshes(h.loaded, h, TWO_ALIASES) == [];
    assert AllRefreshes([], TWO_ALIASES) == [];
  }

  lemma TwoAliasesUnload()
    ensures AllUnloads(TWO_ALIASES.hosts, TWO_ALIASES, {}) == [Action(Unload, "llama", 0, Number(0.0), "generate")]
  {
    TwoAliasesDemand();
    assert AllUnloads([], TWO_ALIASES, {}) == [];
  }

  /** A plan that unloads a model that a running job uses under its second alias. */
  lemma UnloadsDemandedModel()
    ensures DistinctHosts(TWO_ALIASES.hosts) && DistinctAliases(TWO_ALIASES.state.alias)
    ensures Demanded("llama-8b", TWO_ALIASES)
    ensures Plan(TWO_ALIASES) == [Action(Unload, "llama", 0, Number(0.0), "generate")]
  {
    var x := TWO_ALIASES;
    TwoAliasesDemand();
    TwoAliasesRefreshNothing();
    TwoAliasesUnload();
    assert "llama:latest" in StoreWide(x.demand) && Canonical(x.state.alias, "llama:latest") == "llama-8b";
    RunningLoads("llama-8b", "llama-8b");
    assert FirstJobs([]) == [] && LoadsFrom([], x, [], 0) == [];
    assert HostsOf([]) == {};
  }

  const ALIAS_OF_ALIAS := Inputs(
    Demand([], [], [], {"M"}),
    [HostView(0, 0, "", [RunningModel("N", 0)], [])],
    State(map[], map[], [("C", "N"), ("M", "C")], map[], map[]),
    Config(0.2, None, 1.0, None, Words("5m"), Words("30m"), true, 1, 1), 0.0)

  lemma AliasOfAliasDemand()
    ensures Keep(ALIAS_OF_ALIAS.demand) == {} && StoreWide(ALIAS_OF_ALIAS.demand) == {"M"}
    ensures Upcoming(ALIAS_OF_ALIAS.demand) == []
  {
    assert Models([]) == {};
  }

  lemma AliasOfAliasUnload()
    ensures AllRefreshes(ALIAS_OF_ALIAS.hosts, ALIAS_OF_ALIAS) == []
    ensures AllUnloads(ALIAS_OF_ALIAS.hosts, ALIAS_OF_ALIAS, {}) == [Action(Unload, "C", 0, Number(0.0), "generate")]
  {
    AliasOfAliasDemand();
    var h := ALIAS_OF_ALIAS.hosts[0];
    assert HostRefreshes(h.loaded, h, ALIAS_OF_ALIAS) == [];
    assert AllRefreshes([], ALIAS_OF_ALIAS) == [];
    assert AllUnloads([], ALIAS_OF_ALIAS, {}) == [];
  }

  /** A plan that unloads a model although the planner's test finds a demanded model present there. */
  lemma UnloadsThroughTwoAliases()
    ensures DistinctHosts(ALIAS_OF_ALIAS.hosts) && DistinctAliases(ALIAS_OF_ALIAS.state.alias)
    ensures "M" in StoreWide(ALIAS_OF_ALIAS.demand) && HostHas(ALIAS_OF_ALIAS.hosts[0], "M", ALIAS_OF_ALIAS.state.alias)
    ensures Plan(ALIAS_OF_ALIAS) == [Action(Unload, "C", 0, Number(0.0), "generate")]
  {
    var x := ALIAS_OF_ALIAS;
    AliasOfAliasDemand();
    AliasOfAliasUnload();
    RunningLoads("N", "N");
    assert Canonical(x.state.alias, "M") == "C" && ("C", "N") in x.state.alias;
    assert FirstJobs([]) == [] && LoadsFrom([], x, [], 0) == [];
    assert HostsOf([]) == {};
  }
}
