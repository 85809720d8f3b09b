/** Every run of Core's control requests, with I/O failures, crashes and restarts at any point. */
module ControlRuns {
  import opened Wrappers
  import opened Sequences
  import opened ControlPlane

  /** A policy chosen for an application and plugin: when, with what switch and grants, and whether
      the developer mode was switched off since. */
  datatype Choice = Choice(at: nat, enabled: bool, grants: seq<string>, revoked: bool)

  /** Core, and history: when the copy of a plugin last published under an id was published, and the
      last choice for each application and plugin. */
  datatype World = World(
    core: Model, published: map<string, nat>, chosen: map<(string, string), Choice>, clock: nat)

  datatype Step =
    | Register(id: string, path: string, name: string, level: nat, wrote: bool)
    | RemoveApplication(id: string, wrote: bool)
    | SetDeveloperMode(enabled: bool, wrote: bool)
    | SetPolicy(seen: map<string, Plugin>, app: string, plugin: string, on: bool, grants: seq<string>, wrote: bool)
    | SetConfig(seen: map<string, Plugin>, app: string, plugin: string, config: map<string, string>, wrote: bool)
    | Install(copy: Plugin, installEnd: InstallEnd)
    | Remove(id: string, removeEnd: RemoveEnd)
    | Crash
    | Restart(swept: set<nat>)

  predicate Enabled(w: World, step: Step) {
    match step
    case Install(copy, end) => PossibleInstall(w.core, copy, end)
    case Remove(id, end) => PossibleRemove(w.core, id, end)
    case Crash => true
    case Restart(_) => w.core.state.None?
    case _ => w.core.state.Some?
  }

  predicate Publishes(end: InstallEnd) {
    end.CrashedAfterPublish? || end.CleanupFailed? || end.Installed?
  }

  /** The state a request asks for; None when it is refused. */
  function Requested(st: DaemonState, step: Step): Option<DaemonState> {
    match step
    case Register(id, path, name, level, _) => RegisterNext(st, id, path, name, level)
    case RemoveApplication(id, _) => RemoveApplicationNext(st, id)
    case SetDeveloperMode(enabled, _) => Some(DeveloperModeNext(st, enabled))
    case SetPolicy(seen, app, plugin, on, grants, _) => SetPolicyNext(st, seen, app, plugin, on, grants)
    case SetConfig(seen, app, plugin, config, _) => SetConfigNext(st, seen, app, plugin, config)
    case _ => None
  }

  predicate Wrote(step: Step) {
    match step
    case Register(_, _, _, _, wrote) => wrote
    case RemoveApplication(_, wrote) => wrote
    case SetDeveloperMode(_, wrote) => wrote
    case SetPolicy(_, _, _, _, _, wrote) => wrote
    case SetConfig(_, _, _, _, wrote) => wrote
    case _ => false
  }

  /** Core after a step, exactly as the service's methods leave it. */
  function CoreAfter(m: Model, step: Step): Model
    requires Enabled(World(m, map[], map[], 0), step)
  {
    match step
    case Install(copy, end) => AfterInstall(m, copy, end)
    case Remove(id, end) => AfterRemove(m, id, end)
    case Crash => m.(state := None)
    case Restart(swept) => AfterRestart(m, swept)
    case SetDeveloperMode(enabled, wrote) =>
      if m.state.value.developerMode == enabled then m
      else AfterWrite(m, Requested(m.state.value, step), wrote)
    case _ => AfterWrite(m, Requested(m.state.value, step), Wrote(step))
  }

  /** The request is accepted and reaches the disk; one for the mode in force writes nothing. */
  predicate Stores(w: World, step: Step) {
    && w.core.state.Some? && Requested(w.core.state.value, step).Some? && Wrote(step)
    && (step.SetDeveloperMode? ==> step.enabled != w.core.state.value.developerMode)
  }

  predicate SwitchesOff(w: World, step: Step) {
    Stores(w, step) && step.SetDeveloperMode? && !step.enabled
  }

  function Revoked(chosen: map<(string, string), Choice>): map<(string, string), Choice> {
    map k | k in chosen :: chosen[k].(revoked := true)
  }

  function Next(w: World, step: Step): World
    requires Enabled(w, step)
  {
    var core := CoreAfter(w.core, step);
    match step
    case Install(copy, end) =>
      if Publishes(end) then World(core, w.published[copy.id := w.clock + 1], w.chosen, w.clock + 1)
      else w.(core := core)
    case SetPolicy(_, app, plugin, on, grants, _) =>
      if Stores(w, step) then w.(core := core, chosen := w.chosen[(app, plugin) := Choice(w.clock, on, grants, false)])
      else w.(core := core)
    case SetDeveloperMode(_, _) =>
      if SwitchesOff(w, step) then w.(core := core, chosen := Revoked(w.chosen)) else w.(core := core)
    case _ => w.(core := core)
  }

  // ---- What stored grants may be ----

  /** The rules of one stored policy. */
  ghost predicate PolicyInv(level: nat, developerMode: bool, policy: PluginPolicy) {
    && NoDuplicates(policy.grants)
    && (forall g :: g in policy.grants ==> g in CapabilitiesForSupportLevel(level, developerMode))
    && (policy.enabled ==> level > 0)
  }

  ghost predicate StateInv(st: DaemonState) {
    forall a :: a in st.applications ==>
      st.applications[a].supportLevel <= 2 &&
      forall p :: p in st.applications[a].plugins ==>
        PolicyInv(st.applications[a].supportLevel, st.developerMode, st.applications[a].plugins[p])
  }

  lemma RestIsDistinct(grants: seq<string>)
    requires NoDuplicates(grants) && grants != []
    ensures grants[0] !in grants[1..] && NoDuplicates(grants[1..])
  {
    var rest := grants[1..];
    forall i, j | 0 <= i < j < |rest|
      ensures rest[i] != rest[j]
    {
      assert grants[i + 1] != grants[j + 1];
    }
  }

  lemma ConsIsDistinct(first: string, rest: seq<string>)
    requires first !in rest && NoDuplicates(rest)
    ensures NoDuplicates([first] + rest)
  {
  }

  lemma {:induction false} WithoutKeepsDistinct(grants: seq<string>, grant: string)
    requires NoDuplicates(grants)
    ensures NoDuplicates(Without(grants, grant))
  {
    if grants != [] {
      RestIsDistinct(grants);
      WithoutKeepsDistinct(grants[1..], grant);
      ConsIsDistinct(grants[0], Without(grants[1..], grant));
      assert [] + Without(grants[1..], grant) == Without(grants[1..], grant);
    }
  }

  lemma DefaultIsFine(level: nat, developerMode: bool)
    ensures PolicyInv(level, developerMode, DEFAULT_POLICY)
  {
  }

  lemma SetPluginKeepsInv(st: DaemonState, app: string, plugin: string, policy: PluginPolicy)
    requires StateInv(st) && app in st.applications
    requires PolicyInv(st.applications[app].supportLevel, st.developerMode, policy)
    ensures StateInv(SetPlugin(st, app, plugin, policy))
  {
  }

  lemma DeveloperModeKeepsInv(st: DaemonState, enabled: bool)
    requires StateInv(st)
    ensures StateInv(DeveloperModeNext(st, enabled))
  {
    var next := DeveloperModeNext(st, enabled);
    forall a, p | a in next.applications && p in next.applications[a].plugins
      ensures PolicyInv(next.applications[a].supportLevel, enabled, next.applications[a].plugins[p])
    {
      var policy := st.applications[a].plugins[p];
      assert PolicyInv(st.applications[a].supportLevel, st.developerMode, policy);
      WithoutKeepsDistinct(policy.grants, UNSAFE);
    }
  }

  lemma RequestKeepsStateInv(st: DaemonState, step: Step)
    requires StateInv(st) && Requested(st, step).Some?
    ensures StateInv(Requested(st, step).value)
  {
    match step
    case SetDeveloperMode(enabled, _) => DeveloperModeKeepsInv(st, enabled);
    case SetPolicy(seen, app, plugin, on, grants, _) =>
      SetPluginKeepsInv(st, app, plugin, PluginPolicy(on, grants, StoredPolicy(st, app, plugin).config));
    case SetConfig(seen, app, plugin, config, _) =>
      SetPluginKeepsInv(st, app, plugin, StoredPolicy(st, app, plugin).(config := config));
    case _ =>
  }

  // ---- When grants may be in force ----

  /** A policy that lets its plugin do anything. */
  predicate Empowers(policy: PluginPolicy) {
    policy.enabled || policy.grants != []
  }

  /** The policy is the one chosen: the same switch, and the chosen grants in their order, without the
      unsafe one if the developer mode was switched off since. */
  predicate Carries(policy: PluginPolicy, choice: Choice) {
    && policy.enabled == choice.enabled
    && policy.grants == if choice.revoked then Without(choice.grants, UNSAFE) else choice.grants
  }

  /** A policy that empowers its plugin is the one chosen, after the installed copy was published. */
  predicate Earned(
    policy: PluginPolicy, app: string, plugin: string, installed: map<string, Plugin>,
    published: map<string, nat>, chosen: map<(string, string), Choice>)
  {
    Empowers(policy) ==>
      && (app, plugin) in chosen && Carries(policy, chosen[(app, plugin)])
      && (plugin in installed ==> plugin in published && published[plugin] <= chosen[(app, plugin)].at)
  }

  ghost predicate Timely(st: DaemonState, installed: map<string, Plugin>, published: map<string, nat>,
                         chosen: map<(string, string), Choice>) {
    forall a, p :: a in st.applications && p in st.applications[a].plugins ==>
      Earned(st.applications[a].plugins[p], a, p, installed, published, chosen)
  }

  /** A request other than a policy change for the pair keeps the policy's switch and grants but for
      the unsafe grant, or leaves it without power. */
  lemma RequestKeepsPolicy(st: DaemonState, step: Step, a: string, p: string)
    requires Requested(st, step).Some?
    requires step.SetPolicy? ==> (a, p) != (step.app, step.plugin)
    ensures var before, after := StoredPolicy(st, a, p), StoredPolicy(Requested(st, step).value, a, p);
            Empowers(after) ==>
              && a in st.applications && p in st.applications[a].plugins && Empowers(before)
              && after.enabled == before.enabled
              && after.grants == if step.SetDeveloperMode? && !step.enabled then Without(before.grants, UNSAFE)
                                 else before.grants
  {
    assert Without([], UNSAFE) == [];
  }

  // ---- The invariant ----

  ghost predicate Inv(w: World) {
    && (w.core.state.Some? ==> w.core.state.value == w.core.persisted)
    && StateInv(w.core.persisted)
    && Timely(w.core.persisted, w.core.installed, w.published, w.chosen)
    && (forall p :: p in w.published ==> w.published[p] <= w.clock)
    && (forall p :: p in w.core.installed ==> p in w.published)
  }

  lemma StoresEarned(w: World, step: Step, a: string, p: string)
    requires Inv(w) && Enabled(w, step) && Stores(w, step)
    ensures Earned(StoredPolicy(Requested(w.core.state.value, step).value, a, p), a, p,
                   w.core.installed, w.published, Next(w, step).chosen)
  {
    var st := w.core.state.value;
    if step.SetPolicy? && (a, p) == (step.app, step.plugin) {
    } else {
      RequestKeepsPolicy(st, step, a, p);
      if a in st.applications && p in st.applications[a].plugins {
        assert Earned(st.applications[a].plugins[p], a, p, w.core.installed, w.published, w.chosen);
      }
    }
  }

  lemma WriteKeepsInv(w: World, step: Step)
    requires Inv(w) && Enabled(w, step) && Stores(w, step)
    ensures Inv(Next(w, step))
  {
    var st := w.core.state.value;
    var next := Requested(st, step).value;
    var v := Next(w, step);
    RequestKeepsStateInv(st, step);
    forall a, p | a in next.applications && p in next.applications[a].plugins
      ensures Earned(next.applications[a].plugins[p], a, p, v.core.installed, v.published, v.chosen)
    {
      StoresEarned(w, step, a, p);
    }
  }

  /** After the reset no application empowers the plugin, so any copy may be published. */
  lemma ResetIsTimely(w: World, id: string, installed: map<string, Plugin>, published: map<string, nat>)
    requires Inv(w) && w.core.state.Some?
    requires installed.Keys <= w.core.installed.Keys + {id}
    requires forall p :: p != id && p in w.published ==> p in published && published[p] == w.published[p]
    ensures StateInv(ResetNext(w.core.persisted, id))
    ensures Timely(ResetNext(w.core.persisted, id), installed, published, w.chosen)
  {
    DefaultIsFine(0, false);
  }

  lemma InstallKeepsInv(w: World, copy: Plugin, end: InstallEnd)
    requires Inv(w) && Enabled(w, Install(copy, end))
    ensures Inv(Next(w, Install(copy, end)))
  {
    if !end.StateNotWritten? {
      var v := Next(w, Install(copy, end));
      ResetIsTimely(w, copy.id, v.core.installed, v.published);
    }
  }

  lemma RemoveKeepsInv(w: World, id: string, end: RemoveEnd)
    requires Inv(w) && Enabled(w, Remove(id, end))
    ensures Inv(Next(w, Remove(id, end)))
  {
  }

  lemma StepKeepsInv(w: World, step: Step)
    requires Inv(w) && Enabled(w, step)
    ensures Inv(Next(w, step))
  {
    match step
    case Install(copy, end) => InstallKeepsInv(w, copy, end);
    case Remove(id, end) => RemoveKeepsInv(w, id, end);
    case Crash =>
    case Restart(_) =>
    case _ =>
      if Stores(w, step) {
        WriteKeepsInv(w, step);
      }
  }

  // ---- Whole runs ----

  predicate Follows(w: World, step: Step, v: World) {
    Enabled(w, step) && v == Next(w, step)
  }

  const FRESH := World(Model(Some(DaemonState(false, map[])), DaemonState(false, map[]), map[], []), map[], map[], 0)

  ghost predicate IsRun(ws: seq<World>, steps: seq<Step>) {
    && |ws| == |steps| + 1 && ws[0] == FRESH
    && forall i :: 0 <= i < |steps| ==> Follows(ws[i], steps[i], ws[i + 1])
  }

  lemma {:induction false} RunKeepsInv(ws: seq<World>, steps: seq<Step>, n: nat)
    requires IsRun(ws, steps) && n < |ws|
    ensures Inv(ws[n])
  {
    if n > 0 {
      RunKeepsInv(ws, steps, n - 1);
      assert Follows(ws[n - 1], steps[n - 1], ws[n]);
      StepKeepsInv(ws[n - 1], steps[n - 1]);
    }
  }

  lemma {:induction false} EffectiveIgnoresSupersets(grants: seq<string>, a: set<string>, b: set<string>)
    requires forall g :: g in grants ==> g in b
    ensures Effective(grants, a * b) == Effective(grants, a)
  {
    if grants != [] {
      assert grants[0] in grants && forall g :: g in grants[1..] ==> g in grants;
      EffectiveIgnoresSupersets(grants[1..], a, b);
    }
  }

  /** Main theorem on stored state: at every point of every run, memory equals the state file; no
      policy has a duplicate grant, or one beyond the application's level and the developer mode; no
      Level 0 application has an enabled plugin; so the plan's support-level filter changes nothing. */
  lemma StoredGrantsAreSupported(
    ws: seq<World>, steps: seq<Step>, n: nat, app: string, plugin: string, manifest: set<string>)
    requires IsRun(ws, steps) && n < |ws|
    requires app in ws[n].core.persisted.applications
    requires plugin in ws[n].core.persisted.applications[app].plugins
    ensures var st := ws[n].core.persisted; var a := st.applications[app]; var policy := a.plugins[plugin];
            && (ws[n].core.state.Some? ==> ws[n].core.state.value == st)
            && NoDuplicates(policy.grants)
            && (policy.enabled ==> a.supportLevel > 0)
            && (UNSAFE in policy.grants ==> a.supportLevel == 2 && st.developerMode)
            && Effective(policy.grants, manifest * CapabilitiesForSupportLevel(a.supportLevel, st.developerMode))
               == Effective(policy.grants, manifest)
  {
    RunKeepsInv(ws, steps, n);
    var st := ws[n].core.persisted;
    var a := st.applications[app];
    assert PolicyInv(a.supportLevel, st.developerMode, a.plugins[plugin]);
    EffectiveIgnoresSupersets(a.plugins[plugin].grants, manifest,
                              CapabilitiesForSupportLevel(a.supportLevel, st.developerMode));
  }

  /** Main theorem on installation: whatever failed or crashed, a policy that is enabled or grants
      anything has the switch last chosen for it and exactly the grants last chosen, in their order,
      without the unsafe one if the developer mode was switched off since; and an installed copy was
      published before that choice. */
  lemma GrantsFollowPublication(ws: seq<World>, steps: seq<Step>, n: nat, app: string, plugin: string)
    requires IsRun(ws, steps) && n < |ws|
    ensures var w := ws[n]; var policy := StoredPolicy(w.core.persisted, app, plugin);
            policy.enabled || policy.grants != [] ==>
              && (app, plugin) in w.chosen
              && var choice := w.chosen[(app, plugin)];
              && policy.enabled == choice.enabled
              && policy.grants == (if choice.revoked then Without(choice.grants, UNSAFE) else choice.grants)
              && (plugin in w.core.installed ==>
                    plugin in w.published && w.published[plugin] <= choice.at)
  {
    RunKeepsInv(ws, steps, n);
    var st := ws[n].core.persisted;
    if app in st.applications && plugin in st.applications[app].plugins {
      assert Earned(st.applications[app].plugins[plugin], app, plugin, ws[n].core.installed, ws[n].published,
                    ws[n].chosen);
    }
  }

  /** What `chosen` and `published` record. A choice is recorded by exactly the policy requests that are
      stored, as they were made; it is marked revoked by exactly the steps that switch the developer mode
      off; nothing else changes it. A publication is recorded by exactly the installs that put their copy
      in place. */
  lemma HistoryIsFaithful(w: World, step: Step, app: string, plugin: string)
    requires Enabled(w, step)
    ensures var v := Next(w, step); var key := (app, plugin);
            if step.SetPolicy? && (step.app, step.plugin) == key && Stores(w, step) then
              key in v.chosen && v.chosen[key] == Choice(w.clock, step.on, step.grants, false)
            else
              && (key in v.chosen <==> key in w.chosen)
              && (key in w.chosen ==>
                    v.chosen[key] == if SwitchesOff(w, step) then w.chosen[key].(revoked := true) else w.chosen[key])
    ensures var v := Next(w, step);
            if step.Install? && step.copy.id == plugin && Publishes(step.installEnd) then
              && plugin in v.core.installed && v.core.installed[plugin] == step.copy
              && plugin in v.published && v.published[plugin] == v.clock == w.clock + 1
            else
              && (plugin in v.published <==> plugin in w.published)
              && (plugin in w.published ==> v.published[plugin] == w.published[plugin])
              && (plugin in v.core.installed ==>
                    plugin in w.core.installed && v.core.installed[plugin] == w.core.installed[plugin])
  {
  }

  /** The steps that may end the policy stored for the pair. */
  predicate EndsPolicy(w: World, step: Step, app: string, plugin: string) {
    match step
    case Register(id, _, _, level, _) =>
      Stores(w, step) && id == app && app in w.core.state.value.applications &&
      w.core.state.value.applications[app].supportLevel != level
    case RemoveApplication(id, _) => id == app && Stores(w, step)
    case SetPolicy(_, a, p, _, _, _) => (a, p) == (app, plugin) && Stores(w, step)
    case Install(copy, end) => copy.id == plugin && !end.StateNotWritten?
    case Remove(id, end) => id == plugin && (end.CrashedAfterRemoval? || end.TrashStays? || end.Removed?)
    case _ => false
  }

  lemma RequestStays(w: World, step: Step, app: string, plugin: string)
    requires Stores(w, step) && !EndsPolicy(w, step, app, plugin)
    ensures var before := StoredPolicy(w.core.state.value, app, plugin);
            var after := StoredPolicy(Requested(w.core.state.value, step).value, app, plugin);
            && after.enabled == before.enabled
            && after.grants == if SwitchesOff(w, step) then Without(before.grants, UNSAFE) else before.grants
  {
    assert Without([], UNSAFE) == [];
  }

  lemma InstallStays(m: Model, copy: Plugin, end: InstallEnd, app: string, plugin: string)
    requires PossibleInstall(m, copy, end) && m.state == Some(m.persisted)
    requires copy.id == plugin ==> end.StateNotWritten?
    ensures StoredPolicy(AfterInstall(m, copy, end).persisted, app, plugin) == StoredPolicy(m.persisted, app, plugin)
  {
    ResetTouchesOnlyPlugin(m.persisted, copy.id);
  }

  lemma RemoveStays(m: Model, id: string, end: RemoveEnd, app: string, plugin: string)
    requires PossibleRemove(m, id, end) && m.state == Some(m.persisted)
    requires id == plugin ==> !(end.CrashedAfterRemoval? || end.TrashStays? || end.Removed?)
    ensures StoredPolicy(AfterRemove(m, id, end).persisted, app, plugin) == StoredPolicy(m.persisted, app, plugin)
  {
    ForgetTouchesOnlyPlugin(m.persisted, id);
  }

  /** A policy stays in force: any other step, crash or restart leaves its switch and its grants, but for
      the unsafe grant when the developer mode is switched off. */
  lemma ChosenPolicyStays(w: World, step: Step, app: string, plugin: string)
    requires Inv(w) && Enabled(w, step) && !EndsPolicy(w, step, app, plugin)
    ensures var before := StoredPolicy(w.core.persisted, app, plugin);
            var after := StoredPolicy(Next(w, step).core.persisted, app, plugin);
            && after.enabled == before.enabled
            && after.grants == if SwitchesOff(w, step) then Without(before.grants, UNSAFE) else before.grants
  {
    if Stores(w, step) {
      RequestStays(w, step, app, plugin);
    } else if step.Install? {
      InstallStays(w.core, step.copy, step.installEnd, app, plugin);
    } else if step.Remove? {
      RemoveStays(w.core, step.id, step.removeEnd, app, plugin);
    }
  }

  // ---- Where the code stops short ----

  /** After an install attempt, a restart and a sweep, some copy of the plugin is installed exactly
      when the new one was published, or the old one was there and stayed or came back. A crash
      between the two renames loses both. */
  lemma InstallKeepsACopyExactlyWhen(m: Model, copy: Plugin, end: InstallEnd, swept: set<nat>)
    requires PossibleInstall(m, copy, end)
    ensures copy.id in AfterRestart(AfterInstall(m, copy, end), swept).installed <==>
            Publishes(end) || (copy.id in m.installed && !end.CrashedAfterBackup? && end != PublishFailed(false))
  {
  }

  lemma CrashBetweenRenamesLosesBoth()
    ensures var old1, new2 := Plugin("p", "1.0.0", {}, {}), Plugin("p", "2.0.0", {}, {});
            var m := Model(Some(DaemonState(false, map[])), DaemonState(false, map[]), map["p" := old1], []);
            var after := AfterRestart(AfterInstall(m, new2, CrashedAfterBackup), {0});
            "p" !in after.installed && after.hidden == []
  {
    var hidden := [Plugin("p", "1.0.0", {}, {})];
    assert [] + hidden == hidden && Unswept(hidden, {0}, 1) == [];
  }
}
