/** Core's persisted state and the handlers that change it, with every I/O failure and crash point. */
module ControlPlane {
  import opened Wrappers
  import opened Sequences

  // ---- Data ----

  datatype PluginPolicy = PluginPolicy(enabled: bool, grants: seq<string>, config: map<string, string>)

  const DEFAULT_POLICY := PluginPolicy(false, [], map[])

  datatype Application = Application(
    executablePath: string, displayName: string, supportLevel: nat, plugins: map<string, PluginPolicy>)

  datatype DaemonState = DaemonState(developerMode: bool, applications: map<string, Application>)

  datatype Plugin = Plugin(id: string, version: string, permissions: set<string>, configKeys: set<string>)

  datatype Reply = Done | InvalidParams | Internal | Crashed

  const RENDERER_CAPABILITIES: set<string> := {"renderer.css", "renderer.script"}
  const LEVEL_TWO_CAPABILITIES: set<string> := {
    "renderer.css", "renderer.script", "renderer.dom", "renderer.storage",
    "electron.window", "electron.windowControls", "network.access"}
  const UNSAFE := "runtime.unsafe"

  function CapabilitiesForSupportLevel(level: nat, developerMode: bool): set<string> {
    if level == 1 then RENDERER_CAPABILITIES
    else if level == 2 then LEVEL_TWO_CAPABILITIES + if developerMode then {UNSAFE} else {}
    else {}
  }

  /** The stored grants that are also allowed, in stored order. */
  function Effective(grants: seq<string>, allowed: set<string>): (r: seq<string>)
    ensures forall g :: g in r <==> g in grants && g in allowed
  {
    if grants == [] then []
    else (if grants[0] in allowed then [grants[0]] else []) + Effective(grants[1..], allowed)
  }

  lemma {:induction false} EffectiveKeepsOrder(grants: seq<string>, allowed: set<string>)
    ensures Subsequence(Effective(grants, allowed), grants)
    ensures NoDuplicates(grants) ==> NoDuplicates(Effective(grants, allowed))
  {
    if grants != [] {
      EffectiveKeepsOrder(grants[1..], allowed);
      var rest := Effective(grants[1..], allowed);
      if grants[0] in allowed {
        assert Effective(grants, allowed) == [grants[0]] + rest;
        assert Effective(grants, allowed)[1..] == rest;
      } else if rest != [] {
        assert Effective(grants, allowed) == rest && rest[0] in rest;
      }
    }
  }

  /** Which capability an application of each level may be given. */
  lemma CapabilitiesAre(level: nat, developerMode: bool, grant: string)
    ensures grant in CapabilitiesForSupportLevel(level, developerMode) <==>
            || (level in {1, 2} && grant in {"renderer.css", "renderer.script"})
            || (level == 2 && grant in {"renderer.dom", "renderer.storage", "electron.window",
                                        "electron.windowControls", "network.access"})
            || (level == 2 && developerMode && grant == "runtime.unsafe")
  {
  }

  // ---- What each request makes of the state ----

  function RegisterNext(st: DaemonState, id: string, path: string, name: string, level: nat): Option<DaemonState> {
    if level > 2 then None
    else
      var plugins :=
        if id !in st.applications then map[]
        else if st.applications[id].supportLevel == level then st.applications[id].plugins
        else map p | p in st.applications[id].plugins :: DEFAULT_POLICY;
      Some(st.(applications := st.applications[id := Application(path, name, level, plugins)]))
  }

  function RemoveApplicationNext(st: DaemonState, id: string): Option<DaemonState> {
    if id !in st.applications then None else Some(st.(applications := st.applications - {id}))
  }

  function Purged(app: Application): Application {
    app.(plugins := map p | p in app.plugins :: app.plugins[p].(grants := Without(app.plugins[p].grants, UNSAFE)))
  }

  function DeveloperModeNext(st: DaemonState, enabled: bool): DaemonState {
    if enabled then st.(developerMode := true)
    else DaemonState(false, map a | a in st.applications :: Purged(st.applications[a]))
  }

  function SetPlugin(st: DaemonState, app: string, plugin: string, policy: PluginPolicy): DaemonState
    requires app in st.applications
  {
    var a := st.applications[app];
    st.(applications := st.applications[app := a.(plugins := a.plugins[plugin := policy])])
  }

  function StoredPolicy(st: DaemonState, app: string, plugin: string): PluginPolicy {
    if app in st.applications && plugin in st.applications[app].plugins
    then st.applications[app].plugins[plugin] else DEFAULT_POLICY
  }

  /** `seen` is whatever plugin list the installed-plugin cache served, current or stale. */
  function SetPolicyNext(
    st: DaemonState, seen: map<string, Plugin>, app: string, plugin: string, enabled: bool, grants: seq<string>)
    : Option<DaemonState>
  {
    if app !in st.applications then None
    else
      var level := st.applications[app].supportLevel;
      if enabled && level == 0 then None
      else if plugin !in seen then None
      else if !NoDuplicates(grants) then None
      else if exists g :: g in grants && g !in seen[plugin].permissions then None
      else if exists g :: g in grants && g !in CapabilitiesForSupportLevel(level, st.developerMode) then None
      else Some(SetPlugin(st, app, plugin, PluginPolicy(enabled, grants, StoredPolicy(st, app, plugin).config)))
  }

  function SetConfigNext(
    st: DaemonState, seen: map<string, Plugin>, app: string, plugin: string, config: map<string, string>)
    : Option<DaemonState>
  {
    if app !in st.applications || plugin !in seen || !(config.Keys <= seen[plugin].configKeys) then None
    else Some(SetPlugin(st, app, plugin, StoredPolicy(st, app, plugin).(config := config)))
  }

  /** Before a plugin is published, every application's policy for it becomes the default. */
  function ResetNext(st: DaemonState, plugin: string): DaemonState {
    st.(applications := map a | a in st.applications ::
                          st.applications[a].(plugins := st.applications[a].plugins[plugin := DEFAULT_POLICY]))
  }

  function ForgetNext(st: DaemonState, plugin: string): DaemonState {
    st.(applications := map a | a in st.applications ::
                          st.applications[a].(plugins := st.applications[a].plugins - {plugin}))
  }

  // ---- What the requests mean ----

  predicate SameRegistration(a: Application, b: Application) {
    a.executablePath == b.executablePath && a.displayName == b.displayName && a.supportLevel == b.supportLevel
  }

  /** No application's registration and no policy but the one named differs. */
  ghost predicate OnlyPolicyDiffers(st: DaemonState, next: DaemonState, app: string, plugin: string) {
    && next.developerMode == st.developerMode && next.applications.Keys == st.applications.Keys
    && (forall a :: a in st.applications ==> SameRegistration(st.applications[a], next.applications[a]))
    && forall a, p :: a in st.applications && (a, p) != (app, plugin) ==>
         && (p in next.applications[a].plugins <==> p in st.applications[a].plugins)
         && StoredPolicy(next, a, p) == StoredPolicy(st, a, p)
  }

  /** No application's registration and no policy for another plugin differs. */
  ghost predicate OnlyPluginDiffers(st: DaemonState, next: DaemonState, plugin: string) {
    && next.developerMode == st.developerMode && next.applications.Keys == st.applications.Keys
    && (forall a :: a in st.applications ==> SameRegistration(st.applications[a], next.applications[a]))
    && forall a, p :: a in st.applications && p != plugin ==>
         && (p in next.applications[a].plugins <==> p in st.applications[a].plugins)
         && StoredPolicy(next, a, p) == StoredPolicy(st, a, p)
  }

  /** Only the application named differs. */
  ghost predicate OnlyApplicationDiffers(st: DaemonState, next: DaemonState, id: string) {
    && next.developerMode == st.developerMode && next.applications.Keys == st.applications.Keys + {id}
    && forall a :: a in st.applications && a != id ==> next.applications[a] == st.applications[a]
  }

  /** Enabled and configured as before, with the same grants but, if revoked, the unsafe one. */
  ghost predicate PolicyAfterMode(policy: PluginPolicy, next: PluginPolicy, enabled: bool) {
    && next.enabled == policy.enabled && next.config == policy.config
    && (forall g :: g in next.grants <==> g in policy.grants && (enabled || g != UNSAFE))
    && (UNSAFE !in policy.grants || enabled ==> next.grants == policy.grants)
  }

  /** What a policy request must satisfy. */
  ghost predicate PolicyAllowed(
    st: DaemonState, seen: map<string, Plugin>, app: string, plugin: string, enabled: bool, grants: seq<string>)
  {
    && app in st.applications && (enabled ==> st.applications[app].supportLevel > 0)
    && plugin in seen && NoDuplicates(grants)
    && forall g :: g in grants ==>
         && g in seen[plugin].permissions
         && g in CapabilitiesForSupportLevel(st.applications[app].supportLevel, st.developerMode)
  }

  // ---- Core's memory and disk ----

  /** `state` is None while no process runs; `hidden` are the copies in transaction directories. */
  datatype Model = Model(
    state: Option<DaemonState>, persisted: DaemonState, installed: map<string, Plugin>, hidden: seq<Plugin>)

  /** A request that only writes the state: refused, not written, or written and adopted. */
  function AfterWrite(m: Model, next: Option<DaemonState>, wrote: bool): Model {
    if next.None? || !wrote then m else m.(state := next, persisted := next.value)
  }

  datatype InstallEnd =
    | StateNotWritten
    | CrashedAfterState
    | BackupFailed
    | CrashedAfterBackup
    | PublishFailed(restored: bool)
    | CrashedAfterPublish
    | CleanupFailed
    | Installed

  predicate PossibleInstall(m: Model, plugin: Plugin, end: InstallEnd) {
    m.state.Some? &&
    (end.BackupFailed? || end.CrashedAfterBackup? || end.CleanupFailed? ==> plugin.id in m.installed)
  }

  /** What becomes of the files once the policies are reset. */
  function AfterPublish(m: Model, plugin: Plugin, end: InstallEnd): Model {
    var prior := if plugin.id in m.installed then [m.installed[plugin.id]] else [];
    match end
    case StateNotWritten => m
    case CrashedAfterState => m.(state := None)
    case BackupFailed => m
    case CrashedAfterBackup =>
      m.(state := None, installed := m.installed - {plugin.id}, hidden := m.hidden + prior)
    case PublishFailed(restored) =>
      if restored || prior == [] then m
      else m.(installed := m.installed - {plugin.id}, hidden := m.hidden + prior)
    case CrashedAfterPublish =>
      m.(state := None, installed := m.installed[plugin.id := plugin], hidden := m.hidden + prior)
    case CleanupFailed => m.(installed := m.installed[plugin.id := plugin], hidden := m.hidden + prior)
    case Installed => m.(installed := m.installed[plugin.id := plugin])
  }

  function AfterInstall(m: Model, plugin: Plugin, end: InstallEnd): Model
    requires PossibleInstall(m, plugin, end)
  {
    if end.StateNotWritten? then m
    else
      var next := ResetNext(m.state.value, plugin.id);
      AfterPublish(m.(state := Some(next), persisted := next), plugin, end)
  }

  datatype RemoveEnd =
    | NotStaged
    | CrashedAfterStaging
    | RemovalNotWritten(restored: bool)
    | CrashedAfterRemoval
    | TrashStays
    | Removed

  predicate PossibleRemove(m: Model, id: string, end: RemoveEnd) {
    m.state.Some? && (id !in m.installed ==> end.NotStaged?)
  }

  function AfterRemove(m: Model, id: string, end: RemoveEnd): Model
    requires PossibleRemove(m, id, end)
  {
    if end.NotStaged? then m
    else
      var next := ForgetNext(m.state.value, id);
      var trash := [m.installed[id]];
      match end
      case CrashedAfterStaging => Model(None, m.persisted, m.installed - {id}, m.hidden + trash)
      case RemovalNotWritten(restored) =>
        if restored then m else m.(installed := m.installed - {id}, hidden := m.hidden + trash)
      case CrashedAfterRemoval => Model(None, next, m.installed - {id}, m.hidden + trash)
      case TrashStays => Model(Some(next), next, m.installed - {id}, m.hidden + trash)
      case _ => Model(Some(next), next, m.installed - {id}, m.hidden)
  }

  /** The first n hidden copies without those whose directory could be removed. */
  function Unswept(hidden: seq<Plugin>, swept: set<nat>, n: nat): seq<Plugin>
    requires n <= |hidden|
  {
    if n == 0 then [] else Unswept(hidden, swept, n - 1) + if n - 1 in swept then [] else [hidden[n - 1]]
  }

  /** Startup sweeps each transaction directory it can, and loads the state file. */
  function AfterRestart(m: Model, swept: set<nat>): Model {
    m.(state := Some(m.persisted), hidden := Unswept(m.hidden, swept, |m.hidden|))
  }

  // ---- Core ----

  /** The reply to a request that only writes the state. */
  function WriteReply(next: Option<DaemonState>, wrote: bool): Reply {
    if next.None? then InvalidParams else if wrote then Done else Internal
  }

  function InstallReply(end: InstallEnd): Reply {
    match end
    case Installed => Done
    case CrashedAfterState => Crashed
    case CrashedAfterBackup => Crashed
    case CrashedAfterPublish => Crashed
    case _ => Internal
  }

  function RemoveReply(end: RemoveEnd): Reply {
    match end
    case TrashStays => Done
    case Removed => Done
    case CrashedAfterStaging => Crashed
    case CrashedAfterRemoval => Crashed
    case _ => Internal
  }

  /** No copy but that of the plugin differs. */
  ghost predicate OnlyCopyDiffers(before: map<string, Plugin>, after: map<string, Plugin>, plugin: string) {
    forall p :: p != plugin ==> (p in after <==> p in before) && (p in after ==> after[p] == before[p])
  }

  /** The default policy: disabled, no grants, no configuration. */
  ghost predicate EveryPolicyIsDefault(st: DaemonState, plugin: string) {
    forall a :: a in st.applications ==>
      && plugin in st.applications[a].plugins
      && st.applications[a].plugins[plugin] == PluginPolicy(false, [], map[])
  }

  ghost predicate NoPolicy(st: DaemonState, plugin: string) {
    forall a :: a in st.applications ==> plugin !in st.applications[a].plugins
  }

  /** What an install attempt means. If the state could not be written nothing changed. Otherwise every
      application has the default policy for the plugin and no other policy changed; a running Core has
      that state in memory; no other copy changed, and the installed one is the new or the prior one,
      the new one if the reply is positive. */
  ghost predicate InstallOutcome(m: Model, after: Model, plugin: Plugin, end: InstallEnd, reply: Reply)
    requires m.state.Some?
  {
    && (reply == Done <==> end.Installed?)
    && (end.StateNotWritten? ==> after == m)
    && (!end.StateNotWritten? ==>
          && OnlyPluginDiffers(m.state.value, after.persisted, plugin.id)
          && EveryPolicyIsDefault(after.persisted, plugin.id)
          && after.state == if reply == Crashed then None else Some(after.persisted))
    && OnlyCopyDiffers(m.installed, after.installed, plugin.id)
    && (plugin.id in after.installed ==>
          after.installed[plugin.id] == plugin ||
          (plugin.id in m.installed && after.installed[plugin.id] == m.installed[plugin.id]))
    && (reply == Done ==> plugin.id in after.installed && after.installed[plugin.id] == plugin)
  }

  /** What a removal attempt means. Unless the new state was written the stored state is as before;
      otherwise no application has a policy for the plugin, no other policy changed, and no copy of the
      plugin is installed. No other copy changed. */
  ghost predicate RemoveOutcome(m: Model, after: Model, id: string, end: RemoveEnd, reply: Reply)
    requires m.state.Some?
  {
    var written := end.CrashedAfterRemoval? || end.TrashStays? || end.Removed?;
    && (end.NotStaged? ==> after == m)
    && (!written ==> after.persisted == m.persisted)
    && (written ==>
          && OnlyPluginDiffers(m.state.value, after.persisted, id) && NoPolicy(after.persisted, id)
          && id !in after.installed)
    && (reply == Done <==> written && !end.CrashedAfterRemoval?)
    && (reply == Done ==> after.state == Some(after.persisted))
    && (reply == Crashed ==> after.state == None)
    && (reply == Internal ==> after.state == m.state)
    && OnlyCopyDiffers(m.installed, after.installed, id)
  }

  lemma ResetTouchesOnlyPlugin(st: DaemonState, plugin: string)
    ensures OnlyPluginDiffers(st, ResetNext(st, plugin), plugin) && EveryPolicyIsDefault(ResetNext(st, plugin), plugin)
  {
  }

  lemma ForgetTouchesOnlyPlugin(st: DaemonState, plugin: string)
    ensures OnlyPluginDiffers(st, ForgetNext(st, plugin), plugin) && NoPolicy(ForgetNext(st, plugin), plugin)
  {
  }

  lemma InstallMeans(m: Model, plugin: Plugin, end: InstallEnd)
    requires PossibleInstall(m, plugin, end)
    ensures InstallOutcome(m, AfterInstall(m, plugin, end), plugin, end, InstallReply(end))
  {
    ResetTouchesOnlyPlugin(m.state.value, plugin.id);
  }

  lemma RemoveMeans(m: Model, id: string, end: RemoveEnd)
    requires PossibleRemove(m, id, end)
    ensures RemoveOutcome(m, AfterRemove(m, id, end), id, end, RemoveReply(end))
  {
    ForgetTouchesOnlyPlugin(m.state.value, id);
  }

  /** The outcome of each file operation is the environment's choice, passed in by the caller. */
  class CoreService {
    var state: Option<DaemonState>
    var persisted: DaemonState
    var installed: map<string, Plugin>
    var hidden: seq<Plugin>

    function View(): Model
      reads this
    {
      Model(state, persisted, installed, hidden)
    }

    constructor ()
      ensures View() == Model(Some(DaemonState(false, map[])), DaemonState(false, map[]), map[], [])
    {
      state, persisted := Some(DaemonState(false, map[])), DaemonState(false, map[]);
      installed, hidden := map[], [];
    }

    /** Adopt a new state once it is on disk; a failed write changes neither copy. */
    method Commit(next: Option<DaemonState>, wrote: bool) returns (reply: Reply)
      modifies this
      ensures View() == AfterWrite(old(View()), next, wrote)
      ensures reply == WriteReply(next, wrote)
    {
      if next.None? {
        return InvalidParams;
      }
      if !wrote {
        return Internal;
      }
      persisted := next.value;
      state := next;
      return Done;
    }

    /** A registration is refused at a level above 2. Registering again at the same level keeps the
        application's policies, at another it resets them; other applications stay as they are. */
    method RegisterApplication(id: string, path: string, name: string, level: nat, wrote: bool) returns (reply: Reply)
      requires state.Some?
      modifies this
      ensures reply == if level > 2 then InvalidParams else if wrote then Done else Internal
      ensures reply != Done ==> View() == old(View())
      ensures reply == Done ==>
                && state == Some(persisted) && installed == old(installed) && hidden == old(hidden)
                && OnlyApplicationDiffers(old(state).value, persisted, id)
      ensures reply == Done ==>
                var st, a := old(state).value, persisted.applications[id];
                && a.executablePath == path && a.displayName == name && a.supportLevel == level
                && (id !in st.applications ==> a.plugins == map[])
                && (id in st.applications && st.applications[id].supportLevel == level ==>
                      a.plugins == st.applications[id].plugins)
                && (id in st.applications && st.applications[id].supportLevel != level ==>
                      a.plugins.Keys == st.applications[id].plugins.Keys &&
                      forall p :: p in a.plugins ==> a.plugins[p] == DEFAULT_POLICY)
      ensures View() == AfterWrite(old(View()), RegisterNext(old(state).value, id, path, name, level), wrote)
    {
      reply := Commit(RegisterNext(state.value, id, path, name, level), wrote);
    }

    method RemoveApplication(id: string, wrote: bool) returns (reply: Reply)
      requires state.Some?
      modifies this
      ensures View() == AfterWrite(old(View()), RemoveApplicationNext(old(state).value, id), wrote)
      ensures reply == if id !in old(state).value.applications then InvalidParams else if wrote then Done else Internal
      ensures reply == Done ==> id !in persisted.applications
    {
      reply := Commit(RemoveApplicationNext(state.value, id), wrote);
    }

    /** A request for the mode already in force writes nothing. Otherwise the mode is stored; switching
        it off also takes the unsafe grant, and nothing else, from every policy. */
    method SetDeveloperMode(enabled: bool, wrote: bool) returns (reply: Reply)
      requires state.Some?
      modifies this
      ensures reply == if old(state).value.developerMode == enabled || wrote then Done else Internal
      ensures old(state).value.developerMode == enabled || !wrote ==> View() == old(View())
      ensures old(state).value.developerMode != enabled && wrote ==>
                var st := old(state).value;
                && state == Some(persisted) && installed == old(installed) && hidden == old(hidden)
                && persisted.developerMode == enabled && persisted.applications.Keys == st.applications.Keys
                && forall a :: a in st.applications ==>
                     && SameRegistration(st.applications[a], persisted.applications[a])
                     && persisted.applications[a].plugins.Keys == st.applications[a].plugins.Keys
                     && forall p :: p in st.applications[a].plugins ==>
                          PolicyAfterMode(st.applications[a].plugins[p], persisted.applications[a].plugins[p], enabled)
      ensures View() == if old(state).value.developerMode == enabled then old(View())
                        else AfterWrite(old(View()), Some(DeveloperModeNext(old(state).value, enabled)), wrote)
    {
      if state.value.developerMode == enabled {
        return Done;
      }
      reply := Commit(Some(DeveloperModeNext(state.value, enabled)), wrote);
    }

    /** A policy is stored, in memory and on disk at once, exactly when the application is registered,
        above Level 0 if the plugin is to be enabled, the plugin is known, and the grants are different,
        requested and supported. The stored configuration and all other policies stay. */
    method SetPolicy(
      seen: map<string, Plugin>, app: string, plugin: string, enabled: bool, grants: seq<string>, wrote: bool)
      returns (reply: Reply)
      requires state.Some?
      modifies this
      ensures reply == if !PolicyAllowed(old(state).value, seen, app, plugin, enabled, grants) then InvalidParams
                       else if wrote then Done else Internal
      ensures reply != Done ==> View() == old(View())
      ensures reply == Done ==>
                && state == Some(persisted) && installed == old(installed) && hidden == old(hidden)
                && OnlyPolicyDiffers(old(state).value, persisted, app, plugin)
                && StoredPolicy(persisted, app, plugin) ==
                   PluginPolicy(enabled, grants, StoredPolicy(old(state).value, app, plugin).config)
      ensures View() ==
              AfterWrite(old(View()), SetPolicyNext(old(state).value, seen, app, plugin, enabled, grants), wrote)
    {
      reply := Commit(SetPolicyNext(state.value, seen, app, plugin, enabled, grants), wrote);
    }

    /** The configuration is replaced exactly when the application is registered, the plugin is known
        and declares every key; the policy's switch and grants and all other policies stay. */
    method SetPluginConfig(
      seen: map<string, Plugin>, app: string, plugin: string, config: map<string, string>, wrote: bool)
      returns (reply: Reply)
      requires state.Some?
      modifies this
      ensures var allowed := app in old(state).value.applications && plugin in seen &&
                             forall k :: k in config ==> k in seen[plugin].configKeys;
              reply == if !allowed then InvalidParams else if wrote then Done else Internal
      ensures reply != Done ==> View() == old(View())
      ensures reply == Done ==>
                var before := StoredPolicy(old(state).value, app, plugin);
                && state == Some(persisted) && installed == old(installed) && hidden == old(hidden)
                && OnlyPolicyDiffers(old(state).value, persisted, app, plugin)
                && StoredPolicy(persisted, app, plugin) == PluginPolicy(before.enabled, before.grants, config)
      ensures View() == AfterWrite(old(View()), SetConfigNext(old(state).value, seen, app, plugin, config), wrote)
    {
      reply := Commit(SetConfigNext(state.value, seen, app, plugin, config), wrote);
    }

    /** An install first gives every application the default policy for the plugin, in memory and on
        disk, and touches no other policy; then the copy is published, or the old one stays, comes back
        or is lost, as the files allow. */
    method CommitStagedPlugin(plugin: Plugin, end: InstallEnd) returns (reply: Reply)
      requires PossibleInstall(View(), plugin, end)
      modifies this
      ensures InstallOutcome(old(View()), View(), plugin, end, reply)
      ensures View() == AfterInstall(old(View()), plugin, end)
      ensures reply == InstallReply(end)
    {
      InstallMeans(View(), plugin, end);
      reply := Commit(Some(ResetNext(state.value, plugin.id)), !end.StateNotWritten?);
      if !end.StateNotWritten? {
        reply := PublishStaged(plugin, end);
      }
    }

    /** Back up the prior copy, publish the staged one, and clean up. */
    method PublishStaged(plugin: Plugin, end: InstallEnd) returns (reply: Reply)
      requires PossibleInstall(View(), plugin, end) && !end.StateNotWritten?
      modifies this
      ensures View() == AfterPublish(old(View()), plugin, end)
      ensures reply == InstallReply(end)
    {
      if end.CrashedAfterState? {
        state := None;
        return Crashed;
      }
      if end.BackupFailed? {
        return Internal;
      }
      var backup: seq<Plugin> := [];
      if plugin.id in installed {
        backup := [installed[plugin.id]];
        installed := installed - {plugin.id};
        if end.CrashedAfterBackup? {
          hidden := hidden + backup;
          state := None;
          return Crashed;
        }
      }
      if end.PublishFailed? {
        if backup != [] {
          if end.restored {
            installed := installed[plugin.id := backup[0]];
          } else {
            hidden := hidden + backup;
          }
        }
        assert end.restored ==> installed == old(installed);
        return Internal;
      }
      installed := installed[plugin.id := plugin];
      assert installed == old(installed)[plugin.id := plugin];
      if end.CrashedAfterPublish? {
        hidden := hidden + backup;
        state := None;
        return Crashed;
      }
      if end.CleanupFailed? {
        hidden := hidden + backup;
        return Internal;
      }
      return Done;
    }

    /** A removal moves the copy aside, then forgets every application's policy for the plugin, in
        memory and on disk, and touches no other policy and no other copy. */
    method RemovePlugin(id: string, end: RemoveEnd) returns (reply: Reply)
      requires PossibleRemove(View(), id, end)
      modifies this
      ensures RemoveOutcome(old(View()), View(), id, end, reply)
      ensures View() == AfterRemove(old(View()), id, end)
      ensures reply == RemoveReply(end)
    {
      RemoveMeans(View(), id, end);
      if end.NotStaged? {
        return Internal;
      }
      var trash := installed[id];
      installed := installed - {id};
      if end.CrashedAfterStaging? {
        hidden, state := hidden + [trash], None;
        return Crashed;
      }
      reply := Commit(Some(ForgetNext(state.value, id)), !end.RemovalNotWritten?);
      if end.RemovalNotWritten? {
        if end.restored {
          installed := installed[id := trash];
          assert installed == old(installed);
        } else {
          hidden := hidden + [trash];
        }
        return Internal;
      }
      if end.CrashedAfterRemoval? {
        hidden, state := hidden + [trash], None;
        return Crashed;
      }
      if end.TrashStays? {
        hidden := hidden + [trash];
      }
    }

    method Restart(swept: set<nat>)
      modifies this
      ensures View() == AfterRestart(old(View()), swept)
    {
      var left: seq<Plugin> := [];
      for k := 0 to |hidden|
        invariant left == Unswept(hidden, swept, k)
      {
        if k !in swept {
          left := left + [hidden[k]];
        }
      }
      hidden := left;
      state := Some(persisted);
    }
  }
}
