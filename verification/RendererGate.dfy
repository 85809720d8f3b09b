/** The execution plan of one application and the edge-triggered log of dropped renderer payloads. */
module RendererGate {
  import opened Wrappers
  import opened Sequences
  import opened ControlPlane
  import Strings

  datatype PluginFiles = PluginFiles(
    id: string, permissions: set<string>, css: Option<string>, renderer: Option<string>, main: Option<string>)

  datatype PluginGrant = PluginGrant(
    id: string, granted: seq<string>, css: Option<string>, renderer: Option<string>, main: Option<string>)

  type Key = (string, string)

  // ---- The plan ----

  predicate Serves(st: DaemonState, app: string) {
    app in st.applications && st.applications[app].supportLevel > 0
  }

  /** The effective grants of a plugin in an application; empty when it has no place in the plan. */
  function Granted(st: DaemonState, app: string, plugin: PluginFiles): seq<string> {
    if !Serves(st, app) then []
    else
      var a := st.applications[app];
      if plugin.id !in a.plugins || !a.plugins[plugin.id].enabled then []
      else Effective(a.plugins[plugin.id].grants,
                     plugin.permissions * CapabilitiesForSupportLevel(a.supportLevel, st.developerMode))
  }

  predicate HasGate(granted: seq<string>) {
    "renderer.script" in granted || UNSAFE in granted
  }

  /** The effective grants of each plugin. */
  type Grants = PluginFiles -> seq<string>

  function GrantsOf(st: DaemonState, app: string): Grants {
    (plugin: PluginFiles) => Granted(st, app, plugin)
  }

  predicate IsDropped(g: Grants, plugin: PluginFiles) {
    var granted := g(plugin);
    granted != [] && !HasGate(granted) && plugin.renderer.Some?
  }

  /** Effective grants joined by the unit separator: the fingerprint of a drop. */
  function Fingerprint(granted: seq<string>): string {
    Strings.Join(granted, SEPARATOR)
  }

  function GrantOf(plugin: PluginFiles, granted: seq<string>): PluginGrant {
    PluginGrant(
      plugin.id, granted,
      if "renderer.css" in granted then plugin.css else None,
      if HasGate(granted) then plugin.renderer else None,
      if "electron.window" in granted || UNSAFE in granted then plugin.main else None)
  }

  /** The plan over the first n plugins. */
  function PlanUpTo(g: Grants, plugins: seq<PluginFiles>, n: nat): seq<PluginGrant>
    requires n <= |plugins|
  {
    if n == 0 then []
    else
      var granted := g(plugins[n - 1]);
      PlanUpTo(g, plugins, n - 1) + if granted == [] then [] else [GrantOf(plugins[n - 1], granted)]
  }

  /** The pairs dropped among the first n plugins, with their fingerprints. */
  function DroppedUpTo(g: Grants, plugins: seq<PluginFiles>, n: nat): map<string, string>
    requires n <= |plugins|
  {
    if n == 0 then map[]
    else
      var before := DroppedUpTo(g, plugins, n - 1);
      if IsDropped(g, plugins[n - 1])
      then before[plugins[n - 1].id := Fingerprint(g(plugins[n - 1]))]
      else before
  }

  // ---- The gate map ----

  /** The map after one computation of an application's plan dropped exactly these. */
  function Settle(drops: map<Key, string>, app: string, dropped: map<string, string>): map<Key, string> {
    map k | k in drops.Keys + (set p | p in dropped :: (app, p)) && (k.0 == app ==> k.1 in dropped) ::
      if k.0 == app then dropped[k.1] else drops[k]
  }

  predicate IsEdge(drops: map<Key, string>, app: string, dropped: map<string, string>, p: string) {
    p in dropped && ((app, p) !in drops || drops[(app, p)] != dropped[p])
  }

  /** The loop's map after n plugins, before the final pruning. */
  function Midway(drops: map<Key, string>, g: Grants, app: string, plugins: seq<PluginFiles>, n: nat): map<Key, string>
    requires n <= |plugins|
  {
    if n == 0 then drops
    else
      var before := Midway(drops, g, app, plugins, n - 1);
      var plugin := plugins[n - 1];
      if g(plugin) == [] then before
      else if IsDropped(g, plugin) then before[(app, plugin.id) := Fingerprint(g(plugin))]
      else before - {(app, plugin.id)}
  }

  /** The plugins whose drop is logged, in plan order. */
  function EdgesUpTo(drops: map<Key, string>, g: Grants, app: string, plugins: seq<PluginFiles>, n: nat): seq<string>
    requires n <= |plugins|
  {
    if n == 0 then []
    else
      var plugin := plugins[n - 1];
      EdgesUpTo(drops, g, app, plugins, n - 1) +
      if IsEdge(drops, app, DroppedUpTo(g, plugins, n), plugin.id) && IsDropped(g, plugin)
      then [plugin.id] else []
  }

  ghost predicate DistinctIds(plugins: seq<PluginFiles>) {
    forall i, j :: 0 <= i < j < |plugins| ==> plugins[i].id != plugins[j].id
  }

  lemma {:induction false} MidwayFrame(
    drops: map<Key, string>, g: Grants, app: string, plugins: seq<PluginFiles>, n: nat, k: Key)
    requires n <= |plugins|
    requires k.0 == app ==> forall j :: 0 <= j < n ==> plugins[j].id != k.1
    ensures k in Midway(drops, g, app, plugins, n) <==> k in drops
    ensures k in drops ==> Midway(drops, g, app, plugins, n)[k] == drops[k]
    ensures k.0 == app ==> k.1 !in DroppedUpTo(g, plugins, n)
  {
    if n > 0 {
      MidwayFrame(drops, g, app, plugins, n - 1, k);
    }
  }

  lemma {:induction false} MidwayDropped(
    drops: map<Key, string>, g: Grants, app: string, plugins: seq<PluginFiles>, n: nat, p: string)
    requires n <= |plugins| && DistinctIds(plugins) && p in DroppedUpTo(g, plugins, n)
    ensures (app, p) in Midway(drops, g, app, plugins, n)
    ensures Midway(drops, g, app, plugins, n)[(app, p)] == DroppedUpTo(g, plugins, n)[p]
  {
    if plugins[n - 1].id == p {
      MidwayFrame(drops, g, app, plugins, n - 1, (app, p));
    } else {
      MidwayDropped(drops, g, app, plugins, n - 1, p);
    }
  }

  /** Keeping only other applications' entries and this plan's drops gives the settled map. */
  lemma PruningSettles(drops: map<Key, string>, g: Grants, app: string, plugins: seq<PluginFiles>)
    requires DistinctIds(plugins)
    ensures var dropped := DroppedUpTo(g, plugins, |plugins|);
            var midway := Midway(drops, g, app, plugins, |plugins|);
            (map k | k in midway && (k.0 != app || k.1 in dropped) :: midway[k]) == Settle(drops, app, dropped)
  {
    var dropped := DroppedUpTo(g, plugins, |plugins|);
    var midway := Midway(drops, g, app, plugins, |plugins|);
    var pruned := map k | k in midway && (k.0 != app || k.1 in dropped) :: midway[k];
    var settled := Settle(drops, app, dropped);
    forall k: Key
      ensures k in pruned <==> k in settled
      ensures k in settled ==> pruned[k] == settled[k]
    {
      if k.0 != app {
        MidwayFrame(drops, g, app, plugins, |plugins|, k);
      } else if k.1 in dropped {
        MidwayDropped(drops, g, app, plugins, |plugins|, k.1);
      }
    }
  }

  /** The four results one plugin further, for a plugin with no place in the plan. */
  lemma SkippedStep(drops: map<Key, string>, g: Grants, app: string, plugins: seq<PluginFiles>, n: nat)
    requires n < |plugins| && g(plugins[n]) == []
    ensures PlanUpTo(g, plugins, n + 1) == PlanUpTo(g, plugins, n)
    ensures Midway(drops, g, app, plugins, n + 1) == Midway(drops, g, app, plugins, n)
    ensures DroppedUpTo(g, plugins, n + 1) == DroppedUpTo(g, plugins, n)
    ensures EdgesUpTo(drops, g, app, plugins, n + 1) == EdgesUpTo(drops, g, app, plugins, n)
  {
  }

  /** For a plugin in the plan whose renderer payload, if any, is granted. */
  lemma KeptStep(drops: map<Key, string>, g: Grants, app: string, plugins: seq<PluginFiles>, n: nat)
    requires n < |plugins| && g(plugins[n]) != [] && !IsDropped(g, plugins[n])
    ensures PlanUpTo(g, plugins, n + 1) ==
            PlanUpTo(g, plugins, n) + [GrantOf(plugins[n], g(plugins[n]))]
    ensures Midway(drops, g, app, plugins, n + 1) == Midway(drops, g, app, plugins, n) - {(app, plugins[n].id)}
    ensures DroppedUpTo(g, plugins, n + 1) == DroppedUpTo(g, plugins, n)
    ensures EdgesUpTo(drops, g, app, plugins, n + 1) == EdgesUpTo(drops, g, app, plugins, n)
  {
  }

  /** For a plugin whose renderer payload is dropped: its entry is set, and logged unless it was there. */
  lemma DroppedStep(drops: map<Key, string>, g: Grants, app: string, plugins: seq<PluginFiles>, n: nat)
    requires DistinctIds(plugins) && n < |plugins| && IsDropped(g, plugins[n])
    ensures var granted := g(plugins[n]);
            var key := (app, plugins[n].id);
            var midway := Midway(drops, g, app, plugins, n);
            && PlanUpTo(g, plugins, n + 1) == PlanUpTo(g, plugins, n) + [GrantOf(plugins[n], granted)]
            && Midway(drops, g, app, plugins, n + 1) == midway[key := Fingerprint(granted)]
            && DroppedUpTo(g, plugins, n + 1).Keys == DroppedUpTo(g, plugins, n).Keys + {plugins[n].id}
            && EdgesUpTo(drops, g, app, plugins, n + 1) == EdgesUpTo(drops, g, app, plugins, n) +
               if key !in midway || midway[key] != Fingerprint(granted) then [plugins[n].id] else []
  {
    MidwayFrame(drops, g, app, plugins, n, (app, plugins[n].id));
  }

  lemma TaggedAppend(app: string, ids: seq<string>, id: string)
    ensures Tagged(app, ids + [id]) == Tagged(app, ids) + [(app, id)]
  {
  }

  /** The gate's entries and its log, and what happens to them: a plan computation, for which the
      installed plugins may be unreadable, or the removal of an application. */
  datatype Gate = Gate(drops: map<Key, string>, events: seq<Key>)
  datatype Op = Plan(st: DaemonState, app: string, installed: Option<seq<PluginFiles>>) | Removal(app: string)

  function AfterOp(gate: Gate, op: Op): Gate {
    if op.Removal? || !Serves(op.st, op.app) then gate.(drops := Settle(gate.drops, op.app, map[]))
    else if op.installed.None? then gate
    else
      var g, plugins := GrantsOf(op.st, op.app), op.installed.value;
      Gate(Settle(gate.drops, op.app, DroppedUpTo(g, plugins, |plugins|)),
           gate.events + Tagged(op.app, EdgesUpTo(gate.drops, g, op.app, plugins, |plugins|)))
  }

  function PlanOf(op: Op): Option<seq<PluginGrant>> {
    if op.Removal? || !Serves(op.st, op.app) then Some([])
    else if op.installed.None? then None
    else Some(PlanUpTo(GrantsOf(op.st, op.app), op.installed.value, |op.installed.value|))
  }

  /** Installed plugins have different ids. */
  ghost predicate WellFormed(op: Op) {
    op.Plan? && op.installed.Some? ==> DistinctIds(op.installed.value)
  }

  class GateLog {
    var drops: map<Key, string>
    var events: seq<Key>

    ghost function Now(): Gate
      reads this
    {
      Gate(drops, events)
    }

    constructor ()
      ensures Now() == Gate(map[], [])
    {
      drops, events := map[], [];
    }

    /** Compute a plan; log each renderer payload that became dropped or whose grants changed. */
    method ExecutionPlan(st: DaemonState, app: string, installed: Option<seq<PluginFiles>>)
      returns (plan: Option<seq<PluginGrant>>)
      requires WellFormed(Plan(st, app, installed))
      modifies this
      ensures plan == PlanOf(Plan(st, app, installed))
      ensures Now() == AfterOp(old(Now()), Plan(st, app, installed))
    {
      if !Serves(st, app) {
        RemoveApplication(app);
        return Some([]);
      }
      if installed.None? {
        return None;
      }
      var grants := ServedPlan(GrantsOf(st, app), app, installed.value);
      plan := Some(grants);
    }

    method ServedPlan(g: Grants, app: string, plugins: seq<PluginFiles>) returns (plan: seq<PluginGrant>)
      requires DistinctIds(plugins)
      modifies this
      ensures plan == PlanUpTo(g, plugins, |plugins|)
      ensures drops == Settle(old(drops), app, DroppedUpTo(g, plugins, |plugins|))
      ensures events == old(events) + Tagged(app, EdgesUpTo(old(drops), g, app, plugins, |plugins|))
    {
      ghost var before := drops;
      plan := [];
      var active: set<string> := {};
      for n := 0 to |plugins|
        invariant plan == PlanUpTo(g, plugins, n)
        invariant drops == Midway(before, g, app, plugins, n)
        invariant active == DroppedUpTo(g, plugins, n).Keys
        invariant events == old(events) + Tagged(app, EdgesUpTo(before, g, app, plugins, n))
      {
        var plugin := plugins[n];
        var granted := g(plugin);
        if granted == [] {
          SkippedStep(before, g, app, plugins, n);
        } else {
          var key := (app, plugin.id);
          if !HasGate(granted) && plugin.renderer.Some? {
            DroppedStep(before, g, app, plugins, n);
            var fingerprint := Fingerprint(granted);
            active := active + {plugin.id};
            if key !in drops || drops[key] != fingerprint {
              TaggedAppend(app, EdgesUpTo(before, g, app, plugins, n), plugin.id);
              events := events + [key];
              drops := drops[key := fingerprint];
            }
          } else {
            KeptStep(before, g, app, plugins, n);
            drops := drops - {key};
          }
          plan := plan + [GrantOf(plugin, granted)];
        }
      }
      PruningSettles(before, g, app, plugins);
      drops := map k | k in drops && (k.0 != app || k.1 in active) :: drops[k];
    }

    /** Removing an application forgets its edges. */
    method RemoveApplication(app: string)
      modifies this`drops
      ensures Now() == AfterOp(old(Now()), Removal(app))
    {
      drops := map k | k in drops && k.0 != app :: drops[k];
    }
  }

  function Tagged(app: string, ids: seq<string>): seq<Key> {
    seq(|ids|, i requires 0 <= i < |ids| => (app, ids[i]))
  }

  /** Exactly the edges are logged, each once. */
  lemma {:induction false} EdgesAreLoggedOnce(
    drops: map<Key, string>, g: Grants, app: string, plugins: seq<PluginFiles>, n: nat)
    requires n <= |plugins| && DistinctIds(plugins)
    ensures forall p :: p in EdgesUpTo(drops, g, app, plugins, n) <==>
                        IsEdge(drops, app, DroppedUpTo(g, plugins, n), p)
    ensures forall i, j :: 0 <= i < j < |EdgesUpTo(drops, g, app, plugins, n)| ==>
                        EdgesUpTo(drops, g, app, plugins, n)[i] != EdgesUpTo(drops, g, app, plugins, n)[j]
  {
    if n > 0 {
      EdgesAreLoggedOnce(drops, g, app, plugins, n - 1);
      var id := plugins[n - 1].id;
      MidwayFrame(drops, g, app, plugins, n - 1, (app, id));
      var before := EdgesUpTo(drops, g, app, plugins, n - 1);
      assert forall i :: 0 <= i < |before| ==> before[i] in before;
      assert id !in before;
    }
  }

  /** Nothing reaches the plan beyond the stored policy, the manifest and the support level, and each
      payload only with the grant that unlocks it. */
  lemma {:induction false} PlanIsAuthorized(
    st: DaemonState, app: string, plugins: seq<PluginFiles>, n: nat, grant: PluginGrant)
    requires n <= |plugins| && grant in PlanUpTo(GrantsOf(st, app), plugins, n)
    ensures Serves(st, app) && grant.id in st.applications[app].plugins
    ensures var a := st.applications[app]; var policy := a.plugins[grant.id];
            && policy.enabled && grant.granted != []
            && (exists i :: 0 <= i < n && plugins[i].id == grant.id &&
                  (forall g :: g in grant.granted <==>
                     g in policy.grants && g in plugins[i].permissions &&
                     g in CapabilitiesForSupportLevel(a.supportLevel, st.developerMode)) &&
                  Subsequence(grant.granted, policy.grants) &&
                  grant.renderer == (if "renderer.script" in grant.granted || "runtime.unsafe" in grant.granted
                                     then plugins[i].renderer else None) &&
                  grant.css == (if "renderer.css" in grant.granted then plugins[i].css else None) &&
                  grant.main == (if "electron.window" in grant.granted || "runtime.unsafe" in grant.granted
                                 then plugins[i].main else None))
  {
    if grant in PlanUpTo(GrantsOf(st, app), plugins, n - 1) {
      PlanIsAuthorized(st, app, plugins, n - 1, grant);
    } else {
      assert plugins[n - 1].id == grant.id;
      var a := st.applications[app];
      EffectiveKeepsOrder(a.plugins[grant.id].grants,
                          plugins[n - 1].permissions * CapabilitiesForSupportLevel(a.supportLevel, st.developerMode));
    }
  }

  /** The grants of a policy that are in force for a plugin in an application. */
  predicate InForce(st: DaemonState, app: string, plugin: PluginFiles, grant: string) {
    && app in st.applications && plugin.id in st.applications[app].plugins
    && st.applications[app].plugins[plugin.id].enabled
    && grant in st.applications[app].plugins[plugin.id].grants && grant in plugin.permissions
    && grant in CapabilitiesForSupportLevel(st.applications[app].supportLevel, st.developerMode)
  }

  lemma GrantedIsInForce(st: DaemonState, app: string, plugin: PluginFiles)
    ensures forall g :: g in Granted(st, app, plugin) <==> InForce(st, app, plugin, g)
  {
  }

  /** The installed plugins that the plan's entries come from. */
  function Sources(g: Grants, plugins: seq<PluginFiles>, n: nat): (from: seq<nat>)
    requires n <= |plugins|
    ensures |from| == |PlanUpTo(g, plugins, n)|
  {
    if n == 0 then [] else Sources(g, plugins, n - 1) + if g(plugins[n - 1]) == [] then [] else [n - 1]
  }

  lemma {:induction false} SourceAt(g: Grants, plugins: seq<PluginFiles>, n: nat, k: nat)
    requires n <= |plugins| && k < |Sources(g, plugins, n)|
    ensures var i := Sources(g, plugins, n)[k];
            i < n && PlanUpTo(g, plugins, n)[k] == GrantOf(plugins[i], g(plugins[i]))
  {
    if k < |Sources(g, plugins, n - 1)| {
      SourceAt(g, plugins, n - 1, k);
    }
  }

  lemma {:induction false} SourcesIncrease(g: Grants, plugins: seq<PluginFiles>, n: nat, j: nat, k: nat)
    requires n <= |plugins| && j < k < |Sources(g, plugins, n)|
    ensures Sources(g, plugins, n)[j] < Sources(g, plugins, n)[k]
  {
    if k < |Sources(g, plugins, n - 1)| {
      SourcesIncrease(g, plugins, n - 1, j, k);
    } else if j < |Sources(g, plugins, n - 1)| {
      SourceAt(g, plugins, n - 1, j);
    }
  }

  lemma {:induction false} SourcesAre(g: Grants, plugins: seq<PluginFiles>, n: nat, i: nat)
    requires n <= |plugins| && i < |plugins|
    ensures i in Sources(g, plugins, n) <==> i < n && g(plugins[i]) != []
  {
    if n > 0 {
      SourcesAre(g, plugins, n - 1, i);
    }
  }

  /** A plugin's only entry, if it has one. */
  lemma EntryOf(g: Grants, plugins: seq<PluginFiles>, i: nat, k: nat)
    requires DistinctIds(plugins) && i < |plugins| && k < |Sources(g, plugins, |plugins|)|
    ensures var plan := PlanUpTo(g, plugins, |plugins|);
            plan[k].id == plugins[i].id <==> Sources(g, plugins, |plugins|)[k] == i
    ensures var plan := PlanUpTo(g, plugins, |plugins|);
            plan[k].id == plugins[i].id ==> g(plugins[i]) != [] && plan[k].granted == g(plugins[i])
  {
    SourceAt(g, plugins, |plugins|, k);
    var from := Sources(g, plugins, |plugins|);
    assert from[k] in from;
    SourcesAre(g, plugins, |plugins|, from[k]);
  }

  lemma SomeInForce(st: DaemonState, app: string, plugin: PluginFiles)
    ensures Granted(st, app, plugin) != [] <==> exists grant :: InForce(st, app, plugin, grant)
  {
    GrantedIsInForce(st, app, plugin);
    var granted := Granted(st, app, plugin);
    assert granted != [] ==> granted[0] in granted;
  }

  /** And all of that reaches it: the plan lists, in the order of the installed plugins, exactly those
      with a grant in force, each once and with all of them. */
  lemma PlanIsComplete(st: DaemonState, app: string, plugins: seq<PluginFiles>) returns (from: seq<nat>)
    ensures var plan := PlanUpTo(GrantsOf(st, app), plugins, |plugins|);
            && |from| == |plan|
            && (forall k :: 0 <= k < |plan| ==>
                  && from[k] < |plugins| && plan[k].id == plugins[from[k]].id
                  && forall grant :: grant in plan[k].granted <==> InForce(st, app, plugins[from[k]], grant))
            && (forall j, k :: 0 <= j < k < |plan| ==> from[j] < from[k])
            && (forall i :: 0 <= i < |plugins| ==> (i in from <==> exists grant :: InForce(st, app, plugins[i], grant)))
  {
    var g := GrantsOf(st, app);
    from := Sources(g, plugins, |plugins|);
    forall k | 0 <= k < |from|
      ensures from[k] < |plugins| && PlanUpTo(g, plugins, |plugins|)[k].id == plugins[from[k]].id
      ensures forall grant :: grant in PlanUpTo(g, plugins, |plugins|)[k].granted <==>
                              InForce(st, app, plugins[from[k]], grant)
    {
      SourceAt(g, plugins, |plugins|, k);
      GrantedIsInForce(st, app, plugins[from[k]]);
    }
    forall j, k | 0 <= j < k < |from| ensures from[j] < from[k] {
      SourcesIncrease(g, plugins, |plugins|, j, k);
    }
    forall i | 0 <= i < |plugins|
      ensures i in from <==> exists grant :: InForce(st, app, plugins[i], grant)
    {
      SourcesAre(g, plugins, |plugins|, i);
      SomeInForce(st, app, plugins[i]);
    }
  }

  const SEPARATOR := 31 as char

  lemma CapabilityHasNoSeparator(level: nat, developerMode: bool, grant: string)
    requires grant in CapabilitiesForSupportLevel(level, developerMode)
    ensures SEPARATOR !in grant
  {
    assert SEPARATOR !in "renderer.css" && SEPARATOR !in "renderer.script" && SEPARATOR !in "renderer.dom";
    assert SEPARATOR !in "renderer.storage" && SEPARATOR !in "electron.window";
    assert SEPARATOR !in "electron.windowControls" && SEPARATOR !in "network.access" && SEPARATOR !in UNSAFE;
  }

  /** Effective grants are capabilities, and no capability contains the separator. */
  lemma GrantedIsFree(st: DaemonState, app: string, plugin: PluginFiles)
    ensures Strings.FreeOf(Granted(st, app, plugin), SEPARATOR)
  {
    var granted := Granted(st, app, plugin);
    forall i | 0 <= i < |granted|
      ensures SEPARATOR !in granted[i]
    {
      assert granted[i] in granted;
      CapabilityHasNoSeparator(st.applications[app].supportLevel, st.developerMode, granted[i]);
    }
  }

  /** Two drops, of any plugins at any times, have the same fingerprint exactly when their effective
      grants are the same. */
  lemma FingerprintIdentifiesGrants(
    st: DaemonState, app: string, plugin: PluginFiles, st': DaemonState, app': string, plugin': PluginFiles)
    requires IsDropped(GrantsOf(st, app), plugin) && IsDropped(GrantsOf(st', app'), plugin')
    ensures Fingerprint(Granted(st, app, plugin)) == Fingerprint(Granted(st', app', plugin')) <==>
            Granted(st, app, plugin) == Granted(st', app', plugin')
  {
    GrantedIsFree(st, app, plugin);
    GrantedIsFree(st', app', plugin');
    Strings.JoinIsInjective(Granted(st, app, plugin), Granted(st', app', plugin'), SEPARATOR);
  }

  // ---- Whole runs ----

  function Run(ops: seq<Op>): Gate {
    if ops == [] then Gate(map[], []) else AfterOp(Run(ops[..|ops| - 1]), ops[|ops| - 1])
  }

  /** A plan computation that could not read the installed plugins changes nothing. */
  predicate Completes(op: Op) {
    op.Plan? && Serves(op.st, op.app) ==> op.installed.Some?
  }

  /** The plugins whose payload the operation drops, with their fingerprints. */
  function DroppedBy(op: Op): map<string, string> {
    if op.Plan? && Serves(op.st, op.app) && op.installed.Some?
    then DroppedUpTo(GrantsOf(op.st, op.app), op.installed.value, |op.installed.value|)
    else map[]
  }

  /** Which plugins lose their payload, and what is recorded for them. */
  lemma {:induction false} DroppedIs(g: Grants, plugins: seq<PluginFiles>, n: nat, i: nat)
    requires i < n <= |plugins| && DistinctIds(plugins)
    ensures var granted := g(plugins[i]);
            plugins[i].id in DroppedUpTo(g, plugins, n) <==>
            granted != [] && plugins[i].renderer.Some? &&
            "renderer.script" !in granted && "runtime.unsafe" !in granted
    ensures plugins[i].id in DroppedUpTo(g, plugins, n) ==>
              DroppedUpTo(g, plugins, n)[plugins[i].id] == Fingerprint(g(plugins[i]))
  {
    if i < n - 1 {
      DroppedIs(g, plugins, n - 1, i);
    } else {
      MidwayFrame(map[], g, "", plugins, i, ("", plugins[i].id));
    }
  }

  /** What the application's previous plan computation dropped; nothing after a removal or at first. */
  function PreviousDrops(ops: seq<Op>, app: string): map<string, string> {
    if ops == [] then map[]
    else if ops[|ops| - 1].app == app && Completes(ops[|ops| - 1]) then DroppedBy(ops[|ops| - 1])
    else PreviousDrops(ops[..|ops| - 1], app)
  }

  // ---- The same in terms of grants ----

  /** The effective grants of the plugins dropped among the first n. */
  function DropGrantsUpTo(g: Grants, plugins: seq<PluginFiles>, n: nat): map<string, seq<string>>
    requires n <= |plugins|
  {
    if n == 0 then map[]
    else
      var before := DropGrantsUpTo(g, plugins, n - 1);
      if IsDropped(g, plugins[n - 1]) then before[plugins[n - 1].id := g(plugins[n - 1])] else before
  }

  /** The plugins whose payload the operation drops, with their effective grants. */
  function GrantsDroppedBy(op: Op): map<string, seq<string>> {
    if op.Plan? && Serves(op.st, op.app) && op.installed.Some?
    then DropGrantsUpTo(GrantsOf(op.st, op.app), op.installed.value, |op.installed.value|)
    else map[]
  }

  function PreviousGrants(ops: seq<Op>, app: string): map<string, seq<string>> {
    if ops == [] then map[]
    else if ops[|ops| - 1].app == app && Completes(ops[|ops| - 1]) then GrantsDroppedBy(ops[|ops| - 1])
    else PreviousGrants(ops[..|ops| - 1], app)
  }

  /** The fingerprint recorded for a plugin is that of these grants, which it identifies. */
  ghost predicate Prints(prints: map<string, string>, grants: map<string, seq<string>>, p: string) {
    && (p in prints <==> p in grants)
    && (p in grants ==>
          prints[p] == Fingerprint(grants[p]) && grants[p] != [] && Strings.FreeOf(grants[p], SEPARATOR))
  }

  lemma {:induction false} DropGrantsPrint(st: DaemonState, app: string, plugins: seq<PluginFiles>, n: nat, p: string)
    requires n <= |plugins|
    ensures Prints(DroppedUpTo(GrantsOf(st, app), plugins, n), DropGrantsUpTo(GrantsOf(st, app), plugins, n), p)
  {
    if n > 0 {
      DropGrantsPrint(st, app, plugins, n - 1, p);
      GrantedIsFree(st, app, plugins[n - 1]);
    }
  }

  lemma {:induction false} PreviousGrantsPrint(ops: seq<Op>, app: string, p: string)
    ensures Prints(PreviousDrops(ops, app), PreviousGrants(ops, app), p)
  {
    if ops != [] {
      var op := ops[|ops| - 1];
      if op.app == app && Completes(op) {
        OpGrantsPrint(op, p);
      } else {
        PreviousGrantsPrint(ops[..|ops| - 1], app, p);
      }
    }
  }

  lemma OpGrantsPrint(op: Op, p: string)
    ensures Prints(DroppedBy(op), GrantsDroppedBy(op), p)
  {
    if op.Plan? && op.installed.Some? {
      DropGrantsPrint(op.st, op.app, op.installed.value, |op.installed.value|, p);
    }
  }

  lemma PrintsIdentify(
    prints: map<string, string>, grants: map<string, seq<string>>, prints': map<string, string>,
    grants': map<string, seq<string>>, p: string)
    requires Prints(prints, grants, p) && Prints(prints', grants', p) && p in grants && p in grants'
    ensures prints[p] == prints'[p] <==> grants[p] == grants'[p]
  {
    Strings.JoinIsInjective(grants[p], grants'[p], SEPARATOR);
  }

  /** The map holds, for every application, exactly what its previous plan dropped. */
  lemma {:induction false} GateRemembersPreviousPlan(ops: seq<Op>, app: string, p: string)
    ensures (app, p) in Run(ops).drops <==> p in PreviousDrops(ops, app)
    ensures p in PreviousDrops(ops, app) ==> Run(ops).drops[(app, p)] == PreviousDrops(ops, app)[p]
  {
    if ops != [] {
      GateRemembersPreviousPlan(ops[..|ops| - 1], app, p);
    }
  }

  /** What an operation logs. */
  function Logged(gate: Gate, op: Op): seq<Key> {
    AfterOp(gate, op).events[|gate.events|..]
  }

  lemma LoggedIs(gate: Gate, op: Op)
    requires WellFormed(op)
    ensures AfterOp(gate, op).events == gate.events + Logged(gate, op)
    ensures forall i, j :: 0 <= i < j < |Logged(gate, op)| ==> Logged(gate, op)[i] != Logged(gate, op)[j]
    ensures forall k :: k in Logged(gate, op) <==> k.0 == op.app && IsEdge(gate.drops, op.app, DroppedBy(op), k.1)
  {
    if op.Plan? && Serves(op.st, op.app) && op.installed.Some? {
      var g, plugins := GrantsOf(op.st, op.app), op.installed.value;
      var edges := EdgesUpTo(gate.drops, g, op.app, plugins, |plugins|);
      EdgesAreLoggedOnce(gate.drops, g, op.app, plugins, |plugins|);
      assert Logged(gate, op) == Tagged(op.app, edges);
      TaggedMembers(op.app, edges);
    }
  }

  lemma TaggedMembers(app: string, ids: seq<string>)
    ensures forall k :: k in Tagged(app, ids) <==> k.0 == app && k.1 in ids
  {
    forall k: Key | k.0 == app && k.1 in ids
      ensures k in Tagged(app, ids)
    {
      var i :| 0 <= i < |ids| && ids[i] == k.1;
      assert Tagged(app, ids)[i] == k;
    }
  }

  /** What an operation drops: exactly the plugins with effective grants, a renderer payload and neither
      unlocking grant, each with its effective grants. */
  lemma {:induction false} DropGrantsAre(g: Grants, plugins: seq<PluginFiles>, n: nat, i: nat)
    requires i < n <= |plugins| && DistinctIds(plugins)
    ensures var granted := g(plugins[i]);
            plugins[i].id in DropGrantsUpTo(g, plugins, n) <==>
            granted != [] && plugins[i].renderer.Some? &&
            "renderer.script" !in granted && "runtime.unsafe" !in granted
    ensures plugins[i].id in DropGrantsUpTo(g, plugins, n) ==>
              DropGrantsUpTo(g, plugins, n)[plugins[i].id] == g(plugins[i])
  {
    if i < n - 1 {
      DropGrantsAre(g, plugins, n - 1, i);
    } else {
      NotDroppedBefore(g, plugins, i, plugins[i].id);
    }
  }

  lemma {:induction false} NotDroppedBefore(g: Grants, plugins: seq<PluginFiles>, n: nat, p: string)
    requires n <= |plugins| && forall j :: 0 <= j < n ==> plugins[j].id != p
    ensures p !in DropGrantsUpTo(g, plugins, n)
  {
    if n > 0 {
      NotDroppedBefore(g, plugins, n - 1, p);
    }
  }

  lemma EdgeByPrints(ops: seq<Op>, k: nat, app: string, p: string)
    requires k < |ops| && WellFormed(ops[k])
    ensures var before, added := Run(ops[..k]), Logged(Run(ops[..k]), ops[k]);
            var previous, dropped := PreviousDrops(ops[..k], app), DroppedBy(ops[k]);
            && Run(ops[..k + 1]).events == before.events + added
            && (forall i, j :: 0 <= i < j < |added| ==> added[i] != added[j])
            && ((app, p) in added <==>
                  && ops[k].app == app && p in dropped
                  && !(p in previous && previous[p] == dropped[p]))
  {
    assert ops[..k + 1][..k] == ops[..k];
    LoggedIs(Run(ops[..k]), ops[k]);
    GateRemembersPreviousPlan(ops[..k], app, p);
  }

  /** Main theorem: over any run of plan computations and removals, the log only grows, and the k-th
      operation logs a pair, once, exactly when it drops the pair's payload and the application's
      previous plan did not drop it with the same effective grants; other applications' plans, and plans
      that failed, make no difference. */
  lemma DropsAreEdgeTriggered(ops: seq<Op>, k: nat, app: string, p: string)
    requires k < |ops| && WellFormed(ops[k])
    ensures var before, added := Run(ops[..k]), Logged(Run(ops[..k]), ops[k]);
            var previous, dropped := PreviousGrants(ops[..k], app), GrantsDroppedBy(ops[k]);
            && Run(ops[..k + 1]).events == before.events + added
            && (forall i, j :: 0 <= i < j < |added| ==> added[i] != added[j])
            && ((app, p) in added <==>
                  && ops[k].app == app && p in dropped
                  && !(p in previous && previous[p] == dropped[p]))
  {
    EdgeByPrints(ops, k, app, p);
    OpGrantsPrint(ops[k], p);
    PreviousGrantsPrint(ops[..k], app, p);
    if p in GrantsDroppedBy(ops[k]) && p in PreviousGrants(ops[..k], app) {
      PrintsIdentify(DroppedBy(ops[k]), GrantsDroppedBy(ops[k]),
                     PreviousDrops(ops[..k], app), PreviousGrants(ops[..k], app), p);
    }
  }
}
