/**
 The plugin loader and the persisted plugin registry (src/core/plugins/plugin-loader.service.ts,
 src/core/plugins/plugin-storage.service.ts).

 Enabling and disabling await the plugin's worker, so several calls can be in flight; a step is the
 code between two awaits. The service's maps are all keyed by plugin id and every step works at one
 id, so `Slot` puts what they hold at one id side by side and the machine is stated per plugin; the
 class at the end shows that each method steps one slot and leaves the others alone. Ids, config keys
 and values are only compared and copied, so numbers stand for them.
 */
module Plugins {
  import opened Support

  type Id = nat
  type HostId = nat
  type Config = map<nat, nat>

  datatype Status = INSTALLED | ENABLED | DISABLED | ERROR

  datatype PluginType = ENGINE | STORAGE | QUEUE | AUTH | EXTENSION

  datatype Instance = Instance(
    kind: PluginType, sessionScoped: bool, builtIn: bool, status: Status, config: Config,
    activeSessions: Option<seq<nat>>, sessionConfig: Option<map<nat, Config>>)

  datatype Entry = Entry(
    id: Id, builtIn: bool, status: Status, config: Config,
    activeSessions: Option<seq<nat>>, sessionConfig: Option<map<nat, Config>>)

  /** Where an enable call waits: in the worker, or for its caller to resume. */
  datatype EnablePhase = Loading | OnLoad | OnEnable | Succeeded | Terminating | Rejected

  datatype EnableCall = EnableCall(host: Option<HostId>, phase: EnablePhase)

  datatype DisableCall = DisableCall(host: Option<HostId>, terminating: bool)

  datatype Slot = Slot(
    plugin: Option<Instance>,          // plugins
    enabling: bool,                    // enabling
    host: Option<HostId>,              // sandboxHosts
    entry: Option<Entry>,              // the registry
    enables: map<nat, EnableCall>,     // enablePlugin calls in flight
    disables: map<nat, DisableCall>,   // disablePlugin calls in flight
    hosts: nat,                        // history: workers made so far
    terminated: set<HostId>)           // history: workers told to terminate

  datatype Event =
    | Load(kind: PluginType, sessionScoped: bool)
    | RegisterBuiltIn(kind: PluginType, sessionScoped: bool, env: Config)
    | EnableStart(call: nat, pathOk: bool)
    | EnableAwait(call: nat, ok: bool)
    | EnableResume(call: nat)
    | DisableStart(call: nat)
    | DisableAwait(call: nat)
    | DisableResume(call: nat, ok: bool)
    | UpdateConfig(config: Config)
    | SetSessions(sessions: seq<nat>)
    | SetSessionConfig(session: nat, config: Config)

  // ----- Steps -----

  /** What ensureRegistryEntry writes: INSTALLED, with the persisted choices carried over. */
  function LoadedEntry(entry: Option<Entry>, p: Id, builtIn: bool): Entry {
    match entry
    case Some(e) => Entry(p, builtIn, INSTALLED, e.config, e.activeSessions, e.sessionConfig)
    case None => Entry(p, builtIn, INSTALLED, map[], None, None)
  }

  function LoadedInstance(kind: PluginType, sessionScoped: bool, entry: Entry): Instance {
    Instance(kind, sessionScoped, false, INSTALLED, entry.config, entry.activeSessions, entry.sessionConfig)
  }

  function WithStatus(s: Slot, status: Status): Slot
    requires s.plugin.Some?
  {
    s.(plugin := Some(s.plugin.value.(status := status)),
       entry := if s.entry.Some? then Some(s.entry.value.(status := status)) else None)
  }

  predicate CanEnable(s: Slot, p: Id, activeEngine: Id) {
    && s.plugin.Some? && s.plugin.value.status != ENABLED
    && (s.plugin.value.kind == ENGINE ==> p == activeEngine)
    && !s.enabling
  }

  function StartEnable(s: Slot, c: nat, pathOk: bool): Slot
    requires s.plugin.Some?
  {
    var s := s.(enabling := true);
    if s.plugin.value.builtIn then s.(enables := s.enables[c := EnableCall(None, OnLoad)])
    else if !pathOk then s.(enables := s.enables[c := EnableCall(None, Rejected)])
    else s.(host := Some(s.hosts), hosts := s.hosts + 1, enables := s.enables[c := EnableCall(Some(s.hosts), Loading)])
  }

  predicate InWorker(phase: EnablePhase) {
    phase == Loading || phase == OnLoad || phase == OnEnable
  }

  function NextPhase(phase: EnablePhase): EnablePhase {
    match phase
    case Loading => OnLoad
    case OnLoad => OnEnable
    case _ => Succeeded
  }

  /** The awaited lifecycle call or terminate of an enable settles. */
  function AwaitEnable(s: Slot, c: nat, ok: bool): Slot
    requires c in s.enables
  {
    var call := s.enables[c];
    if call.phase == Terminating then s.(enables := s.enables[c := call.(phase := Rejected)])
    else if ok then s.(enables := s.enables[c := call.(phase := NextPhase(call.phase))])
    else if call.host.None? then s.(enables := s.enables[c := call.(phase := Rejected)])
    else s.(host := None, terminated := s.terminated + {call.host.value},
            enables := s.enables[c := call.(phase := Terminating)])
  }

  /** enablePlugin after its await: the outcome on both sides, and the lock released. */
  function ResumeEnable(s: Slot, c: nat): Slot
    requires c in s.enables && s.plugin.Some?
  {
    WithStatus(s.(enabling := false, enables := s.enables - {c}),
               if s.enables[c].phase == Succeeded then ENABLED else ERROR)
  }

  /** disablePlugin after its last await. A built-in's onDisable may throw: then only the runtime turns ERROR. */
  function ResumeDisable(s: Slot, c: nat, ok: bool): Slot
    requires c in s.disables && s.plugin.Some?
  {
    var inProcess := s.disables[c].host.None?;
    var s := s.(disables := s.disables - {c});
    if inProcess && !ok then s.(plugin := Some(s.plugin.value.(status := ERROR)))
    else WithStatus(if inProcess then s else s.(host := None), DISABLED)
  }

  /** An empty override removes the session's entry. */
  function WithOverride(overrides: Option<map<nat, Config>>, session: nat, config: Config): map<nat, Config> {
    var base := if overrides.Some? then overrides.value else map[];
    if config == map[] then base - {session} else base[session := config]
  }

  predicate Enabled(s: Slot, p: Id, activeEngine: Id, e: Event) {
    match e
    case Load(_, _) => s.plugin.None?
    case RegisterBuiltIn(_, _, _) => s.plugin.None?
    case EnableStart(c, _) => c !in s.enables && CanEnable(s, p, activeEngine)
    case EnableAwait(c, _) => c in s.enables && (InWorker(s.enables[c].phase) || s.enables[c].phase == Terminating)
    case EnableResume(c) =>
      c in s.enables && (s.enables[c].phase == Succeeded || s.enables[c].phase == Rejected) && s.plugin.Some?
    case DisableStart(c) => c !in s.disables && s.plugin.Some? && s.plugin.value.status == ENABLED
    case DisableAwait(c) => c in s.disables && s.disables[c].host.Some? && !s.disables[c].terminating
    case DisableResume(c, _) =>
      c in s.disables && (s.disables[c].host.Some? ==> s.disables[c].terminating) && s.plugin.Some?
    case UpdateConfig(_) => s.plugin.Some?
    case SetSessions(_) => s.plugin.Some? && s.plugin.value.sessionScoped
    case SetSessionConfig(_, _) => s.plugin.Some? && s.plugin.value.sessionScoped
  }

  function Next(s: Slot, p: Id, activeEngine: Id, e: Event): Slot
    requires Enabled(s, p, activeEngine, e)
  {
    match e
    case Load(kind, scoped) =>
      var entry := LoadedEntry(s.entry, p, false);
      s.(plugin := Some(LoadedInstance(kind, scoped, entry)),
         entry := Some(entry))
    case RegisterBuiltIn(kind, scoped, env) =>
      var config := if s.entry.Some? then env + s.entry.value.config else env;
      s.(plugin := Some(Instance(kind, scoped, true, INSTALLED, config, None, None)),
         entry := Some(LoadedEntry(s.entry, p, true)))
    case EnableStart(c, pathOk) => StartEnable(s, c, pathOk)
    case EnableAwait(c, ok) => AwaitEnable(s, c, ok)
    case EnableResume(c) => ResumeEnable(s, c)
    case DisableStart(c) => s.(disables := s.disables[c := DisableCall(s.host, false)])
    case DisableAwait(c) =>
      s.(terminated := s.terminated + {s.disables[c].host.value},
         disables := s.disables[c := s.disables[c].(terminating := true)])
    case DisableResume(c, ok) => ResumeDisable(s, c, ok)
    case UpdateConfig(config) => WithConfig(s, s.plugin.value.config + config)
    case SetSessions(sessions) => WithSessions(s, Some(sessions))
    case SetSessionConfig(session, config) =>
      WithSessionConfig(s, Some(WithOverride(s.plugin.value.sessionConfig, session, config)))
  }

  function WithConfig(s: Slot, config: Config): Slot
    requires s.plugin.Some?
  {
    s.(plugin := Some(s.plugin.value.(config := config)),
       entry := if s.entry.Some? then Some(s.entry.value.(config := config)) else None)
  }

  function WithSessions(s: Slot, sessions: Option<seq<nat>>): Slot
    requires s.plugin.Some?
  {
    s.(plugin := Some(s.plugin.value.(activeSessions := sessions)),
       entry := if s.entry.Some? then Some(s.entry.value.(activeSessions := sessions)) else None)
  }

  function WithSessionConfig(s: Slot, overrides: Option<map<nat, Config>>): Slot
    requires s.plugin.Some?
  {
    s.(plugin := Some(s.plugin.value.(sessionConfig := overrides)),
       entry := if s.entry.Some? then Some(s.entry.value.(sessionConfig := overrides)) else None)
  }

  // ----- Runs -----

  /** The plugin never has two disables in flight. */
  predicate Disciplined(s: Slot, e: Event) {
    e.DisableStart? ==> s.disables == map[]
  }

  predicate Valid(s: Slot, p: Id, engine: Id, run: seq<Event>)
    decreases |run|
  {
    run == [] || (Enabled(s, p, engine, run[0]) && Valid(Next(s, p, engine, run[0]), p, engine, run[1..]))
  }

  function Run(s: Slot, p: Id, engine: Id, run: seq<Event>): Slot
    requires Valid(s, p, engine, run)
    decreases |run|
  {
    if run == [] then s else Run(Next(s, p, engine, run[0]), p, engine, run[1..])
  }

  predicate AllDisciplined(s: Slot, p: Id, engine: Id, run: seq<Event>)
    requires Valid(s, p, engine, run)
    decreases |run|
  {
    run == [] || (Disciplined(s, run[0]) && AllDisciplined(Next(s, p, engine, run[0]), p, engine, run[1..]))
  }

  /** Before the service starts: nothing is loaded, the registry may hold an entry from an earlier boot. */
  function Boot(entry: Option<Entry>): Slot {
    Slot(None, false, None, entry, map[], map[], 0, {})
  }

  // ----- Invariant -----

  /** At most one enable lifecycle is running, and the lock is held exactly while it is. */
  predicate LockExact(s: Slot) {
    && (s.enabling <==> s.enables != map[])
    && (forall b, c :: b in s.enables && c in s.enables ==> b == c)
  }

  predicate EnableOk(s: Slot, p: Id, engine: Id, call: EnableCall) {
    && s.plugin.Some? && s.plugin.value.status != ENABLED && s.disables == map[]
    && (s.plugin.value.kind == ENGINE ==> p == engine)
    && (s.plugin.value.builtIn ==> call.host.None?)
    && (call.phase == Terminating || call.phase == Rejected ==> s.host.None?)
    && (!s.plugin.value.builtIn && call.phase != Terminating && call.phase != Rejected ==>
          call.host.Some? && s.host == call.host && call.host.value !in s.terminated)
  }

  predicate DisableOk(s: Slot, call: DisableCall) {
    && s.plugin.Some? && s.plugin.value.status == ENABLED
    && (s.plugin.value.builtIn <==> call.host.None?)
    && (call.host.Some? ==> s.host == call.host)
    && (call.terminating ==> call.host.Some?)
  }

  predicate CallsOk(s: Slot, p: Id, engine: Id) {
    && (forall c :: c in s.enables ==> EnableOk(s, p, engine, s.enables[c]))
    && (forall d :: d in s.disables ==> DisableOk(s, s.disables[d]))
    && (forall b, d :: b in s.disables && d in s.disables ==> b == d)
  }

  /** Enabled means a host in the table, alive unless being disabled; a host means enabled or being enabled. */
  predicate HostTableOk(s: Slot, p: Id, engine: Id) {
    && (s.host.Some? ==>
          && s.host.value < s.hosts && s.plugin.Some? && !s.plugin.value.builtIn
          && (s.plugin.value.status == ENABLED || s.enabling))
    && (forall h :: h in s.terminated ==> h < s.hosts)
    && (s.plugin.Some? && s.plugin.value.status == ENABLED ==>
          && (s.plugin.value.kind == ENGINE ==> p == engine)
          && (!s.plugin.value.builtIn ==> s.host.Some? && (s.host.value in s.terminated ==> s.disables != map[])))
  }

  /** Runtime and registry agree on a user plugin. */
  predicate Agrees(s: Slot, p: Id) {
    && (s.entry.Some? ==> s.entry.value.id == p)
    && (s.plugin.Some? ==> s.entry.Some?)
    && (s.plugin.Some? && !s.plugin.value.builtIn ==>
          && s.entry.value.status == s.plugin.value.status && s.entry.value.config == s.plugin.value.config
          && s.entry.value.activeSessions == s.plugin.value.activeSessions
          && s.entry.value.sessionConfig == s.plugin.value.sessionConfig)
  }

  predicate Inv(s: Slot, p: Id, engine: Id) {
    LockExact(s) && CallsOk(s, p, engine) && HostTableOk(s, p, engine) && Agrees(s, p)
  }

  lemma NextKeepsInv(s: Slot, p: Id, engine: Id, e: Event)
    requires Inv(s, p, engine) && Enabled(s, p, engine, e) && Disciplined(s, e)
    ensures Inv(Next(s, p, engine, e), p, engine)
  {
    NextKeepsCalls(s, p, engine, e);
    NextKeepsHost(s, p, engine, e);
    NextKeepsAgreement(s, p, engine, e);
  }

  lemma AwaitKeepsHost(s: Slot, p: Id, engine: Id, e: Event)
    requires Inv(s, p, engine) && Enabled(s, p, engine, e) && e.EnableAwait?
    ensures HostTableOk(Next(s, p, engine, e), p, engine)
  {
    assert EnableOk(s, p, engine, s.enables[e.call]);
  }

  lemma EnabledKeepsHost(s: Slot, p: Id, engine: Id, e: Event)
    requires Inv(s, p, engine) && Enabled(s, p, engine, e) && e.EnableResume?
    ensures HostTableOk(Next(s, p, engine, e), p, engine)
  {
    assert EnableOk(s, p, engine, s.enables[e.call]);
  }

  lemma DisablingKeepsHost(s: Slot, p: Id, engine: Id, e: Event)
    requires Inv(s, p, engine) && Enabled(s, p, engine, e) && (e.DisableAwait? || e.DisableResume?)
    ensures HostTableOk(Next(s, p, engine, e), p, engine)
  {
    assert DisableOk(s, s.disables[e.call]);
  }

  lemma NextKeepsHost(s: Slot, p: Id, engine: Id, e: Event)
    requires Inv(s, p, engine) && Enabled(s, p, engine, e) && Disciplined(s, e)
    ensures HostTableOk(Next(s, p, engine, e), p, engine)
  {
    match e
    case EnableAwait(_, _) => AwaitKeepsHost(s, p, engine, e);
    case EnableResume(_) => EnabledKeepsHost(s, p, engine, e);
    case DisableAwait(_) => DisablingKeepsHost(s, p, engine, e);
    case DisableResume(_, _) => DisablingKeepsHost(s, p, engine, e);
    case _ =>
  }

  lemma NextKeepsCalls(s: Slot, p: Id, engine: Id, e: Event)
    requires Inv(s, p, engine) && Enabled(s, p, engine, e) && Disciplined(s, e)
    ensures LockExact(Next(s, p, engine, e)) && CallsOk(Next(s, p, engine, e), p, engine)
  {
  }

  lemma NextKeepsAgreement(s: Slot, p: Id, engine: Id, e: Event)
    requires Agrees(s, p) && Enabled(s, p, engine, e)
    requires e.DisableResume? ==> CallsOk(s, p, engine)
    ensures Agrees(Next(s, p, engine, e), p)
  {
  }

  /**
   Main theorem: in every run without overlapping disables at most one enable lifecycle is running and
   the lock is held exactly meanwhile, an enabled user plugin has its host in the table, a host in the
   table means enabled or being enabled, and a user plugin's runtime equals its registry entry.
   */
  lemma {:induction false} RunsAreSafe(s: Slot, p: Id, engine: Id, run: seq<Event>)
    requires Inv(s, p, engine) && Valid(s, p, engine, run) && AllDisciplined(s, p, engine, run)
    ensures Inv(Run(s, p, engine, run), p, engine)
    decreases |run|
  {
    if run != [] {
      NextKeepsInv(s, p, engine, run[0]);
      RunsAreSafe(Next(s, p, engine, run[0]), p, engine, run[1..]);
    }
  }

  /** Two engines are never enabled together. */
  lemma AtMostOneEngine(e1: Option<Entry>, p1: Id, run1: seq<Event>,
                        e2: Option<Entry>, p2: Id, run2: seq<Event>, engine: Id)
    requires (e1.Some? ==> e1.value.id == p1) && (e2.Some? ==> e2.value.id == p2)
    requires Valid(Boot(e1), p1, engine, run1) && AllDisciplined(Boot(e1), p1, engine, run1)
    requires Valid(Boot(e2), p2, engine, run2) && AllDisciplined(Boot(e2), p2, engine, run2)
    requires var s1, s2 := Run(Boot(e1), p1, engine, run1), Run(Boot(e2), p2, engine, run2);
      && s1.plugin.Some? && s1.plugin.value.kind == ENGINE && s1.plugin.value.status == ENABLED
      && s2.plugin.Some? && s2.plugin.value.kind == ENGINE && s2.plugin.value.status == ENABLED
    ensures p1 == p2
  {
    RunsAreSafe(Boot(e1), p1, engine, run1);
    RunsAreSafe(Boot(e2), p2, engine, run2);
  }

  /**
   A restart keeps a user plugin's choices: loading it from the entry that any run left behind gives
   the same config, sessions and session overrides, and INSTALLED on both sides.
   */
  lemma RestartKeepsChoices(entry: Option<Entry>, p: Id, engine: Id, run: seq<Event>)
    requires (entry.Some? ==> entry.value.id == p)
    requires Valid(Boot(entry), p, engine, run) && AllDisciplined(Boot(entry), p, engine, run)
    requires var s := Run(Boot(entry), p, engine, run); s.plugin.Some? && !s.plugin.value.builtIn
    ensures var s := Run(Boot(entry), p, engine, run);
      var r := Next(Boot(s.entry), p, engine, Load(s.plugin.value.kind, s.plugin.value.sessionScoped));
      && r.plugin == Some(s.plugin.value.(status := INSTALLED))
      && r.entry.Some? && r.entry.value.status == INSTALLED && r.entry.value.config == s.plugin.value.config
      && r.entry.value.activeSessions == s.plugin.value.activeSessions
      && r.entry.value.sessionConfig == s.plugin.value.sessionConfig
      && Inv(r, p, engine)
  {
    RunsAreSafe(Boot(entry), p, engine, run);
  }

  /** An update wins over the stored values of its keys and keeps the others, on both sides. */
  lemma ConfigUpdateMerges(s: Slot, p: Id, engine: Id, config: Config, key: nat)
    requires Inv(s, p, engine) && s.plugin.Some? && !s.plugin.value.builtIn
    ensures var r := Next(s, p, engine, UpdateConfig(config));
      && Get(r.plugin.value.config, key) == Or(Get(config, key), Get(s.plugin.value.config, key))
      && r.entry.value.config == r.plugin.value.config
  {
  }

  /** The sessions set are the sessions stored, in the runtime and in the registry; nothing else changes. */
  lemma SessionsAreStored(s: Slot, p: Id, engine: Id, sessions: seq<nat>)
    requires Inv(s, p, engine) && Enabled(s, p, engine, SetSessions(sessions)) && !s.plugin.value.builtIn
    ensures var r := Next(s, p, engine, SetSessions(sessions));
      && r.plugin == Some(s.plugin.value.(activeSessions := Some(sessions)))
      && r.entry == Some(s.entry.value.(activeSessions := Some(sessions)))
      && r == s.(plugin := r.plugin, entry := r.entry)
  {
  }

  /** An override replaces that session's, an empty one removes it, and other sessions keep theirs, on both sides. */
  lemma OverrideTakesEffect(s: Slot, p: Id, engine: Id, session: nat, config: Config, other: nat)
    requires Inv(s, p, engine) && Enabled(s, p, engine, SetSessionConfig(session, config)) && !s.plugin.value.builtIn
    ensures var r := Next(s, p, engine, SetSessionConfig(session, config)).plugin.value.sessionConfig;
      var before := s.plugin.value.sessionConfig;
      && r.Some? && r == Next(s, p, engine, SetSessionConfig(session, config)).entry.value.sessionConfig
      && Get(r.value, session) == (if config == map[] then None else Some(config))
      && (other != session ==> Get(r.value, other) == if before.Some? then Get(before.value, other) else None)
  {
  }

  // ----- How calls end -----

  /** Loading takes the persisted choices, or none, and writes them back as INSTALLED. */
  lemma LoadTakesPersisted(s: Slot, p: Id, engine: Id, kind: PluginType, scoped: bool)
    requires s.plugin.None?
    ensures var f := Next(s, p, engine, Load(kind, scoped));
      var config := if s.entry.Some? then s.entry.value.config else map[];
      var sessions := if s.entry.Some? then s.entry.value.activeSessions else None;
      var overrides := if s.entry.Some? then s.entry.value.sessionConfig else None;
      && f.plugin == Some(Instance(kind, scoped, false, INSTALLED, config, sessions, overrides))
      && f.entry == Some(Entry(p, false, INSTALLED, config, sessions, overrides))
      && f == s.(plugin := f.plugin, entry := f.entry)
  {
  }

  /** A built-in runs on the environment's config under the operator's; its sessions are not reloaded. */
  lemma BuiltInMergesEnvironment(s: Slot, p: Id, engine: Id, kind: PluginType, scoped: bool, env: Config, key: nat)
    requires s.plugin.None?
    ensures var f := Next(s, p, engine, RegisterBuiltIn(kind, scoped, env));
      var stored := if s.entry.Some? then s.entry.value.config else map[];
      && f.plugin.Some?
      && f.plugin.value == Instance(kind, scoped, true, INSTALLED, f.plugin.value.config, None, None)
      && Get(f.plugin.value.config, key) == Or(Get(stored, key), Get(env, key))
      && f.entry.Some? && f.entry.value.builtIn && f.entry.value.status == INSTALLED && f.entry.value.config == stored
      && f == s.(plugin := f.plugin, entry := f.entry)
  {
  }

  /** The lock is taken at once; a user plugin gets a fresh worker in the table, unless its path is bad. */
  lemma EnableStarts(s: Slot, p: Id, engine: Id, c: nat, pathOk: bool)
    requires Enabled(s, p, engine, EnableStart(c, pathOk))
    ensures var f, user := Next(s, p, engine, EnableStart(c, pathOk)), !s.plugin.value.builtIn;
      && f.enabling && f.plugin == s.plugin && f.entry == s.entry && f.terminated == s.terminated
      && f.host == (if user && pathOk then Some(s.hosts) else s.host)
      && f.enables
         == s.enables[c := EnableCall(if user && pathOk then Some(s.hosts) else None,
                                      if !user then OnLoad else if pathOk then Loading else Rejected)]
  {
  }

  /** A lifecycle call that succeeds leads to the next; after onEnable the enable has succeeded. */
  lemma LifecycleAdvances(s: Slot, p: Id, engine: Id, c: nat)
    requires c in s.enables && InWorker(s.enables[c].phase)
    ensures Next(s, p, engine, EnableAwait(c, true))
         == s.(enables := s.enables[c := s.enables[c].(
                 phase := if s.enables[c].phase == Loading then OnLoad
                          else if s.enables[c].phase == OnLoad then OnEnable else Succeeded)])
  {
  }

  function OnBothSides(s: Slot, status: Status): bool {
    s.plugin.Some? && s.plugin.value.status == status && (s.entry.Some? ==> s.entry.value.status == status)
  }

  /** An enable whose lifecycle fails at any call ends in ERROR on both sides, its worker terminated and forgotten. */
  lemma FailedEnableCleansUp(s: Slot, p: Id, engine: Id, c: nat, ok: bool)
    requires c in s.enables && InWorker(s.enables[c].phase) && s.enables[c].host.Some? && s.plugin.Some?
    ensures var run := [EnableAwait(c, false)] + ([EnableAwait(c, ok)] + [EnableResume(c)]);
      && Valid(s, p, engine, run)
      && var f := Run(s, p, engine, run);
         && OnBothSides(f, ERROR) && !f.enabling && c !in f.enables && f.host.None?
         && f.terminated == s.terminated + {s.enables[c].host.value}
  {
    var s1 := Next(s, p, engine, EnableAwait(c, false));
    var s2 := Next(s1, p, engine, EnableAwait(c, ok));
    UnfoldRun(s2, p, engine, EnableResume(c), []);
    UnfoldRun(s1, p, engine, EnableAwait(c, ok), [EnableResume(c)]);
    UnfoldRun(s, p, engine, EnableAwait(c, false), [EnableAwait(c, ok)] + [EnableResume(c)]);
  }

  /** In process there is no worker to terminate. */
  lemma FailedBuiltInEnable(s: Slot, p: Id, engine: Id, c: nat)
    requires c in s.enables && InWorker(s.enables[c].phase) && s.enables[c].host.None? && s.plugin.Some?
    ensures var run := [EnableAwait(c, false)] + [EnableResume(c)];
      && Valid(s, p, engine, run)
      && var f := Run(s, p, engine, run);
         OnBothSides(f, ERROR) && !f.enabling && c !in f.enables && f.host == s.host && f.terminated == s.terminated
  {
    var s1 := Next(s, p, engine, EnableAwait(c, false));
    UnfoldRun(s1, p, engine, EnableResume(c), []);
    UnfoldRun(s, p, engine, EnableAwait(c, false), [EnableResume(c)]);
  }

  /** A resumed enable releases the lock and puts the outcome on both sides. */
  lemma EnableSettles(s: Slot, p: Id, engine: Id, c: nat)
    requires Enabled(s, p, engine, EnableResume(c))
    ensures var f := Next(s, p, engine, EnableResume(c));
      && OnBothSides(f, if s.enables[c].phase == Succeeded then ENABLED else ERROR)
      && !f.enabling && f.enables == s.enables - {c} && f.host == s.host && f.terminated == s.terminated
  {
  }

  /**
   A disable with a worker terminates it, however onDisable ends, and drops it from the table; DISABLED on both
   sides. In process, a failing onDisable turns only the runtime to ERROR.
   */
  lemma DisableSettles(s: Slot, p: Id, engine: Id, c: nat, ok: bool)
    requires Enabled(s, p, engine, DisableResume(c, ok))
    ensures var f, worker := Next(s, p, engine, DisableResume(c, ok)), s.disables[c].host.Some?;
      && f.disables == s.disables - {c} && f.terminated == s.terminated
      && f.host == (if worker then None else s.host)
      && (if worker || ok then OnBothSides(f, DISABLED)
          else f.plugin == Some(s.plugin.value.(status := ERROR)) && f.entry == s.entry)
  {
  }

  lemma DisableTerminates(s: Slot, p: Id, engine: Id, c: nat)
    requires Enabled(s, p, engine, DisableAwait(c))
    ensures var f := Next(s, p, engine, DisableAwait(c));
      f.terminated == s.terminated + {s.disables[c].host.value} && f.disables[c].terminating && f.host == s.host
  {
  }

  // ----- Overlapping disables -----

  ghost predicate StaysHosted(s: Slot, p: Id, engine: Id) {
    forall run :: Valid(s, p, engine, run) && AllDisciplined(s, p, engine, run) ==> Hosted(Run(s, p, engine, run))
  }

  /** An enabled user plugin has a host in the table. */
  predicate Hosted(s: Slot) {
    s.plugin.Some? && s.plugin.value.status == ENABLED && !s.plugin.value.builtIn ==> s.host.Some?
  }

  lemma UnfoldRun(s: Slot, p: Id, engine: Id, e: Event, run: seq<Event>)
    requires Enabled(s, p, engine, e) && Valid(Next(s, p, engine, e), p, engine, run)
    ensures Valid(s, p, engine, [e] + run)
    ensures Run(s, p, engine, [e] + run) == Run(Next(s, p, engine, e), p, engine, run)
    ensures AllDisciplined(s, p, engine, [e] + run)
      <==> Disciplined(s, e) && AllDisciplined(Next(s, p, engine, e), p, engine, run)
  {
    assert ([e] + run)[1..] == run;
  }

  const Finish: seq<Event> :=
    [EnableAwait(0, true)] + ([EnableAwait(0, true)] + ([EnableAwait(0, true)] + [EnableResume(0)]))

  lemma FinishEnables(s: Slot, p: Id, engine: Id)
    requires s.plugin.Some? && s.enables.Keys == {0} && s.enables[0].phase == Loading
    ensures Valid(s, p, engine, Finish) && AllDisciplined(s, p, engine, Finish)
    ensures var f := Run(s, p, engine, Finish);
      f.plugin == Some(s.plugin.value.(status := ENABLED)) && f.host == s.host
  {
    var a := EnableAwait(0, true);
    var s1 := Next(s, p, engine, a);
    var s2 := Next(s1, p, engine, a);
    var s3 := Next(s2, p, engine, a);
    UnfoldRun(s3, p, engine, EnableResume(0), []);
    UnfoldRun(s2, p, engine, a, [EnableResume(0)]);
    UnfoldRun(s1, p, engine, a, [a] + [EnableResume(0)]);
    UnfoldRun(s, p, engine, a, [a] + ([a] + [EnableResume(0)]));
  }

  /** Disable c settles: its worker is terminated if that has not happened yet, then the call resumes. */
  function Settle(s: Slot, c: nat): seq<Event>
    requires c in s.disables
  {
    if s.disables[c].terminating then [DisableResume(c, true)] else [DisableAwait(c)] + [DisableResume(c, true)]
  }

  lemma SettleDropsTheHost(s: Slot, p: Id, engine: Id, c: nat, rest: seq<Event>)
    requires c in s.disables && s.disables[c].host.Some? && s.plugin.Some?
    requires Valid(AfterSettle(s, c), p, engine, rest) && AllDisciplined(AfterSettle(s, c), p, engine, rest)
    ensures Valid(s, p, engine, Settle(s, c) + rest) && AllDisciplined(s, p, engine, Settle(s, c) + rest)
    ensures Run(s, p, engine, Settle(s, c) + rest) == Run(AfterSettle(s, c), p, engine, rest)
  {
    if s.disables[c].terminating {
      UnfoldRun(s, p, engine, DisableResume(c, true), rest);
    } else {
      var s1 := Next(s, p, engine, DisableAwait(c));
      assert s1.disables - {c} == s.disables - {c};
      UnfoldRun(s1, p, engine, DisableResume(c, true), rest);
      UnfoldRun(s, p, engine, DisableAwait(c), [DisableResume(c, true)] + rest);
      assert Settle(s, c) + rest == [DisableAwait(c)] + ([DisableResume(c, true)] + rest);
    }
  }

  function AfterSettle(s: Slot, c: nat): Slot
    requires c in s.disables && s.disables[c].host.Some? && s.plugin.Some?
  {
    var t := if s.disables[c].terminating then s.terminated else s.terminated + {s.disables[c].host.value};
    WithStatus(s.(disables := s.disables - {c}, host := None, terminated := t), DISABLED)
  }

  /**
   Why disables must not overlap, exactly: starting a disable of an enabled user plugin is followed by
   no run that leaves it enabled without a host if and only if no other disable is in flight.
   */
  lemma OverlappingDisables(s: Slot, p: Id, engine: Id, c: nat)
    requires Inv(s, p, engine) && Enabled(s, p, engine, DisableStart(c)) && !s.plugin.value.builtIn
    ensures StaysHosted(Next(s, p, engine, DisableStart(c)), p, engine) <==> s.disables == map[]
  {
    var s1 := Next(s, p, engine, DisableStart(c));
    if s.disables == map[] {
      NextKeepsInv(s, p, engine, DisableStart(c));
      forall run | Valid(s1, p, engine, run) && AllDisciplined(s1, p, engine, run)
        ensures Hosted(Run(s1, p, engine, run))
      {
        RunsAreSafe(s1, p, engine, run);
      }
    } else {
      var d :| d in s.disables;
      var s2 := AfterSettle(s1, d);
      var s3 := Next(s2, p, engine, EnableStart(0, true));
      var s4 := AfterSettle(s3, c);
      assert s4.enables.Keys == {0};
      FinishEnables(s4, p, engine);
      SettleDropsTheHost(s3, p, engine, c, Finish);
      var r3 := Settle(s3, c) + Finish;
      UnfoldRun(s2, p, engine, EnableStart(0, true), r3);
      SettleDropsTheHost(s1, p, engine, d, [EnableStart(0, true)] + r3);
      var r1 := Settle(s1, d) + ([EnableStart(0, true)] + r3);
      assert !Hosted(Run(s1, p, engine, r1));
    }
  }

  // ----- The registry file -----

  type File = seq<Entry>

  /** loadRegistry: a Map from the entries, later ones winning. */
  function FromFile(file: File): map<Id, Entry> {
    if file == [] then map[] else FromFile(file[..|file| - 1])[file[|file| - 1].id := file[|file| - 1]]
  }

  /** What saveRegistry writes: every entry once, in some order. */
  predicate IsFileOf(file: File, registry: map<Id, Entry>) {
    && (forall i, j :: 0 <= i < j < |file| ==> file[i].id != file[j].id)
    && (forall i :: 0 <= i < |file| ==> file[i].id in registry && registry[file[i].id] == file[i])
    && (forall p :: p in registry ==> exists i :: 0 <= i < |file| && file[i].id == p)
  }

  lemma {:induction false} FromFileEntries(file: File)
    requires forall i, j :: 0 <= i < j < |file| ==> file[i].id != file[j].id
    ensures forall i :: 0 <= i < |file| ==> file[i].id in FromFile(file) && FromFile(file)[file[i].id] == file[i]
    ensures forall p :: p in FromFile(file) ==> FromFile(file)[p] in file && FromFile(file)[p].id == p
    decreases |file|
  {
    if file != [] {
      var front, last := file[..|file| - 1], file[|file| - 1];
      FromFileEntries(front);
      assert file == front + [last];
    }
  }

  /** Loading the file that a save wrote gives the registry back. */
  lemma FileRoundTrips(file: File, registry: map<Id, Entry>)
    requires IsFileOf(file, registry)
    ensures FromFile(file) == registry
  {
    FromFileEntries(file);
    forall p ensures p in FromFile(file) <==> p in registry {
    }
  }

  /**
   So does a restart through the file: the user plugin loaded from the written registry has the same config,
   sessions and overrides as before.
   */
  lemma RestartThroughFile(entry: Option<Entry>, p: Id, engine: Id, run: seq<Event>,
                           file: File, registry: map<Id, Entry>)
    requires (entry.Some? ==> entry.value.id == p)
    requires Valid(Boot(entry), p, engine, run) && AllDisciplined(Boot(entry), p, engine, run)
    requires var s := Run(Boot(entry), p, engine, run);
      s.plugin.Some? && !s.plugin.value.builtIn && Get(registry, p) == s.entry
    requires IsFileOf(file, registry)
    ensures var s := Run(Boot(entry), p, engine, run);
      Next(Boot(Get(FromFile(file), p)), p, engine, Load(s.plugin.value.kind, s.plugin.value.sessionScoped)).plugin
      == Some(s.plugin.value.(status := INSTALLED))
  {
    FileRoundTrips(file, registry);
    RestartKeepsChoices(entry, p, engine, run);
  }

  // ----- The services -----

  datatype Calls = Calls(
    enables: map<nat, EnableCall>, disables: map<nat, DisableCall>, hosts: nat, terminated: set<HostId>)

  datatype EnableReply = Started | AlreadyEnabled | NotFound | NotTheActiveEngine | BeingEnabled

  class PluginStorage {
    var registry: map<Id, Entry>
    var disk: File
    var diskWorks: bool
    ghost var synced: bool    // history: the last save reached the disk

    ghost predicate Valid()
      reads this
    {
      && (forall p :: p in registry ==> registry[p].id == p)
      && (synced ==> IsFileOf(disk, registry))
    }

    /** saveRegistry: the whole registry is written; a disk error is swallowed. */
    method SaveRegistry()
      requires forall p :: p in registry ==> registry[p].id == p
      modifies this`disk, this`synced
      ensures Valid() && synced == diskWorks
    {
      synced := diskWorks;
      if !diskWorks {
        return;
      }
      var entries: File := [];
      var todo := registry.Keys;
      while todo != {}
        invariant todo <= registry.Keys
        invariant forall i :: 0 <= i < |entries| ==>
          entries[i].id in registry && registry[entries[i].id] == entries[i] && entries[i].id !in todo
        invariant forall i, j :: 0 <= i < j < |entries| ==> entries[i].id != entries[j].id
        invariant forall p :: p in registry && p !in todo ==> exists i :: 0 <= i < |entries| && entries[i].id == p
        decreases todo
      {
        var p :| p in todo;
        ghost var was := entries;
        entries := entries + [registry[p]];
        assert entries[|was|].id == p;
        assert forall i :: 0 <= i < |was| ==> entries[i] == was[i];
        todo := todo - {p};
      }
      disk := entries;
    }

    /** loadRegistry of a fresh process: a missing or unreadable file leaves the registry empty. */
    method LoadRegistry(readable: bool)
      requires Valid()
      modifies this`registry
      ensures registry == if readable then FromFile(disk) else map[]
      ensures readable && synced ==> registry == old(registry)
    {
      if synced {
        FileRoundTrips(disk, registry);
      }
      registry := map[];
      if !readable {
        return;
      }
      var i := 0;
      while i < |disk|
        invariant i <= |disk| && registry == FromFile(disk[..i])
      {
        assert disk[..i + 1][..i] == disk[..i];
        registry := registry[disk[i].id := disk[i]];
        i := i + 1;
      }
      assert disk[..i] == disk;
    }

    method SetPluginEntry(entry: Entry)
      requires Valid()
      modifies this
      ensures Valid() && registry == old(registry)[entry.id := entry]
      ensures diskWorks == old(diskWorks) && synced == diskWorks
    {
      registry := registry[entry.id := entry];
      SaveRegistry();
    }

    method SetPluginStatus(p: Id, status: Status)
      requires Valid()
      modifies this
      ensures Valid() && diskWorks == old(diskWorks)
      ensures registry.Keys == old(registry.Keys)
      ensures p in registry ==> registry == old(registry)[p := old(registry)[p].(status := status)]
      ensures p !in registry ==> registry == old(registry)
    {
      if p in registry {
        SetPluginEntry(registry[p].(status := status));
      }
    }

    method SetPluginConfig(p: Id, config: Config)
      requires Valid()
      modifies this
      ensures Valid() && diskWorks == old(diskWorks)
      ensures registry.Keys == old(registry.Keys)
      ensures p in registry ==> registry == old(registry)[p := old(registry)[p].(config := config)]
      ensures p !in registry ==> registry == old(registry)
    {
      if p in registry {
        SetPluginEntry(registry[p].(config := config));
      }
    }

    method SetPluginSessions(p: Id, sessions: seq<nat>)
      requires Valid()
      modifies this
      ensures Valid() && diskWorks == old(diskWorks)
      ensures registry.Keys == old(registry.Keys)
      ensures p in registry ==> registry == old(registry)[p := old(registry)[p].(activeSessions := Some(sessions))]
      ensures p !in registry ==> registry == old(registry)
    {
      if p in registry {
        SetPluginEntry(registry[p].(activeSessions := Some(sessions)));
      }
    }

    method SetPluginSessionConfig(p: Id, overrides: map<nat, Config>)
      requires Valid()
      modifies this
      ensures Valid() && diskWorks == old(diskWorks)
      ensures registry.Keys == old(registry.Keys)
      ensures p in registry ==> registry == old(registry)[p := old(registry)[p].(sessionConfig := Some(overrides))]
      ensures p !in registry ==> registry == old(registry)
    {
      if p in registry {
        SetPluginEntry(registry[p].(sessionConfig := Some(overrides)));
      }
    }
  }

  class PluginLoader {
    const activeEngine: Id
    const storage: PluginStorage
    var plugins: map<Id, Instance>
    var enabling: set<Id>
    var sandboxHosts: map<Id, HostId>
    var calls: map<Id, Calls>    // enable and disable calls in flight, and the workers made and terminated

    constructor (activeEngine: Id, storage: PluginStorage)
      ensures this.activeEngine == activeEngine && this.storage == storage
      ensures forall p :: At(p) == Boot(if p in storage.registry then Some(storage.registry[p]) else None)
    {
      this.activeEngine, this.storage := activeEngine, storage;
      plugins, enabling, sandboxHosts, calls := map[], {}, map[], map[];
    }

    function CallsOf(p: Id): Calls
      reads this
    {
      if p in calls then calls[p] else Calls(map[], map[], 0, {})
    }

    /** What the services hold about plugin `p`. */
    function At(p: Id): Slot
      reads this, storage
    {
      var c := CallsOf(p);
      Slot(if p in plugins then Some(plugins[p]) else None, p in enabling,
           if p in sandboxHosts then Some(sandboxHosts[p]) else None,
           if p in storage.registry then Some(storage.registry[p]) else None,
           c.enables, c.disables, c.hosts, c.terminated)
    }

    method LoadPlugin(p: Id, kind: PluginType, sessionScoped: bool) returns (loaded: bool)
      requires storage.Valid()
      modifies this`plugins, storage
      ensures storage.Valid() && (loaded <==> Enabled(old(At(p)), p, activeEngine, Load(kind, sessionScoped)))
      ensures At(p) == if loaded then Next(old(At(p)), p, activeEngine, Load(kind, sessionScoped)) else old(At(p))
      ensures forall q :: q != p ==> At(q) == old(At(q))
    {
      loaded := p !in plugins;
      if !loaded {
        return;
      }
      var entry := LoadedEntry(if p in storage.registry then Some(storage.registry[p]) else None, p, false);
      plugins := plugins[p := LoadedInstance(kind, sessionScoped, entry)];
      storage.SetPluginEntry(entry);
    }

    /** enablePlugin up to its first await. */
    method EnablePlugin(p: Id, c: nat, pathOk: bool) returns (reply: EnableReply)
      requires c !in CallsOf(p).enables
      modifies this
      ensures reply == Started <==> Enabled(old(At(p)), p, activeEngine, EnableStart(c, pathOk))
      ensures At(p)
           == if reply == Started then Next(old(At(p)), p, activeEngine, EnableStart(c, pathOk)) else old(At(p))
      ensures forall q :: q != p ==> At(q) == old(At(q))
    {
      if p !in plugins {
        return NotFound;
      }
      var plugin := plugins[p];
      if plugin.status == ENABLED {
        return AlreadyEnabled;
      }
      if plugin.kind == ENGINE && p != activeEngine {
        return NotTheActiveEngine;
      }
      if p in enabling {
        return BeingEnabled;
      }
      BeginEnable(p, c, pathOk);
      reply := Started;
    }

    /** The lock is taken and the worker made before anything is awaited. */
    method BeginEnable(p: Id, c: nat, pathOk: bool)
      requires p in plugins
      modifies this
      ensures At(p) == StartEnable(old(At(p)), c, pathOk)
      ensures forall q :: q != p ==> At(q) == old(At(q))
    {
      enabling := enabling + {p};
      var mine := CallsOf(p);
      if plugins[p].builtIn {
        mine := mine.(enables := mine.enables[c := EnableCall(None, OnLoad)]);
      } else if !pathOk {
        mine := mine.(enables := mine.enables[c := EnableCall(None, Rejected)]);
      } else {
        sandboxHosts := sandboxHosts[p := mine.hosts];
        mine := mine.(enables := mine.enables[c := EnableCall(Some(mine.hosts), Loading)], hosts := mine.hosts + 1);
      }
      calls := calls[p := mine];
    }

    /** A lifecycle call or the terminate that an enable awaits has settled. */
    method EnableAwaitSettles(p: Id, c: nat, ok: bool)
      requires Enabled(At(p), p, activeEngine, EnableAwait(c, ok))
      modifies this
      ensures At(p) == Next(old(At(p)), p, activeEngine, EnableAwait(c, ok))
      ensures forall q :: q != p ==> At(q) == old(At(q))
    {
      var mine := CallsOf(p);
      var call := mine.enables[c];
      if call.phase == Terminating {
        call := call.(phase := Rejected);
      } else if ok {
        call := call.(phase := NextPhase(call.phase));
      } else if call.host.None? {
        call := call.(phase := Rejected);
      } else {
        sandboxHosts := sandboxHosts - {p};
        mine := mine.(terminated := mine.terminated + {call.host.value});
        call := call.(phase := Terminating);
      }
      calls := calls[p := mine.(enables := mine.enables[c := call])];
    }

    /** Set the runtime status and persist it. */
    method RecordStatus(p: Id, status: Status)
      requires storage.Valid() && p in plugins
      modifies this`plugins, storage
      ensures storage.Valid() && At(p) == WithStatus(old(At(p)), status)
      ensures forall q :: q != p ==> At(q) == old(At(q))
    {
      plugins := plugins[p := plugins[p].(status := status)];
      storage.SetPluginStatus(p, status);
    }

    /** enablePlugin after its await, with its catch and finally. */
    method EnablePluginTail(p: Id, c: nat)
      requires storage.Valid() && Enabled(At(p), p, activeEngine, EnableResume(c))
      modifies this, storage
      ensures storage.Valid() && At(p) == Next(old(At(p)), p, activeEngine, EnableResume(c))
      ensures forall q :: q != p ==> At(q) == old(At(q))
    {
      var mine := CallsOf(p);
      var status := if mine.enables[c].phase == Succeeded then ENABLED else ERROR;
      RecordStatus(p, status);
      enabling := enabling - {p};
      calls := calls[p := mine.(enables := mine.enables - {c})];
    }

    /** disablePlugin up to its first await. */
    method DisablePlugin(p: Id, c: nat) returns (started: bool)
      requires c !in CallsOf(p).disables
      modifies this
      ensures started <==> Enabled(old(At(p)), p, activeEngine, DisableStart(c))
      ensures At(p) == if started then Next(old(At(p)), p, activeEngine, DisableStart(c)) else old(At(p))
      ensures forall q :: q != p ==> At(q) == old(At(q))
    {
      started := p in plugins && plugins[p].status == ENABLED;
      if !started {
        return;
      }
      var mine := CallsOf(p);
      var host := if p in sandboxHosts then Some(sandboxHosts[p]) else None;
      calls := calls[p := mine.(disables := mine.disables[c := DisableCall(host, false)])];
    }

    /** onDisable has settled, well or not: the worker is told to terminate. */
    method DisableAwaitSettles(p: Id, c: nat)
      requires Enabled(At(p), p, activeEngine, DisableAwait(c))
      modifies this
      ensures At(p) == Next(old(At(p)), p, activeEngine, DisableAwait(c))
      ensures forall q :: q != p ==> At(q) == old(At(q))
    {
      var mine := CallsOf(p);
      var call := mine.disables[c];
      calls := calls[p := mine.(terminated := mine.terminated + {call.host.value},
                                disables := mine.disables[c := call.(terminating := true)])];
    }

    /** disablePlugin after its last await. */
    method DisablePluginTail(p: Id, c: nat, ok: bool)
      requires storage.Valid() && Enabled(At(p), p, activeEngine, DisableResume(c, ok))
      modifies this, storage
      ensures storage.Valid() && At(p) == Next(old(At(p)), p, activeEngine, DisableResume(c, ok))
      ensures forall q :: q != p ==> At(q) == old(At(q))
    {
      var mine := CallsOf(p);
      var call := mine.disables[c];
      calls := calls[p := mine.(disables := mine.disables - {c})];
      if call.host.None? && !ok {
        plugins := plugins[p := plugins[p].(status := ERROR)];
        return;
      }
      if call.host.Some? {
        sandboxHosts := sandboxHosts - {p};
      }
      RecordStatus(p, DISABLED);
    }

    method UpdatePluginConfig(p: Id, config: Config) returns (found: bool)
      requires storage.Valid()
      modifies this`plugins, storage
      ensures storage.Valid() && (found <==> Enabled(old(At(p)), p, activeEngine, UpdateConfig(config)))
      ensures At(p) == if found then Next(old(At(p)), p, activeEngine, UpdateConfig(config)) else old(At(p))
      ensures forall q :: q != p ==> At(q) == old(At(q))
    {
      found := p in plugins;
      if found {
        plugins := plugins[p := plugins[p].(config := plugins[p].config + config)];
        storage.SetPluginConfig(p, plugins[p].config);
      }
    }

    method SetPluginSessions(p: Id, sessions: seq<nat>) returns (done: bool)
      requires storage.Valid()
      modifies this`plugins, storage
      ensures storage.Valid() && (done <==> Enabled(old(At(p)), p, activeEngine, SetSessions(sessions)))
      ensures At(p) == if done then Next(old(At(p)), p, activeEngine, SetSessions(sessions)) else old(At(p))
      ensures forall q :: q != p ==> At(q) == old(At(q))
    {
      done := p in plugins && plugins[p].sessionScoped;
      if done {
        plugins := plugins[p := plugins[p].(activeSessions := Some(sessions))];
        storage.SetPluginSessions(p, sessions);
      }
    }

    method SetPluginSessionConfig(p: Id, session: nat, config: Config) returns (done: bool)
      requires storage.Valid()
      modifies this`plugins, storage
      ensures storage.Valid() && (done <==> Enabled(old(At(p)), p, activeEngine, SetSessionConfig(session, config)))
      ensures At(p) == if done then Next(old(At(p)), p, activeEngine, SetSessionConfig(session, config)) else old(At(p))
      ensures forall q :: q != p ==> At(q) == old(At(q))
    {
      done := p in plugins && plugins[p].sessionScoped;
      if done {
        var next := WithOverride(plugins[p].sessionConfig, session, config);
        plugins := plugins[p := plugins[p].(sessionConfig := Some(next))];
        storage.SetPluginSessionConfig(p, next);
      }
    }
  }
}
