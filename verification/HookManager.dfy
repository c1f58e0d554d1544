/**
 The hook manager object (src/core/hooks/hook-manager.service.ts). Each event's list is an object of
 its own: register and unregister change it in place, unregisterPlugin replaces it, and a running
 chain walks by position over the list object it started with.
 */
module HookManagerService {
  import opened Support
  import opened HookRegistry
  import opened HookChain

  /** What a handler returns for the data it is given. */
  type Invoke = (nat, Data) -> HookResult

  /** runHandlers over what each handler returns. */
  function FoldResults(invoke: Invoke, acc: Outcome, chain: Chain): Outcome {
    if chain == [] then acc
    else
      var before := FoldResults(invoke, acc, chain[..|chain| - 1]);
      if before.proceed then Settle(invoke(chain[|chain| - 1].handler, before.data), before.data) else before
  }

  lemma {:induction false} StoppedResultsStay(invoke: Invoke, acc: Outcome, chain: Chain, n: nat)
    requires n <= |chain| && !FoldResults(invoke, acc, chain[..n]).proceed
    ensures FoldResults(invoke, acc, chain) == FoldResults(invoke, acc, chain[..n])
    decreases |chain|
  {
    if n == |chain| {
      assert chain[..n] == chain;
    } else {
      assert chain[..|chain| - 1][..n] == chain[..n];
      StoppedResultsStay(invoke, acc, chain[..|chain| - 1], n);
    }
  }

  lemma FoldStep(invoke: Invoke, acc: Outcome, chain: Chain, x: Registration)
    requires FoldResults(invoke, acc, chain).proceed
    ensures var d := FoldResults(invoke, acc, chain).data;
      FoldResults(invoke, acc, chain + [x]) == Settle(invoke(x.handler, d), d)
  {
    assert (chain + [x])[..|chain|] == chain;
  }

  /** On the results of handler programs this is the fold, hence the chain, of `HookChain`. */
  lemma {:induction false} ResultsAreTheChain(hs: Handlers, inFlight: set<HookEvent>, programs: seq<Handler>,
                                              chain: Chain, invoke: Invoke, data: Data)
    requires Ok(hs) && AllTerminate(programs) && |chain| == |programs|
    requires forall i, d :: 0 <= i < |chain| ==>
                              invoke(chain[i].handler, d) == RunProgram(hs, inFlight, programs[i], d, []).0
    ensures FoldResults(invoke, Outcome(true, data), chain) == Fold(hs, inFlight, Outcome(true, data), programs)
    decreases |chain|
  {
    if chain != [] {
      var n := |chain| - 1;
      ResultsAreTheChain(hs, inFlight, programs[..n], chain[..n], invoke, data);
    }
  }

  lemma Regroup(a: Chain, x: Registration, b: Chain)
    ensures a + ([x] + b) == a + [x] + b
  {
  }

  lemma PrefixStops(invoke: Invoke, acc: Outcome, a: Chain, b: Chain)
    requires !FoldResults(invoke, acc, a).proceed
    ensures FoldResults(invoke, acc, a + b) == FoldResults(invoke, acc, a)
  {
    assert (a + b)[..|a|] == a;
    StoppedResultsStay(invoke, acc, a + b, |a|);
  }

  // ----- Edits while a handler is awaited -----

  /** A running chain: the registry, the list it walks, and whether the registry still has that list. */
  datatype Running = Running(registry: Registry, items: Chain, attached: bool)

  function Edit(run: Running, e: HookEvent, op: Op): Running {
    var r := Apply(run.registry, op);
    var attached := run.attached && !(op.DoUnregisterPlugin? && op.plugin in run.registry.pluginHooks);
    Running(r, if attached then ChainOf(r, e) else run.items, attached)
  }

  function EditAll(run: Running, e: HookEvent, ops: seq<Op>): Running
    decreases |ops|
  {
    if ops == [] then run else EditAll(Edit(run, e, ops[0]), e, ops[1..])
  }

  function Start(r: Registry, e: HookEvent): Running {
    Running(r, ChainOf(r, e), true)
  }

  /** While the list is attached it is the registry's. */
  predicate InStep(run: Running, e: HookEvent) {
    run.attached ==> run.items == ChainOf(run.registry, e)
  }

  function Now(edits: seq<seq<Op>>): seq<Op> {
    if edits == [] then [] else edits[0]
  }

  function Later(edits: seq<seq<Op>>): seq<seq<Op>> {
    if edits == [] then [] else edits[1..]
  }

  /** The registrations a chain visits from position `i` on, unless one stops it; edits[k] happens at the k-th await. */
  function Visited(run: Running, e: HookEvent, i: nat, edits: seq<seq<Op>>): Chain
    decreases |edits|, |run.items| - i
  {
    if i >= |run.items| then []
    else [run.items[i]] + Visited(EditAll(run, e, Now(edits)), e, i + 1, Later(edits))
  }

  /** The part of the list that the walk has still to reach. */
  function From(items: Chain, i: nat): Chain {
    if i <= |items| then items[i..] else []
  }

  lemma {:induction false} UneditedVisitsRest(run: Running, e: HookEvent, i: nat)
    ensures Visited(run, e, i, []) == From(run.items, i)
    decreases |run.items| - i
  {
    if i < |run.items| {
      UneditedVisitsRest(run, e, i + 1);
      assert run.items[i..] == [run.items[i]] + run.items[i + 1..];
    }
  }

  /** Edits while one handler is awaited, the one at `i`, decide exactly what is visited next. */
  lemma EditedVisits(run: Running, e: HookEvent, i: nat, ops: seq<Op>)
    requires i < |run.items|
    ensures Visited(run, e, i, [ops]) == [run.items[i]] + From(EditAll(run, e, ops).items, i + 1)
  {
    assert [ops][1..] == [];
    UneditedVisitsRest(EditAll(run, e, ops), e, i + 1);
  }

  /**
   Exactly when edits made while one handler is awaited do not show: the list behind the cursor, by position,
   is as it was.
   */
  lemma EditsShowExactly(run: Running, e: HookEvent, i: nat, ops: seq<Op>)
    requires i < |run.items|
    ensures Visited(run, e, i, [ops]) == From(run.items, i)
      <==> From(EditAll(run, e, ops).items, i + 1) == From(run.items, i + 1)
  {
    EditedVisits(run, e, i, ops);
    var rest, edited := From(run.items, i + 1), From(EditAll(run, e, ops).items, i + 1);
    assert From(run.items, i) == [run.items[i]] + rest;
    SameTail(run.items[i], edited, rest);
  }

  lemma SameTail(x: Registration, a: Chain, b: Chain)
    ensures [x] + a == [x] + b <==> a == b
  {
    assert ([x] + a)[1..] == a && ([x] + b)[1..] == b;
  }

  /** Whether one operation made while the handler at `i` is awaited leaves the walk as it was. */
  predicate Spares(run: Running, e: HookEvent, i: nat, op: Op) {
    match op
    case DoRegister(_, d, _, _, _) => d != e
    case DoUnregister(id) => id.event != e || IndexOf(run.items, id) == |run.items| || i + 1 == |run.items|
    case DoUnregisterPlugin(_) => true
  }

  lemma {:induction false} InsertGrows(s: Chain, r: Registration)
    ensures |Insert(s, r)| == |s| + 1
    decreases |s|
  {
    if s != [] && s[|s| - 1].priority > r.priority {
      InsertGrows(s[..|s| - 1], r);
    }
  }

  lemma {:induction false} SortKeepsLength(s: Chain)
    ensures |StableSort(s)| == |s|
    decreases |s|
  {
    if s != [] {
      SortKeepsLength(s[..|s| - 1]);
      InsertGrows(StableSort(s[..|s| - 1]), s[|s| - 1]);
    }
  }

  lemma RegisterGrowsChain(r: Registry, e: HookEvent, op: Op)
    requires op.DoRegister? && op.event == e
    ensures |ChainOf(Apply(r, op), e)| == |ChainOf(r, e)| + 1
  {
    var s, reg := ChainOf(r, e), NewRegistration(r, op.plugin, e, op.handler, op.priority, op.now);
    SortKeepsLength(s + [reg]);
    assert ChainOf(Apply(r, op), e) == StableSort(s + [reg]);
  }

  lemma OneEdit(run: Running, e: HookEvent, op: Op)
    ensures EditAll(run, e, [op]) == Edit(run, e, op)
  {
    assert [op][1..] == [];
  }

  lemma UnregisterPluginKeepsItems(run: Running, e: HookEvent, op: Op)
    requires InStep(run, e) && op.DoUnregisterPlugin?
    ensures Edit(run, e, op).items == run.items && InStep(Edit(run, e, op), e)
  {
  }

  lemma RegisterShowsExactly(run: Running, e: HookEvent, i: nat, op: Op)
    requires InStep(run, e) && run.attached && i < |run.items| && op.DoRegister?
    ensures From(Edit(run, e, op).items, i + 1) == From(run.items, i + 1) <==> op.event != e
  {
    if op.event == e {
      RegisterGrowsChain(run.registry, e, op);
      assert |From(Edit(run, e, op).items, i + 1)| == |From(run.items, i + 1)| + 1;
    }
  }

  lemma UnregisterShowsExactly(run: Running, e: HookEvent, i: nat, op: Op)
    requires InStep(run, e) && run.attached && i < |run.items| && op.DoUnregister?
    ensures From(Edit(run, e, op).items, i + 1) == From(run.items, i + 1) <==> Spares(run, e, i, op)
  {
    if op.id.event == e && IndexOf(run.items, op.id) < |run.items| {
      UnregisterShrinksChain(run.registry, e, op);
      if i + 1 < |run.items| {
        assert |From(Edit(run, e, op).items, i + 1)| == |From(run.items, i + 1)| - 1;
      }
    } else {
      UnregisterMissesChain(run.registry, e, op);
    }
  }

  lemma UnregisterShrinksChain(r: Registry, e: HookEvent, op: Op)
    requires op.DoUnregister? && op.id.event == e && IndexOf(ChainOf(r, e), op.id) < |ChainOf(r, e)|
    ensures |ChainOf(Apply(r, op), e)| == |ChainOf(r, e)| - 1
  {
  }

  lemma UnregisterMissesChain(r: Registry, e: HookEvent, op: Op)
    requires op.DoUnregister?
    requires op.id.event == e ==> IndexOf(ChainOf(r, e), op.id) == |ChainOf(r, e)|
    ensures ChainOf(Apply(r, op), e) == ChainOf(r, e)
  {
  }

  /**
   Exactly which operation shows in the running chain: any registration for its event (a handler runs twice or
   the new one runs), and an unregistration that finds its id, unless the last handler is the awaited one.
   */
  lemma OneEditShowsExactly(run: Running, e: HookEvent, i: nat, op: Op)
    requires InStep(run, e) && run.attached && i < |run.items|
    ensures Visited(run, e, i, [[op]]) == From(run.items, i) <==> Spares(run, e, i, op)
  {
    OneEdit(run, e, op);
    EditsShowExactly(run, e, i, [op]);
    match op
    case DoRegister(_, _, _, _, _) => RegisterShowsExactly(run, e, i, op);
    case DoUnregister(_) => UnregisterShowsExactly(run, e, i, op);
    case DoUnregisterPlugin(_) => UnregisterPluginKeepsItems(run, e, op);
  }

  predicate OnlyPluginRemovals(ops: seq<Op>) {
    forall k :: 0 <= k < |ops| ==> ops[k].DoUnregisterPlugin?
  }

  lemma {:induction false} PluginRemovalsKeepItems(run: Running, e: HookEvent, ops: seq<Op>)
    requires InStep(run, e) && OnlyPluginRemovals(ops)
    ensures EditAll(run, e, ops).items == run.items && InStep(EditAll(run, e, ops), e)
    decreases |ops|
  {
    if ops != [] {
      UnregisterPluginKeepsItems(run, e, ops[0]);
      PluginRemovalsKeepItems(Edit(run, e, ops[0]), e, ops[1..]);
    }
  }

  /** Unregistering plugins, however often and during whichever awaits, never shows in the running chain. */
  lemma {:induction false} PluginRemovalsNeverShow(run: Running, e: HookEvent, i: nat, edits: seq<seq<Op>>)
    requires InStep(run, e) && forall k :: 0 <= k < |edits| ==> OnlyPluginRemovals(edits[k])
    ensures Visited(run, e, i, edits) == From(run.items, i)
    decreases |edits|
  {
    if edits == [] {
      UneditedVisitsRest(run, e, i);
    } else if i < |run.items| {
      var next := EditAll(run, e, edits[0]);
      PluginRemovalsKeepItems(run, e, edits[0]);
      FirstVisited(run, e, i, edits);
      PluginRemovalsNeverShow(next, e, i + 1, edits[1..]);
      FromStep(run.items, i);
    }
  }

  lemma FirstVisited(run: Running, e: HookEvent, i: nat, edits: seq<seq<Op>>)
    requires edits != [] && i < |run.items|
    ensures Visited(run, e, i, edits) == [run.items[i]] + Visited(EditAll(run, e, edits[0]), e, i + 1, edits[1..])
  {
  }

  lemma FromStep(items: Chain, i: nat)
    requires i < |items|
    ensures From(items, i) == [items[i]] + From(items, i + 1)
  {
  }

  // ----- The object -----

  class HookList {
    var items: Chain
    ghost const event: HookEvent    // the list's owner: no two events share a list

    constructor (items: Chain, ghost event: HookEvent)
      ensures this.items == items && this.event == event
    {
      this.items := items;
      this.event := event;
    }
  }

  class HookManager {
    var hooks: map<HookEvent, HookList>
    var pluginHooks: map<PluginId, set<HookId>>
    var registered: nat            // how many registrations were ever made
    ghost var registry: Registry   // the abstract registry that the fields hold

    ghost predicate Lists()
      reads this, hooks.Values
    {
      && hooks.Keys == registry.hooks.Keys
      && forall e :: e in hooks ==> hooks[e].event == e && hooks[e].items == registry.hooks[e]
    }

    /** The fields hold the abstract registry. */
    ghost predicate Holds()
      reads this, hooks.Values
    {
      Lists() && pluginHooks == registry.pluginHooks && registered == registry.registered
    }

    ghost predicate Valid()
      reads this, hooks.Values
    {
      Holds() && Inv(registry)
    }

    constructor ()
      ensures Valid() && registry == Registry(map[], map[], 0)
    {
      hooks, pluginHooks, registered := map[], map[], 0;
      registry := Registry(map[], map[], 0);
    }

    /** Make `items` the event's chain, in the list the event already has if it has one. */
    method SetChain(e: HookEvent, items: Chain)
      requires Lists()
      modifies this`hooks, this`registry, hooks.Values
      ensures Lists() && registry == old(registry).(hooks := old(registry.hooks)[e := items])
      ensures old(hooks.Keys) <= hooks.Keys && forall d :: d in old(hooks) ==> hooks[d] == old(hooks[d])
      ensures forall l :: l in hooks.Values ==> l in old(hooks.Values) || fresh(l)
    {
      if e !in hooks {
        var made := new HookList(items, e);
        hooks := hooks[e := made];
      } else {
        var list := hooks[e];
        list.items := items;
      }
      registry := registry.(hooks := registry.hooks[e := items]);
    }

    method RegisterHook(p: PluginId, e: HookEvent, handler: nat, priority: int, now: int) returns (id: HookId)
      requires Valid()
      modifies this, hooks.Values
      ensures Valid() && registry == Register(old(registry), p, e, handler, priority, now)
      ensures id == HookId(p, e, now)
      ensures old(hooks.Keys) <= hooks.Keys && forall d :: d in old(hooks) ==> hooks[d] == old(hooks[d])
      ensures forall l :: l in hooks.Values ==> l in old(hooks.Values) || fresh(l)
    {
      RegisterAddsInOrder(registry, p, e, handler, priority, now);
      id := PushHook(p, e, handler, priority, now);
    }

    /** Push, sort, track. */
    method PushHook(p: PluginId, e: HookEvent, handler: nat, priority: int, now: int) returns (id: HookId)
      requires Holds()
      modifies this, hooks.Values
      ensures Holds() && registry == Register(old(registry), p, e, handler, priority, now)
      ensures id == HookId(p, e, now)
      ensures old(hooks.Keys) <= hooks.Keys && forall d :: d in old(hooks) ==> hooks[d] == old(hooks[d])
      ensures forall l :: l in hooks.Values ==> l in old(hooks.Values) || fresh(l)
    {
      id := HookId(p, e, now);
      var registration := Registration(id, p, e, handler, priority, registered);
      var items := if e in hooks then hooks[e].items else [];
      items := items + [registration];
      items := StableSort(items);
      SetChain(e, items);
      Track(p, id);
    }

    method Track(p: PluginId, id: HookId)
      modifies this`pluginHooks, this`registered, this`registry
      ensures pluginHooks == old(pluginHooks)[p := TrackedIn(old(pluginHooks), p) + {id}]
      ensures registered == old(registered) + 1
      ensures registry == old(registry).(pluginHooks := pluginHooks, registered := registered)
    {
      registered := registered + 1;
      if p !in pluginHooks {
        pluginHooks := pluginHooks[p := {}];
      }
      pluginHooks := pluginHooks[p := pluginHooks[p] + {id}];
      registry := registry.(pluginHooks := pluginHooks, registered := registered);
    }

    method UnregisterHook(id: HookId)
      requires Valid()
      modifies this, hooks.Values
      ensures Valid() && registry == Unregister(old(registry), id)
      ensures hooks == old(hooks)
    {
      UnregisterRemovesOne(registry, id);
      IdsNameEvents(registry);
      RemoveHook(id);
    }

    /** Look for the id list by list; the first hit is spliced out. */
    method RemoveHook(id: HookId)
      requires Holds() && IdsMatchEvents(registry)
      modifies this, hooks.Values
      ensures Holds() && registry == Unregister(old(registry), id)
      ensures hooks == old(hooks)
    {
      var todo := hooks.Keys;
      while todo != {}
        invariant todo <= hooks.Keys
        invariant id.event in hooks && id.event !in todo ==>
            IndexOf(registry.hooks[id.event], id) == |registry.hooks[id.event]|
        decreases todo
      {
        var e :| e in todo;
        var items := hooks[e].items;
        var index := IndexOf(items, id);
        if index < |items| {
          assert items[index] in registry.hooks[e];
          RemoveAt(e, index);
          return;
        }
        todo := todo - {e};
      }
    }

    method RemoveAt(e: HookEvent, index: nat)
      requires Holds() && e in hooks && index < |hooks[e].items| && hooks[e].items[index].id.event == e
      requires IndexOf(hooks[e].items, hooks[e].items[index].id) == index
      modifies this, hooks.Values
      ensures Holds() && hooks == old(hooks)
      ensures registry == Unregister(old(registry), old(hooks[e].items[index].id))
    {
      var items := hooks[e].items;
      var registration := items[index];
      SetChain(e, items[..index] + items[index + 1..]);
      assert hooks == old(hooks);
      if registration.pluginId in pluginHooks {
        var tracked := pluginHooks[registration.pluginId] - {registration.id};
        pluginHooks := pluginHooks[registration.pluginId := tracked];
      }
      registry := registry.(pluginHooks := pluginHooks);
    }

    method ReplaceLists(p: PluginId)
      requires Lists()
      modifies this`hooks
      ensures hooks.Keys == registry.hooks.Keys
      ensures forall e :: e in hooks ==>
          fresh(hooks[e]) && hooks[e].event == e && hooks[e].items == Without(registry.hooks[e], p)
    {
      var todo := hooks.Keys;
      while todo != {}
        invariant todo <= hooks.Keys == registry.hooks.Keys
        invariant forall e :: e in todo ==> hooks[e] == old(hooks[e])
        invariant forall e :: e in hooks && e !in todo ==>
          fresh(hooks[e]) && hooks[e].event == e && hooks[e].items == Without(registry.hooks[e], p)
        decreases todo
      {
        var e :| e in todo;
        var filtered := new HookList(Without(hooks[e].items, p), e);
        hooks := hooks[e := filtered];
        todo := todo - {e};
      }
    }

    /** Lists are replaced, never edited: whoever holds an old list sees it unchanged. */
    method UnregisterPluginHooks(p: PluginId)
      requires Valid()
      modifies this
      ensures Valid() && registry == UnregisterPlugin(old(registry), p)
      ensures p in old(pluginHooks) ==> forall l :: l in hooks.Values ==> fresh(l)
      ensures p !in old(pluginHooks) ==> hooks == old(hooks)
    {
      UnregisterPluginLeavesNothing(registry, p);
      if p in pluginHooks {
        ReplaceLists(p);
        pluginHooks := pluginHooks - {p};
        registry := UnregisterPlugin(registry, p);
      }
    }

    /** `list` is the one a chain of `e` walks: the registry's own, or one it has let go. */
    ghost predicate Walks(run: Running, e: HookEvent, list: HookList)
      reads this, list
    {
      && run.registry == registry && run.items == list.items
      && (if run.attached then e in hooks && hooks[e] == list else list !in hooks.Values)
    }

    method ApplyOp(e: HookEvent, list: HookList, ghost run: Running, op: Op)
      requires Valid() && Walks(run, e, list)
      modifies this, hooks.Values
      ensures Valid() && Walks(Edit(run, e, op), e, list)
      ensures forall l :: l in hooks.Values ==> l in old(hooks.Values) || fresh(l)
    {
      match op
      case DoRegister(p, d, handler, priority, now) => var _ := RegisterHook(p, d, handler, priority, now);
      case DoUnregister(id) => UnregisterHook(id);
      case DoUnregisterPlugin(p) => UnregisterPluginHooks(p);
    }

    /** Other tasks' operations while a handler of the chain is awaited. */
    method ApplyOps(e: HookEvent, list: HookList, ghost run: Running, ops: seq<Op>)
      requires Valid() && Walks(run, e, list)
      modifies this, hooks.Values
      ensures Valid() && Walks(EditAll(run, e, ops), e, list)
      ensures forall l :: l in hooks.Values ==> l in old(hooks.Values) || fresh(l)
      decreases |ops|
    {
      if ops != [] {
        ApplyOp(e, list, run, ops[0]);
        ApplyOps(e, list, Edit(run, e, ops[0]), ops[1..]);
      }
    }

    /**
     runHandlers. While the k-th handler is awaited other tasks apply edits[k]; the chain is the fold over the
     registrations that this makes it visit.
     */
    method RunHandlers(e: HookEvent, data: Data, invoke: Invoke, edits: seq<seq<Op>>) returns (out: Outcome)
      requires Valid()
      modifies this, hooks.Values
      ensures Valid()
      ensures out == FoldResults(invoke, Outcome(true, data), Visited(Start(old(registry), e), e, 0, edits))
    {
      if e !in hooks {
        return Outcome(true, data);
      }
      var registrations := hooks[e];
      var currentData, i, others := data, 0, edits;
      ghost var run, done := Start(registry, e), [];
      ghost var all := Visited(run, e, 0, edits);
      while i < |registrations.items|
        invariant Valid() && Walks(run, e, registrations)
        invariant forall l :: l in hooks.Values ==> l in old(hooks.Values) || fresh(l)
        invariant all == done + Visited(run, e, i, others)
        invariant FoldResults(invoke, Outcome(true, data), done) == Outcome(true, currentData)
        decreases |others|, |registrations.items| - i
      {
        var registration := registrations.items[i];
        var result := invoke(registration.handler, currentData);
        FoldStep(invoke, Outcome(true, data), done, registration);
        Regroup(done, registration, Visited(EditAll(run, e, Now(others)), e, i + 1, Later(others)));
        done := done + [registration];
        ApplyOps(e, registrations, run, Now(others));
        run := EditAll(run, e, Now(others));
        others := Later(others);
        if result.Returned? {
          if !result.error && result.data.Some? {
            currentData := result.data.value;
          }
          if !result.proceed {
            PrefixStops(invoke, Outcome(true, data), done, Visited(run, e, i + 1, others));
            return Outcome(false, currentData);
          }
        }
        i := i + 1;
      }
      assert all == done;
      out := Outcome(true, currentData);
    }
  }
}
