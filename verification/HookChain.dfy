/**
 Execution of the hook bus (src/core/hooks/hook-manager.service.ts, lines 90-153).

 A handler is any program that may fire events, look at their outcomes, and finally return or throw:
 `act` gives its next action from its payload and the outcomes seen so far. Its own code must not run
 forever while the calls it makes return; `rank` is the ordinal that says so. Nothing is asked about
 which events handlers fire. The set of events in flight is inherited by everything a handler calls,
 and an event already in flight is not run again. The registry does not change while a chain runs.
 */
module HookChain {
  import opened Support
  import opened HookRegistry

  type Data = int

  datatype HookResult = Returned(proceed: bool, data: Option<Data>, error: bool) | Thrown

  datatype Outcome = Outcome(proceed: bool, data: Data)

  datatype Action = Finish(result: HookResult) | Fire(event: HookEvent, payload: Data)

  datatype Handler = Handler(act: (Data, seq<Outcome>) -> Action, rank: (Data, seq<Outcome>) -> ORDINAL)

  type Handlers = map<HookEvent, seq<Handler>>

  ghost predicate Terminates(h: Handler) {
    forall d, seen, o :: h.act(d, seen).Fire? ==> h.rank(d, seen + [o]) < h.rank(d, seen)
  }

  ghost predicate AllTerminate(chain: seq<Handler>) {
    forall i :: 0 <= i < |chain| ==> Terminates(chain[i])
  }

  ghost predicate Ok(hs: Handlers) {
    forall e :: e in hs ==> AllTerminate(hs[e])
  }

  /** The bus knows seventeen events. */
  function Index(e: HookEvent): nat {
    match e
    case SessionCreated => 0 case SessionStarting => 1 case SessionReady => 2 case SessionQr => 3
    case SessionDisconnected => 4 case SessionError => 5 case SessionDeleted => 6
    case MessageReceived => 7 case MessageSending => 8 case MessageSent => 9
    case MessageFailed => 10 case MessageAck => 11
    case WebhookBefore => 12 case WebhookQueued => 13 case WebhookDelivered => 14
    case WebhookAfter => 15 case WebhookError => 16
  }

  function EventsFrom(n: nat): set<HookEvent> {
    set e: HookEvent | Index(e) >= n
  }

  lemma IndexIsInjective(d: HookEvent, e: HookEvent)
    requires Index(d) == Index(e)
    ensures d == e
  {
  }

  lemma OneEventPerIndex(n: nat)
    ensures |EventsFrom(n)| <= |EventsFrom(n + 1)| + 1
  {
    var more := EventsFrom(n) - EventsFrom(n + 1);
    assert EventsFrom(n) == EventsFrom(n + 1) + more;
    if e :| e in more {
      forall d | d in more ensures d == e {
        IndexIsInjective(d, e);
      }
      assert more == {e};
    }
  }

  lemma {:induction false} EventsAreFew(n: nat)
    requires n <= 17
    ensures |EventsFrom(n)| <= 17 - n
    decreases 17 - n
  {
    if n == 17 {
      assert EventsFrom(n) == {};
    } else {
      EventsAreFew(n + 1);
      OneEventPerIndex(n);
    }
  }

  /** How many more distinct events can be put in flight: the termination measure. */
  function Free(inFlight: set<HookEvent>): nat {
    |EventsFrom(0) - inFlight|
  }

  lemma FlightGrows(inFlight: set<HookEvent>, e: HookEvent)
    requires e !in inFlight
    ensures Free(inFlight + {e}) + 1 == Free(inFlight)
  {
    var all := EventsFrom(0);
    assert e in all;
    assert all - inFlight == (all - (inFlight + {e})) + {e};
  }

  /** An outcome with the deepest nesting of runHandlers calls that produced it. */
  datatype Traced = Traced(outcome: Outcome, depth: nat)

  function Max(a: nat, b: nat): nat {
    if a < b then b else a
  }

  /**
   `execute`. It is total for every registry of terminating handlers, mutually recursive ones
   included: a nested call has strictly fewer events left to put in flight, and within one chain the
   handlers left and then the handler's own rank shrink. Nesting is at most the number of free events.
   */
  ghost function Execute(hs: Handlers, inFlight: set<HookEvent>, e: HookEvent, data: Data): (t: Traced)
    requires Ok(hs)
    ensures t.depth <= Free(inFlight)
    ensures e in inFlight ==> t == Traced(Outcome(true, data), 0)
    decreases Free(inFlight), 0
  {
    if e in inFlight || e !in hs then Traced(Outcome(true, data), 0)
    else
      FlightGrows(inFlight, e);
      var t := RunChain(hs, inFlight + {e}, hs[e], data);
      Traced(t.outcome, t.depth + 1)
  }

  /** `runHandlers` on the handlers `chain`, whose events in flight already include their own. */
  ghost function RunChain(hs: Handlers, inFlight: set<HookEvent>, chain: seq<Handler>, data: Data): (t: Traced)
    requires Ok(hs) && AllTerminate(chain)
    ensures t.depth <= Free(inFlight)
    decreases Free(inFlight), 2, |chain|
  {
    if chain == [] then Traced(Outcome(true, data), 0)
    else
      var first := Call(hs, inFlight, chain[0], data);
      if !first.outcome.proceed then first
      else
        var rest := RunChain(hs, inFlight, chain[1..], first.outcome.data);
        Traced(rest.outcome, Max(first.depth, rest.depth))
  }

  /** One handler: an error or a throw discards its data, a stop stands. */
  ghost function Call(hs: Handlers, inFlight: set<HookEvent>, h: Handler, data: Data): (t: Traced)
    requires Ok(hs) && Terminates(h)
    ensures t.depth <= Free(inFlight)
    decreases Free(inFlight), 2, 0
  {
    var (result, depth) := RunProgram(hs, inFlight, h, data, []);
    Traced(Settle(result, data), depth)
  }

  function Settle(result: HookResult, data: Data): Outcome {
    match result
    case Thrown => Outcome(true, data)
    case Returned(proceed, d, error) => Outcome(proceed, if !error && d.Some? then d.value else data)
  }

  /** The handler's own code from the point where it has seen the outcomes `seen`. */
  ghost function RunProgram(hs: Handlers, inFlight: set<HookEvent>, h: Handler, data: Data, seen: seq<Outcome>)
    : (r: (HookResult, nat))
    requires Ok(hs) && Terminates(h)
    ensures r.1 <= Free(inFlight)
    decreases Free(inFlight), 1, h.rank(data, seen)
  {
    match h.act(data, seen)
    case Finish(result) => (result, 0)
    case Fire(e, payload) =>
      var t := Execute(hs, inFlight, e, payload);
      var (result, depth) := RunProgram(hs, inFlight, h, data, seen + [t.outcome]);
      (result, Max(t.depth, depth))
  }

  /** Whatever the handlers do, at most 17 chains are nested. */
  lemma NestingIsBounded(hs: Handlers, e: HookEvent, data: Data)
    requires Ok(hs)
    ensures Execute(hs, {}, e, data).depth <= 17
  {
    EventsAreFew(0);
    assert EventsFrom(0) - {} == EventsFrom(0);
  }

  lemma FiredDepthCounts(hs: Handlers, inFlight: set<HookEvent>, h: Handler, data: Data)
    requires Ok(hs) && Terminates(h) && h.act(data, []).Fire?
    ensures var fired := h.act(data, []);
      RunProgram(hs, inFlight, h, data, []).1 >= Execute(hs, inFlight, fired.event, fired.payload).depth
  {
  }

  lemma FirstDepthCounts(hs: Handlers, inFlight: set<HookEvent>, chain: seq<Handler>, data: Data)
    requires Ok(hs) && AllTerminate(chain) && chain != []
    ensures RunChain(hs, inFlight, chain, data).depth >= RunProgram(hs, inFlight, chain[0], data, []).1
  {
  }

  /** The handlers after the first, and a handler's code after its first outcome, count just as well. */
  lemma RestDepthCounts(hs: Handlers, inFlight: set<HookEvent>, chain: seq<Handler>, data: Data)
    requires Ok(hs) && AllTerminate(chain) && chain != []
    ensures var first := Settle(RunProgram(hs, inFlight, chain[0], data, []).0, data);
      first.proceed ==>
        RunChain(hs, inFlight, chain, data).depth >= RunChain(hs, inFlight, chain[1..], first.data).depth
  {
  }

  lemma LaterDepthCounts(hs: Handlers, inFlight: set<HookEvent>, h: Handler, data: Data, seen: seq<Outcome>)
    requires Ok(hs) && Terminates(h) && h.act(data, seen).Fire?
    ensures var fired := h.act(data, seen);
      var more := seen + [Execute(hs, inFlight, fired.event, fired.payload).outcome];
      RunProgram(hs, inFlight, h, data, seen).1 >= RunProgram(hs, inFlight, h, data, more).1
  {
  }

  lemma ExecuteIsItsChain(hs: Handlers, inFlight: set<HookEvent>, e: HookEvent, data: Data)
    requires Ok(hs) && e !in inFlight && e in hs
    ensures var chain := RunChain(hs, inFlight + {e}, hs[e], data);
      Execute(hs, inFlight, e, data) == Traced(chain.outcome, chain.depth + 1)
  {
  }

  /** Nesting is counted in full: a chain counts for one, and a chain fired from it for one more. */
  lemma NestingIsCounted(hs: Handlers, inFlight: set<HookEvent>, e: HookEvent, data: Data)
    requires Ok(hs) && e !in inFlight && e in hs
    ensures Execute(hs, inFlight, e, data).depth >= 1
    ensures hs[e] != [] && hs[e][0].act(data, []).Fire? ==>
      var fired := hs[e][0].act(data, []);
      Execute(hs, inFlight, e, data).depth
      >= 1 + Execute(hs, inFlight + {e}, fired.event, fired.payload).depth
  {
    ExecuteIsItsChain(hs, inFlight, e, data);
    if hs[e] != [] {
      FirstDepthCounts(hs, inFlight + {e}, hs[e], data);
      if hs[e][0].act(data, []).Fire? {
        FiredDepthCounts(hs, inFlight + {e}, hs[e][0], data);
      }
    }
  }

  // ----- The chain as a left fold -----

  /** The fold's step: nothing runs after a stop. */
  ghost function Step(hs: Handlers, inFlight: set<HookEvent>, acc: Outcome, h: Handler): Outcome
    requires Ok(hs) && Terminates(h)
  {
    if acc.proceed then Call(hs, inFlight, h, acc.data).outcome else acc
  }

  ghost function Fold(hs: Handlers, inFlight: set<HookEvent>, acc: Outcome, chain: seq<Handler>): Outcome
    requires Ok(hs) && AllTerminate(chain)
    decreases |chain|
  {
    if chain == [] then acc
    else Step(hs, inFlight, Fold(hs, inFlight, acc, chain[..|chain| - 1]), chain[|chain| - 1])
  }

  lemma {:induction false} FoldFromTheFront(hs: Handlers, inFlight: set<HookEvent>, acc: Outcome, chain: seq<Handler>)
    requires Ok(hs) && AllTerminate(chain) && chain != []
    ensures Fold(hs, inFlight, acc, chain) == Fold(hs, inFlight, Step(hs, inFlight, acc, chain[0]), chain[1..])
    decreases |chain|
  {
    if |chain| > 1 {
      var front := chain[..|chain| - 1];
      FoldFromTheFront(hs, inFlight, acc, front);
      assert chain[1..][..|chain| - 2] == front[1..];
    }
  }

  lemma {:induction false} StoppedFoldStays(hs: Handlers, inFlight: set<HookEvent>, acc: Outcome, chain: seq<Handler>)
    requires Ok(hs) && AllTerminate(chain) && !acc.proceed
    ensures Fold(hs, inFlight, acc, chain) == acc
    decreases |chain|
  {
    if chain != [] {
      StoppedFoldStays(hs, inFlight, acc, chain[..|chain| - 1]);
    }
  }

  /** A chain is the left fold of its handlers over the payload. */
  lemma {:induction false} ChainIsALeftFold(hs: Handlers, inFlight: set<HookEvent>, chain: seq<Handler>, data: Data)
    requires Ok(hs) && AllTerminate(chain)
    ensures RunChain(hs, inFlight, chain, data).outcome == Fold(hs, inFlight, Outcome(true, data), chain)
    decreases |chain|
  {
    if chain != [] {
      var first := Call(hs, inFlight, chain[0], data);
      FoldFromTheFront(hs, inFlight, Outcome(true, data), chain);
      if first.outcome.proceed {
        ChainIsALeftFold(hs, inFlight, chain[1..], first.outcome.data);
      } else {
        StoppedFoldStays(hs, inFlight, first.outcome, chain[1..]);
      }
    }
  }

  /** A chain splits anywhere: the second part runs on the first part's data, unless that stopped. */
  lemma {:induction false} ChainSplits(hs: Handlers, inFlight: set<HookEvent>,
                                       a: seq<Handler>, b: seq<Handler>, data: Data)
    requires Ok(hs) && AllTerminate(a) && AllTerminate(b)
    ensures var ra := RunChain(hs, inFlight, a, data).outcome;
      RunChain(hs, inFlight, a + b, data).outcome ==
        if ra.proceed then RunChain(hs, inFlight, b, ra.data).outcome else ra
    decreases |a|
  {
    if a == [] {
      assert a + b == b;
    } else {
      assert (a + b)[1..] == a[1..] + b;
      ChainSplits(hs, inFlight, a[1..], b, Call(hs, inFlight, a[0], data).outcome.data);
    }
  }

  lemma OneHandler(hs: Handlers, inFlight: set<HookEvent>, h: Handler, b: seq<Handler>, data: Data)
    requires Ok(hs) && AllTerminate(b) && Terminates(h)
    ensures AllTerminate([h] + b)
    ensures var o := Settle(RunProgram(hs, inFlight, h, data, []).0, data);
      RunChain(hs, inFlight, [h] + b, data).outcome
      == if o.proceed then RunChain(hs, inFlight, b, o.data).outcome else o
  {
    assert ([h] + b)[1..] == b;
  }

  /** A handler that succeeds hands its data, or the data it was given, to the next one. */
  lemma SucceedingHandlerPassesData(hs: Handlers, inFlight: set<HookEvent>,
                                    a: seq<Handler>, h: Handler, b: seq<Handler>, data: Data)
    requires Ok(hs) && AllTerminate(a) && AllTerminate(b) && Terminates(h)
    requires RunChain(hs, inFlight, a, data).outcome.proceed
    requires var d := RunChain(hs, inFlight, a, data).outcome.data;
      var r := RunProgram(hs, inFlight, h, d, []).0;
      r.Returned? && r.proceed && !r.error
    ensures var d := RunChain(hs, inFlight, a, data).outcome.data;
      var r := RunProgram(hs, inFlight, h, d, []).0;
      RunChain(hs, inFlight, a + [h] + b, data).outcome
      == RunChain(hs, inFlight, b, if r.data.Some? then r.data.value else d).outcome
  {
    assert a + [h] + b == a + ([h] + b);
    OneHandler(hs, inFlight, h, b, RunChain(hs, inFlight, a, data).outcome.data);
    ChainSplits(hs, inFlight, a, [h] + b, data);
  }

  /** A handler that fails on the data it is given might as well not be registered. */
  lemma FailingHandlerIsTransparent(hs: Handlers, inFlight: set<HookEvent>,
                                    a: seq<Handler>, h: Handler, b: seq<Handler>, data: Data)
    requires Ok(hs) && AllTerminate(a) && AllTerminate(b) && Terminates(h)
    requires var d := RunChain(hs, inFlight, a, data).outcome.data;
      var r := RunProgram(hs, inFlight, h, d, []).0;
      r.Thrown? || (r.error && r.proceed)
    ensures RunChain(hs, inFlight, a + [h] + b, data).outcome == RunChain(hs, inFlight, a + b, data).outcome
  {
    assert a + [h] + b == a + ([h] + b);
    OneHandler(hs, inFlight, h, b, RunChain(hs, inFlight, a, data).outcome.data);
    ChainSplits(hs, inFlight, a, [h] + b, data);
    ChainSplits(hs, inFlight, a, b, data);
  }

  /** A handler that stops the chain hides every later one and leaves its own data, unless it reports an error. */
  lemma StoppingHandlerEndsTheChain(hs: Handlers, inFlight: set<HookEvent>,
                                    a: seq<Handler>, h: Handler, b: seq<Handler>, data: Data)
    requires Ok(hs) && AllTerminate(a) && AllTerminate(b) && Terminates(h)
    requires RunChain(hs, inFlight, a, data).outcome.proceed
    requires var d := RunChain(hs, inFlight, a, data).outcome.data;
      var r := RunProgram(hs, inFlight, h, d, []).0;
      r.Returned? && !r.proceed
    ensures var d := RunChain(hs, inFlight, a, data).outcome.data;
      var r := RunProgram(hs, inFlight, h, d, []).0;
      RunChain(hs, inFlight, a + [h] + b, data).outcome
      == Outcome(false, if !r.error && r.data.Some? then r.data.value else d)
  {
    var d := RunChain(hs, inFlight, a, data).outcome.data;
    assert a + [h] + b == a + ([h] + b);
    OneHandler(hs, inFlight, h, b, d);
    ChainSplits(hs, inFlight, a, [h] + b, data);
  }

  // ----- What the caller of execute gets -----

  function HandlersOf(hs: Handlers, e: HookEvent): seq<Handler> {
    if e in hs then hs[e] else []
  }

  /**
   `execute` of an event not in flight is the left fold of the event's handlers over the payload, with the event
   in flight meanwhile; without handlers the payload comes back unchanged.
   */
  lemma ExecuteIsALeftFold(hs: Handlers, inFlight: set<HookEvent>, e: HookEvent, data: Data)
    requires Ok(hs) && e !in inFlight
    ensures Execute(hs, inFlight, e, data).outcome
         == Fold(hs, inFlight + {e}, Outcome(true, data), HandlersOf(hs, e))
    ensures HandlersOf(hs, e) == [] ==> Execute(hs, inFlight, e, data).outcome == Outcome(true, data)
  {
    if e in hs {
      ChainIsALeftFold(hs, inFlight + {e}, hs[e], data);
    }
  }

  lemma StoppedPrefixIsAll(hs: Handlers, inFlight: set<HookEvent>, acc: Outcome, a: seq<Handler>, b: seq<Handler>)
    requires Ok(hs) && AllTerminate(a) && AllTerminate(b) && !Fold(hs, inFlight, acc, a).proceed
    ensures Fold(hs, inFlight, acc, a + b) == Fold(hs, inFlight, acc, a)
    decreases |b|
  {
    if b == [] {
      assert a + b == a;
    } else {
      assert (a + b)[..|a + b| - 1] == a + b[..|b| - 1];
      StoppedPrefixIsAll(hs, inFlight, acc, a, b[..|b| - 1]);
    }
  }

  /** A stop, at whichever handler, reaches the caller with the data as it was then. */
  lemma StopReachesCaller(hs: Handlers, inFlight: set<HookEvent>, e: HookEvent, data: Data, n: nat)
    requires Ok(hs) && e !in inFlight && e in hs && n <= |hs[e]|
    requires !Fold(hs, inFlight + {e}, Outcome(true, data), hs[e][..n]).proceed
    ensures Execute(hs, inFlight, e, data).outcome == Fold(hs, inFlight + {e}, Outcome(true, data), hs[e][..n])
  {
    ExecuteIsALeftFold(hs, inFlight, e, data);
    assert hs[e] == hs[e][..n] + hs[e][n..];
    StoppedPrefixIsAll(hs, inFlight + {e}, Outcome(true, data), hs[e][..n], hs[e][n..]);
  }

  /** One handler that returns a stop with data: the caller gets both. */
  lemma SoleStopReachesCaller(hs: Handlers, inFlight: set<HookEvent>, e: HookEvent, h: Handler, data: Data, d: Data)
    requires Ok(hs) && e !in inFlight && e in hs && hs[e] == [h]
    requires h.act(data, []) == Finish(Returned(false, Some(d), false))
    ensures Execute(hs, inFlight, e, data).outcome == Outcome(false, d)
  {
    ExecuteIsItsChain(hs, inFlight, e, data);
    assert [h] + [] == [h];
    OneHandler(hs, inFlight + {e}, h, [], data);
    FiringHandlerSeesOutcome(hs, inFlight + {e}, h, data, []);
  }

  /** A handler that fires an event goes on with the outcome that `execute` has for it, its own event in flight. */
  lemma FiringHandlerSeesOutcome(hs: Handlers, inFlight: set<HookEvent>, h: Handler, data: Data, seen: seq<Outcome>)
    requires Ok(hs) && Terminates(h)
    ensures h.act(data, seen).Finish? ==> RunProgram(hs, inFlight, h, data, seen).0 == h.act(data, seen).result
    ensures h.act(data, seen).Fire? ==>
      var fired := h.act(data, seen);
      RunProgram(hs, inFlight, h, data, seen).0
      == RunProgram(hs, inFlight, h, data, seen + [Execute(hs, inFlight, fired.event, fired.payload).outcome]).0
  {
  }
}
