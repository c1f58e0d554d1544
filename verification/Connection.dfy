/**
 The connection lifecycle of one WhatsApp session (src/engine/adapters/baileys.adapter.ts).

 Every stretch of code between two awaits is one atomic step. `State` holds the adapter's fields and,
 in `env`, what lies outside it: the event loop's timers and continuations and the sockets the
 protocol library has handed out. Assumptions about that library: an ended socket emits at most the
 close of its own `end`, and a `sock.logout()` that resolves has ended the socket.
 */
module Connection {
  import opened Support

  const MAX_RECONNECT_ATTEMPTS: nat := 5
  const BACKOFF_CAP_MS: nat := 30000

  datatype EngineStatus = DISCONNECTED | INITIALIZING | QR_READY | AUTHENTICATING | READY | FAILED

  /** Where the in-flight `connectInner` waits; `Settled` is the gap before `connect` runs its finally. */
  datatype Phase = Idle | LoadingLib | LoadingAuth | FetchingVersion | Settled(failed: bool)

  datatype Change = NoChange | Connecting | Open | Close(loggedOut: bool)

  datatype Env = Env(
    phase: Phase,
    timers: map<nat, nat>,           // live setTimeout handles with their delays
    nextTimer: nat,
    rejections: nat,                 // rejected connects whose catch has not run yet
    renders: nat,                    // QR renderings in flight
    logouts: seq<Option<nat>>,       // logouts awaiting the socket they captured
    created: nat,                    // sockets 0..created exist
    ended: set<nat>,
    detached: set<nat>,              // sockets without our connection.update listener
    armed: seq<Arming>,              // history: the timers armed since the last open
    lastArmed: Option<Arming>        // history: the latest timer armed at all
  )

  /** A timer as it was armed: at which attempt, for how many milliseconds. */
  datatype Arming = Arming(attempt: nat, timer: nat, delay: nat)

  datatype State = State(
    intentionalClose: bool,
    connecting: bool,
    reconnectAttempts: nat,
    reconnectTimer: Option<nat>,
    status: EngineStatus,
    sock: Option<nat>,
    env: Env
  )

  const Start := State(false, false, 0, None, DISCONNECTED, None, Env(Idle, map[], 0, 0, 0, [], 0, {}, {}, [], None))

  datatype Event =
    | Initialize
    | LibLoaded
    | AuthLoaded
    | VersionFetched(makes: bool)    // makes: the socket factory returns instead of throwing
    | AwaitRejected
    | ConnectReturns
    | CatchRuns
    | SocketUpdate(socket: nat, qr: bool, change: Change)
    | TimerFires(timer: nat)
    | QrRendered(ok: bool)
    | Disconnect
    | Destroy
    | LogoutCalled
    | LogoutSettles(call: nat, ok: bool)

  function BackoffMs(attempt: nat): nat
    requires attempt > 0
  {
    Min(BACKOFF_CAP_MS, 1000 * Pow2(attempt - 1))
  }

  /** `ensureReady` lets a call through. */
  predicate EnsureReady(s: State) {
    s.status == READY && s.sock.Some?
  }

  // ----- Atomic steps -----

  function Connect(s: State): State {
    if s.connecting then s
    else s.(connecting := true, status := INITIALIZING, env := s.env.(phase := LoadingLib))
  }

  /** The 'close' branch of handleConnectionUpdate. */
  function HandleClose(s: State, loggedOut: bool): State {
    if s.intentionalClose || loggedOut then s.(status := DISCONNECTED)
    else if s.reconnectAttempts >= MAX_RECONNECT_ATTEMPTS then s.(status := FAILED)
    else
      var n := s.reconnectAttempts + 1;
      if s.reconnectTimer.Some? then s.(reconnectAttempts := n)
      else
        var t := s.env.nextTimer;
        s.(reconnectAttempts := n, reconnectTimer := Some(t), env := Armed(s.env, Arming(n, t, BackoffMs(n))))
  }

  /** setTimeout. */
  function Armed(env: Env, a: Arming): Env {
    env.(timers := env.timers[a.timer := a.delay], nextTimer := a.timer + 1,
         armed := env.armed + [a], lastArmed := Some(a))
  }

  /** handleConnectionUpdate on an update of a socket whose listener is still attached. */
  function HandleUpdate(s: State, qr: bool, change: Change): State {
    HandleChange(if qr then s.(env := s.env.(renders := s.env.renders + 1)) else s, change)
  }

  function HandleChange(s: State, change: Change): State {
    match change
    case NoChange => s
    case Connecting => s.(status := INITIALIZING)
    case Open => s.(reconnectAttempts := 0, status := READY, env := s.env.(armed := []))
    case Close(loggedOut) => HandleClose(s, loggedOut)
  }

  /** `end()`: the socket's synthetic close reaches us unless it ended before or was detached. */
  function EndSocket(s: State, i: nat): State {
    var dead := s.(env := s.env.(ended := s.env.ended + {i}));
    if i in s.env.ended || i in s.env.detached then dead else HandleClose(dead, false)
  }

  function EndCurrent(s: State): State {
    if s.sock.Some? then EndSocket(s, s.sock.value) else s
  }

  function ClearTimer(s: State): State {
    if s.reconnectTimer.None? then s
    else s.(reconnectTimer := None, env := s.env.(timers := s.env.timers - {s.reconnectTimer.value}))
  }

  /** The common body of disconnect and destroy. */
  function Stop(s: State): State {
    EndCurrent(ClearTimer(s.(intentionalClose := true))).(sock := None, status := DISCONNECTED)
  }

  /** connectInner after its last await: bail when stopped, else tear the old socket down and make one. */
  function OpenSocket(s: State, makes: bool): State {
    if s.intentionalClose then s.(env := s.env.(phase := Settled(false)))
    else
      var s := if s.sock.None? then s
               else EndSocket(s.(env := s.env.(detached := s.env.detached + {s.sock.value})), s.sock.value);
      if !makes then s.(env := s.env.(phase := Settled(true)))
      else s.(sock := Some(s.env.created), env := s.env.(created := s.env.created + 1, phase := Settled(false)))
  }

  function Waiting(s: State): bool {
    s.env.phase in {LoadingLib, LoadingAuth, FetchingVersion}
  }

  /** The event loop and the sockets can produce `e` now. */
  predicate Enabled(s: State, e: Event) {
    match e
    case LibLoaded => s.env.phase == LoadingLib
    case AuthLoaded => s.env.phase == LoadingAuth
    case VersionFetched(_) => s.env.phase == FetchingVersion
    case AwaitRejected => Waiting(s)
    case ConnectReturns => s.env.phase.Settled?
    case CatchRuns => s.env.rejections > 0
    case SocketUpdate(i, _, _) => i < s.env.created && i !in s.env.ended && i !in s.env.detached
    case TimerFires(t) => t in s.env.timers
    case QrRendered(_) => s.env.renders > 0
    case LogoutSettles(k, _) => k < |s.env.logouts|
    case _ => true
  }

  function Next(s: State, e: Event): State
    requires Enabled(s, e)
  {
    match e
    case Initialize => Connect(s.(intentionalClose := false))
    case LibLoaded => s.(env := s.env.(phase := LoadingAuth))
    case AuthLoaded => s.(env := s.env.(phase := FetchingVersion))
    case VersionFetched(makes) => OpenSocket(s, makes)
    case AwaitRejected => s.(env := s.env.(phase := Settled(true)))
    case ConnectReturns =>
      var r := if s.env.phase.failed then 1 else 0;
      s.(connecting := false, env := s.env.(phase := Idle, rejections := s.env.rejections + r))
    case CatchRuns => s.(status := FAILED, env := s.env.(rejections := s.env.rejections - 1))
    case SocketUpdate(i, qr, change) =>
      var s := if change.Close? then s.(env := s.env.(ended := s.env.ended + {i})) else s;
      HandleUpdate(s, qr, change)
    case TimerFires(t) =>
      var s := s.(reconnectTimer := None, env := s.env.(timers := s.env.timers - {t}));
      if s.intentionalClose then s else Connect(s)
    case QrRendered(ok) =>
      var s := s.(env := s.env.(renders := s.env.renders - 1));
      if ok then s.(status := QR_READY) else s
    case Disconnect => Stop(s)
    case Destroy => Stop(s)
    case LogoutCalled =>
      var s := ClearTimer(s.(intentionalClose := true));
      s.(env := s.env.(logouts := s.env.logouts + [s.sock]))
    case LogoutSettles(k, ok) => SettleLogout(s, k, ok)
  }

  function SettleLogout(s: State, k: nat, ok: bool): State
    requires k < |s.env.logouts|
  {
    var captured := s.env.logouts[k];
    var s := s.(env := s.env.(logouts := s.env.logouts[..k] + s.env.logouts[k + 1..]));
    var s := if !ok then EndCurrent(s)
             else if captured.Some? then s.(env := s.env.(ended := s.env.ended + {captured.value}))
             else s;
    s.(sock := None, status := DISCONNECTED)
  }

  // ----- Runs -----

  predicate Valid(s: State, run: seq<Event>)
    decreases |run|
  {
    run == [] || (Enabled(s, run[0]) && Valid(Next(s, run[0]), run[1..]))
  }

  function Run(s: State, run: seq<Event>): State
    requires Valid(s, run)
    decreases |run|
  {
    if run == [] then s else Run(Next(s, run[0]), run[1..])
  }

  /** `initialize` is never called while a `logout` is still awaiting its socket. */
  predicate Disciplined(s: State, run: seq<Event>)
    requires Valid(s, run)
    decreases |run|
  {
    run == [] ||
    ((run[0].Initialize? ==> s.env.logouts == []) && Disciplined(Next(s, run[0]), run[1..]))
  }

  predicate NoInitialize(run: seq<Event>) {
    forall e :: e in run ==> !e.Initialize?
  }

  // ----- Invariant -----

  /** No socket but the current one is still open. */
  predicate OthersEnded(s: State) {
    forall i :: 0 <= i < s.env.created ==> i in s.env.ended || s.sock == Some(i)
  }

  predicate TimerExact(s: State) {
    && s.env.timers.Keys == (if s.reconnectTimer.Some? then {s.reconnectTimer.value} else {})
    && (s.reconnectTimer.Some? ==> s.reconnectTimer.value < s.env.nextTimer)
    && (s.intentionalClose ==> s.reconnectTimer.None?)
    && (forall t :: t in s.env.timers ==>
          && s.env.lastArmed.Some? && s.env.lastArmed.value.timer == t
          && s.env.timers[t] == s.env.lastArmed.value.delay && Doubled(s.env.lastArmed.value))
  }

  /** The delay of the n-th attempt is 1000 * 2^(n - 1) milliseconds. */
  predicate Doubled(a: Arming) {
    1 <= a.attempt <= 5 && a.delay == 1000 * Pow2(a.attempt - 1)
  }

  /** The attempt numbers armed since the last open are pairwise distinct, rising and at most five. */
  predicate BackoffOk(s: State) {
    && s.reconnectAttempts <= MAX_RECONNECT_ATTEMPTS
    && (forall i :: 0 <= i < |s.env.armed| ==> Doubled(s.env.armed[i]) && s.env.armed[i].attempt <= s.reconnectAttempts)
    && (forall i, j :: 0 <= i < j < |s.env.armed| ==> s.env.armed[i].attempt < s.env.armed[j].attempt)
    && (s.env.armed != [] ==> s.env.lastArmed == Some(s.env.armed[|s.env.armed| - 1]))
  }

  predicate LogoutsOk(s: State) {
    && (s.env.logouts != [] ==> s.intentionalClose)
    && (forall k :: 0 <= k < |s.env.logouts| && s.env.logouts[k].Some? ==> s.env.logouts[k].value < s.env.created)
    && (forall k :: 0 <= k < |s.env.logouts| ==> s.sock.None? || s.env.logouts[k] == s.sock)
  }

  predicate SocketsOk(s: State) {
    && OthersEnded(s)
    && (s.sock.Some? ==> s.sock.value < s.env.created)
    && s.env.detached <= s.env.ended
    && (forall i :: i in s.env.ended ==> i < s.env.created)
  }

  predicate Inv(s: State) {
    && (s.connecting <==> s.env.phase != Idle)
    && TimerExact(s)
    && BackoffOk(s)
    && LogoutsOk(s)
    && SocketsOk(s)
  }

  lemma CloseKeepsInv(s: State, loggedOut: bool)
    requires Inv(s)
    ensures Inv(HandleClose(s, loggedOut))
  {
    var n := s.reconnectAttempts + 1;
    if n <= MAX_RECONNECT_ATTEMPTS {
      BackoffDoubles(n);
    }
  }

  /** Five attempts never reach the cap. */
  lemma BackoffDoubles(n: nat)
    requires 1 <= n <= 5
    ensures BackoffMs(n) == 1000 * Pow2(n - 1) && 1000 <= BackoffMs(n) <= 16000
  {
    assert Pow2(4) == 2 * Pow2(3) == 16;
    Pow2Grows(n - 1, 4);
  }

  lemma EndKeepsInv(s: State, i: nat)
    requires Inv(s) && i < s.env.created
    ensures Inv(EndSocket(s, i))
  {
    CloseKeepsInv(s.(env := s.env.(ended := s.env.ended + {i})), false);
  }

  lemma ClearKeepsInv(s: State)
    requires Inv(s)
    ensures Inv(ClearTimer(s.(intentionalClose := true)))
  {
    assert TimerExact(ClearTimer(s.(intentionalClose := true)));
  }

  /** Letting go of an ended socket. */
  lemma DropKeepsInv(s: State)
    requires Inv(s) && (s.sock.Some? ==> s.sock.value in s.env.ended)
    ensures Inv(s.(sock := None, status := DISCONNECTED))
  {
  }

  lemma StopKeepsInv(s: State)
    requires Inv(s)
    ensures Inv(Stop(s))
  {
    var s1 := ClearTimer(s.(intentionalClose := true));
    ClearKeepsInv(s);
    if s.sock.Some? {
      EndKeepsInv(s1, s.sock.value);
      DropKeepsInv(EndSocket(s1, s.sock.value));
    } else {
      DropKeepsInv(s1);
    }
  }

  lemma OpenKeepsInv(s: State, makes: bool)
    requires Inv(s) && Enabled(s, VersionFetched(makes))
    ensures Inv(OpenSocket(s, makes))
  {
  }

  lemma ForgetLogoutKeepsInv(s: State, k: nat)
    requires Inv(s) && k < |s.env.logouts|
    ensures Inv(s.(env := s.env.(logouts := s.env.logouts[..k] + s.env.logouts[k + 1..])))
  {
    var s1 := s.(env := s.env.(logouts := s.env.logouts[..k] + s.env.logouts[k + 1..]));
    assert LogoutsOk(s1);
  }

  lemma SettleKeepsInv(s: State, k: nat, ok: bool)
    requires Inv(s) && k < |s.env.logouts|
    ensures Inv(SettleLogout(s, k, ok))
  {
    var captured := s.env.logouts[k];
    var s1 := s.(env := s.env.(logouts := s.env.logouts[..k] + s.env.logouts[k + 1..]));
    ForgetLogoutKeepsInv(s, k);
    if !ok && s.sock.Some? {
      EndKeepsInv(s1, s.sock.value);
      DropKeepsInv(EndSocket(s1, s.sock.value));
    } else if ok && captured.Some? {
      EndedKeepsInv(s1, captured.value);
      DropKeepsInv(s1.(env := s1.env.(ended := s1.env.ended + {captured.value})));
    } else {
      DropKeepsInv(s1);
    }
  }

  lemma UpdateKeepsInv(s: State, i: nat, qr: bool, change: Change)
    requires Inv(s) && Enabled(s, SocketUpdate(i, qr, change))
    ensures Inv(Next(s, SocketUpdate(i, qr, change)))
  {
    EndedKeepsInv(s, i);
    HandlerKeepsInv(if change.Close? then s.(env := s.env.(ended := s.env.ended + {i})) else s, qr, change);
  }

  lemma HandlerKeepsInv(s: State, qr: bool, change: Change)
    requires Inv(s)
    ensures Inv(HandleUpdate(s, qr, change))
  {
    if qr {
      var s1 := s.(env := s.env.(renders := s.env.renders + 1));
      RendersKeepInv(s, s.env.renders + 1);
      ChangeKeepsInv(s1, change);
      assert HandleUpdate(s, qr, change) == HandleChange(s1, change);
    } else {
      ChangeKeepsInv(s, change);
      assert HandleUpdate(s, qr, change) == HandleChange(s, change);
    }
  }

  lemma ChangeKeepsInv(s: State, change: Change)
    requires Inv(s)
    ensures Inv(HandleChange(s, change))
  {
    match change
    case Close(loggedOut) => CloseKeepsInv(s, loggedOut);
    case Open => OpenedKeepsInv(s);
    case _ =>
  }

  lemma EndedKeepsInv(s: State, i: nat)
    requires Inv(s) && i < s.env.created
    ensures Inv(s.(env := s.env.(ended := s.env.ended + {i})))
  {
  }

  lemma RendersKeepInv(s: State, renders: nat)
    requires Inv(s)
    ensures Inv(s.(env := s.env.(renders := renders)))
  {
  }

  lemma OpenedKeepsInv(s: State)
    requires Inv(s)
    ensures Inv(s.(reconnectAttempts := 0, status := READY, env := s.env.(armed := [])))
  {
  }

  lemma LogoutKeepsInv(s: State)
    requires Inv(s)
    ensures Inv(Next(s, LogoutCalled))
  {
    ClearKeepsInv(s);
  }

  lemma FiringKeepsInv(s: State, t: nat)
    requires Inv(s) && Enabled(s, TimerFires(t))
    ensures Inv(Next(s, TimerFires(t)))
  {
    assert s.env.timers.Keys == {t};
    assert (s.env.timers - {t}).Keys == {};
  }

  lemma NextKeepsInv(s: State, e: Event)
    requires Inv(s) && Enabled(s, e)
    requires e.Initialize? ==> s.env.logouts == []
    ensures Inv(Next(s, e))
  {
    match e
    case VersionFetched(makes) => OpenKeepsInv(s, makes);
    case SocketUpdate(i, qr, change) => UpdateKeepsInv(s, i, qr, change);
    case Disconnect => StopKeepsInv(s);
    case Destroy => StopKeepsInv(s);
    case LogoutSettles(k, ok) => SettleKeepsInv(s, k, ok);
    case LogoutCalled => LogoutKeepsInv(s);
    case TimerFires(t) => FiringKeepsInv(s, t);
    case _ =>
  }

  /**
   Main safety theorem: in every run in which `initialize` does not overlap a pending logout, every
   socket ever created except the current one has been ended, at most one timer is live and it is
   the recorded one, none is live while `intentionalClose`, and at most five attempts are counted.
   */
  lemma {:induction false} RunsAreSafe(s: State, run: seq<Event>)
    requires Inv(s) && Valid(s, run) && Disciplined(s, run)
    ensures Inv(Run(s, run))
    decreases |run|
  {
    if run != [] {
      NextKeepsInv(s, run[0]);
      RunsAreSafe(Next(s, run[0]), run[1..]);
    }
  }

  /**
   Stopping is final until `initialize`: from any state with `intentionalClose` set, whatever await a
   connect is parked at, no socket is made, no timer is armed and the socket field is never refilled.
   */
  lemma {:induction false} StopIsFinal(s: State, run: seq<Event>)
    requires s.intentionalClose && Valid(s, run) && NoInitialize(run)
    ensures var f := Run(s, run);
      && f.intentionalClose
      && f.env.created == s.env.created
      && f.env.nextTimer == s.env.nextTimer
      && s.env.ended <= f.env.ended
      && (f.sock == s.sock || f.sock.None?)
    decreases |run|
  {
    if run != [] {
      assert run[0] in run;
      var s1 := Next(s, run[0]);
      assert s1.intentionalClose && s1.env.created == s.env.created && s1.env.nextTimer == s.env.nextTimer;
      assert s.env.ended <= s1.env.ended && (s1.sock == s.sock || s1.sock.None?);
      StopIsFinal(s1, run[1..]);
    }
  }

  /** After disconnect or destroy every socket is ended, none appears and `ensureReady` keeps failing. */
  lemma StoppedAdapterStaysDown(s: State, e: Event, run: seq<Event>)
    requires Inv(s) && (e.Disconnect? || e.Destroy?)
    requires Valid(Next(s, e), run) && NoInitialize(run)
    ensures var f := Run(Next(s, e), run);
      && f.env.created == s.env.created
      && (forall i :: 0 <= i < f.env.created ==> i in f.env.ended)
      && !EnsureReady(f)
      && f.env.timers == map[]
  {
    var s1 := Next(s, e);
    StopKeepsInv(s);
    StopStops(s);
    StopIsFinal(s1, run);
    RunsAreDisciplined(s1, run);
    RunsAreSafe(s1, run);
    StoppedIsEmpty(Run(s1, run));
  }

  /** A stop raises the flag, lets go of the socket and leaves the status DISCONNECTED. */
  lemma StopStops(s: State)
    ensures var f := Stop(s);
      && f.intentionalClose && f.sock.None? && f.status == DISCONNECTED && f.reconnectTimer.None?
      && f.env.created == s.env.created
      && (s.sock.Some? ==> s.sock.value in f.env.ended)
  {
  }

  lemma StoppedIsEmpty(s: State)
    requires Inv(s) && s.intentionalClose
    ensures s.env.timers == map[]
    ensures s.sock.None? ==> forall i :: 0 <= i < s.env.created ==> i in s.env.ended
  {
    assert s.env.timers.Keys == {};
  }

  lemma {:induction false} RunsAreDisciplined(s: State, run: seq<Event>)
    requires Valid(s, run) && NoInitialize(run)
    ensures Disciplined(s, run)
    decreases |run|
  {
    if run != [] {
      assert run[0] in run;
      RunsAreDisciplined(Next(s, run[0]), run[1..]);
    }
  }

  // ----- Backoff -----

  function TotalMs(armed: seq<Arming>): nat {
    if armed == [] then 0 else TotalMs(armed[..|armed| - 1]) + armed[|armed| - 1].delay
  }

  lemma TotalGrows(armed: seq<Arming>, a: Arming)
    ensures TotalMs([]) == 0 && TotalMs(armed + [a]) == TotalMs(armed) + a.delay
  {
    assert (armed + [a])[..|armed|] == armed;
  }

  lemma {:induction false} TotalIsGeometric(armed: seq<Arming>, top: nat)
    requires forall i :: 0 <= i < |armed| ==> Doubled(armed[i]) && armed[i].attempt <= top
    requires forall i, j :: 0 <= i < j < |armed| ==> armed[i].attempt < armed[j].attempt
    ensures TotalMs(armed) <= 1000 * (Pow2(top) - 1)
    decreases |armed|
  {
    if armed != [] {
      var rest, last := armed[..|armed| - 1], armed[|armed| - 1];
      TotalIsGeometric(rest, last.attempt - 1);
      assert Pow2(last.attempt) == 2 * Pow2(last.attempt - 1);
      Pow2Grows(last.attempt, top);
    }
  }

  /**
   In every disciplined run from `Start`: at most one timer is live, and it waits 1000 * 2^(n - 1) ms, where n
   is the attempt it was armed at, the last one armed; the delays armed since the last 'open' belong to rising
   attempt numbers, total at most 31 s and stay below the cap of 30 s.
   */
  lemma BackoffIsBounded(run: seq<Event>)
    requires Valid(Start, run) && Disciplined(Start, run)
    ensures var f := Run(Start, run);
      && TotalMs(f.env.armed) <= 31000
      && (forall i :: 0 <= i < |f.env.armed| ==>
            f.env.armed[i].attempt > 0 && f.env.armed[i].delay == 1000 * Pow2(f.env.armed[i].attempt - 1) < 30000)
      && (forall i, j :: 0 <= i < j < |f.env.armed| ==> f.env.armed[i].attempt < f.env.armed[j].attempt)
      && |f.env.timers| <= 1
      && (forall t :: t in f.env.timers ==>
            && f.env.lastArmed.Some? && f.env.lastArmed.value.timer == t && f.env.lastArmed.value.attempt > 0
            && f.env.timers[t] == 1000 * Pow2(f.env.lastArmed.value.attempt - 1))
      && (f.env.armed != [] ==> f.env.lastArmed == Some(f.env.armed[|f.env.armed| - 1]))
  {
    RunsAreSafe(Start, run);
    WaitsAreBounded(Run(Start, run));
  }

  lemma WaitsAreBounded(s: State)
    requires BackoffOk(s) && TimerExact(s)
    ensures TotalMs(s.env.armed) <= 31000 && |s.env.timers| <= 1
    ensures forall i :: 0 <= i < |s.env.armed| ==> s.env.armed[i].delay < 30000
  {
    TotalIsGeometric(s.env.armed, s.reconnectAttempts);
    Pow2Grows(s.reconnectAttempts, 5);
    assert Pow2(5) == 2 * Pow2(4) == 2 * 2 * Pow2(3) == 32;
    assert |s.env.timers| == |s.env.timers.Keys|;
    forall i | 0 <= i < |s.env.armed| ensures s.env.armed[i].delay < 30000 {
      BackoffDoubles(s.env.armed[i].attempt);
    }
  }

  /**
   A recoverable close counts one attempt and, unless a timer is pending already, arms one for exactly
   1000 * 2^(attempts before) ms; status and socket stay as they are.
   */
  lemma RecoverableCloseArms(s: State, i: nat, qr: bool)
    requires Inv(s) && !s.intentionalClose && s.reconnectAttempts < 5
    requires Enabled(s, SocketUpdate(i, qr, Close(false)))
    ensures var f := Next(s, SocketUpdate(i, qr, Close(false)));
      && f.reconnectAttempts == s.reconnectAttempts + 1 && f.status == s.status && f.sock == s.sock
      && i in f.env.ended
      && (if s.reconnectTimer.Some? then f.env.timers == s.env.timers && f.reconnectTimer == s.reconnectTimer
          else
            && f.reconnectTimer.Some?
            && f.env.timers == map[f.reconnectTimer.value := 1000 * Pow2(s.reconnectAttempts)])
  {
    BackoffDoubles(s.reconnectAttempts + 1);
    assert s.reconnectTimer.None? ==> s.env.timers.Keys == {};
  }

  // ----- Initialize during a logout -----

  /** The condition under which an `initialize` that overlaps a logout can lose a socket. */
  predicate CanLeak(s: State) {
    s.env.logouts != [] && (s.env.phase.Settled? ==> s.sock.Some? && s.sock.value !in s.env.ended)
  }

  ghost predicate SafeForever(s: State) {
    forall run :: Valid(s, run) && Disciplined(s, run) ==> OthersEnded(Run(s, run))
  }

  /** Nothing is connecting, no timer is live and every socket has ended. */
  predicate Quiet(s: State) {
    && (s.connecting <==> s.env.phase != Idle)
    && (s.env.phase == Idle || s.env.phase.Settled?)
    && s.reconnectTimer.None?
    && TimerExact(s) && BackoffOk(s) && SocketsOk(s)
    && (forall i :: 0 <= i < s.env.created ==> i in s.env.ended)
    && (forall k :: 0 <= k < |s.env.logouts| && s.env.logouts[k].Some? ==> s.env.logouts[k].value < s.env.created)
  }

  lemma QuietStep(s: State, e: Event)
    requires Quiet(s) && Enabled(s, e) && !e.Initialize?
    ensures Quiet(Next(s, e))
  {
    match e
    case Disconnect => StopIsQuiet(s);
    case Destroy => StopIsQuiet(s);
    case LogoutSettles(k, ok) => SettleIsQuiet(s, k, ok);
    case SocketUpdate(i, _, _) => assert false;
    case _ =>
  }

  lemma SettleIsQuiet(s: State, k: nat, ok: bool)
    requires Quiet(s) && k < |s.env.logouts|
    ensures Quiet(SettleLogout(s, k, ok))
  {
  }

  lemma StopIsQuiet(s: State)
    requires Quiet(s)
    ensures Quiet(Stop(s))
  {
  }

  lemma {:induction false} QuietRunsAreSafe(s: State, run: seq<Event>)
    requires Inv(s) || Quiet(s)
    requires Valid(s, run) && Disciplined(s, run)
    ensures OthersEnded(Run(s, run))
    decreases |run|
  {
    if Inv(s) {
      RunsAreSafe(s, run);
    } else if run != [] {
      var s1 := Next(s, run[0]);
      if run[0].Initialize? {
        NextKeepsInv(s, run[0]);
      } else {
        QuietStep(s, run[0]);
      }
      QuietRunsAreSafe(s1, run[1..]);
    }
  }

  /** From an open connect: it makes a socket, then the logout resolves and forgets it. */
  function ConnectThenSettle(phase: Phase): seq<Event> {
    match phase
    case LoadingLib => [LibLoaded, AuthLoaded, VersionFetched(true), LogoutSettles(0, true)]
    case LoadingAuth => [AuthLoaded, VersionFetched(true), LogoutSettles(0, true)]
    case FetchingVersion => [VersionFetched(true), LogoutSettles(0, true)]
    case _ => []
  }

  lemma ConnectThenSettleLeaks(s: State)
    requires Waiting(s) && !s.intentionalClose && s.env.logouts != [] && SocketsOk(s)
    requires s.env.logouts[0].Some? ==> s.env.logouts[0].value < s.env.created
    ensures var run := ConnectThenSettle(s.env.phase);
      Valid(s, run) && NoInitialize(run) && !OthersEnded(Run(s, run))
    decreases if s.env.phase == LoadingLib then 2 else if s.env.phase == LoadingAuth then 1 else 0
  {
    if s.env.phase == LoadingLib {
      ConnectThenSettleLeaks(Next(s, LibLoaded));
      UnfoldRun(s, LibLoaded, ConnectThenSettle(LoadingAuth));
    } else if s.env.phase == LoadingAuth {
      ConnectThenSettleLeaks(Next(s, AuthLoaded));
      UnfoldRun(s, AuthLoaded, ConnectThenSettle(FetchingVersion));
    } else {
      var s1 := Next(s, VersionFetched(true));
      var s2 := Next(s1, LogoutSettles(0, true));
      UnfoldRun(s1, LogoutSettles(0, true), []);
      UnfoldRun(s, VersionFetched(true), [LogoutSettles(0, true)]);
      assert s.env.created !in s2.env.ended;
    }
  }

  lemma UnfoldRun(s: State, e: Event, run: seq<Event>)
    requires Enabled(s, e) && Valid(Next(s, e), run)
    ensures Valid(s, [e] + run) && Run(s, [e] + run) == Run(Next(s, e), run)
  {
    assert ([e] + run)[1..] == run;
  }

  /** The same leak when the overlapped connect is just returning: the old socket drops and the timer reconnects. */
  lemma DropReconnectSettleLeaks(s: State, i: nat)
    requires s.env.phase.Settled? && !s.intentionalClose && s.reconnectTimer.None? && s.env.logouts != []
    requires SocketsOk(s) && s.sock == Some(i) && i !in s.env.ended
    requires s.env.logouts[0].Some? ==> s.env.logouts[0].value < s.env.created
    ensures exists run :: Valid(s, run) && NoInitialize(run) && !OthersEnded(Run(s, run))
  {
    var e1, e2 := ConnectReturns, SocketUpdate(i, false, Open);
    var e3, e4 := SocketUpdate(i, false, Close(false)), TimerFires(s.env.nextTimer);
    var s1 := Next(s, e1);
    var s2 := Next(s1, e2);
    var s3 := Next(s2, e3);
    var s4 := Next(s3, e4);
    ConnectThenSettleLeaks(s4);
    var r4 := ConnectThenSettle(s4.env.phase);
    UnfoldRun(s3, e4, r4);
    UnfoldRun(s2, e3, [e4] + r4);
    UnfoldRun(s1, e2, [e3] + ([e4] + r4));
    UnfoldRun(s, e1, [e2] + ([e3] + ([e4] + r4)));
    assert NoInitialize([e1] + ([e2] + ([e3] + ([e4] + r4))));
  }

  /**
   Why a pending logout must not be overlapped, exactly: from a state of a disciplined run, an
   `initialize` can be followed by a run that leaves an open socket nobody holds if and only if a
   logout is pending and either a connect is (or gets) under way or the current socket is still open.
   */
  lemma InitializeOverlappingLogout(s: State)
    requires Inv(s)
    ensures SafeForever(Next(s, Initialize)) <==> !CanLeak(s)
  {
    var s1 := Next(s, Initialize);
    if CanLeak(s) {
      var run: seq<Event>;
      if s.env.phase.Settled? {
        DropReconnectSettleLeaks(s1, s.sock.value);
        run :| Valid(s1, run) && NoInitialize(run) && !OthersEnded(Run(s1, run));
      } else {
        ConnectThenSettleLeaks(s1);
        run := ConnectThenSettle(s1.env.phase);
      }
      RunsAreDisciplined(s1, run);
      assert !SafeForever(s1);
    } else {
      assert Inv(s1) || Quiet(s1) by {
        if s.env.logouts == [] {
          NextKeepsInv(s, Initialize);
        }
      }
      forall run | Valid(s1, run) && Disciplined(s1, run) ensures OthersEnded(Run(s1, run)) {
        QuietRunsAreSafe(s1, run);
      }
    }
  }

  // ----- Drops, repairs and terminal closes -----

  /** Replacing the previous socket is silent: its synthetic close counts no attempt and arms no timer. */
  lemma TeardownIsSilent(s: State, makes: bool)
    requires Inv(s) && Enabled(s, VersionFetched(makes))
    ensures var f := Next(s, VersionFetched(makes));
      && f.reconnectAttempts == s.reconnectAttempts && f.status == s.status
      && f.reconnectTimer == s.reconnectTimer && f.env.timers == s.env.timers && f.env.armed == s.env.armed
      && (f.env.created == s.env.created + 1 <==> !s.intentionalClose && makes)
      && (!s.intentionalClose && s.sock.Some? ==> s.sock.value in f.env.ended)
  {
  }

  const Reconnect := [LibLoaded, AuthLoaded, VersionFetched(true), ConnectReturns]

  lemma ReconnectMakesOneSocket(s: State)
    requires s.env.phase == LoadingLib && !s.intentionalClose && s.sock.Some? && s.sock.value in s.env.ended
    ensures Valid(s, Reconnect)
    ensures Run(s, Reconnect) == s.(connecting := false, sock := Some(s.env.created),
      env := s.env.(phase := Idle, created := s.env.created + 1, detached := s.env.detached + {s.sock.value}))
  {
    var s1 := Next(s, LibLoaded);
    var s2 := Next(s1, AuthLoaded);
    var s3 := Next(s2, VersionFetched(true));
    assert s.env.ended + {s.sock.value} == s.env.ended;
    UnfoldRun(s3, ConnectReturns, []);
    UnfoldRun(s2, VersionFetched(true), [ConnectReturns]);
    UnfoldRun(s1, AuthLoaded, [VersionFetched(true)] + [ConnectReturns]);
    UnfoldRun(s, LibLoaded, [AuthLoaded] + ([VersionFetched(true)] + [ConnectReturns]));
    assert Reconnect == [LibLoaded] + ([AuthLoaded] + ([VersionFetched(true)] + [ConnectReturns]));
  }

  /** A recoverable drop is repaired: its timer leads to exactly one fresh current socket. */
  lemma DropIsRepaired(s: State, i: nat)
    requires Inv(s) && !s.intentionalClose && s.env.phase == Idle && s.reconnectTimer.None?
    requires s.sock == Some(i) && i !in s.env.ended && s.reconnectAttempts < MAX_RECONNECT_ATTEMPTS
    ensures var run := [SocketUpdate(i, false, Close(false))] + ([TimerFires(s.env.nextTimer)] + Reconnect);
      && Valid(s, run)
      && var f := Run(s, run);
         && f.sock == Some(s.env.created) && f.env.created == s.env.created + 1
         && f.env.ended == s.env.ended + {i} && s.env.created !in f.env.ended
         && f.reconnectAttempts == s.reconnectAttempts + 1
         && !f.connecting && f.reconnectTimer.None? && f.env.rejections == s.env.rejections
  {
    var s1 := Next(s, SocketUpdate(i, false, Close(false)));
    var s2 := Next(s1, TimerFires(s.env.nextTimer));
    ReconnectMakesOneSocket(s2);
    UnfoldRun(s1, TimerFires(s.env.nextTimer), Reconnect);
    UnfoldRun(s, SocketUpdate(i, false, Close(false)), [TimerFires(s.env.nextTimer)] + Reconnect);
  }

  /** Stopped, or waiting to reconnect, or connecting, or on an open socket. */
  predicate Alive(s: State) {
    s.intentionalClose || s.reconnectTimer.Some? || Waiting(s) || (s.sock.Some? && s.sock.value !in s.env.ended)
  }

  /**
   An event that is no stop, no failing connect and no terminal close. A timer does not fire between the end
   of connectInner and connect's `finally`: that gap is one microtask.
   */
  predicate Benign(s: State, e: Event) {
    match e
    case SocketUpdate(_, _, Close(loggedOut)) => !loggedOut && s.reconnectAttempts < MAX_RECONNECT_ATTEMPTS
    case VersionFetched(makes) => makes
    case TimerFires(_) => !s.env.phase.Settled?
    case AwaitRejected => false
    case Initialize => false
    case Disconnect => false
    case Destroy => false
    case LogoutCalled => false
    case LogoutSettles(_, _) => false
    case _ => true
  }

  predicate AllBenign(s: State, run: seq<Event>)
    requires Valid(s, run)
    decreases |run|
  {
    run == [] || (Benign(s, run[0]) && AllBenign(Next(s, run[0]), run[1..]))
  }

  lemma BenignKeepsAlive(s: State, e: Event)
    requires Inv(s) && Alive(s) && Enabled(s, e) && Benign(s, e)
    ensures Alive(Next(s, e))
  {
  }

  /**
   Whatever the interleaving of drops, timers and awaits, a session that is not stopped, fails no connect and
   meets no terminal close is never left with neither a socket, nor a connect under way, nor a timer.
   */
  lemma {:induction false} DropsAreNeverForgotten(s: State, run: seq<Event>)
    requires Inv(s) && Alive(s) && Valid(s, run) && AllBenign(s, run)
    ensures Alive(Run(s, run))
    decreases |run|
  {
    if run != [] {
      BenignKeepsAlive(s, run[0]);
      NextKeepsInv(s, run[0]);
      DropsAreNeverForgotten(Next(s, run[0]), run[1..]);
    }
  }

  /** Where the status comes from, apart from closes. */
  lemma StatusFollowsEvents(s: State, e: Event)
    requires Inv(s) && Enabled(s, e) && !(e.SocketUpdate? && e.change.Close?)
    ensures var f := Next(s, e);
      match e
      case Initialize => f.status == if s.connecting then s.status else INITIALIZING
      case TimerFires(_) => f.status == if s.connecting then s.status else INITIALIZING
      case SocketUpdate(_, _, Connecting) => f.status == INITIALIZING
      case SocketUpdate(_, _, Open) => f.status == READY
      case QrRendered(ok) => f.status == if ok then QR_READY else s.status
      case CatchRuns => f.status == FAILED
      case Disconnect => f.status == DISCONNECTED
      case Destroy => f.status == DISCONNECTED
      case LogoutSettles(_, _) => f.status == DISCONNECTED
      case _ => f.status == s.status
  {
  }

  /** An initialize lowers the stop flag and, unless one is under way, starts a connect. */
  lemma InitializeConnects(s: State)
    requires Inv(s)
    ensures var f := Next(s, Initialize);
      && !f.intentionalClose && f.connecting && f.sock == s.sock && f.env.timers == s.env.timers
      && f.env.phase == if s.connecting then s.env.phase else LoadingLib
  {
  }

  /** A connect that fails at any await, or in making the socket, releases the flag and ends in FAILED. */
  lemma FailedConnectIsReported(s: State, e: Event)
    requires Inv(s) && Enabled(s, e) && (e == AwaitRejected || (e == VersionFetched(false) && !s.intentionalClose))
    ensures var run := [e] + ([ConnectReturns] + [CatchRuns]);
      && Valid(s, run)
      && var f := Run(s, run);
         !f.connecting && f.env.phase == Idle && f.status == FAILED && f.env.created == s.env.created
  {
    var s1 := Next(s, e);
    var s2 := Next(s1, ConnectReturns);
    UnfoldRun(s2, CatchRuns, []);
    UnfoldRun(s1, ConnectReturns, [CatchRuns]);
    UnfoldRun(s, e, [ConnectReturns] + [CatchRuns]);
  }

  /** A logout raises the flag and clears the timer at once; socket and status wait for its answer. */
  lemma LogoutStops(s: State)
    requires Inv(s)
    ensures var f := Next(s, LogoutCalled);
      && f.intentionalClose && f.reconnectTimer.None? && f.env.timers == map[]
      && f.sock == s.sock && f.status == s.status && f.env.created == s.env.created && f.env.ended == s.env.ended
      && f.env.logouts == s.env.logouts + [s.sock]
  {
    LogoutKeepsInv(s);
    assert Next(s, LogoutCalled).env.timers.Keys == {};
  }

  /** A stop met at the end of connectInner's awaits, or by the timer, lets nothing more happen. */
  lemma StopIsSeen(s: State, e: Event)
    requires s.intentionalClose && Enabled(s, e) && (e.VersionFetched? || e.TimerFires?)
    ensures var f := Next(s, e);
      && f.sock == s.sock && f.status == s.status && f.connecting == s.connecting
      && f.env.created == s.env.created && f.env.ended == s.env.ended && f.env.rejections == s.env.rejections
      && f.env.phase == if e.VersionFetched? then Settled(false) else s.env.phase
  {
  }

  /** A QR rendering is put on when its code arrives and taken off when it is done. */
  lemma RendersAreCounted(s: State, e: Event)
    requires Enabled(s, e)
    ensures Next(s, e).env.renders
         == s.env.renders + (if e.SocketUpdate? && e.qr then 1 else 0) - (if e.QrRendered? then 1 else 0)
  {
  }

  /** A rejected connect is put on when connect returns and taken off when its catch has run. */
  lemma RejectionsAreCounted(s: State, e: Event)
    requires Enabled(s, e)
    ensures Next(s, e).env.rejections
         == s.env.rejections + (if e.ConnectReturns? && s.env.phase.failed then 1 else 0)
            - (if e.CatchRuns? then 1 else 0)
  {
  }

  /** Ending an open, attached socket is a close that is not a logged-out one; any other end is silent. */
  lemma EndIsAClose(s: State, i: nat)
    ensures var dead := s.(env := s.env.(ended := s.env.ended + {i}));
      EndSocket(s, i) == if i in s.env.ended || i in s.env.detached then dead else HandleClose(dead, false)
  {
  }

  /** A logout takes effect on the socket it captured when it resolves, on the current one when it fails. */
  lemma LogoutEndsSocket(s: State, k: nat, ok: bool)
    requires Enabled(s, LogoutSettles(k, ok))
    ensures var f := Next(s, LogoutSettles(k, ok));
      && f.sock.None? && f.env.created == s.env.created && |f.env.logouts| == |s.env.logouts| - 1
      && (ok && s.env.logouts[k].Some? ==> s.env.logouts[k].value in f.env.ended)
      && (!ok && s.sock.Some? ==> s.sock.value in f.env.ended)
  {
  }

  /** When the current socket opens, calls go through again and the attempts start over. */
  lemma OpenMakesReady(s: State, i: nat, qr: bool)
    requires Inv(s) && s.sock == Some(i) && Enabled(s, SocketUpdate(i, qr, Open))
    ensures var f := Next(s, SocketUpdate(i, qr, Open));
      EnsureReady(f) && f.reconnectAttempts == 0 && f.env.armed == [] && f.env.timers == s.env.timers
  {
  }

  /** No later run makes a socket before `initialize` is called. */
  ghost predicate CreatesNothing(s: State) {
    forall run :: Valid(s, run) && NoInitialize(run) ==> Run(s, run).env.created == s.env.created
  }

  /** From an open connect to its socket. */
  function ToSocket(phase: Phase): seq<Event> {
    match phase
    case LoadingLib => [LibLoaded] + ([AuthLoaded] + [VersionFetched(true)])
    case LoadingAuth => [AuthLoaded] + [VersionFetched(true)]
    case _ => [VersionFetched(true)]
  }

  lemma ConnectCreates(s: State)
    requires Waiting(s) && !s.intentionalClose
    ensures !CreatesNothing(s)
  {
    var run := ToSocket(s.env.phase);
    ConnectReachesSocket(s);
    assert NoInitialize(run);
  }

  lemma ConnectReachesSocket(s: State)
    requires Waiting(s) && !s.intentionalClose
    ensures Valid(s, ToSocket(s.env.phase)) && Run(s, ToSocket(s.env.phase)).env.created == s.env.created + 1
    decreases if s.env.phase == LoadingLib then 2 else if s.env.phase == LoadingAuth then 1 else 0
  {
    if s.env.phase == LoadingLib {
      ConnectReachesSocket(Next(s, LibLoaded));
      UnfoldRun(s, LibLoaded, ToSocket(LoadingAuth));
    } else if s.env.phase == LoadingAuth {
      ConnectReachesSocket(Next(s, AuthLoaded));
      UnfoldRun(s, AuthLoaded, ToSocket(FetchingVersion));
    } else {
      UnfoldRun(s, VersionFetched(true), []);
      OpeningCreates(s);
    }
  }

  lemma OpeningCreates(s: State)
    requires s.env.phase == FetchingVersion && !s.intentionalClose
    ensures Next(s, VersionFetched(true)).env.created == s.env.created + 1
  {
  }

  lemma StepCreates(s: State, e: Event)
    requires Enabled(s, e) && !e.Initialize? && Next(s, e).env.created == s.env.created && !CreatesNothing(Next(s, e))
    ensures !CreatesNothing(s)
  {
    var s1 := Next(s, e);
    var run :| Valid(s1, run) && NoInitialize(run) && Run(s1, run).env.created != s1.env.created;
    UnfoldRun(s, e, run);
    assert NoInitialize([e] + run);
  }

  /** A pending timer gets to a socket too, after the connect that is just returning. */
  lemma TimerCreates(s: State)
    requires !s.intentionalClose && s.reconnectTimer.Some? && s.reconnectTimer.value in s.env.timers
    requires !Waiting(s) && (s.connecting <==> s.env.phase != Idle)
    ensures !CreatesNothing(s)
  {
    var e := TimerFires(s.reconnectTimer.value);
    if s.env.phase.Settled? {
      var s1 := Next(s, ConnectReturns);
      ConnectCreates(Next(s1, e));
      StepCreates(s1, e);
      StepCreates(s, ConnectReturns);
    } else {
      ConnectCreates(Next(s, e));
      StepCreates(s, e);
    }
  }

  /** The session is stopped, or no connect is under way and no timer pending. */
  predicate NothingUnderWay(s: State) {
    s.intentionalClose || (!Waiting(s) && s.reconnectTimer.None?)
  }

  /**
   A logged-out close, and the close after five attempts, end the session until `initialize` if and only if
   they find nothing under way.
   */
  lemma TerminalCloseIsFinalExactly(s: State, i: nat, loggedOut: bool)
    requires Inv(s) && s.sock == Some(i) && Enabled(s, SocketUpdate(i, false, Close(loggedOut)))
    requires loggedOut || s.reconnectAttempts == MAX_RECONNECT_ATTEMPTS
    ensures var s1 := Next(s, SocketUpdate(i, false, Close(loggedOut)));
      && s1.status == (if s.intentionalClose || loggedOut then DISCONNECTED else FAILED)
      && (CreatesNothing(s1) <==> NothingUnderWay(s))
  {
    var s1 := Next(s, SocketUpdate(i, false, Close(loggedOut)));
    if s.intentionalClose {
      forall run | Valid(s1, run) && NoInitialize(run) ensures Run(s1, run).env.created == s1.env.created {
        StopIsFinal(s1, run);
      }
    } else if Waiting(s) {
      ConnectCreates(s1);
    } else if s.reconnectTimer.Some? {
      assert s.reconnectTimer.value in s.env.timers.Keys;
      TimerCreates(s1);
    } else {
      TerminalCloseIsQuiet(s, i, loggedOut);
      forall run | Valid(s1, run) && NoInitialize(run) ensures Run(s1, run).env.created == s1.env.created {
        QuietCreatesNothing(s1, run);
      }
    }
  }

  lemma TerminalCloseIsQuiet(s: State, i: nat, loggedOut: bool)
    requires Inv(s) && s.sock == Some(i) && Enabled(s, SocketUpdate(i, false, Close(loggedOut)))
    requires loggedOut || s.reconnectAttempts == MAX_RECONNECT_ATTEMPTS
    requires !s.intentionalClose && !Waiting(s) && s.reconnectTimer.None?
    ensures Quiet(Next(s, SocketUpdate(i, false, Close(loggedOut))))
  {
  }

  lemma {:induction false} QuietCreatesNothing(s: State, run: seq<Event>)
    requires Quiet(s) && Valid(s, run) && NoInitialize(run)
    ensures Run(s, run).env.created == s.env.created && Run(s, run).env.timers == map[]
    decreases |run|
  {
    assert s.env.timers.Keys == {};
    if run != [] {
      assert run[0] in run;
      QuietStep(s, run[0]);
      QuietCreatesNothing(Next(s, run[0]), run[1..]);
    }
  }

  // ----- The adapter -----

  /** The adapter's fields, changed in place by the handlers; each handler is one await-free stretch. */
  class BaileysAdapter {
    var intentionalClose: bool
    var connecting: bool
    var reconnectAttempts: nat
    var reconnectTimer: Option<nat>
    var status: EngineStatus
    var sock: Option<nat>
    var env: Env

    function View(): State
      reads this
    {
      State(intentionalClose, connecting, reconnectAttempts, reconnectTimer, status, sock, env)
    }

    constructor ()
      ensures View() == Start && Inv(View())
    {
      intentionalClose, connecting, reconnectAttempts := false, false, 0;
      reconnectTimer, status, sock := None, DISCONNECTED, None;
      env := Start.env;
    }

    method InitializeSession()
      modifies this
      ensures View() == Next(old(View()), Initialize)
    {
      intentionalClose := false;
      OpenConnection();
    }

    method OpenConnection()
      modifies this
      ensures View() == Connect(old(View()))
    {
      if connecting {
        return;
      }
      connecting := true;
      status := INITIALIZING;
      env := env.(phase := LoadingLib);
    }

    /** connectInner from its last await on. */
    method ConnectInnerTail(makes: bool)
      requires Enabled(View(), VersionFetched(makes))
      modifies this
      ensures View() == Next(old(View()), VersionFetched(makes))
    {
      if intentionalClose {
        env := env.(phase := Settled(false));
        return;
      }
      if sock.Some? {
        env := env.(detached := env.detached + {sock.value});
        End(sock.value);
      }
      if !makes {
        env := env.(phase := Settled(true));
        return;
      }
      var made := env.created;
      env := env.(created := made + 1);
      sock := Some(made);
      env := env.(phase := Settled(false));
    }

    /** The `finally` of connect, and the rejection handed to its caller's catch. */
    method ConnectFinally()
      requires Enabled(View(), ConnectReturns)
      modifies this
      ensures View() == Next(old(View()), ConnectReturns)
    {
      connecting := false;
      if env.phase.failed {
        env := env.(rejections := env.rejections + 1);
      }
      env := env.(phase := Idle);
    }

    /** A socket update arriving from the library; a close means the socket has already ended itself. */
    method OnSocketUpdate(i: nat, qr: bool, change: Change)
      requires Enabled(View(), SocketUpdate(i, qr, change))
      modifies this
      ensures View() == Next(old(View()), SocketUpdate(i, qr, change))
    {
      if change.Close? {
        env := env.(ended := env.ended + {i});
      }
      HandleConnectionUpdate(qr, change);
    }

    method HandleConnectionUpdate(qr: bool, change: Change)
      modifies this
      ensures View() == HandleUpdate(old(View()), qr, change)
    {
      if qr {
        env := env.(renders := env.renders + 1);
      }
      if change == Connecting {
        status := INITIALIZING;
      }
      if change == Open {
        reconnectAttempts := 0;
        env := env.(armed := []);
        status := READY;
      }
      if change.Close? {
        if intentionalClose {
          status := DISCONNECTED;
          return;
        }
        if change.loggedOut {
          status := DISCONNECTED;
          return;
        }
        if reconnectAttempts >= MAX_RECONNECT_ATTEMPTS {
          status := FAILED;
          return;
        }
        reconnectAttempts := reconnectAttempts + 1;
        var delay := BackoffMs(reconnectAttempts);
        if reconnectTimer.Some? {
          return;
        }
        var timer := env.nextTimer;
        env := Armed(env, Arming(reconnectAttempts, timer, delay));
        reconnectTimer := Some(timer);
      }
    }

    method ReconnectTimerFires(t: nat)
      requires Enabled(View(), TimerFires(t))
      modifies this
      ensures View() == Next(old(View()), TimerFires(t))
    {
      env := env.(timers := env.timers - {t});
      reconnectTimer := None;
      if intentionalClose {
        return;
      }
      OpenConnection();
    }

    method End(i: nat)
      modifies this
      ensures View() == EndSocket(old(View()), i)
    {
      var silent := i in env.ended || i in env.detached;
      env := env.(ended := env.ended + {i});
      if !silent {
        HandleConnectionUpdate(false, Close(false));
      }
    }

    method ClearReconnectTimer()
      modifies this
      ensures View() == ClearTimer(old(View()))
    {
      if reconnectTimer.Some? {
        env := env.(timers := env.timers - {reconnectTimer.value});
        reconnectTimer := None;
      }
    }

    method DisconnectSession()
      modifies this
      ensures View() == Next(old(View()), Disconnect)
    {
      intentionalClose := true;
      ClearReconnectTimer();
      if sock.Some? {
        End(sock.value);
      }
      sock := None;
      status := DISCONNECTED;
    }

    method DestroySession()
      modifies this
      ensures View() == Next(old(View()), Destroy)
    {
      intentionalClose := true;
      ClearReconnectTimer();
      if sock.Some? {
        End(sock.value);
      }
      sock := None;
      status := DISCONNECTED;
    }

    method LogoutStart()
      modifies this
      ensures View() == Next(old(View()), LogoutCalled)
    {
      intentionalClose := true;
      ClearReconnectTimer();
      env := env.(logouts := env.logouts + [sock]);
    }

    method LogoutTail(k: nat, ok: bool)
      requires Enabled(View(), LogoutSettles(k, ok))
      modifies this
      ensures View() == Next(old(View()), LogoutSettles(k, ok))
    {
      var captured := env.logouts[k];
      env := env.(logouts := env.logouts[..k] + env.logouts[k + 1..]);
      if ok {
        if captured.Some? {
          env := env.(ended := env.ended + {captured.value});
        }
      } else if sock.Some? {
        End(sock.value);
      }
      sock := None;
      status := DISCONNECTED;
    }
  }
}
