/** The per-user singleton daemon and the callers that start it on demand (unix): any number of
    callers probe, spawn and poll; any number of daemons race for one lock file; any of them may
    crash at any point and leave its socket file behind. */
module Singleton {
  import opened Utf8

  // ---- The world ----------------------------------------------------------------------------

  /** Why a daemon process ended. */
  datatype Why = LostLock | LockError | AddressInUse | BindError | BootError | Finished(ok: bool) | Crash

  /** A daemon process. It holds the lock from `Locked` until it is over; it listens while
      `Listening` (bound, node still booting) and `Serving`; `Stopped` has dropped its listener. */
  datatype Daemon = Starting | Locked | Unlinked | Listening | Serving | Stopped | Over(why: Why)

  datatype Failure = SpawnFailed | ChildFailed | DeadlinePassed

  /** A caller of `ensure_daemon`: the fast-path probe, the spawn, the poll loop. `Greeting` has a
      connection and awaits the hello; `Greeted` has it in its socket's buffer, still unread; `child`
      or `own` is its own spawned daemon, if any. */
  datatype Caller =
    | Probing
    | Spawning
    | Polling(child: nat)
    | Greeting(own: Option<nat>, with: nat)
    | Greeted(own: Option<nat>, with: nat)
    | Connected(to: nat)
    | GaveUp(failure: Failure, own: Option<nat>)

  /** `lock` is the kernel's record of who holds the flock; `socket` is the process whose bind made
      the file at the socket path. `touched` and `stuck` are history: who removed or bound the path,
      and whose removal left a file there. */
  datatype World = World(
    daemons: seq<Daemon>, callers: seq<Caller>, lock: Option<nat>, socket: Option<nat>,
    touched: set<nat>, stuck: set<nat>)

  datatype Event =
    | Arrive                            // another caller
    | Launch                            // a daemon started by hand
    | Flock(p: nat)
    | FlockFails(p: nat)
    | Unlink(p: nat, works: bool)       // errors from the removal are ignored
    | Bind(p: nat, works: bool)
    | Boot(p: nat, works: bool)
    | Stop(p: nat)
    | Exit(p: nat, ok: bool)
    | CrashAt(p: nat)
    | Connect(c: nat)                   // a probe or a poll
    | Greet(c: nat)                     // the daemon at the other end writes its hello
    | Hello(c: nat)                     // the caller reads: a hello, or the end of the connection
    | Spawn(c: nat, works: bool)
    | NoticeChild(c: nat)
    | Expire(c: nat)

  predicate Holding(d: Daemon) { !d.Starting? && !d.Over? }

  predicate Accepting(d: Daemon) { d.Listening? || d.Serving? }

  /** A connection accepted before the listener was dropped may still be served. */
  predicate Greets(d: Daemon) { d.Serving? || d.Stopped? }

  /** Once up, whatever became of it since. */
  predicate CameUp(d: Daemon) {
    Greets(d) || (d.Over? && (d.why.Finished? || d.why.Crash?))
  }

  /** The exit status its parent sees: zero for a lost race and for a clean end. */
  predicate ExitsZero(w: Why) {
    w.LostLock? || w.AddressInUse? || w == Finished(true)
  }

  predicate DaemonAt(w: World, p: nat, d: Daemon) { p < |w.daemons| && w.daemons[p] == d }

  function SetDaemon(w: World, p: nat, d: Daemon): World
    requires p < |w.daemons|
  {
    w.(daemons := w.daemons[p := d])
  }

  function SetCaller(w: World, c: nat, s: Caller): World
    requires c < |w.callers|
  {
    w.(callers := w.callers[c := s])
  }

  /** The process is over and the kernel drops its lock; its socket file stays. */
  function End(w: World, p: nat, why: Why): World
    requires p < |w.daemons|
  {
    SetDaemon(w, p, Over(why)).(lock := if w.lock == Some(p) then None else w.lock)
  }

  // ---- Steps --------------------------------------------------------------------------------

  /** What a failed connection attempt leads to. */
  function Refused(child: Option<nat>): Caller {
    match child
    case None => Spawning
    case Some(k) => Polling(k)
  }

  function StepDaemon(w: World, e: Event): World {
    match e
    case Flock(p) =>
      if !DaemonAt(w, p, Starting) then w
      else if w.lock.Some? then End(w, p, LostLock)
      else SetDaemon(w, p, Locked).(lock := Some(p))
    case FlockFails(p) => if DaemonAt(w, p, Starting) then End(w, p, LockError) else w
    case Unlink(p, works) =>
      if !DaemonAt(w, p, Locked) then w
      else SetDaemon(w, p, Unlinked).(
        socket := if works then None else w.socket,
        touched := w.touched + {p},
        stuck := if !works && w.socket.Some? then w.stuck + {p} else w.stuck)
    case Bind(p, works) =>
      if !DaemonAt(w, p, Unlinked) then w
      else if w.socket.Some? then End(w, p, AddressInUse)
      else if !works then End(w, p, BindError)
      else SetDaemon(w, p, Listening).(socket := Some(p), touched := w.touched + {p})
    case Boot(p, works) =>
      if !DaemonAt(w, p, Listening) then w
      else if works then SetDaemon(w, p, Serving) else End(w, p, BootError)
    case Stop(p) => if DaemonAt(w, p, Serving) then SetDaemon(w, p, Stopped) else w
    case Exit(p, ok) => if DaemonAt(w, p, Stopped) then End(w, p, Finished(ok)) else w
    case CrashAt(p) => if p < |w.daemons| && !w.daemons[p].Over? then End(w, p, Crash) else w
    case _ => w
  }

  function StepCaller(w: World, e: Event): World {
    match e
    case Connect(c) =>
      if c >= |w.callers| || !(w.callers[c].Probing? || w.callers[c].Polling?) then w
      else
        var child := if w.callers[c].Polling? then Some(w.callers[c].child) else None;
        if w.socket.Some? && w.socket.value < |w.daemons| && Accepting(w.daemons[w.socket.value])
        then SetCaller(w, c, Greeting(child, w.socket.value))
        else SetCaller(w, c, Refused(child))
    case Greet(c) =>
      if c >= |w.callers| || !w.callers[c].Greeting? || w.callers[c].with >= |w.daemons| then w
      else if !Greets(w.daemons[w.callers[c].with]) then w
      else SetCaller(w, c, Greeted(w.callers[c].own, w.callers[c].with))
    case Hello(c) =>
      if c >= |w.callers| then w
      else if w.callers[c].Greeted? then SetCaller(w, c, Connected(w.callers[c].with))
      else if !w.callers[c].Greeting? || w.callers[c].with >= |w.daemons| then w
      else if Accepting(w.daemons[w.callers[c].with]) then w
      else SetCaller(w, c, Refused(w.callers[c].own))
    case Spawn(c, works) =>
      if c >= |w.callers| || !w.callers[c].Spawning? then w
      else if !works then SetCaller(w, c, GaveUp(SpawnFailed, None))
      else SetCaller(w, c, Polling(|w.daemons|)).(daemons := w.daemons + [Starting])
    case NoticeChild(c) =>
      if c >= |w.callers| || !w.callers[c].Polling? || w.callers[c].child >= |w.daemons| then w
      else
        var d := w.daemons[w.callers[c].child];
        if d.Over? && !ExitsZero(d.why) then SetCaller(w, c, GaveUp(ChildFailed, Some(w.callers[c].child))) else w
    case Expire(c) =>
      if c >= |w.callers| || !w.callers[c].Polling? then w
      else SetCaller(w, c, GaveUp(DeadlinePassed, Some(w.callers[c].child)))
    case _ => w
  }

  function Step(w: World, e: Event): World {
    match e
    case Arrive => w.(callers := w.callers + [Probing])
    case Launch => w.(daemons := w.daemons + [Starting])
    case _ => StepCaller(StepDaemon(w, e), e)
  }

  function Run(w: World, events: seq<Event>): World
    decreases |events|
  {
    if events == [] then w else Run(Step(w, events[0]), events[1..])
  }

  /** A machine with no daemon and no callers yet; a socket file may be there that none of this
      run's daemons made (`left`: the file of a process of an earlier boot, long over). */
  function Fresh(left: bool): World {
    if left then World([Over(Crash)], [], None, Some(0), {0}, {})
    else World([], [], None, None, {}, {})
  }

  // ---- The inductive invariant --------------------------------------------------------------

  ghost predicate DaemonsSafe(w: World) {
    && (w.lock.Some? ==> w.lock.value < |w.daemons|)
    && (forall p :: 0 <= p < |w.daemons| ==> (Holding(w.daemons[p]) <==> w.lock == Some(p)))
    && (forall p :: 0 <= p < |w.daemons| && Accepting(w.daemons[p]) ==> w.socket == Some(p))
    && (w.socket.Some? ==> w.socket.value in w.touched)
    && (forall p :: p in w.touched ==> p < |w.daemons|)
    && w.stuck <= w.touched
    && (forall p :: 0 <= p < |w.daemons| ==> PhaseSafe(w, p, w.daemons[p]))
  }

  /** What a daemon's phase says of the history. */
  predicate PhaseSafe(w: World, p: nat, d: Daemon) {
    match d
    case Starting => p !in w.touched
    case Locked => p !in w.touched
    case Unlinked => w.socket.Some? <==> p in w.stuck
    case Over(LostLock) => p !in w.touched
    case Over(LockError) => p !in w.touched
    case Over(AddressInUse) => p in w.stuck
    case _ => true
  }

  predicate CallerSafe(w: World, c: Caller) {
    match c
    case Polling(k) => k < |w.daemons|
    case Greeting(child, d) => d < |w.daemons| && (child.Some? ==> child.value < |w.daemons|)
    case Greeted(child, d) =>
      d < |w.daemons| && CameUp(w.daemons[d]) && (child.Some? ==> child.value < |w.daemons|)
    case Connected(d) => d < |w.daemons| && CameUp(w.daemons[d])
    case GaveUp(ChildFailed, child) =>
      child.Some? && child.value < |w.daemons|
      && w.daemons[child.value].Over? && !ExitsZero(w.daemons[child.value].why)
    case _ => true
  }

  ghost predicate Safe(w: World) {
    DaemonsSafe(w) && forall c :: 0 <= c < |w.callers| ==> CallerSafe(w, w.callers[c])
  }

  /** Daemons once over stay over, those that came up have come up, and there are never fewer. */
  ghost predicate Later(w: World, v: World) {
    && |w.daemons| <= |v.daemons|
    && (forall p :: 0 <= p < |w.daemons| && w.daemons[p].Over? ==> v.daemons[p] == w.daemons[p])
    && (forall p :: 0 <= p < |w.daemons| && CameUp(w.daemons[p]) ==> CameUp(v.daemons[p]))
  }

  lemma EndSafe(w: World, p: nat, why: Why)
    requires DaemonsSafe(w) && p < |w.daemons| && !w.daemons[p].Over? && PhaseSafe(w, p, Over(why))
    requires CameUp(w.daemons[p]) ==> CameUp(Over(why))
    ensures DaemonsSafe(End(w, p, why)) && Later(w, End(w, p, why))
  {
  }

  /** A holder moves on to another phase of holding, and may make the socket its own. */
  lemma AdvanceSafe(w: World, p: nat, d: Daemon, v: World)
    requires DaemonsSafe(w) && p < |w.daemons| && Holding(w.daemons[p]) && Holding(d)
    requires v == SetDaemon(w, p, d).(socket := v.socket, touched := v.touched, stuck := v.stuck)
    requires v.touched == w.touched + {p} || v.touched == w.touched
    requires w.stuck <= v.stuck <= v.touched && v.stuck <= w.stuck + {p} && (Accepting(d) ==> v.socket == Some(p))
    requires v.socket == w.socket || v.socket.None? || (v.socket == Some(p) && p in v.touched)
    requires PhaseSafe(v, p, d) && (CameUp(w.daemons[p]) ==> CameUp(d))
    ensures DaemonsSafe(v) && Later(w, v)
  {
  }

  lemma UnlinkSafe(w: World, p: nat, works: bool)
    requires DaemonsSafe(w) && DaemonAt(w, p, Locked)
    ensures DaemonsSafe(StepDaemon(w, Unlink(p, works))) && Later(w, StepDaemon(w, Unlink(p, works)))
  {
    AdvanceSafe(w, p, Unlinked, StepDaemon(w, Unlink(p, works)));
  }

  lemma BindSafe(w: World, p: nat, works: bool)
    requires DaemonsSafe(w) && DaemonAt(w, p, Unlinked)
    ensures DaemonsSafe(StepDaemon(w, Bind(p, works))) && Later(w, StepDaemon(w, Bind(p, works)))
  {
    assert PhaseSafe(w, p, w.daemons[p]);
    if w.socket.Some? {
      EndSafe(w, p, AddressInUse);
    } else if !works {
      EndSafe(w, p, BindError);
    } else {
      AdvanceSafe(w, p, Listening, StepDaemon(w, Bind(p, works)));
    }
  }

  lemma BootSafe(w: World, p: nat, works: bool)
    requires DaemonsSafe(w) && DaemonAt(w, p, Listening)
    ensures DaemonsSafe(StepDaemon(w, Boot(p, works))) && Later(w, StepDaemon(w, Boot(p, works)))
  {
    if works { AdvanceSafe(w, p, Serving, StepDaemon(w, Boot(p, works))); } else { EndSafe(w, p, BootError); }
  }

  lemma FlockSafe(w: World, p: nat)
    requires DaemonsSafe(w) && DaemonAt(w, p, Starting)
    ensures DaemonsSafe(StepDaemon(w, Flock(p))) && Later(w, StepDaemon(w, Flock(p)))
  {
    assert PhaseSafe(w, p, w.daemons[p]);
    if w.lock.Some? { EndSafe(w, p, LostLock); }
  }

  lemma LeaveSafe(w: World, p: nat, e: Event)
    requires DaemonsSafe(w) && p < |w.daemons|
    requires e == FlockFails(p) || e == Stop(p) || e == CrashAt(p) || (e.Exit? && e.p == p)
    ensures DaemonsSafe(StepDaemon(w, e)) && Later(w, StepDaemon(w, e))
  {
    assert PhaseSafe(w, p, w.daemons[p]);
    match e
    case FlockFails(_) => if DaemonAt(w, p, Starting) { EndSafe(w, p, LockError); }
    case Stop(_) => if DaemonAt(w, p, Serving) { AdvanceSafe(w, p, Stopped, StepDaemon(w, e)); }
    case CrashAt(_) => if !w.daemons[p].Over? { EndSafe(w, p, Crash); }
    case Exit(_, ok) => if DaemonAt(w, p, Stopped) { EndSafe(w, p, Finished(ok)); }
  }

  lemma StepDaemonSafe(w: World, e: Event)
    requires DaemonsSafe(w)
    ensures DaemonsSafe(StepDaemon(w, e)) && Later(w, StepDaemon(w, e))
  {
    match e
    case Flock(p) => if DaemonAt(w, p, Starting) { FlockSafe(w, p); }
    case Unlink(p, works) => if DaemonAt(w, p, Locked) { UnlinkSafe(w, p, works); }
    case Bind(p, works) => if DaemonAt(w, p, Unlinked) { BindSafe(w, p, works); }
    case Boot(p, works) => if DaemonAt(w, p, Listening) { BootSafe(w, p, works); }
    case FlockFails(p) => if p < |w.daemons| { LeaveSafe(w, p, e); }
    case Stop(p) => if p < |w.daemons| { LeaveSafe(w, p, e); }
    case Exit(p, ok) => if p < |w.daemons| { LeaveSafe(w, p, e); }
    case CrashAt(p) => if p < |w.daemons| { LeaveSafe(w, p, e); }
    case _ =>
  }

  /** Daemon steps leave the callers alone. */
  lemma DaemonStepsApart(w: World, e: Event)
    ensures StepDaemon(w, e).callers == w.callers
  {
  }

  lemma CallerLater(w: World, v: World, c: Caller)
    requires CallerSafe(w, c) && Later(w, v)
    ensures CallerSafe(v, c)
  {
  }

  lemma AppendSafe(w: World)
    requires Safe(w)
    ensures Safe(w.(daemons := w.daemons + [Starting]))
  {
    var v := w.(daemons := w.daemons + [Starting]);
    forall c | 0 <= c < |v.callers| ensures CallerSafe(v, v.callers[c]) { CallerLater(w, v, w.callers[c]); }
  }

  lemma SetCallerSafe(w: World, c: nat, s: Caller)
    requires Safe(w) && c < |w.callers| && CallerSafe(w, s)
    ensures Safe(SetCaller(w, c, s))
  {
    var v := SetCaller(w, c, s);
    forall i | 0 <= i < |v.callers| ensures CallerSafe(v, v.callers[i]) {
      if i != c { CallerLater(w, v, w.callers[i]); }
    }
  }

  lemma StepCallerSafe(w: World, e: Event)
    requires Safe(w)
    ensures Safe(StepCaller(w, e))
  {
    var v := StepCaller(w, e);
    match e
    case Spawn(c, works) =>
      if c < |w.callers| && w.callers[c].Spawning? {
        if works {
          AppendSafe(w);
          SetCallerSafe(w.(daemons := w.daemons + [Starting]), c, Polling(|w.daemons|));
        } else {
          SetCallerSafe(w, c, GaveUp(SpawnFailed, None));
        }
      }
    case Connect(c) => if v != w { SetCallerSafe(w, c, v.callers[c]); }
    case Greet(c) => if v != w { SetCallerSafe(w, c, v.callers[c]); }
    case Hello(c) => if v != w { SetCallerSafe(w, c, v.callers[c]); }
    case NoticeChild(c) => if v != w { SetCallerSafe(w, c, v.callers[c]); }
    case Expire(c) => if v != w { SetCallerSafe(w, c, v.callers[c]); }
    case _ =>
  }

  lemma StepSafe(w: World, e: Event)
    requires Safe(w)
    ensures Safe(Step(w, e))
  {
    if e.Arrive? {
      assert forall c :: 0 <= c < |w.callers| ==> CallerSafe(w, w.callers[c]);
      var v := Step(w, e);
      forall c | 0 <= c < |v.callers| ensures CallerSafe(v, v.callers[c]) {
        if c < |w.callers| { CallerLater(w, v, w.callers[c]); }
      }
    } else if e.Launch? {
      AppendSafe(w);
    } else {
      var m := StepDaemon(w, e);
      StepDaemonSafe(w, e);
      DaemonStepsApart(w, e);
      forall c | 0 <= c < |m.callers| ensures CallerSafe(m, m.callers[c]) { CallerLater(w, m, w.callers[c]); }
      StepCallerSafe(m, e);
    }
  }

  lemma {:induction false} RunSafe(w: World, events: seq<Event>)
    requires Safe(w)
    ensures Safe(Run(w, events))
    decreases |events|
  {
    if events != [] {
      StepSafe(w, events[0]);
      RunSafe(Step(w, events[0]), events[1..]);
    }
  }

  /** Some run leads here. */
  ghost predicate Reached(w: World) {
    exists left, events :: w == Run(Fresh(left), events)
  }

  lemma FreshSafe(left: bool)
    ensures Safe(Fresh(left))
  {
  }

  /** Every reachable world is safe, and so is every next one. */
  lemma ReachedSafe(w: World)
    requires Reached(w)
    ensures Safe(w)
  {
    var left, events :| w == Run(Fresh(left), events);
    FreshSafe(left);
    RunSafe(Fresh(left), events);
  }

  // ---- What every run promises --------------------------------------------------------------

  /** At most one process is past the lock, whoever races, spawns, exits or crashes; and a daemon
      that is listening always has its own socket at the path: nobody has unlinked or replaced it. */
  lemma OneHolder(w: World, p: nat, q: nat)
    requires Reached(w) && p < |w.daemons| && q < |w.daemons|
    ensures Holding(w.daemons[p]) && Holding(w.daemons[q]) ==> p == q
    ensures Accepting(w.daemons[p]) ==> w.lock == Some(p) && w.socket == Some(p)
  {
    ReachedSafe(w);
  }

  /** The stale-socket removal only ever removes what no live daemon listens on. */
  lemma UnlinkOnlyStale(w: World, p: nat)
    requires Reached(w) && DaemonAt(w, p, Locked)
    ensures w.socket.Some? ==> w.socket.value < |w.daemons| && w.daemons[w.socket.value].Over?
  {
    ReachedSafe(w);
  }

  /** Every hello is written by the daemon that holds the lock, after it came up. */
  lemma HelloFromHolder(w: World, e: Event, c: nat)
    requires Reached(w) && c < |w.callers| && !w.callers[c].Greeted? && Step(w, e).callers[c].Greeted?
    ensures var v := Step(w, e);
      v.lock == Some(v.callers[c].with) && v.lock.value < |v.daemons| && Greets(v.daemons[v.lock.value])
  {
    ReachedSafe(w);
    DaemonStepsApart(w, e);
    assert e == Greet(c);
  }

  /** A caller that returns a client does so on the hello of a daemon that came up, and is connected to
      the holder of the lock exactly when that daemon is not over by then: between the hello and its
      reading it may have crashed or been shut down. While it serves, the socket is its own. */
  lemma ConnectedToHolder(w: World, e: Event, c: nat)
    requires Reached(w) && c < |w.callers| && !w.callers[c].Connected? && Step(w, e).callers[c].Connected?
    ensures var v := Step(w, e);
      var p := v.callers[c].to;
      && p < |v.daemons| && CameUp(v.daemons[p])
      && (v.lock == Some(p) <==> !v.daemons[p].Over?)
      && (v.daemons[p].Serving? ==> v.socket == Some(p))
  {
    ReachedSafe(w);
    StepSafe(w, e);
    ConnectedSafe(Step(w, e), c);
  }

  lemma ConnectedSafe(v: World, c: nat)
    requires Safe(v) && c < |v.callers| && v.callers[c].Connected?
    ensures var p := v.callers[c].to;
      && p < |v.daemons| && CameUp(v.daemons[p])
      && (v.lock == Some(p) <==> !v.daemons[p].Over?)
      && (v.daemons[p].Serving? ==> v.socket == Some(p))
  {
    assert CallerSafe(v, v.callers[c]);
  }

  lemma {:induction false} RunSnoc(w: World, events: seq<Event>, e: Event)
    ensures Run(w, events + [e]) == Step(Run(w, events), e)
    decreases |events|
  {
    if events == [] {
      assert [e][1..] == [] && [] + [e] == [e];
    } else {
      assert (events + [e])[1..] == events[1..] + [e];
      RunSnoc(Step(w, events[0]), events[1..], e);
    }
  }

  /** A world of one daemon and one caller. */
  function Duo(d: Daemon, c: Caller, lock: Option<nat>, socket: Option<nat>): World {
    World([d], [c], lock, socket, if socket.Some? then {0} else {}, {})
  }

  /** A first daemon takes the lock ... */
  lemma LockTaken() returns (events: seq<Event>)
    ensures Run(Fresh(false), events) == Duo(Locked, Probing, Some(0), None)
  {
    var a := Step(Fresh(false), Arrive);
    var b := Step(a, Launch);
    assert Step(b, Flock(0)) == Duo(Locked, Probing, Some(0), None);
    RunSnoc(Fresh(false), [], Arrive);
    RunSnoc(Fresh(false), [] + [Arrive], Launch);
    RunSnoc(Fresh(false), [] + [Arrive] + [Launch], Flock(0));
    events := [] + [Arrive] + [Launch] + [Flock(0)];
  }

  /** ... comes up, and accepts a caller's connection. */
  lemma BroughtUp() returns (events: seq<Event>)
    ensures Run(Fresh(false), events) == Duo(Serving, Greeting(None, 0), Some(0), Some(0))
  {
    var before := LockTaken();
    var a := Step(Duo(Locked, Probing, Some(0), None), Unlink(0, true));
    var b := Step(a, Bind(0, true));
    assert b == Duo(Listening, Probing, Some(0), Some(0));
    var c := Step(b, Boot(0, true));
    assert Step(c, Connect(0)) == Duo(Serving, Greeting(None, 0), Some(0), Some(0));
    RunSnoc(Fresh(false), before, Unlink(0, true));
    RunSnoc(Fresh(false), before + [Unlink(0, true)], Bind(0, true));
    RunSnoc(Fresh(false), before + [Unlink(0, true)] + [Bind(0, true)], Boot(0, true));
    RunSnoc(Fresh(false), before + [Unlink(0, true)] + [Bind(0, true)] + [Boot(0, true)], Connect(0));
    events := before + [Unlink(0, true)] + [Bind(0, true)] + [Boot(0, true)] + [Connect(0)];
  }

  /** A run that ends over: the daemon writes its hello and dies, and the caller, which reads it
      afterwards, returns a client although nobody holds the lock. */
  lemma ConnectedToDeadExample() returns (events: seq<Event>)
    ensures Run(Fresh(false), events) == Duo(Over(Crash), Connected(0), None, Some(0))
  {
    var before := BroughtUp();
    var u := Step(Duo(Serving, Greeting(None, 0), Some(0), Some(0)), Greet(0));
    var v := Step(u, CrashAt(0));
    assert Step(v, Hello(0)) == Duo(Over(Crash), Connected(0), None, Some(0));
    RunSnoc(Fresh(false), before, Greet(0));
    RunSnoc(Fresh(false), before + [Greet(0)], CrashAt(0));
    RunSnoc(Fresh(false), before + [Greet(0)] + [CrashAt(0)], Hello(0));
    events := before + [Greet(0)] + [CrashAt(0)] + [Hello(0)];
  }

  /** The loser of the race exits zero and has neither removed nor made the socket; so does whoever
      could not even try the lock, with a nonzero status. */
  lemma LoserTouchesNothing(w: World, p: nat)
    requires Reached(w) && (DaemonAt(w, p, Over(LostLock)) || DaemonAt(w, p, Over(LockError)))
    ensures p !in w.touched && w.socket != Some(p)
    ensures ExitsZero(w.daemons[p].why) <==> w.daemons[p] == Over(LostLock)
  {
    ReachedSafe(w);
    assert PhaseSafe(w, p, w.daemons[p]);
  }

  /** On unix the address-in-use exit is taken exactly by a daemon whose own removal failed and left
      a file there ... */
  lemma AddressInUseIffStuck(w: World, p: nat)
    requires Reached(w) && DaemonAt(w, p, Unlinked)
    ensures DaemonAt(Step(w, Bind(p, true)), p, Over(AddressInUse)) <==> p in w.stuck
  {
    ReachedSafe(w);
    assert PhaseSafe(w, p, w.daemons[p]);
  }

  /** ... so while removals work it is dead code. */
  lemma AddressInUseNeedsStuckFile(left: bool, events: seq<Event>, p: nat)
    requires forall i :: 0 <= i < |events| ==> events[i].Unlink? ==> events[i].works
    ensures !DaemonAt(Run(Fresh(left), events), p, Over(AddressInUse))
  {
    NeverStuck(Fresh(left), events);
    FreshSafe(left);
    RunSafe(Fresh(left), events);
    UnstuckBinds(Run(Fresh(left), events), p);
  }

  lemma UnstuckBinds(w: World, p: nat)
    requires Safe(w) && w.stuck == {}
    ensures !DaemonAt(w, p, Over(AddressInUse))
  {
    if p < |w.daemons| { assert PhaseSafe(w, p, w.daemons[p]); }
  }

  lemma StepNotStuck(w: World, e: Event)
    requires w.stuck == {} && (e.Unlink? ==> e.works)
    ensures Step(w, e).stuck == {}
  {
  }

  lemma {:induction false} NeverStuck(w: World, events: seq<Event>)
    requires w.stuck == {}
    requires forall i :: 0 <= i < |events| ==> events[i].Unlink? ==> events[i].works
    ensures Run(w, events).stuck == {}
    decreases |events|
  {
    if events != [] {
      StepNotStuck(w, events[0]);
      NeverStuck(Step(w, events[0]), events[1..]);
    }
  }

  /** With such a removal it is taken: the daemon exits zero although no other owns the endpoint. */
  lemma AddressInUseExample()
    ensures var w := Run(Fresh(true), [Launch, Flock(1), Unlink(1, false), Bind(1, true)]);
      DaemonAt(w, 1, Over(AddressInUse)) && w.lock.None? && ExitsZero(AddressInUse)
  {
    var a := Step(Fresh(true), Launch);
    var b := Step(a, Flock(1));
    var c := Step(b, Unlink(1, false));
    var d := Step(c, Bind(1, true));
    assert [Launch, Flock(1), Unlink(1, false), Bind(1, true)][1..] == [Flock(1), Unlink(1, false), Bind(1, true)];
    assert [Flock(1), Unlink(1, false), Bind(1, true)][1..] == [Unlink(1, false), Bind(1, true)];
    assert [Unlink(1, false), Bind(1, true)][1..] == [Bind(1, true)];
    assert Run(d, []) == d;
  }

  /** A caller blames its child only for a nonzero exit or a death: never for losing the race. */
  lemma ChildBlamedOnlyForFailure(w: World, c: nat)
    requires Reached(w) && c < |w.callers| && w.callers[c].GaveUp? && w.callers[c].failure.ChildFailed?
    ensures var own := w.callers[c].own;
      && own.Some? && own.value < |w.daemons| && w.daemons[own.value].Over?
      && !ExitsZero(w.daemons[own.value].why) && w.daemons[own.value].why != LostLock
  {
    ReachedSafe(w);
    assert CallerSafe(w, w.callers[c]);
  }

  // ---- What the single steps decide ------------------------------------------------------------

  /** A contender gets the lock exactly when nobody holds it; otherwise it is over, as a loser. */
  lemma FlockDecides(w: World, p: nat)
    requires Reached(w) && DaemonAt(w, p, Starting)
    ensures var v := Step(w, Flock(p));
      if forall q :: 0 <= q < |w.daemons| ==> !Holding(w.daemons[q])
      then v.lock == Some(p) && DaemonAt(v, p, Locked)
      else v.lock == w.lock && DaemonAt(v, p, Over(LostLock))
  {
    ReachedSafe(w);
    DaemonStepsApart(w, Flock(p));
    if w.lock.Some? { assert Holding(w.daemons[w.lock.value]); }
  }

  /** A caller's first probe finds the daemon that accepts, if there is one, and then nothing is spawned;
      otherwise it goes on to spawn. */
  lemma ProbeDecides(w: World, c: nat, p: nat)
    requires Reached(w) && c < |w.callers| && w.callers[c].Probing?
    ensures var v := Step(w, Connect(c));
      && v.daemons == w.daemons
      && (v.callers[c] == Greeting(None, p) <==> p < |w.daemons| && Accepting(w.daemons[p]))
      && (v.callers[c] == Spawning <==> forall q :: 0 <= q < |w.daemons| ==> !Accepting(w.daemons[q]))
  {
    ReachedSafe(w);
  }

  /** A spawn adds one daemon, which has touched nothing yet, and the caller polls with it as its child. */
  lemma SpawnAddsOne(w: World, c: nat)
    requires c < |w.callers| && w.callers[c].Spawning?
    ensures var v := Step(w, Spawn(c, true));
      && v.daemons == w.daemons + [Starting] && v.callers[c] == Polling(|w.daemons|)
      && v.lock == w.lock && v.socket == w.socket
  {
  }

  /** A polling caller gives up on its child exactly when that has ended with a nonzero status: an error
      at the lock, at the bind or at boot, a crash, a failed run. After a lost race, or a clean end, it
      polls on. */
  lemma ChildNoticed(w: World, c: nat)
    requires Reached(w) && c < |w.callers| && w.callers[c].Polling?
    ensures var k := w.callers[c].child;
      && k < |w.daemons|
      && var after := Step(w, NoticeChild(c)).callers[c];
      && after == (if w.daemons[k] in {Over(LockError), Over(BindError), Over(BootError), Over(Crash), Over(Finished(false))}
                   then GaveUp(ChildFailed, Some(k)) else Polling(k))
  {
    ReachedSafe(w);
    assert CallerSafe(w, w.callers[c]);
    DaemonStepsApart(w, NoticeChild(c));
  }

  /** A holder that fails at its bind or boot, or dies, leaves a free lock, and leaves the socket path as
      it is. */
  lemma HolderFails(w: World, p: nat, e: Event)
    requires Reached(w) && p < |w.daemons|
    requires (e == Bind(p, false) && w.daemons[p].Unlinked? && w.socket.None?)
      || (e == Boot(p, false) && w.daemons[p].Listening?) || (e == CrashAt(p) && Holding(w.daemons[p]))
    ensures var v := Step(w, e);
      && v.lock.None? && v.socket == w.socket && v.daemons[p].Over? && !ExitsZero(v.daemons[p].why)
  {
    ReachedSafe(w);
  }

  /** Who ends otherwise ends as its own step says: a daemon that cannot open or try the lock fails, one
      that has stopped exits with its run's status and frees the lock. */
  lemma EndsAs(w: World, p: nat, ok: bool)
    requires Reached(w)
    ensures DaemonAt(w, p, Starting) ==>
      DaemonAt(Step(w, FlockFails(p)), p, Over(LockError)) && Step(w, FlockFails(p)).lock == w.lock && !ExitsZero(LockError)
    ensures DaemonAt(w, p, Serving) ==> DaemonAt(Step(w, Stop(p)), p, Stopped) && Step(w, Stop(p)).lock == Some(p)
    ensures DaemonAt(w, p, Stopped) ==>
      DaemonAt(Step(w, Exit(p, ok)), p, Over(Finished(ok))) && Step(w, Exit(p, ok)).lock.None? && (ExitsZero(Finished(ok)) <==> ok)
  {
    ReachedSafe(w);
    if p < |w.daemons| { DaemonEnds(w, p, ok); }
  }

  lemma DaemonEnds(w: World, p: nat, ok: bool)
    requires DaemonsSafe(w) && p < |w.daemons|
    ensures w.daemons[p].Starting? ==> Step(w, FlockFails(p)).daemons[p] == Over(LockError) && Step(w, FlockFails(p)).lock == w.lock
    ensures w.daemons[p].Serving? ==> Step(w, Stop(p)).daemons[p] == Stopped && Step(w, Stop(p)).lock == Some(p)
    ensures w.daemons[p].Stopped? ==> Step(w, Exit(p, ok)).daemons[p] == Over(Finished(ok)) && Step(w, Exit(p, ok)).lock.None?
  {
  }

  /** What a caller's own steps come to: the daemon whose hello it reads, the failure it meets. */
  lemma CallerDecides(w: World, c: nat)
    requires Reached(w) && c < |w.callers|
    ensures w.callers[c].Greeted? ==> Step(w, Hello(c)).callers[c] == Connected(w.callers[c].with)
    ensures w.callers[c].Spawning? ==> Step(w, Spawn(c, false)).callers[c] == GaveUp(SpawnFailed, None)
    ensures w.callers[c].Polling? ==> Step(w, Expire(c)).callers[c] == GaveUp(DeadlinePassed, Some(w.callers[c].child))
    ensures w.callers[c].Greeting? ==>
      var p := w.callers[c].with;
      && p < |w.daemons|
      && (Greets(w.daemons[p]) ==> Step(w, Greet(c)).callers[c] == Greeted(w.callers[c].own, p))
      && (Accepting(w.daemons[p]) ==> Step(w, Hello(c)) == w)
      && (!Accepting(w.daemons[p]) ==> Step(w, Hello(c)).callers[c] == match w.callers[c].own case None => Spawning case Some(k) => Polling(k))
  {
    ReachedSafe(w);
    assert CallerSafe(w, w.callers[c]);
  }
}
