/** The callers converge on one daemon: from every reachable world, while removals, binds and boots work
    and nothing crashes or is shut down, fair runs come to a serving daemon and a decided caller. */
module Convergence {
  import opened Utf8
  import opened Singleton

  // ---- Good weather -------------------------------------------------------------------------

  /** Nothing fails, crashes or is shut down; anybody may come, spawn, race, poll or lose patience. */
  predicate Calm(e: Event) {
    match e
    case FlockFails(_) => false
    case Unlink(_, works) => works
    case Bind(_, works) => works
    case Boot(_, works) => works
    case Stop(_) => false
    case CrashAt(_) => false
    case _ => true
  }

  /** The caller `c` is not made to give up: its spawn works, it has time, its child is not blamed. */
  predicate Patient(e: Event, c: nat) {
    e != Expire(c) && e != Spawn(c, false) && e != NoticeChild(c)
  }

  /** What somebody must do next, told from the phase they are in: the lock's holder its next step (or,
      when there is none, a contender its try), and `c` its own. */
  predicate Helpful(w: World, e: Event, c: nat)
    requires c < |w.callers|
  {
    match e
    case Flock(p) => w.lock.None? && DaemonAt(w, p, Starting)
    case Unlink(p, _) => DaemonAt(w, p, Locked)
    case Bind(p, _) => DaemonAt(w, p, Unlinked)
    case Boot(p, _) => DaemonAt(w, p, Listening)
    case Exit(p, _) => DaemonAt(w, p, Stopped)
    case Connect(k) =>
      k == c && (w.callers[c].Probing? || (w.callers[c].Polling? && Answered(w)))
    case Greet(k) => k == c && w.callers[c].Greeting? && DaemonAt(w, w.callers[c].with, Serving)
    case Hello(k) =>
      k == c && (w.callers[c].Greeted? || (w.callers[c].Greeting? && !Accepted(w, w.callers[c].with)))
    case Spawn(k, _) => k == c && w.callers[c].Spawning?
    case Expire(k) => k == c && w.callers[c].Polling?
    case _ => false
  }

  predicate Accepted(w: World, p: nat) { p < |w.daemons| && Accepting(w.daemons[p]) }

  /** A connection attempt would succeed. */
  predicate Answered(w: World) { w.socket.Some? && Accepted(w, w.socket.value) }

  // ---- The ranking function -----------------------------------------------------------------

  /** How far the lock's holder is from serving. */
  function HolderRank(w: World): nat {
    if w.lock.None? then 4
    else if w.lock.value >= |w.daemons| then 0
    else match w.daemons[w.lock.value]
      case Stopped => 5
      case Unlinked => if w.socket.Some? then 5 else 2
      case Locked => 3
      case Listening => 1
      case _ => 0
  }

  /** How far a caller is from its end. */
  function CallerRank(w: World, c: nat): nat
    requires c < |w.callers|
  {
    match w.callers[c]
    case Probing => 5
    case Spawning => 4
    case Polling(_) => 3
    case Greeting(_, p) => if Accepted(w, p) then 2 else 5
    case Greeted(_, _) => 1
    case _ => 0
  }

  function Rank(w: World, c: nat): nat
    requires c < |w.callers|
  {
    HolderRank(w) + CallerRank(w, c)
  }

  lemma DaemonStepRank(w: World, e: Event, c: nat)
    requires Safe(w) && c < |w.callers| && Calm(e)
    ensures var v := StepDaemon(w, e);
      && c < |v.callers| && v.callers[c] == w.callers[c]
      && HolderRank(v) <= HolderRank(w) && CallerRank(v, c) <= CallerRank(w, c)
      && (Helpful(w, e, c) && (e.Flock? || e.Unlink? || e.Bind? || e.Boot? || e.Exit?) ==> HolderRank(v) < HolderRank(w))
  {
    DaemonStepsApart(w, e);
    AcceptingStays(w, e);
    HolderStepRank(w, e, c);
  }

  lemma AcceptingStays(w: World, e: Event)
    requires Calm(e)
    ensures forall p :: Accepted(w, p) ==> Accepted(StepDaemon(w, e), p)
  {
  }

  lemma HolderStepRank(w: World, e: Event, c: nat)
    requires DaemonsSafe(w) && c < |w.callers| && Calm(e)
    ensures var v := StepDaemon(w, e);
      && HolderRank(v) <= HolderRank(w)
      && (Helpful(w, e, c) && (e.Flock? || e.Unlink? || e.Bind? || e.Boot? || e.Exit?) ==> HolderRank(v) < HolderRank(w))
  {
    assert w.lock.Some? ==> Holding(w.daemons[w.lock.value]);
  }

  lemma CallerStepRank(w: World, e: Event, c: nat)
    requires Safe(w) && c < |w.callers|
    ensures var v := StepCaller(w, e);
      && c < |v.callers| && HolderRank(v) == HolderRank(w) && CallerRank(v, c) <= CallerRank(w, c)
      && (Helpful(w, e, c) && !(e.Flock? || e.Unlink? || e.Bind? || e.Boot? || e.Exit?)
          ==> CallerRank(v, c) < CallerRank(w, c))
  {
    assert CallerSafe(w, w.callers[c]);
    match e
    case Connect(k) => ConnectRank(w, k, c);
    case Hello(k) => HelloRank(w, k, c);
    case _ =>
  }

  lemma ConnectRank(w: World, k: nat, c: nat)
    requires c < |w.callers|
    ensures var v := StepCaller(w, Connect(k));
      && c < |v.callers| && HolderRank(v) == HolderRank(w) && CallerRank(v, c) <= CallerRank(w, c)
      && (Helpful(w, Connect(k), c) ==> CallerRank(v, c) < CallerRank(w, c))
  {
  }

  lemma HelloRank(w: World, k: nat, c: nat)
    requires c < |w.callers| && CallerSafe(w, w.callers[c])
    ensures var v := StepCaller(w, Hello(k));
      && c < |v.callers| && HolderRank(v) == HolderRank(w) && CallerRank(v, c) <= CallerRank(w, c)
      && (Helpful(w, Hello(k), c) ==> CallerRank(v, c) < CallerRank(w, c))
  {
  }

  /** No step raises the rank, and every helpful one lowers it. */
  lemma RankFalls(w: World, e: Event, c: nat)
    requires Safe(w) && c < |w.callers| && Calm(e)
    ensures c < |Step(w, e).callers| && Rank(Step(w, e), c) <= Rank(w, c)
    ensures Helpful(w, e, c) ==> Rank(Step(w, e), c) < Rank(w, c)
  {
    if !e.Arrive? && !e.Launch? {
      var m := StepDaemon(w, e);
      StepDaemonSafe(w, e);
      DaemonStepRank(w, e, c);
      if e.Flock? || e.Unlink? || e.Bind? || e.Boot? || e.Exit? {
        assert StepCaller(m, e) == m;
      } else {
        assert m == w;
        CallerStepRank(w, e, c);
      }
    }
  }

  // ---- Fair runs ----------------------------------------------------------------------------

  predicate AllCalm(events: seq<Event>) {
    events != [] ==> Calm(events[0]) && AllCalm(events[1..])
  }

  predicate AllPatient(events: seq<Event>, c: nat) {
    events != [] ==> Patient(events[0], c) && AllPatient(events[1..], c)
  }

  function HelpfulSteps(w: World, events: seq<Event>, c: nat): nat
    decreases |events|
  {
    if events == [] || c >= |w.callers| then 0
    else (if Helpful(w, events[0], c) then 1 else 0) + HelpfulSteps(Step(w, events[0]), events[1..], c)
  }

  /** A daemon serves under the lock, and the caller has a client or has given up. */
  predicate Settled(w: World, c: nat) {
    && w.lock.Some? && DaemonAt(w, w.lock.value, Serving)
    && c < |w.callers| && (w.callers[c].Connected? || w.callers[c].GaveUp?)
  }

  lemma RankZero(w: World, c: nat)
    requires Safe(w) && c < |w.callers|
    ensures Rank(w, c) == 0 <==> Settled(w, c)
  {
    if w.lock.Some? { assert Holding(w.daemons[w.lock.value]); }
  }

  /** Every calm run with enough helpful steps has settled: the winner of the lock serves, and the
      caller is connected or has given up. */
  lemma {:induction false} FairRunsSettle(w: World, events: seq<Event>, c: nat)
    requires Safe(w) && c < |w.callers| && AllCalm(events)
    requires HelpfulSteps(w, events, c) >= Rank(w, c)
    ensures Settled(Run(w, events), c)
    decreases |events|
  {
    if Rank(w, c) == 0 {
      SettledStays(w, events, c);
    } else {
      StepSafe(w, events[0]);
      RankFalls(w, events[0], c);
      FairRunsSettle(Step(w, events[0]), events[1..], c);
    }
  }

  lemma {:induction false} SettledStays(w: World, events: seq<Event>, c: nat)
    requires Safe(w) && c < |w.callers| && AllCalm(events) && Rank(w, c) == 0
    ensures Settled(Run(w, events), c)
    decreases |events|
  {
    if events == [] {
      RankZero(w, c);
    } else {
      StepSafe(w, events[0]);
      RankFalls(w, events[0], c);
      SettledStays(Step(w, events[0]), events[1..], c);
    }
  }

  lemma PatientStep(w: World, e: Event, c: nat)
    requires c < |w.callers| && !w.callers[c].GaveUp? && Patient(e, c)
    ensures c < |Step(w, e).callers| && !Step(w, e).callers[c].GaveUp?
  {
    DaemonStepsApart(w, e);
  }

  lemma {:induction false} PatientRun(w: World, events: seq<Event>, c: nat)
    requires c < |w.callers| && !w.callers[c].GaveUp? && AllPatient(events, c)
    ensures c < |Run(w, events).callers| && !Run(w, events).callers[c].GaveUp?
    decreases |events|
  {
    if events != [] {
      PatientStep(w, events[0], c);
      PatientRun(Step(w, events[0]), events[1..], c);
    }
  }

  /** ... and connected, if nothing makes it give up. */
  lemma FairRunsConnect(w: World, events: seq<Event>, c: nat)
    requires Reached(w) && c < |w.callers| && !w.callers[c].GaveUp?
    requires AllCalm(events) && AllPatient(events, c) && HelpfulSteps(w, events, c) >= Rank(w, c)
    ensures Settled(Run(w, events), c) && Run(w, events).callers[c].Connected?
  {
    ReachedSafe(w);
    FairRunsSettle(w, events, c);
    PatientRun(w, events, c);
  }

  // ---- There is always something helpful to do, or nobody to do it ---------------------------

  /** Nobody holds the lock or contends for it, and `c` can only wait. */
  predicate Stalled(w: World, c: nat)
    requires c < |w.callers|
  {
    && w.lock.None? && (forall p :: 0 <= p < |w.daemons| ==> !w.daemons[p].Starting?)
    && (w.callers[c].Polling? || w.callers[c].Connected? || w.callers[c].GaveUp?)
  }

  predicate Moves(w: World, e: Event, c: nat)
    requires c < |w.callers|
  {
    Calm(e) && Patient(e, c) && Helpful(w, e, c)
  }

  lemma NextMove(w: World, c: nat) returns (e: Event)
    requires Safe(w) && c < |w.callers| && !Settled(w, c) && !Stalled(w, c)
    ensures Moves(w, e, c)
  {
    if w.lock.Some? && !DaemonAt(w, w.lock.value, Serving) {
      e := HolderMove(w, w.lock.value);
    } else if p :| w.lock.None? && 0 <= p < |w.daemons| && w.daemons[p].Starting? {
      e := Flock(p);
    } else {
      e := CallerMove(w, c);
    }
  }

  lemma HolderMove(w: World, p: nat) returns (e: Event)
    requires DaemonsSafe(w) && w.lock == Some(p) && !DaemonAt(w, p, Serving)
    ensures forall c :: 0 <= c < |w.callers| ==> Moves(w, e, c)
  {
    assert Holding(w.daemons[p]);
    match w.daemons[p] {
      case Locked => e := Unlink(p, true);
      case Unlinked => e := Bind(p, true);
      case Listening => e := Boot(p, true);
      case _ => e := Exit(p, true);
    }
  }

  lemma CallerMove(w: World, c: nat) returns (e: Event)
    requires Safe(w) && c < |w.callers| && !w.callers[c].Connected? && !w.callers[c].GaveUp?
    requires if w.lock.None? then !w.callers[c].Polling? else DaemonAt(w, w.lock.value, Serving)
    ensures Moves(w, e, c)
  {
    match w.callers[c] {
      case Spawning => e := Spawn(c, true);
      case Greeting(_, p) => if Accepted(w, p) { e := Greet(c); } else { e := Hello(c); }
      case Greeted(_, _) => e := Hello(c);
      case _ => e := Connect(c);
    }
  }

  /** Exactly one thing can hold a run up while nothing fails: that nobody holds the lock or contends
      for it, and `c` only polls (its own child lost an earlier race, or died) or is done. */
  lemma StalledIff(w: World, c: nat)
    requires Reached(w) && c < |w.callers| && !Settled(w, c)
    ensures (exists e :: Moves(w, e, c)) <==> !Stalled(w, c)
  {
    ReachedSafe(w);
    if Stalled(w, c) {
      forall e | Moves(w, e, c) ensures false { StalledStuck(w, e, c); }
    } else {
      var e := NextMove(w, c);
    }
  }

  lemma StalledStuck(w: World, e: Event, c: nat)
    requires Safe(w) && c < |w.callers| && Stalled(w, c)
    ensures !Moves(w, e, c)
  {
    assert forall p :: 0 <= p < |w.daemons| ==> !Holding(w.daemons[p]);
  }

  /** Whatever has crashed and whatever it left behind: from every reachable world every caller that
      has not given up can still be connected to a serving holder of the lock; one daemon started by
      hand is enough where nobody contends any more. */
  lemma Recovery(w: World, c: nat) returns (events: seq<Event>)
    requires Reached(w) && c < |w.callers| && !w.callers[c].GaveUp?
    ensures AllCalm(events) && AllPatient(events, c)
    ensures Settled(Run(w, events), c) && Run(w, events).callers[c].Connected?
  {
    ReachedSafe(w);
    events := Recover(w, c);
    PatientRun(w, events, c);
  }

  lemma {:induction false} Recover(w: World, c: nat) returns (events: seq<Event>)
    requires Safe(w) && c < |w.callers|
    ensures AllCalm(events) && AllPatient(events, c) && Settled(Run(w, events), c)
    decreases Rank(w, c), if Stalled(w, c) then 1 else 0
  {
    if Settled(w, c) {
      events := [];
    } else {
      var e := Launch;
      if Stalled(w, c) { assert Step(w, e).daemons[|w.daemons|].Starting?; } else { e := NextMove(w, c); }
      StepSafe(w, e);
      RankFalls(w, e, c);
      var more := Recover(Step(w, e), c);
      events := [e] + more;
      assert events[1..] == more;
    }
  }
}
