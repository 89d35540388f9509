/** `ensure_daemon_with_timeout`: refuse an unbindable socket path, probe, spawn once, then poll with
    a doubling, capped backoff until a connection, the child's death or the deadline. Times are in
    milliseconds of a virtual clock. */
module Autostart {
  /** Everything the call meets: whether the i-th connection attempt succeeds (attempt 0 is the
      fast-path probe, attempt i + 1 the i-th poll), whether the spawn does, the child's exit status
      at the i-th check (`Running`, or whether it was zero), how long the i-th poll's connection
      attempt takes and by how much the i-th sleep overruns. */
  datatype Child = Running | Exited(zero: bool)

  datatype Surroundings = Surroundings(
    connects: nat -> bool, spawns: bool, child: nat -> Child, takes: nat -> nat, overruns: nat -> nat)

  datatype Outcome = Client(attempt: nat) | PathTooLong | SpawnFailed | ChildFailed | DeadlinePassed

  function Pow2(k: nat): (r: nat)
    ensures r >= 1
  {
    if k == 0 then 1 else 2 * Pow2(k - 1)
  }

  function Min(a: nat, b: nat): nat { if a < b then a else b }

  /** The k-th sleep. */
  function Backoff(k: nat): nat { Min(20 * Pow2(k), 200) }

  /** All sleeps before the k-th. */
  function Slept(k: nat): nat {
    if k == 0 then 0 else Slept(k - 1) + Backoff(k - 1)
  }

  /** The clock after the i-th poll's connection attempt, counted from the moment the deadline is
      set. */
  function Elapsed(env: Surroundings, i: nat): nat {
    env.takes(i) + if i == 0 then 0 else Elapsed(env, i - 1) + Backoff(i - 1) + env.overruns(i - 1)
  }

  lemma {:induction false} PastFour(k: nat)
    requires k >= 4
    ensures Pow2(k) >= 16
  {
    if k > 4 {
      PastFour(k - 1);
    } else {
      assert Pow2(1) == 2 && Pow2(2) == 4 && Pow2(3) == 8;
    }
  }

  /** The sleeps in closed form: 20, 60, 140, then 300 and 200 more each time. */
  lemma {:induction false} SleptClosedForm(k: nat)
    ensures Slept(k) == match k case 0 => 0 case 1 => 20 case 2 => 60 case 3 => 140 case _ => 200 * k - 500
  {
    assert Pow2(0) == 1 && Pow2(1) == 2 && Pow2(2) == 4 && Pow2(3) == 8;
    if k > 0 {
      SleptClosedForm(k - 1);
      if k > 4 { PastFour(k - 1); }
    }
  }

  lemma {:induction false} SleptElapses(env: Surroundings, i: nat)
    ensures Slept(i) <= Elapsed(env, i)
  {
    if i > 0 { SleptElapses(env, i - 1); }
  }

  /** The i-th poll decides nothing: no connection, a child that is not dead of a failure, and time
      left. */
  predicate PollsOn(env: Surroundings, timeout: nat, i: nat) {
    !env.connects(i + 1) && env.child(i) != Exited(false) && Elapsed(env, i) < timeout
  }

  /** What a call comes to, and after how many polls (none when it never gets to poll). */
  ghost predicate Decided(pathLen: nat, limit: nat, env: Surroundings, timeout: nat, out: Outcome, polls: nat) {
    if pathLen > limit then out == PathTooLong && polls == 0
    else if env.connects(0) then out == Client(0) && polls == 0
    else if !env.spawns then out == SpawnFailed && polls == 0
    else
      && polls > 0
      && (forall i :: 0 <= i < polls - 1 ==> PollsOn(env, timeout, i))
      && !PollsOn(env, timeout, polls - 1)
      && out == if env.connects(polls) then Client(polls)
                else if env.child(polls - 1) == Exited(false) then ChildFailed
                else DeadlinePassed
  }

  /** The surroundings decide the outcome: there is exactly one. */
  lemma DecidedOnce(pathLen: nat, limit: nat, env: Surroundings, timeout: nat, a: Outcome, b: Outcome, m: nat, n: nat)
    requires Decided(pathLen, limit, env, timeout, a, m) && Decided(pathLen, limit, env, timeout, b, n)
    ensures a == b && m == n
  {
    if m > 0 && n > 0 {
      var onM, onN := PollsOn(env, timeout, m - 1), PollsOn(env, timeout, n - 1);
    }
  }

  lemma PollBound(env: Surroundings, timeout: nat, polls: nat)
    requires polls > 0 && forall i :: 0 <= i < polls - 1 ==> PollsOn(env, timeout, i)
    ensures 200 * polls < timeout + 900
  {
    if polls > 1 {
      assert PollsOn(env, timeout, polls - 2);
      SleptElapses(env, polls - 2);
      SleptClosedForm(polls - 2);
    }
  }

  /** One call. It spawns at most once, and not at all when the probe connects; its sleeps are
      20, 40, 80, 160 and then 200 ms; it polls fewer than `timeout / 200 + 4.5` times. */
  method EnsureDaemon(pathLen: nat, limit: nat, env: Surroundings, timeout: nat)
    returns (out: Outcome, polls: nat, spawned: nat, sleeps: seq<nat>)
    ensures Decided(pathLen, limit, env, timeout, out, polls)
    ensures spawned == if polls > 0 then 1 else 0
    ensures |sleeps| == (if polls > 0 then polls - 1 else 0)
    ensures forall k :: 0 <= k < |sleeps| ==> sleeps[k] == Backoff(k)
    ensures 200 * polls < timeout + 900
  {
    polls, spawned, sleeps := 0, 0, [];
    if pathLen > limit { return PathTooLong, 0, 0, []; }
    if env.connects(0) { return Client(0), 0, 0, []; }
    if !env.spawns { return SpawnFailed, 0, 0, []; }
    spawned := 1;
    var clock, backoff := 0, 20;
    while true
      invariant spawned == 1 && |sleeps| == polls
      invariant forall i :: 0 <= i < polls ==> PollsOn(env, timeout, i)
      invariant forall k :: 0 <= k < |sleeps| ==> sleeps[k] == Backoff(k)
      invariant backoff == Backoff(polls)
      invariant clock + env.takes(polls) == Elapsed(env, polls)
      decreases timeout + 900 - 200 * polls
    {
      PollBound(env, timeout, polls + 1);
      clock := clock + env.takes(polls);
      polls := polls + 1;
      if env.connects(polls) { return Client(polls), polls, spawned, sleeps; }
      if env.child(polls - 1) == Exited(false) { return ChildFailed, polls, spawned, sleeps; }
      if clock >= timeout { return DeadlinePassed, polls, spawned, sleeps; }
      sleeps := sleeps + [backoff];
      clock := clock + backoff + env.overruns(polls - 1);
      backoff := Min(backoff * 2, 200);
    }
  }

  /** A poll loop gives up only on a nonzero child exit or a passed deadline; a child that exits zero
      (the loser of the race) never fails the call before its deadline. */
  lemma ZeroExitNeverFails(pathLen: nat, limit: nat, env: Surroundings, timeout: nat, out: Outcome, polls: nat)
    requires Decided(pathLen, limit, env, timeout, out, polls)
    requires forall i :: env.child(i) == Running || env.child(i) == Exited(true)
    ensures polls > 0 ==> out == Client(polls) || (out == DeadlinePassed && Elapsed(env, polls - 1) >= timeout)
  {
  }
}
