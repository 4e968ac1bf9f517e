// Waiting for a started stack to settle (cli/up_runner.py): a timed loop over what the
// container runtime, the `up` command and the clock report, tick by tick.
module Poller {
  import opened Document

  /** The services found in one state. */
  datatype Group = Group(bucket: string, names: seq<string>)

  type Snapshot = seq<Group>

  const SETTLED_BUCKETS := {"HEALTHY", "RUNNING", "HEALTHY EXIT", "UNHEALTHY EXIT", "UNHEALTHY"}

  const FAILURE_BUCKETS := {"UNHEALTHY", "UNHEALTHY EXIT"}

  function Seen(s: Snapshot): nat {
    if s == [] then 0 else |s[0].names| + Seen(s[1..])
  }

  function Pending(s: Snapshot): nat {
    if s == [] then 0 else (if s[0].bucket in SETTLED_BUCKETS then 0 else |s[0].names|) + Pending(s[1..])
  }

  predicate IsSettled(s: Snapshot, expected: Option<int>) {
    if s == [] then expected == Some(0)
    else Pending(s) == 0 && (expected.Some? ==> Seen(s) >= expected.value)
  }

  predicate HasFailure(s: Snapshot) {
    exists i :: 0 <= i < |s| && s[i].bucket in FAILURE_BUCKETS && s[i].names != []
  }

  /** One turn of the loop: what is fetched, what `up` reports, and the two clock readings. */
  datatype Tick = Tick(snapshot: Snapshot, exit: Option<int>, begun: real, now: real)

  type Trace = nat -> Tick

  /** Reading the clock never goes back, and each sleep moves it on by at least `step`. */
  ghost predicate ClockAdvances(trace: Trace, step: real) {
    && step > 0.0
    && (forall k: nat :: trace(k).begun <= trace(k).now)
    && (forall k: nat :: trace(k).now + step <= trace(k + 1).begun)
  }

  // ---------------------------------------------------------------------------
  // When waiting is over, in terms of what happens alone
  // ---------------------------------------------------------------------------

  predicate Settled(trace: Trace, expected: Option<int>, k: nat) {
    IsSettled(trace(k).snapshot, expected)
  }

  /** `up` is first reported to have ended at tick `f`. */
  predicate FirstExit(trace: Trace, f: nat) {
    trace(f).exit.Some? && forall j: nat :: j < f ==> trace(j).exit.None?
  }

  predicate UpFailed(trace: Trace, k: nat) {
    trace(k).exit.Some? && trace(k).exit.value != 0
  }

  /** `timeout` has passed since `up` was first seen to have succeeded. */
  ghost predicate TimedOut(trace: Trace, timeout: real, k: nat) {
    exists f: nat :: f <= k && FirstExit(trace, f) && !UpFailed(trace, f) && trace(k).now - trace(f).begun >= timeout
  }

  ghost predicate Stops(trace: Trace, expected: Option<int>, timeout: real, k: nat) {
    Settled(trace, expected, k) || UpFailed(trace, k) || TimedOut(trace, timeout, k)
  }

  ghost predicate FirstStop(trace: Trace, expected: Option<int>, timeout: real, k: nat) {
    Stops(trace, expected, timeout, k) && forall j: nat :: j < k ==> !Stops(trace, expected, timeout, j)
  }

  /** The first end of `up`, by the time polling stops, is a success seen while waiting. */
  ghost predicate SuccessSeen(trace: Trace, expected: Option<int>, last: nat) {
    exists f: nat :: f <= last && FirstExit(trace, f) && !UpFailed(trace, f) &&
      (f < last || !Settled(trace, expected, last))
  }

  // ---------------------------------------------------------------------------
  // Why the loop ends
  // ---------------------------------------------------------------------------

  lemma {:induction false} TimePasses(trace: Trace, step: real, f: nat, n: nat)
    requires ClockAdvances(trace, step)
    ensures trace(f + n).now - trace(f).begun >= n as real * step
  {
    if n > 0 {
      TimePasses(trace, step, f, n - 1);
      assert trace(f + n - 1).now + step <= trace(f + n - 1 + 1).begun;
      assert n as real * step == (n - 1) as real * step + step;
    }
  }

  /** The first tick at which `up` is reported to have ended. */
  lemma {:induction false} SomeFirstExit(trace: Trace, ends: nat) returns (f: nat)
    requires trace(ends).exit.Some?
    ensures f <= ends && FirstExit(trace, f)
    decreases ends
  {
    f := ends;
    if j: nat :| j < ends && trace(j).exit.Some? {
      f := SomeFirstExit(trace, j);
    }
  }

  /** Polling ends within the sleeps that the end of `up` and the timeout together take. */
  lemma PollingEnds(trace: Trace, expected: Option<int>, timeout: real, ends: nat, step: real) returns (k: nat)
    requires ClockAdvances(trace, step) && trace(ends).exit.Some?
    ensures k <= ends + Sleeps(timeout, step) && Stops(trace, expected, timeout, k)
  {
    var f := SomeFirstExit(trace, ends);
    var n := Sleeps(timeout, step);
    if UpFailed(trace, f) {
      k := f;
    } else {
      k := f + n;
      TimedOutAfter(trace, timeout, step, f, n);
    }
  }

  lemma TimedOutAfter(trace: Trace, timeout: real, step: real, f: nat, n: nat)
    requires ClockAdvances(trace, step) && FirstExit(trace, f) && !UpFailed(trace, f) && n == Sleeps(timeout, step)
    ensures TimedOut(trace, timeout, f + n)
  {
    TimePasses(trace, step, f, n);
    EnoughSleeps(timeout, step);
  }

  /** How many sleeps of at least `step` the timeout allows for. */
  ghost function Sleeps(timeout: real, step: real): nat
    requires step > 0.0
  {
    if timeout <= 0.0 then 0 else (timeout / step).Floor + 1
  }

  lemma EnoughSleeps(timeout: real, step: real)
    requires step > 0.0
    ensures Sleeps(timeout, step) as real * step >= timeout
  {
    if timeout > 0.0 {
      var q, n := timeout / step, Sleeps(timeout, step);
      assert q * step == timeout;
      assert n as real >= q;
      assert n as real * step >= q * step;
    }
  }

  /**
   Polls from tick 0 on. `end` is a tick at which there is a reason to stop, as there is one
   whenever `up` ends and the clock advances, and whenever the stack settles.
   */
  method PollUntilSettled(trace: Trace, expected: Option<int>, timeout: real, ghost end: nat)
    returns (ok: bool, last: nat, notified: seq<int>)
    requires Stops(trace, expected, timeout, end)
    ensures FirstStop(trace, expected, timeout, last)
    ensures ok <==> Settled(trace, expected, last) && !HasFailure(trace(last).snapshot)
    ensures notified == if SuccessSeen(trace, expected, last) then [0] else []
  {
    var start: Option<real>, upFinishedSeen := None, false;
    ghost var f: nat := 0;
    last, notified := 0, [];
    while true
      invariant forall j: nat :: j < last ==> !Stops(trace, expected, timeout, j)
      invariant last <= end
      invariant upFinishedSeen == start.Some?
      invariant StartKnown(trace, start, f, last)
      invariant notified == if start.Some? then [0] else []
      decreases end - last
    {
      var tick := trace(last);
      if IsSettled(tick.snapshot, expected) {
        NotifiedOnce(trace, expected, timeout, start, f, last);
        return !HasFailure(tick.snapshot), last, notified;
      }
      if tick.exit.Some? {
        if !upFinishedSeen {
          upFinishedSeen := true;
          if tick.exit.value == 0 {
            notified := notified + [tick.exit.value];
          }
        }
        if tick.exit.value != 0 {
          NotifiedOnce(trace, expected, timeout, start, f, last);
          return false, last, notified;
        }
        if start.None? {
          start, f := Some(tick.begun), last;
        }
      }
      StartKnownTimesOut(trace, timeout, start, f, last);
      if start.Some? && tick.now - start.value >= timeout {
        return false, last, notified;
      }
      assert !Stops(trace, expected, timeout, last);
      last := last + 1;
    }
  }

  /** The clock was started at the first sight of a success of `up` before tick `k`, if any. */
  ghost predicate StartKnown(trace: Trace, start: Option<real>, f: nat, k: nat) {
    match start
    case None => forall j: nat :: j < k ==> trace(j).exit.None?
    case Some(begun) => f < k && FirstExit(trace, f) && !UpFailed(trace, f) && begun == trace(f).begun
  }

  lemma FirstExitUnique(trace: Trace, f: nat, g: nat)
    requires FirstExit(trace, f) && FirstExit(trace, g)
    ensures f == g
  {
    assert f < g ==> trace(f).exit.None?;
    assert g < f ==> trace(g).exit.None?;
  }

  /** Once tick `k` has been seen to the end, the clock tells whether time is up. */
  lemma StartKnownTimesOut(trace: Trace, timeout: real, start: Option<real>, f: nat, k: nat)
    requires StartKnown(trace, start, f, k + 1)
    ensures TimedOut(trace, timeout, k) <==> start.Some? && trace(k).now - start.value >= timeout
  {
    if g: nat :| g <= k && FirstExit(trace, g) && !UpFailed(trace, g) && trace(k).now - trace(g).begun >= timeout {
      if start.Some? { FirstExitUnique(trace, f, g); }
    }
  }

  /** What has been reported when polling stops before, or at, a look at `up`. */
  lemma NotifiedOnce(trace: Trace, expected: Option<int>, timeout: real, start: Option<real>, f: nat, k: nat)
    requires StartKnown(trace, start, f, k) && (Settled(trace, expected, k) || UpFailed(trace, k))
    ensures SuccessSeen(trace, expected, k) <==> start.Some?
  {
    if g: nat :| g <= k && FirstExit(trace, g) && !UpFailed(trace, g) && (g < k || !Settled(trace, expected, k)) {
      if start.Some? { FirstExitUnique(trace, f, g); }
    }
  }

  // ---------------------------------------------------------------------------
  // What a verdict means
  // ---------------------------------------------------------------------------

  lemma {:induction false} PendingIff(s: Snapshot)
    ensures Pending(s) == 0 <==> forall i :: 0 <= i < |s| ==> s[i].bucket in SETTLED_BUCKETS || s[i].names == []
  {
    if s == [] {
    } else {
      PendingIff(s[1..]);
      if Pending(s) == 0 {
        forall i | 0 <= i < |s| ensures s[i].bucket in SETTLED_BUCKETS || s[i].names == [] {
          if i > 0 { assert s[i] == s[1..][i - 1]; }
        }
      } else if Pending(s[1..]) != 0 {
        var i :| 0 <= i < |s[1..]| && !(s[1..][i].bucket in SETTLED_BUCKETS || s[1..][i].names == []);
        assert s[i + 1] == s[1..][i];
      } else {
        assert !(s[0].bucket in SETTLED_BUCKETS || s[0].names == []);
      }
    }
  }

  /** All services found, group by group. */
  function AllNames(s: Snapshot): seq<string> {
    if s == [] then [] else s[0].names + AllNames(s[1..])
  }

  lemma {:induction false} SeenCountsNames(s: Snapshot)
    ensures Seen(s) == |AllNames(s)|
  {
    if s == [] {
    } else {
      SeenCountsNames(s[1..]);
    }
  }

  /** Enough services have been found, and each in one of these states. */
  predicate AllIn(s: Snapshot, expected: Option<int>, buckets: set<string>) {
    && (if s == [] then expected == Some(0) else expected.Some? ==> |AllNames(s)| >= expected.value)
    && forall group :: group in s && group.names != [] ==> group.bucket in buckets
  }

  /** Settled is a stack of which nothing is still starting. */
  lemma SettledIff(s: Snapshot, expected: Option<int>)
    ensures IsSettled(s, expected) <==>
            AllIn(s, expected, {"HEALTHY", "RUNNING", "HEALTHY EXIT", "UNHEALTHY EXIT", "UNHEALTHY"})
  {
    PendingIff(s);
    SeenCountsNames(s);
    assert forall group :: group in s <==> exists i :: 0 <= i < |s| && s[i] == group;
  }

  /** A good verdict: every service found is running, healthy, or has exited in good order. */
  lemma SettledWithoutFailure(s: Snapshot, expected: Option<int>)
    ensures IsSettled(s, expected) && !HasFailure(s) <==> AllIn(s, expected, {"HEALTHY", "RUNNING", "HEALTHY EXIT"})
  {
    SettledIff(s, expected);
    assert forall group :: group in s <==> exists i :: 0 <= i < |s| && s[i] == group;
  }

  /** `up` is first seen to have ended at tick `f`, and well. */
  ghost predicate EndsWell(trace: Trace, f: nat) {
    trace(f).exit == Some(0) && forall j: nat :: j < f ==> trace(j).exit == None
  }

  /** Polling stops when the stack has settled, `up` has failed, or the timeout has passed since `up` ended well. */
  lemma StopsMeans(trace: Trace, expected: Option<int>, timeout: real, k: nat)
    ensures Stops(trace, expected, timeout, k) <==>
            || IsSettled(trace(k).snapshot, expected)
            || (trace(k).exit.Some? && trace(k).exit.value != 0)
            || exists f: nat :: f <= k && EndsWell(trace, f) && trace(k).now - trace(f).begun >= timeout
    ensures SuccessSeen(trace, expected, k) <==>
            exists f: nat :: f <= k && EndsWell(trace, f) && (f < k || !IsSettled(trace(k).snapshot, expected))
  {
    forall f: nat ensures EndsWell(trace, f) <==> FirstExit(trace, f) && !UpFailed(trace, f) {}
  }

  /** Waiting longer never spoils a good verdict: it comes at the same tick. */
  lemma LongerTimeoutKeepsSuccess(trace: Trace, expected: Option<int>, timeout: real, longer: real, last: nat)
    requires timeout <= longer && FirstStop(trace, expected, timeout, last) && Settled(trace, expected, last)
    ensures FirstStop(trace, expected, longer, last)
  {
    forall j: nat | j < last ensures !Stops(trace, expected, longer, j) {
      assert !Stops(trace, expected, timeout, j);
      if f: nat :| f <= j && FirstExit(trace, f) && !UpFailed(trace, f) && trace(j).now - trace(f).begun >= longer {
        assert TimedOut(trace, timeout, j);
        assert false;
      }
    }
  }

  /** Giving up for time means `up` succeeded, at least `timeout` earlier. */
  lemma GivingUpMeansWaited(trace: Trace, expected: Option<int>, timeout: real, last: nat)
    requires FirstStop(trace, expected, timeout, last)
    requires !Settled(trace, expected, last) && !UpFailed(trace, last)
    ensures SuccessSeen(trace, expected, last)
    ensures forall f: nat ::
              f <= last && trace(f).exit == Some(0) && (forall j: nat :: j < f ==> trace(j).exit.None?) ==>
              trace(last).now >= trace(f).begun + timeout
  {
    var g: nat :| g <= last && FirstExit(trace, g) && !UpFailed(trace, g) &&
      trace(last).now - trace(g).begun >= timeout;
    forall f: nat | f <= last && trace(f).exit == Some(0) && (forall j: nat :: j < f ==> trace(j).exit.None?)
      ensures f == g
    {
      assert f < g || g < f || f == g;
    }
  }
}
