/** The deadline-bounded probe of an immutable npm package
    (`scripts/verify-npm-immutable.py`, `verify`). Time is real-valued; it passes
    in `fetch` and `sleep` only. */
module NpmRetry {

  datatype Observation = Exact | Invalid | Retry

  datatype Outcome = Saw(observation: Observation) | Deadline

  /** What `verify` calls: the observation and the duration of the `k`-th fetch under
      a given timeout, and the `k`-th random number. */
  datatype World = World(seen: nat -> Observation, took: (nat, real) -> real, jitter: nat -> real)
  {
    /** Fetches honour their timeout and `random()` lies between zero and one. */
    ghost predicate IsFair() {
      && (forall k: nat, timeout: real :: timeout > 0.0 ==> 0.0 <= took(k, timeout) <= timeout)
      && (forall k: nat :: 0.0 <= jitter(k) < 1.0)
    }
  }

  datatype Probe = Probe(at: real, timeout: real, end: real, seen: Observation)

  function Min(a: real, b: real): real {
    if a <= b then a else b
  }

  function Max(a: real, b: real): real {
    if a >= b then a else b
  }

  /** The `k`-th probe starts before the deadline, is given at most twenty seconds and
      what remains, takes what the fetch takes and is over by the deadline. */
  predicate IsProbe(w: World, k: nat, probe: Probe, deadline: real) {
    && probe.at < deadline
    && probe.timeout == Min(20.0, deadline - probe.at)
    && probe.end == probe.at + w.took(k, probe.timeout)
    && probe.at <= probe.end <= deadline
    && probe.seen == w.seen(k)
  }

  /** Whole seconds left, for termination. */
  function Left(deadline: real, now: real): nat {
    if now >= deadline then 0 else 1 + (deadline - now).Floor
  }

  /** The pause after the `i`-th probe before jitter: two seconds, doubled up to
      thirty. */
  function Backoff(i: nat): (delay: real)
    ensures 2.0 <= delay <= 30.0
  {
    if i == 0 then 2.0 else Min(30.0, Backoff(i - 1) * 2.0)
  }

  /** The pause that is due after the `i`-th probe. */
  function Due(w: World, i: nat): real {
    Backoff(i) * (1.0 + 0.25 * w.jitter(i))
  }

  ghost predicate AreDue(w: World, due: nat -> real) {
    forall i: nat {:trigger w.jitter(i)} :: due(i) == Due(w, i)
  }

  /** The gap after a probe is the pause that is due; or that would reach the deadline,
      and the next probe is the last one, as late as leaves it a second. */
  predicate IsSpaced(due: real, end: real, next: real, deadline: real) {
    if due < deadline - end then next == end + due else next == Max(end, deadline - 1.0)
  }

  lemma JitterLengthensByAQuarter(delay: real, jitter: real)
    requires delay >= 0.0 && 0.0 <= jitter < 1.0
    ensures delay <= delay * (1.0 + 0.25 * jitter) <= 1.25 * delay
  {
    assert 0.0 <= delay * jitter <= delay;
    assert delay * (1.0 + 0.25 * jitter) == delay + 0.25 * (delay * jitter);
  }

  method Fetch(w: World, k: nat, now: real, deadline: real) returns (probe: Probe)
    requires w.IsFair() && now < deadline
    ensures IsProbe(w, k, probe, deadline) && probe.at == now
  {
    var timeout := Min(20.0, deadline - now);
    probe := Probe(now, timeout, now + w.took(k, timeout), w.seen(k));
  }

  /** The pause before the next probe; a pause that would reach the deadline is cut so
      that one last probe starts within a second of it. */
  method NextPause(delay: real, jitter: real, remaining: real) returns (pause: real, isLast: bool)
    requires delay >= 2.0 && 0.0 <= jitter < 1.0 && remaining > 0.0
    ensures 0.0 <= pause < remaining
    ensures isLast <==> delay * (1.0 + 0.25 * jitter) >= remaining
    ensures pause == if isLast then Max(0.0, remaining - 1.0) else delay * (1.0 + 0.25 * jitter)
    ensures !isLast ==> delay <= pause <= 1.25 * delay
  {
    pause := delay * (1.0 + 0.25 * jitter);
    JitterLengthensByAQuarter(delay, jitter);
    isLast := pause >= remaining;
    if isLast {
      pause := Max(0.0, remaining - Min(1.0, remaining));
    }
  }

  method PauseAfter(w: World, ghost due: nat -> real, k: nat, delay: real, remaining: real)
    returns (pause: real, isLast: bool)
    requires w.IsFair() && AreDue(w, due) && delay == Backoff(k) && remaining > 0.0
    ensures isLast <==> due(k) >= remaining
    ensures pause == if isLast then Max(0.0, remaining - 1.0) else due(k)
    ensures due(k) >= 2.0
  {
    JitterLengthensByAQuarter(delay, w.jitter(k));
    pause, isLast := NextPause(delay, w.jitter(k), remaining);
  }

  lemma SecondsPass(deadline: real, now: real, later: real)
    requires now + 2.0 <= later < deadline
    ensures Left(deadline, later) < Left(deadline, now)
  {}

  /** The first probe is made at once. After a reason to retry, and only then, comes
      another, when the pause is over; only the last pause may be cut. */
  ghost predicate AreProbes(w: World, due: nat -> real, start: real, deadline: real, probes: seq<Probe>) {
    && (forall i :: 0 <= i < |probes| ==> IsProbe(w, i, probes[i], deadline))
    && (probes != [] ==> probes[0].at == start)
    && (forall i :: 0 <= i < |probes| - 1 ==> probes[i].seen == Retry)
    && (forall i :: 0 <= i < |probes| - 1 ==> IsSpaced(due(i), probes[i].end, probes[i + 1].at, deadline))
    && (forall i :: 0 <= i < |probes| - 2 ==> due(i) < deadline - probes[i].end)
  }

  lemma OneMoreProbe(w: World, due: nat -> real, start: real, deadline: real, probes: seq<Probe>, probe: Probe)
    requires AreProbes(w, due, start, deadline, probes) && IsProbe(w, |probes|, probe, deadline)
    requires probes == [] ==> probe.at == start
    requires probes != [] ==>
      var last := |probes| - 1;
      && probes[last].seen == Retry && IsSpaced(due(last), probes[last].end, probe.at, deadline)
      && (last > 0 ==> due(last - 1) < deadline - probes[last - 1].end)
    ensures AreProbes(w, due, start, deadline, probes + [probe])
  {}

  /** What a call with the pauses `due` does and answers. */
  ghost predicate IsVerification(
      w: World, due: nat -> real, start: real, deadline: real, wait: bool,
      outcome: Outcome, finish: real, probes: seq<Probe>)
  {
    && AreProbes(w, due, start, deadline, probes)
    && (probes == [] <==> start >= deadline)
    && (!wait ==> |probes| <= 1)
    // The answer is the last observation, as soon as it is made, or the deadline when it
    // has come.
    && (outcome.Saw? ==>
          probes != [] && outcome.observation == probes[|probes| - 1].seen && finish == probes[|probes| - 1].end)
    && (outcome == Saw(Retry) ==> !wait)
    && (outcome.Deadline? ==> finish == Max(start, deadline))
    // Giving up means that the last probe was a reason to retry, and ran to the end or
    // came after a pause that was cut.
    && (outcome.Deadline? && probes != [] ==>
          var n := |probes| - 1;
          && wait && probes[n].seen == Retry
          && (probes[n].end == deadline || (n > 0 && due(n - 1) >= deadline - probes[n - 1].end)))
  }

  method Verify(w: World, start: real, deadline: real, wait: bool)
    returns (outcome: Outcome, finish: real, probes: seq<Probe>)
    requires w.IsFair()
    ensures IsVerification(w, (i: nat) => Due(w, i), start, deadline, wait, outcome, finish, probes)
    // At most half the budget in seconds, and two more.
    ensures start < deadline ==> |probes| as real <= (deadline - start) / 2.0 + 2.0
  {
    outcome, finish, probes := ProbeUntil(w, (i: nat) => Due(w, i), start, deadline, wait);
  }

  /** The loop, for the pauses that are due. */
  method ProbeUntil(w: World, ghost due: nat -> real, start: real, deadline: real, wait: bool)
    returns (outcome: Outcome, finish: real, probes: seq<Probe>)
    requires w.IsFair() && AreDue(w, due)
    ensures IsVerification(w, due, start, deadline, wait, outcome, finish, probes)
    ensures start < deadline ==> |probes| as real <= (deadline - start) / 2.0 + 2.0
  {
    var delay := 2.0;
    var finalProbe := false;
    finish := start;
    probes := [];
    while true
      invariant start <= finish <= Max(start, deadline)
      invariant delay == Backoff(|probes|)
      invariant AreProbes(w, due, start, deadline, probes)
      invariant |probes| > 1 ==> due(|probes| - 2) < deadline - probes[|probes| - 2].end
      invariant probes != [] ==> IsSpaced(due(|probes| - 1), probes[|probes| - 1].end, finish, deadline)
      invariant probes != [] ==> (finalProbe <==> due(|probes| - 1) >= deadline - probes[|probes| - 1].end)
      invariant probes == [] ==> finish == start
      invariant probes != [] ==> wait && start < deadline && probes[|probes| - 1].seen == Retry
      invariant !finalProbe ==> finish >= start + 2.0 * |probes| as real
      invariant finalProbe ==> probes != [] && deadline - 1.0 <= finish < deadline
      invariant finalProbe ==> start + 2.0 * (|probes| - 1) as real < deadline
      invariant !finalProbe && probes != [] ==> finish < deadline
      decreases if finalProbe then 0 else 1 + Left(deadline, finish)
    {
      var remaining := deadline - finish;
      if remaining <= 0.0 {
        return Deadline, finish, probes;
      }
      var k, before := |probes|, finish;
      var probe := Fetch(w, k, finish, deadline);
      OneMoreProbe(w, due, start, deadline, probes, probe);
      probes := probes + [probe];
      finish := probe.end;
      if probe.seen != Retry || !wait {
        return Saw(probe.seen), finish, probes;
      }
      remaining := deadline - finish;
      if remaining <= 0.0 {
        return Deadline, finish, probes;
      }
      if finalProbe {
        finish := finish + remaining;
        return Deadline, finish, probes;
      }
      var pause, isLast := PauseAfter(w, due, k, delay, remaining);
      finalProbe := isLast;
      finish := finish + pause;
      if !isLast {
        SecondsPass(deadline, before, finish);
      }
      delay := Min(30.0, delay * 2.0);
    }
  }
}
