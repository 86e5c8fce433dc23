/** The circuit breaker of internal/llm/router.go. */
module Breakers {
  import opened Spacing

  datatype State = Closed | Open | HalfOpen

  datatype Observation = Observation(t: int, success: bool)

  datatype Config = Config(window: int, openTimeout: int, minSamples: int, threshold: real)

  /** The settings newBreaker starts with, in seconds. */
  const DEFAULT := Config(60, 30, 10, 0.5)

  datatype Snapshot = Snapshot(state: State, observations: seq<Observation>, openedAt: int)

  function Failures(observations: seq<Observation>): nat {
    if observations == [] then 0
    else Failures(observations[..|observations| - 1]) + if observations[|observations| - 1].success then 0 else 1
  }

  /** The places of the failures among the first `n` observations. */
  function FailedAt(observations: seq<Observation>, n: nat): set<nat>
    requires n <= |observations|
  {
    set i: nat | i < n && !observations[i].success
  }

  lemma {:induction false} FailuresAreFailed(observations: seq<Observation>, n: nat)
    requires n <= |observations|
    ensures Failures(observations[..n]) == |FailedAt(observations, n)|
  {
    if n > 0 {
      FailuresAreFailed(observations, n - 1);
      assert observations[..n][..n - 1] == observations[..n - 1];
      assert FailedAt(observations, n)
        == FailedAt(observations, n - 1) + if observations[n - 1].success then {} else {n - 1};
    }
  }

  /** Enough samples, and too many of them failures. No samples give no ratio. */
  predicate ShouldTrip(c: Config, observations: seq<Observation>) {
    && |observations| >= c.minSamples
    && observations != []
    && Failures(observations) as real / |observations| as real >= c.threshold
  }

  /** What the pruning loop leaves: everything from the first observation that is not before the cutoff. */
  function Pruned(observations: seq<Observation>, cutoff: int): seq<Observation> {
    if observations != [] && observations[0].t < cutoff then Pruned(observations[1..], cutoff) else observations
  }

  predicate Admits(c: Config, s: Snapshot, now: int) {
    s.state.Closed? || (s.state.Open? && now - s.openedAt >= c.openTimeout)
  }

  function AfterAllow(c: Config, s: Snapshot, now: int): Snapshot {
    if s.state.Open? && Admits(c, s, now) then s.(state := HalfOpen) else s
  }

  function AfterRecord(c: Config, s: Snapshot, success: bool, now: int): Snapshot {
    if s.state.HalfOpen? then
      if success then s.(state := Closed, observations := []) else s.(state := Open, openedAt := now)
    else
      var recent := Pruned(s.observations + [Observation(now, success)], now - c.window);
      if s.state.Closed? && ShouldTrip(c, recent) then Snapshot(Open, [], now) else s.(observations := recent)
  }

  lemma {:induction false} PrunedSuffix(observations: seq<Observation>, k: nat, cutoff: int)
    requires k <= |observations|
    requires forall i :: 0 <= i < k ==> observations[i].t < cutoff
    requires k < |observations| ==> observations[k].t >= cutoff
    ensures Pruned(observations, cutoff) == observations[k..]
  {
    if k > 0 {
      PrunedSuffix(observations[1..], k - 1, cutoff);
      assert observations[1..][k - 1..] == observations[k..];
    }
  }

  class Breaker {
    const config: Config
    var state: State
    var observations: seq<Observation>
    var openedAt: int

    constructor (config: Config)
      ensures View() == Snapshot(Closed, [], 0) && this.config == config
    {
      this.config := config;
      state, observations, openedAt := Closed, [], 0;
    }

    function View(): Snapshot
      reads this
    {
      Snapshot(state, observations, openedAt)
    }

    method Allow(now: int) returns (allowed: bool)
      modifies this`state
      ensures View() == AfterAllow(config, old(View()), now)
      ensures allowed == Admits(config, old(View()), now)
      ensures allowed <==> old(state).Closed? || (old(state).Open? && now - openedAt >= config.openTimeout)
      ensures state == if old(state).Open? && allowed then HalfOpen else old(state)
    {
      match state
      case Closed =>
        return true;
      case Open =>
        if now - openedAt >= config.openTimeout {
          state := HalfOpen;
          return true;
        }
        return false;
      case HalfOpen =>
        return false;
    }

    method Record(success: bool, now: int)
      modifies this
      ensures View() == AfterRecord(config, old(View()), success, now)
      ensures old(state).HalfOpen? && success ==> state.Closed? && observations == []
      ensures old(state).HalfOpen? && !success ==> state.Open? && openedAt == now
      ensures old(state).Open? ==> state.Open? && openedAt == old(openedAt)
      ensures old(state).Closed? ==>
          var recent := Pruned(old(observations) + [Observation(now, success)], now - config.window);
          if |recent| >= config.minSamples && recent != []
             && |set i: nat | i < |recent| && !recent[i].success| as real / |recent| as real >= config.threshold
          then state.Open? && openedAt == now && observations == []
          else state.Closed? && observations == recent
    {
      if state.HalfOpen? {
        if success {
          state := Closed;
          observations := [];
        } else {
          state := Open;
          openedAt := now;
        }
        return;
      }
      observations := observations + [Observation(now, success)];
      var cutoff := now - config.window;
      var start := 0;
      while start < |observations| && observations[start].t < cutoff
        invariant start <= |observations|
        invariant forall i :: 0 <= i < start ==> observations[i].t < cutoff
      {
        start := start + 1;
      }
      PrunedSuffix(observations, start, cutoff);
      observations := observations[start..];
      if state.Closed? && |observations| >= config.minSamples {
        var failures := 0;
        for i := 0 to |observations|
          invariant failures == Failures(observations[..i])
        {
          if !observations[i].success {
            failures := failures + 1;
          }
          assert observations[..i + 1][..i] == observations[..i];
        }
        assert observations[..|observations|] == observations;
        FailuresAreFailed(observations, |observations|);
        if observations != [] && failures as real / |observations| as real >= config.threshold {
          state := Open;
          openedAt := now;
          observations := [];
        }
      }
    }
  }

  // ---------- whole runs ----------

  datatype Op = Allow(now: int) | Record(success: bool, now: int)

  function Apply(c: Config, s: Snapshot, op: Op): Snapshot {
    match op
    case Allow(now) => AfterAllow(c, s, now)
    case Record(success, now) => AfterRecord(c, s, success, now)
  }

  function Execute(c: Config, ops: seq<Op>): Snapshot {
    if ops == [] then Snapshot(Closed, [], 0) else Apply(c, Execute(c, ops[..|ops| - 1]), ops[|ops| - 1])
  }

  predicate ClockIsMonotone(ops: seq<Op>) {
    forall i, j :: 0 <= i < j < |ops| ==> ops[i].now <= ops[j].now
  }

  /** The outcomes recorded since the last reset: tripping and closing reset, and the outcome of a probe is not kept. */
  function Log(c: Config, ops: seq<Op>): seq<Observation> {
    if ops == [] then [] else LogAfter(c, Execute(c, ops[..|ops| - 1]), Log(c, ops[..|ops| - 1]), ops[|ops| - 1])
  }

  function LogAfter(c: Config, s: Snapshot, log: seq<Observation>, op: Op): seq<Observation> {
    if op.Allow? then log
    else if s.state.HalfOpen? then (if op.success then [] else log)
    else if Trips(c, s, op) then []
    else log + [Observation(op.now, op.success)]
  }

  predicate Trips(c: Config, s: Snapshot, op: Op) {
    op.Record? && s.state.Closed? && Apply(c, s, op).state.Open?
  }

  /** The naive window: all outcomes not older than `window` at the time of the latest one. */
  function Recent(log: seq<Observation>, cutoff: int): seq<Observation> {
    if log == [] then []
    else Recent(log[..|log| - 1], cutoff) + if log[|log| - 1].t >= cutoff then [log[|log| - 1]] else []
  }

  function NaiveWindow(c: Config, log: seq<Observation>): seq<Observation> {
    if log == [] then [] else Recent(log, log[|log| - 1].t - c.window)
  }

  predicate InOrder(log: seq<Observation>) {
    forall i, j :: 0 <= i < j < |log| ==> log[i].t <= log[j].t
  }

  lemma {:induction false} RecentFront(o: Observation, log: seq<Observation>, cutoff: int)
    ensures Recent([o] + log, cutoff) == (if o.t >= cutoff then [o] else []) + Recent(log, cutoff)
  {
    var all := [o] + log;
    if log == [] {
      assert all[..0] == [];
    } else {
      assert all[..|all| - 1] == [o] + log[..|log| - 1];
      RecentFront(o, log[..|log| - 1], cutoff);
    }
  }

  lemma {:induction false} RecentAll(log: seq<Observation>, cutoff: int)
    requires forall i :: 0 <= i < |log| ==> log[i].t >= cutoff
    ensures Recent(log, cutoff) == log
  {
    if log != [] {
      RecentAll(log[..|log| - 1], cutoff);
    }
  }

  /** On an ordered list, dropping an old prefix is filtering. */
  lemma {:induction false} PrunedIsRecent(log: seq<Observation>, cutoff: int)
    requires InOrder(log)
    ensures Pruned(log, cutoff) == Recent(log, cutoff)
  {
    if log != [] {
      if log[0].t < cutoff {
        PrunedIsRecent(log[1..], cutoff);
        assert log == [log[0]] + log[1..];
        RecentFront(log[0], log[1..], cutoff);
      } else {
        RecentAll(log, cutoff);
      }
    }
  }

  lemma {:induction false} RecentTwice(log: seq<Observation>, earlier: int, cutoff: int)
    requires earlier <= cutoff
    ensures Recent(Recent(log, earlier), cutoff) == Recent(log, cutoff)
  {
    if log != [] {
      var init, x := log[..|log| - 1], log[|log| - 1];
      RecentTwice(init, earlier, cutoff);
      var kept := Recent(init, earlier);
      assert (kept + [x])[..|kept|] == kept && kept + [] == kept;
      assert Recent(init, cutoff) + [] == Recent(init, cutoff);
    }
  }

  lemma {:induction false} RecentInOrder(log: seq<Observation>, earlier: int, latest: int)
    requires InOrder(log) && forall i :: 0 <= i < |log| ==> log[i].t <= latest
    ensures InOrder(Recent(log, earlier))
    ensures forall i :: 0 <= i < |Recent(log, earlier)| ==> Recent(log, earlier)[i].t <= latest
  {
    if log != [] {
      var n := |log| - 1;
      RecentInOrder(log[..n], earlier, log[n].t);
    }
  }

  /** Pruning what an earlier pruning left equals filtering everything. */
  lemma PruneAgain(log: seq<Observation>, earlier: int, cutoff: int, o: Observation)
    requires InOrder(log) && earlier <= cutoff
    requires forall i :: 0 <= i < |log| ==> log[i].t <= o.t
    ensures Pruned(Recent(log, earlier) + [o], cutoff) == Recent(log + [o], cutoff)
  {
    var kept := Recent(log, earlier);
    RecentInOrder(log, earlier, o.t);
    PrunedIsRecent(kept + [o], cutoff);
    RecentTwice(log, earlier, cutoff);
    assert (kept + [o])[..|kept|] == kept && (log + [o])[..|log|] == log;
  }

  ghost predicate WindowHolds(c: Config, s: Snapshot, log: seq<Observation>, latest: int) {
    && InOrder(log)
    && (forall i :: 0 <= i < |log| ==> log[i].t <= latest)
    && s.observations == NaiveWindow(c, log)
  }

  lemma WindowKept(c: Config, s: Snapshot, log: seq<Observation>, latest: int, op: Op)
    requires WindowHolds(c, s, log, latest) && latest <= op.now
    ensures WindowHolds(c, Apply(c, s, op), LogAfter(c, s, log, op), op.now)
  {
    EmptyWindow(c);
    if op.Record? && !s.state.HalfOpen? {
      WindowStep(c, log, Observation(op.now, op.success));
      hide NaiveWindow, Pruned, ShouldTrip;
    }
  }

  /** With a monotone clock the pruned list is always the naive filter over everything since the last reset. */
  lemma {:induction false} WindowIsNaive(c: Config, ops: seq<Op>)
    requires ClockIsMonotone(ops)
    ensures WindowHolds(c, Execute(c, ops), Log(c, ops), if ops == [] then 0 else ops[|ops| - 1].now)
  {
    if ops == [] {
      EmptyWindow(c);
    } else {
      var n := |ops| - 1;
      WindowIsNaive(c, ops[..n]);
      var s, log := Execute(c, ops[..n]), Log(c, ops[..n]);
      hide NaiveWindow, Apply, LogAfter;
      WindowKept(c, s, log, if n == 0 then ops[n].now else ops[n - 1].now, ops[n]);
    }
  }

  lemma EmptyWindow(c: Config)
    ensures InOrder([]) && NaiveWindow(c, []) == []
  {
  }

  lemma WindowStep(c: Config, log: seq<Observation>, o: Observation)
    requires InOrder(log) && forall i :: 0 <= i < |log| ==> log[i].t <= o.t
    ensures InOrder(log + [o])
    ensures Pruned(NaiveWindow(c, log) + [o], o.t - c.window) == NaiveWindow(c, log + [o])
  {
    var earlier := if log == [] then o.t - c.window else log[|log| - 1].t - c.window;
    assert NaiveWindow(c, log) == Recent(log, earlier) by {
      hide Pruned;
    }
    assert NaiveWindow(c, log + [o]) == Recent(log + [o], o.t - c.window) by {
      hide Recent, Pruned;
    }
    hide NaiveWindow, Recent, Pruned;
    PruneAgain(log, earlier, o.t - c.window, o);
  }

  lemma TripsStep(c: Config, s: Snapshot, log: seq<Observation>, latest: int, op: Op)
    requires WindowHolds(c, s, log, latest) && latest <= op.now && op.Record? && s.state.Closed?
    ensures Trips(c, s, op) <==> ShouldTrip(c, NaiveWindow(c, log + [Observation(op.now, op.success)]))
  {
    WindowStep(c, log, Observation(op.now, op.success));
    hide NaiveWindow, Pruned, ShouldTrip;
  }

  /** The places in the log of outcomes from `cutoff` on, and of the failures among them. */
  function RecentAt(log: seq<Observation>, cutoff: int, n: nat): set<nat>
    requires n <= |log|
  {
    set i: nat | i < n && log[i].t >= cutoff
  }

  function RecentFailedAt(log: seq<Observation>, cutoff: int, n: nat): set<nat>
    requires n <= |log|
  {
    set i: nat | i < n && log[i].t >= cutoff && !log[i].success
  }

  lemma {:induction false} RecentCounts(log: seq<Observation>, cutoff: int, n: nat)
    requires n <= |log|
    ensures |Recent(log[..n], cutoff)| == |RecentAt(log, cutoff, n)|
    ensures Failures(Recent(log[..n], cutoff)) == |RecentFailedAt(log, cutoff, n)|
  {
    if n > 0 {
      RecentCounts(log, cutoff, n - 1);
      RecentStep(log[..n], cutoff);
      PlacesStep(log, cutoff, n);
      assert log[..n][..n - 1] == log[..n - 1] && log[..n][n - 1] == log[n - 1];
      hide Recent, Failures, RecentAt, RecentFailedAt;
    }
  }

  lemma RecentStep(log: seq<Observation>, cutoff: int)
    requires log != []
    ensures
      var last, before := log[|log| - 1], Recent(log[..|log| - 1], cutoff);
      && |Recent(log, cutoff)| == |before| + (if last.t >= cutoff then 1 else 0)
      && Failures(Recent(log, cutoff)) == Failures(before) + if last.t >= cutoff && !last.success then 1 else 0
  {
    var last, before := log[|log| - 1], Recent(log[..|log| - 1], cutoff);
    assert (before + [last])[..|before|] == before;
    assert Failures(before + [last]) == Failures(before) + if last.success then 0 else 1;
    assert Recent(log, cutoff) == if last.t >= cutoff then before + [last] else before;
  }

  lemma PlacesStep(log: seq<Observation>, cutoff: int, n: nat)
    requires 0 < n <= |log|
    ensures |RecentAt(log, cutoff, n)| == |RecentAt(log, cutoff, n - 1)| + if log[n - 1].t >= cutoff then 1 else 0
    ensures |RecentFailedAt(log, cutoff, n)|
         == |RecentFailedAt(log, cutoff, n - 1)| + if log[n - 1].t >= cutoff && !log[n - 1].success then 1 else 0
  {
    RecentPlace(log, cutoff, n);
    FailedPlace(log, cutoff, n);
    hide RecentAt, RecentFailedAt;
  }

  lemma RecentPlace(log: seq<Observation>, cutoff: int, n: nat)
    requires 0 < n <= |log|
    ensures n - 1 !in RecentAt(log, cutoff, n - 1)
    ensures RecentAt(log, cutoff, n)
         == RecentAt(log, cutoff, n - 1) + if log[n - 1].t >= cutoff then {n - 1} else {}
  {
  }

  lemma FailedPlace(log: seq<Observation>, cutoff: int, n: nat)
    requires 0 < n <= |log|
    ensures n - 1 !in RecentFailedAt(log, cutoff, n - 1)
    ensures RecentFailedAt(log, cutoff, n)
         == RecentFailedAt(log, cutoff, n - 1) + if log[n - 1].t >= cutoff && !log[n - 1].success then {n - 1} else {}
  {
  }

  /** Enough samples, and failures make up the share `threshold` of them. */
  predicate TooManyFail(c: Config, total: nat, failed: nat) {
    total >= c.minSamples && total > 0 && failed as real >= c.threshold * total as real
  }

  lemma RatioIsShare(failed: nat, total: nat, threshold: real)
    requires total > 0
    ensures failed as real / total as real >= threshold <==> failed as real >= threshold * total as real
  {
    var ratio := failed as real / total as real;
    assert ratio * total as real == failed as real;
    if ratio >= threshold {
      assert (ratio - threshold) * total as real >= 0.0;
    } else {
      assert (threshold - ratio) * total as real > 0.0;
    }
  }

  /** A Record in the closed state trips the breaker exactly when, of all outcomes since the last reset, this one
      included, at least minSamples are at most `window` old and at least the share `threshold` of these are failures. */
  lemma TripsIff(c: Config, ops: seq<Op>, op: Op)
    requires ClockIsMonotone(ops) && (ops != [] ==> ops[|ops| - 1].now <= op.now)
    requires op.Record? && Execute(c, ops).state.Closed?
    ensures
      var log := Log(c, ops) + [Observation(op.now, op.success)];
      Execute(c, ops + [op]).state.Open?
      <==> TooManyFail(c, |RecentAt(log, op.now - c.window, |log|)|, |RecentFailedAt(log, op.now - c.window, |log|)|)
  {
    TripsNaively(c, ops, op);
    TripsNext(c, ops, op);
    hide *;
    TripRule(c, Log(c, ops) + [Observation(op.now, op.success)], op.now - c.window);
  }

  lemma TripsNaively(c: Config, ops: seq<Op>, op: Op)
    requires ClockIsMonotone(ops) && (ops != [] ==> ops[|ops| - 1].now <= op.now)
    requires op.Record? && Execute(c, ops).state.Closed?
    ensures Trips(c, Execute(c, ops), op)
       <==> ShouldTrip(c, NaiveWindow(c, Log(c, ops) + [Observation(op.now, op.success)]))
  {
    WindowIsNaive(c, ops);
    hide *;
    TripsStep(c, Execute(c, ops), Log(c, ops), if ops == [] then op.now else ops[|ops| - 1].now, op);
  }

  lemma TripsNext(c: Config, ops: seq<Op>, op: Op)
    requires op.Record? && Execute(c, ops).state.Closed?
    ensures Execute(c, ops + [op]).state.Open? <==> Trips(c, Execute(c, ops), op)
  {
    assert (ops + [op])[..|ops|] == ops;
  }

  lemma TripRule(c: Config, log: seq<Observation>, cutoff: int)
    requires log != [] && cutoff == log[|log| - 1].t - c.window
    ensures
      ShouldTrip(c, NaiveWindow(c, log))
      <==> TooManyFail(c, |RecentAt(log, cutoff, |log|)|, |RecentFailedAt(log, cutoff, |log|)|)
  {
    NaiveIsRecent(c, log);
    assert log[..|log|] == log;
    RecentCounts(log, cutoff, |log|);
    hide *;
    ShareDecides(c, Recent(log, cutoff));
  }

  lemma NaiveIsRecent(c: Config, log: seq<Observation>)
    requires log != []
    ensures NaiveWindow(c, log) == Recent(log, log[|log| - 1].t - c.window)
  {
  }

  lemma ShareDecides(c: Config, observations: seq<Observation>)
    ensures ShouldTrip(c, observations)
       <==> TooManyFail(c, |observations|, Failures(observations))
  {
    if observations != [] {
      RatioIsShare(Failures(observations), |observations|, c.threshold);
    }
  }

  // ---------- what successes and failures do ----------

  /** With a positive threshold, a breaker that sees nothing but successes stays closed. */
  lemma {:induction false} SuccessesStayClosed(c: Config, ops: seq<Op>)
    requires c.threshold > 0.0 && forall k :: 0 <= k < |ops| && ops[k].Record? ==> ops[k].success
    ensures Execute(c, ops).state.Closed?
    ensures forall k :: 0 <= k < |Execute(c, ops).observations| ==> Execute(c, ops).observations[k].success
  {
    if ops != [] {
      var n := |ops| - 1;
      SuccessesStayClosed(c, ops[..n]);
      if ops[n].Record? {
        var all := Execute(c, ops[..n]).observations + [Observation(ops[n].now, true)];
        var cutoff := ops[n].now - c.window;
        PrunedKeeps(all, cutoff);
        NoFailures(Pruned(all, cutoff));
        hide Pruned, Failures;
      }
    }
  }

  lemma {:induction false} PrunedKeeps(observations: seq<Observation>, cutoff: int)
    requires forall k :: 0 <= k < |observations| ==> observations[k].success
    ensures forall k :: 0 <= k < |Pruned(observations, cutoff)| ==> Pruned(observations, cutoff)[k].success
    decreases |observations|
  {
    if observations != [] && observations[0].t < cutoff {
      PrunedKeeps(observations[1..], cutoff);
    }
  }

  lemma {:induction false} NoFailures(observations: seq<Observation>)
    requires forall k :: 0 <= k < |observations| ==> observations[k].success
    ensures Failures(observations) == 0
    ensures observations != [] ==> Failures(observations) as real / |observations| as real == 0.0
  {
    if observations != [] {
      NoFailures(observations[..|observations| - 1]);
    }
  }

  lemma {:induction false} AllFailures(observations: seq<Observation>)
    requires forall k :: 0 <= k < |observations| ==> !observations[k].success
    ensures Failures(observations) == |observations|
  {
    if observations != [] {
      AllFailures(observations[..|observations| - 1]);
    }
  }

  /** Nothing but failures, in order, all within one window. */
  predicate IsOutage(c: Config, ops: seq<Op>) {
    && ClockIsMonotone(ops)
    && (forall k :: 0 <= k < |ops| ==> ops[k].Record? && !ops[k].success)
    && (ops != [] ==> ops[|ops| - 1].now - ops[0].now <= c.window)
  }

  /** A fresh breaker holds all failures of an outage until there are minSamples of them. */
  lemma {:induction false} FewFailuresStayClosed(c: Config, ops: seq<Op>)
    requires IsOutage(c, ops) && |ops| < c.minSamples
    ensures Execute(c, ops) == Snapshot(Closed, seq(|ops|, k requires 0 <= k < |ops| => Observation(ops[k].now, false)), 0)
  {
    if ops != [] {
      var n := |ops| - 1;
      FewFailuresStayClosed(c, ops[..n]);
      var all := seq(n, k requires 0 <= k < n => Observation(ops[k].now, false)) + [Observation(ops[n].now, false)];
      assert all == seq(|ops|, k requires 0 <= k < |ops| => Observation(ops[k].now, false));
      assert all[0].t >= ops[n].now - c.window;
      hide Failures;
    }
  }

  /** With a threshold of at most 1, the minSamples-th failure of an outage opens it. */
  lemma FailuresOpen(c: Config, ops: seq<Op>)
    requires IsOutage(c, ops) && |ops| == c.minSamples >= 1 && c.threshold <= 1.0
    ensures Execute(c, ops) == Snapshot(Open, [], ops[|ops| - 1].now)
  {
    var n := |ops| - 1;
    FewFailuresStayClosed(c, ops[..n]);
    var s := Execute(c, ops[..n]);
    assert Execute(c, ops) == AfterRecord(c, s, false, ops[n].now);
    hide Execute;
    FullWindowOpens(c, s, ops[n].now);
  }

  lemma FullWindowOpens(c: Config, s: Snapshot, now: int)
    requires s.state.Closed? && |s.observations| == c.minSamples - 1 && c.threshold <= 1.0
    requires forall k :: 0 <= k < |s.observations| ==> !s.observations[k].success
    requires s.observations != [] ==> s.observations[0].t >= now - c.window
    requires c.window >= 0
    ensures AfterRecord(c, s, false, now) == Snapshot(Open, [], now)
  {
    var all := s.observations + [Observation(now, false)];
    assert Pruned(all, now - c.window) == all;
    hide Pruned;
    AllFailures(all);
    assert |all| as real / |all| as real == 1.0;
    hide Failures;
  }

  /** As it is configured, ten failures within 60 seconds open a fresh breaker, and for the next 30 seconds, and no
      longer, callers are refused. */
  lemma TenFailuresOpen(ops: seq<Op>, now: int)
    requires ClockIsMonotone(ops) && |ops| == 10 && ops[9].now - ops[0].now <= 60
    requires forall k :: 0 <= k < |ops| ==> ops[k].Record? && !ops[k].success
    ensures Execute(DEFAULT, ops).state.Open?
    ensures Admits(DEFAULT, Execute(DEFAULT, ops), now) <==> now >= ops[9].now + 30
  {
    FailuresOpen(DEFAULT, ops);
  }

  /** A closed breaker never holds a list that should have tripped it. */
  lemma {:induction false} ClosedIsCalm(c: Config, ops: seq<Op>)
    ensures Execute(c, ops).state.Closed? ==> !ShouldTrip(c, Execute(c, ops).observations)
  {
    if ops != [] {
      ClosedIsCalm(c, ops[..|ops| - 1]);
    }
  }

  // ---------- admissions while not closed ----------

  /** The times at which Allow let a caller through since the breaker was last closed. */
  function Admissions(c: Config, ops: seq<Op>): seq<int> {
    if ops == [] then []
    else AdmissionsAfter(c, Execute(c, ops[..|ops| - 1]), Admissions(c, ops[..|ops| - 1]), ops[|ops| - 1])
  }

  function AdmissionsAfter(c: Config, s: Snapshot, times: seq<int>, op: Op): seq<int> {
    if Apply(c, s, op).state.Closed? then []
    else if op.Allow? && Admits(c, s, op.now) then times + [op.now]
    else times
  }

  /** A breaker through a whole run, and when it admitted callers since it was last closed. */
  method Drive(config: Config, ops: seq<Op>) returns (b: Breaker, admissions: seq<int>)
    ensures b.config == config && b.View() == Execute(config, ops)
    ensures admissions == Admissions(config, ops)
  {
    b := new Breaker(config);
    admissions := [];
    for i := 0 to |ops|
      invariant fresh(b) && b.config == config && b.View() == Execute(config, ops[..i])
      invariant admissions == Admissions(config, ops[..i])
    {
      assert ops[..i + 1][..i] == ops[..i];
      match ops[i] {
        case Allow(now) =>
          var allowed := b.Allow(now);
          admissions := if b.state.Closed? then [] else if allowed then admissions + [now] else admissions;
        case Record(success, now) =>
          b.Record(success, now);
          admissions := if b.state.Closed? then [] else admissions;
      }
    }
    assert ops[..|ops|] == ops;
  }

  /** How often the breaker went half-open since it was last closed. */
  function Episodes(c: Config, ops: seq<Op>): nat {
    if ops == [] then 0
    else EpisodesAfter(c, Execute(c, ops[..|ops| - 1]), Episodes(c, ops[..|ops| - 1]), ops[|ops| - 1])
  }

  function EpisodesAfter(c: Config, s: Snapshot, count: nat, op: Op): nat {
    if Apply(c, s, op).state.Closed? then 0
    else if !s.state.HalfOpen? && Apply(c, s, op).state.HalfOpen? then count + 1
    else count
  }

  /** Admissions keep their distance, match the half-open episodes, and lie before the latest opening. */
  ghost predicate AdmissionsHold(c: Config, s: Snapshot, times: seq<int>, episodes: nat, latest: int) {
    && Spaced(times, c.openTimeout)
    && |times| == episodes
    && (s.state.Closed? ==> times == [])
    && (forall i :: 0 <= i < |times| ==> times[i] <= latest)
    && (s.state.Open? ==> forall i :: 0 <= i < |times| ==> times[i] <= s.openedAt)
  }

  lemma AdmissionsKept(c: Config, s: Snapshot, times: seq<int>, episodes: nat, latest: int, op: Op)
    requires AdmissionsHold(c, s, times, episodes, latest) && latest <= op.now
    ensures
      AdmissionsHold(c, Apply(c, s, op), AdmissionsAfter(c, s, times, op), EpisodesAfter(c, s, episodes, op), op.now)
  {
    hide ShouldTrip, Pruned;
  }

  /** While the breaker stays non-closed, exactly one caller per half-open episode is admitted, and admissions are at
      least openTimeout apart. */
  lemma {:induction false} AdmissionsInEveryRun(c: Config, ops: seq<Op>)
    requires ClockIsMonotone(ops)
    ensures Spaced(Admissions(c, ops), c.openTimeout) && |Admissions(c, ops)| == Episodes(c, ops)
    ensures AdmissionsHold(c, Execute(c, ops), Admissions(c, ops), Episodes(c, ops),
              if ops == [] then 0 else ops[|ops| - 1].now)
  {
    if ops != [] {
      var n := |ops| - 1;
      AdmissionsInEveryRun(c, ops[..n]);
      hide Apply, AdmissionsAfter, EpisodesAfter;
      AdmissionsKept(c, Execute(c, ops[..n]), Admissions(c, ops[..n]), Episodes(c, ops[..n]),
        if n == 0 then ops[n].now else ops[n - 1].now, ops[n]);
    }
  }

  /** So a span of length T sees at most T / openTimeout + 1 of them. */
  lemma AdmissionRate(c: Config, ops: seq<Op>, start: int, span: int)
    requires ClockIsMonotone(ops) && c.openTimeout > 0 && span >= 0
    ensures |Within(Admissions(c, ops), start, span)| <= span / c.openTimeout + 1
  {
    AdmissionsInEveryRun(c, ops);
    SpacedCount(Admissions(c, ops), c.openTimeout, start, span);
  }
}
