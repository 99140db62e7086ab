/** The in-flight task registry and the graceful drain
    (src/hermes_mcp_bridge/lifecycle.py). A task finishes first (`done()` is true)
    and its done-callback, which clears the registry, runs some time later. */
module Lifecycle {

  // ---- the code ----

  class InFlightRegistry {
    var tasks: map<string, nat>
    var totalAdmitted: nat
    var totalCompleted: nat

    constructor ()
      ensures tasks == map[] && totalAdmitted == 0 && totalCompleted == 0
    {
      tasks, totalAdmitted, totalCompleted := map[], 0, 0;
    }

    method Register(key: string, task: nat)
      modifies this
      ensures Registry(tasks, totalAdmitted, totalCompleted)
           == Admit(Registry(old(tasks), old(totalAdmitted), old(totalCompleted)), key, task)
    {
      tasks := tasks[key := task];
      totalAdmitted := totalAdmitted + 1;
    }

    /** The done-callback of a task registered under `key`. */
    method OnDone(key: string)
      modifies this
      ensures Registry(tasks, totalAdmitted, totalCompleted)
           == Clear(Registry(old(tasks), old(totalAdmitted), old(totalCompleted)), key)
    {
      tasks := tasks - {key};
      totalCompleted := totalCompleted + 1;
    }
  }

  datatype Registry = Registry(tasks: map<string, nat>, admitted: nat, completed: nat)

  function Admit(r: Registry, key: string, task: nat): Registry {
    Registry(r.tasks[key := task], r.admitted + 1, r.completed)
  }

  function Clear(r: Registry, key: string): Registry {
    Registry(r.tasks - {key}, r.admitted, r.completed + 1)
  }

  // ---- whole runs ----

  datatype Event =
    | Start(task: nat, key: string)  // a new task is created and registered
    | Finish(task: nat)              // its result is set
    | Callback(task: nat)            // its done-callback runs

  /** The registry with its tasks themselves: `open` are those whose callback has
      not run, by their key, and `ended` those that have finished. */
  datatype State = State(registry: Registry, seen: set<nat>, open: map<nat, string>, ended: set<nat>)

  const EMPTY := State(Registry(map[], 0, 0), {}, map[], {})

  /** One event; one that cannot happen now changes nothing. */
  function Step(s: State, e: Event): State {
    match e
    case Start(task, key) =>
      if task in s.seen then s
      else State(Admit(s.registry, key, task), s.seen + {task}, s.open[task := key], s.ended)
    case Finish(task) => if task in s.open then s.(ended := s.ended + {task}) else s
    case Callback(task) =>
      if task in s.open && task in s.ended
      then s.(registry := Clear(s.registry, s.open[task]), open := s.open - {task}) else s
  }

  function Run(events: seq<Event>): State {
    if events == [] then EMPTY else Step(Run(events[..|events| - 1]), events[|events| - 1])
  }

  /** The key of a task being started is not the key of an unfinished one. */
  ghost predicate FreshKey(s: State, e: Event) {
    e.Start? && e.task !in s.seen ==> forall t :: t in s.open ==> s.open[t] != e.key
  }

  ghost predicate FreshKeys(events: seq<Event>) {
    forall i :: 0 <= i < |events| ==> FreshKey(Run(events[..i]), events[i])
  }

  /** True of every run: the totals count all open tasks. */
  ghost predicate Counted(s: State) {
    && s.registry.admitted == s.registry.completed + |s.open|
    && s.open.Keys <= s.seen
    && (forall t :: t in s.seen ==> t in s.open || t in s.ended)
  }

  /** The table lists exactly the open tasks, each under its key. */
  ghost predicate Exact(s: State) {
    && (forall t :: t in s.open ==> s.open[t] in s.registry.tasks && s.registry.tasks[s.open[t]] == t)
    && (forall k :: k in s.registry.tasks ==> s.registry.tasks[k] in s.open && s.open[s.registry.tasks[k]] == k)
  }

  lemma MapMinus<K, V>(m: map<K, V>, k: K)
    requires k in m
    ensures |m - {k}| == |m| - 1
  {
    assert (m - {k}).Keys == m.Keys - {k};
    assert |m.Keys| == |m| && |(m - {k}).Keys| == |m - {k}|;
  }

  lemma StepCounted(s: State, e: Event)
    requires Counted(s)
    ensures Counted(Step(s, e))
  {
    if e.Callback? && e.task in s.open && e.task in s.ended { MapMinus(s.open, e.task); }
  }

  lemma {:induction false} RunCounted(events: seq<Event>)
    ensures Counted(Run(events))
  {
    if events != [] {
      RunCounted(events[..|events| - 1]);
      StepCounted(Run(events[..|events| - 1]), events[|events| - 1]);
    }
  }

  lemma StepExact(s: State, e: Event)
    requires Exact(s) && FreshKey(s, e) && Counted(s)
    ensures Exact(Step(s, e))
  {
  }

  lemma {:induction false} RunExact(events: seq<Event>)
    requires FreshKeys(events)
    ensures Exact(Run(events))
  {
    if events != [] {
      var before := events[..|events| - 1];
      forall i | 0 <= i < |before| ensures FreshKey(Run(before[..i]), before[i]) {
        assert before[..i] == events[..i];
      }
      RunExact(before);
      RunCounted(before);
      StepExact(Run(before), events[|events| - 1]);
    }
  }

  /** Inverse maps have the same size. */
  lemma {:induction false} InverseSize(f: map<nat, string>, g: map<string, nat>)
    requires forall t :: t in f ==> f[t] in g && g[f[t]] == t
    requires forall k :: k in g ==> g[k] in f && f[g[k]] == k
    ensures |f| == |g|
    decreases |f|
  {
    if f.Keys == {} {
      assert g.Keys == {};
      assert |f.Keys| == |f| && |g.Keys| == |g|;
    } else {
      var t :| t in f.Keys;
      MapMinus(f, t);
      MapMinus(g, f[t]);
      InverseSize(f - {t}, g - {f[t]});
    }
  }

  ghost predicate CountsMatch(s: State) {
    |s.registry.tasks| + s.registry.completed == s.registry.admitted
  }

  ghost predicate AlwaysCountsMatch(events: seq<Event>) {
    forall i :: 0 <= i <= |events| ==> CountsMatch(Run(events[..i]))
  }

  lemma SplitLast(events: seq<Event>, before: seq<Event>, e: Event)
    requires events == before + [e]
    ensures AlwaysCountsMatch(events) <==> AlwaysCountsMatch(before) && CountsMatch(Run(events))
    ensures FreshKeys(events) <==> FreshKeys(before) && FreshKey(Run(before), e)
  {
    assert forall i :: 0 <= i <= |before| ==> events[..i] == before[..i];
    assert events[..|events|] == events && before[..|before|] == before && events[..|before|] == before;
    if AlwaysCountsMatch(before) && CountsMatch(Run(events)) {
      forall i | 0 <= i <= |events| ensures CountsMatch(Run(events[..i])) {
        if i < |events| { assert CountsMatch(Run(before[..i])); }
      }
    }
    if AlwaysCountsMatch(events) {
      forall i | 0 <= i <= |before| ensures CountsMatch(Run(before[..i])) {
        assert CountsMatch(Run(events[..i]));
      }
      assert CountsMatch(Run(events[..|events|]));
    }
    if FreshKeys(events) {
      forall i | 0 <= i < |before| ensures FreshKey(Run(before[..i]), before[i]) {
        assert FreshKey(Run(events[..i]), events[i]);
      }
      assert FreshKey(Run(events[..|before|]), events[|before|]);
    }
    if FreshKeys(before) && FreshKey(Run(before), e) {
      forall i | 0 <= i < |events| ensures FreshKey(Run(events[..i]), events[i]) {
        if i < |before| { assert FreshKey(Run(before[..i]), before[i]); }
      }
    }
  }

  /** Main result, exact: throughout a run the table has admitted minus completed
      entries if and only if no task was started under the key of an unfinished one. */
  lemma {:induction false} CountsMatchExactly(events: seq<Event>)
    ensures AlwaysCountsMatch(events) <==> FreshKeys(events)
    decreases |events|
  {
    if events == [] {
      assert CountsMatch(Run([]));
      assert forall i :: 0 <= i <= 0 ==> events[..i] == [];
    } else {
      var before, e := events[..|events| - 1], events[|events| - 1];
      SplitLast(events, before, e);
      CountsMatchExactly(before);
      if FreshKeys(before) {
        RunExact(before);
        RunCounted(before);
        InverseSize(Run(before).open, Run(before).registry.tasks);
        StepCounts(Run(before), e);
      }
    }
  }

  /** From an exact table, the counts still match exactly when the key is fresh. */
  lemma StepCounts(s: State, e: Event)
    requires Exact(s) && Counted(s) && CountsMatch(s)
    ensures CountsMatch(Step(s, e)) <==> FreshKey(s, e)
  {
    if e.Callback? && e.task in s.open && e.task in s.ended { MapMinus(s.registry.tasks, s.open[e.task]); }
    if e.Start? && e.task !in s.seen {
      assert e.key in s.registry.tasks <==> exists t :: t in s.open && s.open[t] == e.key;
    }
  }

  /** Every task still running is in the table, under its key. */
  ghost predicate RunningListed(s: State) {
    forall t :: t in s.seen && t !in s.ended ==>
      t in s.open && s.open[t] in s.registry.tasks && s.registry.tasks[s.open[t]] == t
  }

  /** Main result: with fresh keys every running task is listed. */
  lemma RunningAreListed(events: seq<Event>)
    requires FreshKeys(events)
    ensures RunningListed(Run(events))
  {
    RunExact(events);
    RunCounted(events);
  }

  ghost predicate NoStarts(events: seq<Event>) { forall e :: e in events ==> !e.Start? }

  lemma {:induction false} FreshWithoutStarts(events: seq<Event>, rest: seq<Event>)
    requires FreshKeys(events) && NoStarts(rest)
    ensures FreshKeys(events + rest)
  {
    if rest == [] {
      assert events + rest == events;
    } else {
      var last := |rest| - 1;
      FreshWithoutStarts(events, rest[..last]);
      assert events + rest == (events + rest[..last]) + [rest[last]];
      assert rest[last] in rest;
      SplitLast(events + rest, events + rest[..last], rest[last]);
    }
  }

  lemma RunLast(events: seq<Event>, e: Event)
    ensures Run(events + [e]) == Step(Run(events), e)
  {
    assert (events + [e])[..|events|] == events;
  }

  lemma RunThree(events: seq<Event>, a: Event, b: Event, c: Event)
    ensures Run(events + [a] + [b, c]) == Step(Step(Step(Run(events), a), b), c)
  {
    assert events + [a] + [b, c] == events + [a] + [b] + [c];
    RunLast(events + [a] + [b], c);
    RunLast(events + [a], b);
    RunLast(events, a);
  }

  /** The older task's callback clears the newer task, still running, from the table. */
  lemma ReusedKeyLosesTask(events: seq<Event>, e: Event) returns (rest: seq<Event>)
    requires FreshKeys(events) && !FreshKey(Run(events), e)
    ensures NoStarts(rest) && !RunningListed(Run(events + [e] + rest))
  {
    var s := Run(events);
    RunExact(events);
    RunCounted(events);
    RunEnded(events);
    var t :| t in s.open && s.open[t] == e.key;
    rest := [Finish(t), Callback(t)];
    RunThree(events, e, Finish(t), Callback(t));
    var s' := Run(events + [e] + rest);
    assert e.task in s'.seen && e.task !in s'.ended && e.task in s'.open;
    assert e.key !in s'.registry.tasks;
  }

  lemma {:induction false} RunEnded(events: seq<Event>)
    ensures Run(events).ended <= Run(events).seen
  {
    if events != [] {
      RunEnded(events[..|events| - 1]);
      RunCounted(events[..|events| - 1]);
    }
  }

  /** Main result, exact: starting a task keeps every running task listed, whatever
      finishes and calls back afterwards, if and only if its key is not the key of a
      task whose callback has not run. */
  lemma ListedExactly(events: seq<Event>, e: Event)
    requires FreshKeys(events)
    ensures FreshKey(Run(events), e) <==>
            forall rest :: NoStarts(rest) ==> RunningListed(Run(events + [e] + rest))
  {
    if FreshKey(Run(events), e) {
      SplitLast(events + [e], events, e);
      forall rest | NoStarts(rest) ensures RunningListed(Run(events + [e] + rest)) {
        FreshWithoutStarts(events + [e], rest);
        RunningAreListed(events + [e] + rest);
      }
    } else {
      var rest := ReusedKeyLosesTask(events, e);
      assert NoStarts(rest) && !RunningListed(Run(events + [e] + rest));
    }
  }

  // ---- drain_in_flight ----

  function LiveKeys(s: State): set<string> {
    set k | k in s.registry.tasks && s.registry.tasks[k] !in s.ended
  }

  /** What a sweep cancels. */
  function LiveTasks(s: State): set<nat> {
    set k | k in LiveKeys(s) :: s.registry.tasks[k]
  }

  /** `interrupted` are the keys handed to the interrupt callback, `cancelled` the tasks
      cancelled before each sleep of the sweep. */
  datatype Report = Report(
    admitted: nat, completed: nat, liveAfterGrace: nat, survivors: nat, manualRestart: bool,
    interrupted: set<string>, cancelled: seq<set<nat>>, graceSleeps: nat, sleeps: nat)

  function Max(a: int, b: int): int { if a > b then a else b }

  /** A sleep takes time, and events of the one run happen during it: `at(n)` of them
      had happened after the n-th sleep, and the time was `clock(n)`. */
  ghost predicate Sleeps(events: seq<Event>, at: nat -> nat, clock: nat -> int, n: nat) {
    at(n) <= at(n + 1) <= |events| && clock(n) < clock(n + 1)
  }

  /** What the drain observes after its n-th sleep. */
  function Seen(events: seq<Event>, at: nat -> nat, n: nat): State {
    if at(n) <= |events| then Run(events[..at(n)]) else EMPTY
  }

  ghost predicate GraceOver(events: seq<Event>, at: nat -> nat, clock: nat -> int, grace: int, n: nat) {
    LiveKeys(Seen(events, at, n)) == {} || clock(n) >= clock(0) + Max(0, grace)
  }

  ghost predicate SweepOver(events: seq<Event>, at: nat -> nat, clock: nat -> int, sweep: int, from: nat, n: nat) {
    |Seen(events, at, n).registry.tasks| == 0 || clock(n) >= clock(from) + Max(0, sweep)
  }

  /** Before each sleep of the sweep the tasks then live are cancelled. */
  ghost predicate CancelsLive(events: seq<Event>, at: nat -> nat, start: nat, n: nat, cancelled: seq<set<nat>>) {
    && |cancelled| == n - start
    && forall i :: start <= i < n ==> cancelled[i - start] == LiveTasks(Seen(events, at, i))
  }

  /** The totals and the verdict are those of the last state seen. */
  predicate Reports(r: Report, last: State) {
    && r.survivors == |LiveKeys(last)| && (r.manualRestart <==> r.survivors > 0)
    && r.admitted == last.registry.admitted && r.completed == last.registry.completed
  }

  /** Every task ever admitted is done. */
  predicate AllDone(s: State) { s.seen <= s.ended }

  /** Main result about the drain: it stops at the first moment allowed, in both
      windows, interrupts and cancels what is then running, and reports what it last
      sees; with fresh keys it reports no manual restart exactly when every task ever
      admitted is done. */
  method DrainInFlight(events: seq<Event>, at: nat -> nat, clock: nat -> int, grace: int, sweep: int, interrupt: bool)
    returns (r: Report)
    requires forall n :: Sleeps(events, at, clock, n)
    ensures GraceOver(events, at, clock, grace, r.graceSleeps)
    ensures forall i :: 0 <= i < r.graceSleeps ==> !GraceOver(events, at, clock, grace, i)
    ensures r.graceSleeps <= r.sleeps && SweepOver(events, at, clock, sweep, r.graceSleeps, r.sleeps)
    ensures forall i :: r.graceSleeps <= i < r.sleeps ==> !SweepOver(events, at, clock, sweep, r.graceSleeps, i)
    ensures r.liveAfterGrace == |LiveKeys(Seen(events, at, r.graceSleeps))|
    ensures r.interrupted == if interrupt then LiveKeys(Seen(events, at, r.graceSleeps)) else {}
    ensures CancelsLive(events, at, r.graceSleeps, r.sleeps, r.cancelled)
    ensures Reports(r, Seen(events, at, r.sleeps))
    ensures FreshKeys(events) ==> (!r.manualRestart <==> AllDone(Seen(events, at, r.sleeps)))
  {
    var graceSleeps := AwaitGrace(events, at, clock, grace);
    var remaining := LiveKeys(Seen(events, at, graceSleeps));
    var interrupted := if interrupt then remaining else {};
    var n, cancelled := Sweep(events, at, clock, sweep, graceSleeps);
    assert Sleeps(events, at, clock, n);
    var last := Seen(events, at, n);
    var survivors := |LiveKeys(last)|;
    if FreshKeys(events) { NoneLiveSeen(events, at, n); }
    r := Report(last.registry.admitted, last.registry.completed, |remaining|, survivors, survivors > 0,
                interrupted, cancelled, graceSleeps, n);
  }

  /** The first loop. */
  method AwaitGrace(events: seq<Event>, at: nat -> nat, clock: nat -> int, grace: int) returns (n: nat)
    requires forall n :: Sleeps(events, at, clock, n)
    ensures GraceOver(events, at, clock, grace, n)
    ensures forall i :: 0 <= i < n ==> !GraceOver(events, at, clock, grace, i)
  {
    n := 0;
    var deadline := clock(0) + Max(0, grace);
    while |LiveKeys(Seen(events, at, n))| > 0 && clock(n) < deadline
      invariant forall i :: 0 <= i < n ==> !GraceOver(events, at, clock, grace, i)
      decreases deadline - clock(n)
    {
      assert Sleeps(events, at, clock, n);
      n := n + 1;
    }
  }

  /** The second loop, which cancels before every sleep. */
  method Sweep(events: seq<Event>, at: nat -> nat, clock: nat -> int, sweep: int, start: nat)
    returns (n: nat, cancelled: seq<set<nat>>)
    requires forall n :: Sleeps(events, at, clock, n)
    ensures start <= n && SweepOver(events, at, clock, sweep, start, n)
    ensures forall i :: start <= i < n ==> !SweepOver(events, at, clock, sweep, start, i)
    ensures CancelsLive(events, at, start, n, cancelled)
  {
    n, cancelled := start, [];
    var deadline := clock(start) + Max(0, sweep);
    while |Seen(events, at, n).registry.tasks| > 0 && clock(n) < deadline
      invariant start <= n && CancelsLive(events, at, start, n, cancelled)
      invariant forall i :: start <= i < n ==> !SweepOver(events, at, clock, sweep, start, i)
      decreases deadline - clock(n)
    {
      cancelled := cancelled + [LiveTasks(Seen(events, at, n))];
      assert Sleeps(events, at, clock, n);
      n := n + 1;
    }
  }

  lemma NoneLiveSeen(events: seq<Event>, at: nat -> nat, n: nat)
    requires FreshKeys(events) && at(n) <= |events|
    ensures |LiveKeys(Seen(events, at, n))| == 0 <==> AllDone(Seen(events, at, n))
  {
    FreshPrefix(events, at(n));
    NoneLiveMeansAllDone(events[..at(n)]);
  }

  /** With fresh keys, what the drain finds live is exactly what was started and is not
      done: those tasks, by their keys. */
  lemma LiveExact(events: seq<Event>)
    requires FreshKeys(events)
    ensures var s := Run(events);
      && LiveTasks(s) == s.seen - s.ended
      && (forall k :: k in LiveKeys(s) <==> exists t :: t in s.open && t !in s.ended && s.open[t] == k)
  {
    var s := Run(events);
    RunExact(events);
    RunCounted(events);
    forall t ensures t in LiveTasks(s) <==> t in s.seen && t !in s.ended {
      if t in s.seen && t !in s.ended { assert s.open[t] in LiveKeys(s); }
    }
    forall k | k in LiveKeys(s) ensures exists t :: t in s.open && t !in s.ended && s.open[t] == k {
      assert s.open[s.registry.tasks[k]] == k;
    }
  }

  lemma FreshPrefix(events: seq<Event>, k: nat)
    requires FreshKeys(events) && k <= |events|
    ensures FreshKeys(events[..k])
  {
    forall i | 0 <= i < k ensures FreshKey(Run(events[..k][..i]), events[..k][i]) {
      assert events[..k][..i] == events[..i];
    }
  }

  /** With fresh keys, nothing is live exactly when every task ever admitted is done. */
  lemma NoneLiveMeansAllDone(events: seq<Event>)
    requires FreshKeys(events)
    ensures |LiveKeys(Run(events))| == 0 <==> AllDone(Run(events))
  {
    var s := Run(events);
    RunExact(events);
    RunCounted(events);
    if LiveKeys(s) == {} {
      forall t | t in s.seen ensures t in s.ended {
        if t in s.open { assert s.open[t] !in LiveKeys(s); }
      }
    } else {
      var k :| k in LiveKeys(s);
      assert s.registry.tasks[k] in s.seen;
    }
  }
}
