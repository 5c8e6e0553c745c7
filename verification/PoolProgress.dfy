/** When the gated pool gets anywhere: freedom from deadlock, and exactly which configurations it
    can finish. */
module PoolProgress {
  import opened Seqs
  import opened GatedPool
  import opened PoolOutcome

  // ----- Freedom from deadlock -----

  /** rank numbers the resources so that included ones come after their included dependencies. */
  ghost predicate Ranks(c: Config, rank: map<Name, nat>) {
    && (forall r :: r in c.order ==> r in rank)
    && (forall r, d :: r in c.order && r in c.included && d in Deps(c, r) && d in c.order && d in c.included ==>
          rank[d] < rank[r])
  }

  ghost predicate Acyclic(c: Config) {
    exists rank :: Ranks(c, rank)
  }

  /** Queue order lists the included dependencies of an included resource before it. */
  ghost predicate DepsFirst(c: Config) {
    forall k, d | 0 <= k < |c.order| && c.order[k] in c.included && d in Deps(c, c.order[k]) :: d in c.order[..k]
  }

  ghost predicate Stuck(c: Config, s: State) {
    forall t: nat :: !Enabled(c, s, t)
  }

  /** The dependency a blocked thread waits for, and the thread that holds it. */
  lemma BlockedOn(c: Config, s: State, t: nat) returns (d: Name)
    requires WellFormed(c) && Inv(c, s) && t < |s.threads| && s.threads[t].Wait? && !Enabled(c, s, t)
    ensures s.threads[t].i < |Deps(c, s.threads[t].r)| && d == Deps(c, s.threads[t].r)[s.threads[t].i]
    ensures d in Deps(c, s.threads[t].r) && d in c.order && d !in s.done
    ensures s.threads[t].r in c.order && s.threads[t].r in c.included
    ensures d in s.queue || exists u: nat :: HeldBy(s, u, d)
  {
    assert ThreadVerdict(c, s, s.threads[t]);
    d := Deps(c, s.threads[t].r)[s.threads[t].i];
    assert d in c.order;
    assert !InResults(s, d);
  }

  // ----- Which workers come to an end -----

  /** r's worker ends, along a chain of length <= n: it is excluded, or cannot compute its
      dependencies, or the dependencies it waits for end, up to the first errored one if any. */
  ghost predicate FinishesWithin(c: Config, r: Name, n: nat)
    decreases n
  {
    || r !in c.included || r in c.gateFails
    || (n > 0 &&
        exists i: nat :: i <= |Deps(c, r)| && StopsAt(c, r, i) && forall j :: 0 <= j < i ==> FinishesWithin(c, Deps(c, r)[j], n - 1))
  }

  /** r needs to wait for no more than its first i dependencies. */
  ghost predicate StopsAt(c: Config, r: Name, i: nat)
    requires i <= |Deps(c, r)|
  {
    i == |Deps(c, r)| || (i > 0 && Bad(c, Deps(c, r)[i - 1]))
  }

  ghost predicate Finishes(c: Config, r: Name) {
    exists n: nat :: FinishesWithin(c, r, n)
  }

  ghost predicate AllFinish(c: Config) {
    forall r :: r in c.order ==> Finishes(c, r)
  }

  lemma {:induction false} FinishesMore(c: Config, r: Name, n: nat, m: nat)
    requires FinishesWithin(c, r, n) && n <= m
    ensures FinishesWithin(c, r, m)
    decreases n
  {
    if r in c.included && r !in c.gateFails {
      var i: nat :| i <= |Deps(c, r)| && StopsAt(c, r, i) &&
        forall j :: 0 <= j < i ==> FinishesWithin(c, Deps(c, r)[j], n - 1);
      forall j | 0 <= j < i
        ensures FinishesWithin(c, Deps(c, r)[j], m - 1)
      {
        FinishesMore(c, Deps(c, r)[j], n - 1, m - 1);
      }
    }
  }

  /** A worker ends if the dependencies up to where it stops do. */
  lemma DepsFinish(c: Config, r: Name, i: nat)
    requires i <= |Deps(c, r)| && StopsAt(c, r, i)
    requires forall j :: 0 <= j < i ==> Finishes(c, Deps(c, r)[j])
    ensures Finishes(c, r)
  {
    var n: nat := 0;
    for k := 0 to i
      invariant forall j :: 0 <= j < k ==> FinishesWithin(c, Deps(c, r)[j], n)
    {
      var m: nat :| FinishesWithin(c, Deps(c, r)[k], m);
      forall j | 0 <= j <= k
        ensures FinishesWithin(c, Deps(c, r)[j], n + m)
      {
        FinishesMore(c, Deps(c, r)[j], if j < k then n else m, n + m);
      }
      n := n + m;
    }
    assert FinishesWithin(c, r, n + 1);
  }

  lemma RankBelow(c: Config, rank: map<Name, nat>, r: Name, j: nat)
    requires WellFormed(c) && Ranks(c, rank) && r in c.order && r in c.included && j < |Deps(c, r)|
    ensures var d := Deps(c, r)[j];
            d in c.order && d in rank && (d in c.included ==> rank[d] < rank[r])
  {
    assert Deps(c, r)[j] in Deps(c, r);
  }

  /** Where included dependencies are acyclic every worker ends. */
  lemma {:induction false} RankFinishes(c: Config, rank: map<Name, nat>, r: Name)
    requires WellFormed(c) && Ranks(c, rank) && r in c.order && r in rank
    ensures FinishesWithin(c, r, rank[r] + 1)
    decreases rank[r]
  {
    if r in c.included {
      forall j | 0 <= j < |Deps(c, r)|
        ensures FinishesWithin(c, Deps(c, r)[j], rank[r])
      {
        RankBelow(c, rank, r, j);
        hide Ranks, WellFormed, Deps;
        var d := Deps(c, r)[j];
        if d in c.included {
          RankFinishes(c, rank, d);
          FinishesMore(c, d, rank[d] + 1, rank[r]);
        } else {
          EndsAtOnce(c, d);
        }
      }
      AllDepsFinish(c, r, rank[r]);
    } else {
      EndsAtOnce(c, r);
    }
  }

  lemma AllDepsFinish(c: Config, r: Name, n: nat)
    requires forall j :: 0 <= j < |Deps(c, r)| ==> FinishesWithin(c, Deps(c, r)[j], n)
    ensures FinishesWithin(c, r, n + 1)
  {
    hide Deps;
    assert StopsAt(c, r, |Deps(c, r)|);
  }

  lemma AcyclicFinishes(c: Config)
    requires WellFormed(c) && Acyclic(c)
    ensures AllFinish(c)
  {
    var rank :| Ranks(c, rank);
    forall r | r in c.order
      ensures Finishes(c, r)
    {
      RankFinishes(c, rank, r);
    }
  }

  // ----- A stuck pool has a worker that does not end -----

  /** All threads wait or have exited, and nothing that is waited for is still queued. */
  ghost predicate AllWait(c: Config, s: State) {
    && Stuck(c, s)
    && forall u, d :: 0 <= u < |s.threads| && s.threads[u].Wait? && d in Deps(c, s.threads[u].r) ==> d !in s.queue
  }

  /** In a stuck pool, whoever waits waits for someone who would end earlier. */
  lemma {:induction false} NextInChain(c: Config, s: State, t: nat, n: nat) returns (u: nat)
    requires WellFormed(c) && Inv(c, s) && AllWait(c, s)
    requires t < |s.threads| && s.threads[t].Wait? && FinishesWithin(c, s.threads[t].r, n)
    ensures n > 0 && u < |s.threads| && s.threads[u].Wait? && FinishesWithin(c, s.threads[u].r, n - 1)
  {
    assert !Enabled(c, s, t);
    var d := BlockedOn(c, s, t);
    u :| HeldBy(s, u, d);
    assert !Enabled(c, s, u) && s.threads[u].Wait?;
    PassedAreGood(c, s, t);
    hide Inv, Bad, StopsAt, WellFormed, Stuck;
    var (r, k) := (s.threads[t].r, s.threads[t].i);
    var i: nat :| i <= |Deps(c, r)| && StopsAt(c, r, i) &&
      forall j :: 0 <= j < i ==> FinishesWithin(c, Deps(c, r)[j], n - 1);
    assert k < i && Deps(c, r)[k] == d;
  }

  lemma {:induction false} NoWaitChain(c: Config, s: State, t: nat, n: nat)
    requires WellFormed(c) && Inv(c, s) && AllWait(c, s)
    requires t < |s.threads| && s.threads[t].Wait? && FinishesWithin(c, s.threads[t].r, n)
    ensures false
    decreases n
  {
    hide Inv, AllWait, FinishesWithin, WellFormed;
    var u := NextInChain(c, s, t, n);
    NoWaitChain(c, s, u, n - 1);
  }

  /** The dependencies a waiting worker has passed are not bad. */
  lemma PassedAreGood(c: Config, s: State, t: nat)
    requires Inv(c, s) && t < |s.threads| && s.threads[t].Wait?
    ensures var (r, k) := (s.threads[t].r, s.threads[t].i);
            && r in c.included && r !in c.gateFails && k <= |Deps(c, r)|
            && forall i: nat :: i <= |Deps(c, r)| && StopsAt(c, r, i) ==> k < i || k == |Deps(c, r)|
  {
    assert ThreadVerdict(c, s, s.threads[t]);
    var (r, k) := (s.threads[t].r, s.threads[t].i);
    forall j | 0 <= j < k
      ensures !Bad(c, Deps(c, r)[j])
    {
      DoneClean(c, s, Deps(c, r)[j]);
    }
  }

  lemma {:induction false} AllBusyCount(threads: seq<Pc>)
    requires forall t :: 0 <= t < |threads| ==> Busy(threads[t])
    ensures BusyCount(threads) == |threads|
  {
    if threads != [] {
      AllBusyCount(threads[1..]);
    }
  }

  /** At least one worker per task, as with `nr_workers=-1`, each of which can come to an end: some thread can move
      until every thread has exited. */
  lemma NoDeadlockIfAllFinish(c: Config, s: State)
    requires WellFormed(c) && Inv(c, s) && AllFinish(c)
    requires |s.threads| >= |c.order| && !Complete(s)
    ensures exists t: nat :: Enabled(c, s, t)
  {
    if Stuck(c, s) {
      forall t | 0 <= t < |s.threads|
        ensures s.threads[t].Wait? || s.threads[t].Exited?
      {
        assert !Enabled(c, s, t);
      }
      if s.queue != [] {
        AllBusyCount(s.threads);
        assert false;
      }
      var t :| 0 <= t < |s.threads| && s.threads[t] != Exited;
      assert s.threads[t].r in c.order;
      var n: nat :| FinishesWithin(c, s.threads[t].r, n);
      NoWaitChain(c, s, t, n);
    }
  }

  /** In particular with acyclic dependencies. */
  lemma NoDeadlockOneWorkerPerTask(c: Config, s: State)
    requires WellFormed(c) && Inv(c, s) && Acyclic(c)
    requires |s.threads| >= |c.order| && !Complete(s)
    ensures exists t: nat :: Enabled(c, s, t)
  {
    AcyclicFinishes(c);
    NoDeadlockIfAllFinish(c, s);
  }

  /** Any number of workers is enough when the queue lists dependencies first. */
  lemma NoDeadlockDepsFirst(c: Config, s: State)
    requires WellFormed(c) && Inv(c, s) && DepsFirst(c)
    requires !Complete(s)
    ensures exists t: nat :: Enabled(c, s, t)
  {
    if Stuck(c, s) {
      var t :| 0 <= t < |s.threads| && s.threads[t] != Exited;
      assert !Enabled(c, s, t);
      forall u, d | 0 <= u < |s.threads| && s.threads[u].Wait? && d in Deps(c, s.threads[u].r)
        ensures d !in s.queue
      {
        assert ThreadVerdict(c, s, s.threads[u]);
        TakenBefore(c, s, s.threads[u].r, d);
      }
      var rank := DepsFirstRanks(c);
      RankFinishes(c, rank, s.threads[t].r);
      NoWaitChain(c, s, t, rank[s.threads[t].r] + 1);
    }
  }

  lemma TakenBefore(c: Config, s: State, r: Name, d: Name)
    requires WellFormed(c) && Placement(c, s) && DepsFirst(c)
    requires r in c.order && r in c.included && r !in s.queue && d in Deps(c, r)
    ensures d !in s.queue
  {
    var k :| 0 <= k < |c.order| && c.order[k] == r;
    var taken := |c.order| - |s.queue|;
    assert forall j :: taken <= j < |c.order| ==> c.order[j] == s.queue[j - taken];
    var l :| 0 <= l < k && c.order[l] == d;
    forall j | 0 <= j < |s.queue|
      ensures s.queue[j] != d
    {
      assert s.queue[j] == c.order[taken + j];
    }
  }

  lemma DepsFirstRanks(c: Config) returns (rank: map<Name, nat>)
    requires WellFormed(c) && DepsFirst(c)
    ensures Ranks(c, rank)
  {
    rank := PositionMap(c.order);
    forall r, d | r in c.order && r in c.included && d in Deps(c, r) && d in c.order && d in c.included
      ensures rank[d] < rank[r]
    {
      var k :| 0 <= k < |c.order| && c.order[k] == r;
      var l :| 0 <= l < k && c.order[l] == d;
      assert rank[c.order[k]] == k && rank[c.order[l]] == l;
    }
  }

  /** The position of each element of a sequence without repetitions. */
  lemma {:induction false} PositionMap(xs: seq<Name>) returns (pos: map<Name, nat>)
    requires NoDup(xs)
    ensures forall k :: 0 <= k < |xs| ==> xs[k] in pos && pos[xs[k]] == k
  {
    if xs == [] {
      pos := map[];
    } else {
      var n := |xs| - 1;
      var before := PositionMap(xs[..n]);
      pos := before[xs[n] := n];
      forall k | 0 <= k < |xs|
        ensures xs[k] in pos && pos[xs[k]] == k
      {
        if k < n {
          assert xs[..n][k] == xs[k];
        }
      }
    }
  }

  // ----- Acyclicity is exactly what completion needs -----

  lemma StepKeeps(c: Config, s: State, t: nat)
    requires WellFormed(c) && Inv(c, s) && Enabled(c, s, t)
    ensures var s' := Step(c, s, t);
            Inv(c, s') && |s'.threads| == |s.threads| && Measure(c, s') < Measure(c, s)
  {
    hide Step, Measure, Placement, Events, Verdicts, DoneOrder, Enabled;
    StepInv(c, s, t);
    StepDecreases(c, s, t);
    ThreadCount(c, s, t);
  }

  lemma ThreadCount(c: Config, s: State, t: nat)
    requires PcsOk(c, s) && Enabled(c, s, t)
    ensures |Step(c, s, t).threads| == |s.threads|
  {
  }

  lemma {:induction false} RunToCompletion(c: Config, s: State, fuel: nat) returns (sched: seq<nat>, s': State)
    requires WellFormed(c) && Inv(c, s) && AllFinish(c) && |s.threads| >= |c.order| && Measure(c, s) <= fuel
    ensures Runs(c, s, sched, s') && Complete(s')
    decreases fuel
  {
    if Complete(s) {
      sched, s' := [], s;
    } else {
      NoDeadlockIfAllFinish(c, s);
      var t: nat :| Enabled(c, s, t);
      StepKeeps(c, s, t);
      var next := Step(c, s, t);
      var rest;
      rest, s' := RunToCompletion(c, next, fuel - 1);
      sched := [t] + rest;
      assert sched[1..] == rest;
    }
  }

  lemma CleanCompletionRanks(c: Config, s: State)
    requires WellFormed(c) && Inv(c, s) && Complete(s) && |s.threads| > 0 && s.errored == {}
    ensures Acyclic(c)
  {
    AllInResults(c, s);
    var rank := PositionMap(s.done);
    forall r | r in c.order
      ensures r in s.done
    {
      var k :| 0 <= k < |s.results| && s.results[k].name == r;
    }
    forall r, d | r in c.order && r in c.included && d in Deps(c, r) && d in c.order && d in c.included
      ensures rank[d] < rank[r]
    {
      var k :| 0 <= k < |s.done| && s.done[k] == r;
      assert d in s.done[..k];
      var l :| 0 <= l < k && s.done[l] == d;
      assert rank[s.done[k]] == k && rank[s.done[l]] == l;
    }
    assert Ranks(c, rank);
  }

  lemma CleanRunRanks(c: Config, sched: seq<nat>, s: State)
    requires WellFormed(c) && c.gateFails == {} && c.fails == {} && |c.order| > 0
    requires Runs(c, Init(c, |c.order|), sched, s) && Complete(s)
    ensures Acyclic(c)
  {
    InitInv(c, |c.order|);
    RunBlame(c, Init(c, |c.order|), sched, s);
    ThreadsKept(c, Init(c, |c.order|), sched, s);
    forall r, n: nat
      ensures !BadWithin(c, r, n)
    {
      NothingBad(c, r, n);
    }
    assert forall r :: r in s.errored ==> Bad(c, r);
    CleanCompletionRanks(c, s);
  }

  ghost predicate CanComplete(c: Config, workers: nat) {
    exists sched, s :: Runs(c, Init(c, workers), sched, s) && Complete(s)
  }

  /** When nothing fails by itself, the pool can finish if and only if the dependencies among
      included resources are acyclic. */
  lemma CompletesIffAcyclic(c: Config)
    requires WellFormed(c) && c.gateFails == {} && c.fails == {} && |c.order| > 0
    ensures CanComplete(c, |c.order|) <==> Acyclic(c)
  {
    if Acyclic(c) {
      AcyclicFinishes(c);
      InitInv(c, |c.order|);
      var sched, s := RunToCompletion(c, Init(c, |c.order|), Measure(c, Init(c, |c.order|)));
    }
    if CanComplete(c, |c.order|) {
      var sched, s :| Runs(c, Init(c, |c.order|), sched, s) && Complete(s);
      CleanRunRanks(c, sched, s);
    }
  }

  lemma {:induction false} NothingBad(c: Config, r: Name, n: nat)
    requires c.gateFails == {} && c.fails == {}
    ensures !BadWithin(c, r, n)
    decreases n
  {
    forall d | n > 0 && d in Deps(c, r)
      ensures !BadWithin(c, d, n - 1)
    {
      NothingBad(c, d, n - 1);
    }
  }

  // ----- What completion needs when workers fail -----

  /** What is known to end in a reachable state. */
  ghost predicate Ending(c: Config, s: State) {
    && (forall r :: r in s.done ==> Finishes(c, r))
    && (forall t :: 0 <= t < |s.threads| ==> ThreadEnding(c, s.threads[t]))
  }

  ghost predicate ThreadEnding(c: Config, pc: Pc) {
    match pc
    case Wait(r, i) => i <= |Deps(c, r)| && forall j :: 0 <= j < i ==> Finishes(c, Deps(c, r)[j])
    case Check(r, i) => i < |Deps(c, r)| && forall j :: 0 <= j <= i ==> Finishes(c, Deps(c, r)[j])
    case Act(r) => Finishes(c, r)
    case Finally(r, _) => Finishes(c, r)
    case Put(r, _) => Finishes(c, r)
    case _ => true
  }

  lemma StepEnding(c: Config, s: State, t: nat)
    requires WellFormed(c) && Inv(c, s) && Blame(c, s) && Ending(c, s) && Enabled(c, s, t)
    ensures Ending(c, Step(c, s, t))
  {
    var s' := Step(c, s, t);
    assert ThreadEnding(c, s.threads[t]);
    MoverEnding(c, s, t);
    forall u | 0 <= u < |s'.threads|
      ensures ThreadEnding(c, s'.threads[u])
    {
      assert u != t ==> s'.threads[u] == s.threads[u];
    }
  }

  lemma MoverEnding(c: Config, s: State, t: nat)
    requires Inv(c, s) && Blame(c, s) && Enabled(c, s, t) && ThreadEnding(c, s.threads[t])
    requires forall r :: r in s.done ==> Finishes(c, r)
    ensures ThreadEnding(c, Step(c, s, t).threads[t])
  {
    hide Finishes;
    match s.threads[t]
    case Enter(r) =>
      EndsAtOnce(c, r);
    case Wait(r, i) =>
      if i == |Deps(c, r)| {
        DepsFinish(c, r, i);
      }
    case Check(r, i) =>
      if Deps(c, r)[i] in s.errored {
        assert Bad(c, Deps(c, r)[i]);
        DepsFinish(c, r, i + 1);
      }
    case _ =>
  }

  lemma EndsAtOnce(c: Config, r: Name)
    ensures r !in c.included || r in c.gateFails ==> Finishes(c, r) && forall n: nat :: FinishesWithin(c, r, n)
  {
    if r !in c.included || r in c.gateFails {
      var n: nat := 0;
      assert FinishesWithin(c, r, n);
    }
  }

  lemma {:induction false} RunEnding(c: Config, s: State, sched: seq<nat>, s': State)
    requires WellFormed(c) && Inv(c, s) && Blame(c, s) && Ending(c, s) && Runs(c, s, sched, s')
    ensures Inv(c, s') && Ending(c, s')
    decreases |sched|
  {
    hide Inv, Blame, Ending, Step, Enabled;
    if sched != [] {
      StepEnding(c, s, sched[0]);
      StepInv(c, s, sched[0]);
      StepBlame(c, s, sched[0]);
      RunEnding(c, Step(c, s, sched[0]), sched[1..], s');
    }
  }

  /** Whatever fails: with one worker per task the pool can finish if and only if every worker can
      come to an end. */
  lemma CompletesIffAllFinish(c: Config)
    requires WellFormed(c) && |c.order| > 0
    ensures CanComplete(c, |c.order|) <==> AllFinish(c)
  {
    var start := Init(c, |c.order|);
    InitInv(c, |c.order|);
    hide AllFinish, Inv, Complete, WellFormed, Init;
    if AllFinish(c) {
      var sched, s := RunToCompletion(c, start, Measure(c, start));
    }
    if CanComplete(c, |c.order|) {
      var sched, s :| Runs(c, start, sched, s) && Complete(s);
      CompletedAllFinish(c, sched, s);
    }
  }

  lemma CompletedAllFinish(c: Config, sched: seq<nat>, s: State)
    requires WellFormed(c) && |c.order| > 0 && Runs(c, Init(c, |c.order|), sched, s) && Complete(s)
    ensures AllFinish(c)
  {
    InitInv(c, |c.order|);
    RunEnding(c, Init(c, |c.order|), sched, s);
    ThreadsKept(c, Init(c, |c.order|), sched, s);
    AllInResults(c, s);
    hide Finishes;
    forall r | r in c.order
      ensures Finishes(c, r)
    {
      var k :| 0 <= k < |s.results| && s.results[k].name == r;
      assert r in s.done;
    }
  }

  /** And then every run can be continued until it has finished. */
  lemma NeverStuck(c: Config, sched: seq<nat>, s: State)
    requires WellFormed(c) && AllFinish(c) && Runs(c, Init(c, |c.order|), sched, s) && !Complete(s)
    ensures exists t: nat :: Enabled(c, s, t)
  {
    InitInv(c, |c.order|);
    RunInv(c, Init(c, |c.order|), sched, s);
    ThreadsKept(c, Init(c, |c.order|), sched, s);
    NoDeadlockIfAllFinish(c, s);
  }

  /** An errored dependency can break a cycle: a waits for b, which cannot compute its
      dependencies, and for c, which waits for a. */
  lemma FailureBreaksCycle()
    ensures var c := Config(["a", "b", "c"], {"a", "b", "c"}, map["a" := ["b", "c"], "b" := [], "c" := ["a"]], {"b"}, {});
            WellFormed(c) && !Acyclic(c) && AllFinish(c)
  {
    var c := Config(["a", "b", "c"], {"a", "b", "c"}, map["a" := ["b", "c"], "b" := [], "c" := ["a"]], {"b"}, {});
    forall rank
      ensures !Ranks(c, rank)
    {
      CycleHasNoRanks(c, rank, "a", "c");
    }
    assert BadWithin(c, "b", 0) && FinishesWithin(c, "b", 0);
    assert StopsAt(c, "a", 1) && Deps(c, "a")[0] == "b";
    DepsFinish(c, "a", 1);
    assert Deps(c, "c") == ["a"] && StopsAt(c, "c", 1);
    DepsFinish(c, "c", 1);
  }

  lemma CycleHasNoRanks(c: Config, rank: map<Name, nat>, r: Name, d: Name)
    requires r in c.order && d in c.order && r in c.included && d in c.included
    requires d in Deps(c, r) && r in Deps(c, d)
    ensures !Ranks(c, rank)
  {
  }
}
