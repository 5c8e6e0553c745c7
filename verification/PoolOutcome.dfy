/** What every run of the gated pool guarantees: gate safety, an outcome that does not depend on the
    schedule, and termination. */
module PoolOutcome {
  import opened Seqs
  import opened GatedPool

  // ----- Gate safety -----

  lemma DoneSettled(c: Config, s: State, r: Name) returns (raised: bool)
    requires Inv(c, s) && r in s.done
    ensures Settled(c, s, r, raised)
  {
    assert r in c.order && r !in s.queue;
    if InResults(s, r) {
      var k :| 0 <= k < |s.results| && s.results[k].name == r;
      raised := s.results[k].raised;
    } else {
      var t: nat :| HeldBy(s, t, r);
      assert s.threads[t].Put? && ThreadVerdict(c, s, s.threads[t]);
      raised := s.threads[t].raised;
    }
  }

  lemma {:induction false} FlagsStay(c: Config, s: State, sched: seq<nat>, s': State)
    requires WellFormed(c) && Inv(c, s) && Runs(c, s, sched, s')
    ensures s.done <= s'.done && s.started <= s'.started && s.errored <= s'.errored
    ensures forall d :: d in s.done ==> (d in s'.errored <==> d in s.errored) && (d in s'.acted <==> d in s.acted)
    decreases |sched|
  {
    if sched != [] {
      FlagsFinal(c, s, sched[0]);
      StepInv(c, s, sched[0]);
      FlagsStay(c, Step(c, s, sched[0]), sched[1..], s');
      assert forall d :: d in s.done ==> d in Step(c, s, sched[0]).done;
    }
  }

  /** d has finished un-errored, and has acted if it was included. */
  ghost predicate Cleared(c: Config, s: State, d: Name) {
    d in s.done && d !in s.errored && (d in c.included ==> d in s.acted)
  }

  lemma StartedDeps(c: Config, s: State)
    requires Inv(c, s)
    ensures forall r, d :: r in s.started && d in Deps(c, r) ==> Cleared(c, s, d)
  {
    forall r, d | r in s.started && d in Deps(c, r)
      ensures Cleared(c, s, d)
    {
      StartedDep(c, s, r, d);
    }
  }

  lemma ClearedStays(c: Config, s: State, sched: seq<nat>, s': State)
    requires WellFormed(c) && Inv(c, s) && Runs(c, s, sched, s')
    ensures forall d :: Cleared(c, s, d) ==> Cleared(c, s', d)
  {
    FlagsStay(c, s, sched, s');
    assert forall d :: d in s.done ==> d in s'.done;
  }

  lemma ReachableInv(c: Config, workers: nat, sched: seq<nat>, s: State)
    requires WellFormed(c) && Runs(c, Init(c, workers), sched, s)
    ensures Inv(c, s)
  {
    InitInv(c, workers);
    RunInv(c, Init(c, workers), sched, s);
  }

  /** In every interleaving, an action that has started found every dependency finished with an
      errored flag that is False, and it stays so; an included dependency has acted. */
  lemma GateSafety(c: Config, workers: nat, sched: seq<nat>, s: State, more: seq<nat>, later: State)
    requires WellFormed(c)
    requires Runs(c, Init(c, workers), sched, s) && Runs(c, s, more, later)
    ensures forall r, d :: r in s.started && d in Deps(c, r) ==> Cleared(c, s, d) && Cleared(c, later, d)
    ensures s.acted <= s.started <= c.included
  {
    ReachableInv(c, workers, sched, s);
    StartedDeps(c, s);
    ClearedStays(c, s, more, later);
    ActedStarted(c, s);
  }

  lemma ActedStarted(c: Config, s: State)
    requires Inv(c, s)
    ensures s.acted <= s.started <= c.included
  {
  }

  lemma StartedDep(c: Config, s: State, r: Name, d: Name)
    requires Inv(c, s) && r in s.started && d in Deps(c, r)
    ensures d in s.done && d !in s.errored && (d in c.included ==> d in s.acted)
  {
    assert GateOpen(c, s, r);
    var _ := DoneSettled(c, s, d);
  }

  // ----- Errored means bad -----

  lemma DoneCleanIsGood(c: Config, s: State, r: Name, n: nat)
    requires Inv(c, s) && r in s.done && r !in s.errored
    ensures !BadWithin(c, r, n)
    decreases n
  {
    var _ := DoneSettled(c, s, r);
    forall d | n > 0 && r in c.included && d in Deps(c, r)
      ensures !BadWithin(c, d, n - 1)
    {
      DoneCleanIsGood(c, s, d, n - 1);
    }
  }

  /** r's worker has left its body by an exception. */
  ghost predicate HasRaised(s: State, r: Name) {
    || (exists t :: 0 <= t < |s.threads| && (s.threads[t] == Finally(r, true) || s.threads[t] == Put(r, true)))
    || (exists k :: 0 <= k < |s.results| && s.results[k] == WorkerResult(r, true))
  }

  /** r's errored flag goes back, along dependencies, to a worker that has raised. */
  ghost predicate BlamedWithin(c: Config, s: State, r: Name, n: nat)
    decreases n
  {
    HasRaised(s, r) || (n > 0 && exists d :: d in Deps(c, r) && BlamedWithin(c, s, d, n - 1))
  }

  ghost predicate Blamed(c: Config, s: State, r: Name) {
    exists n: nat :: BlamedWithin(c, s, r, n)
  }

  ghost predicate Blame(c: Config, s: State) {
    forall r :: r in s.errored ==> Bad(c, r) && Blamed(c, s, r)
  }

  lemma RaisedStays(c: Config, s: State, t: nat, r: Name)
    requires PcsOk(c, s) && Enabled(c, s, t) && HasRaised(s, r)
    ensures HasRaised(Step(c, s, t), r)
  {
    var s' := Step(c, s, t);
    if k :| 0 <= k < |s.results| && s.results[k] == WorkerResult(r, true) {
      assert s'.results[k] == WorkerResult(r, true);
    } else {
      var u :| 0 <= u < |s.threads| && (s.threads[u] == Finally(r, true) || s.threads[u] == Put(r, true));
      if u != t {
        assert s'.threads[u] == s.threads[u];
      } else if s.threads[u].Finally? {
        assert s'.threads[u] == Put(r, true);
      } else {
        assert s'.results[|s.results|] == WorkerResult(r, true);
      }
    }
  }

  lemma {:induction false} BlamedStays(c: Config, s: State, t: nat, r: Name, n: nat)
    requires PcsOk(c, s) && Enabled(c, s, t) && BlamedWithin(c, s, r, n)
    ensures BlamedWithin(c, Step(c, s, t), r, n)
    decreases n
  {
    if HasRaised(s, r) {
      RaisedStays(c, s, t, r);
    } else {
      var d :| d in Deps(c, r) && BlamedWithin(c, s, d, n - 1);
      BlamedStays(c, s, t, d, n - 1);
    }
  }

  lemma StepBlame(c: Config, s: State, t: nat)
    requires WellFormed(c) && Inv(c, s) && Enabled(c, s, t) && Blame(c, s)
    ensures Blame(c, Step(c, s, t))
  {
    var s' := Step(c, s, t);
    var pc := s.threads[t];
    assert ThreadVerdict(c, s, pc);
    forall r | r in s'.errored
      ensures Bad(c, r) && Blamed(c, s', r)
    {
      if r in s.errored {
        var n: nat :| BlamedWithin(c, s, r, n);
        BlamedStays(c, s, t, r, n);
      } else if pc.Check? {
        var d := Deps(c, r)[pc.i];
        assert d in s.errored && d in Deps(c, r);
        var n: nat :| BlamedWithin(c, s, d, n);
        BlamedStays(c, s, t, d, n);
        assert BlamedWithin(c, s', r, n + 1);
        var m: nat :| BadWithin(c, d, m);
        assert BadWithin(c, r, m + 1);
      } else {
        assert s'.threads[t] == Finally(r, true);
        assert BadWithin(c, r, 0) && BlamedWithin(c, s', r, 0);
      }
    }
  }

  lemma {:induction false} RunBlame(c: Config, s: State, sched: seq<nat>, s': State)
    requires WellFormed(c) && Inv(c, s) && Blame(c, s) && Runs(c, s, sched, s')
    ensures Inv(c, s') && Blame(c, s')
    decreases |sched|
  {
    if sched != [] {
      StepInv(c, s, sched[0]);
      StepBlame(c, s, sched[0]);
      RunBlame(c, Step(c, s, sched[0]), sched[1..], s');
    }
  }

  /** At any moment of any run: an errored flag always goes back to some exception already
      thrown, although the flag's own worker may have returned silently. */
  lemma NoFailureLost(c: Config, workers: nat, sched: seq<nat>, s: State)
    requires WellFormed(c) && Runs(c, Init(c, workers), sched, s)
    ensures forall r :: r in s.errored ==> Blamed(c, s, r)
    ensures s.errored != {} ==> exists r :: HasRaised(s, r)
  {
    InitInv(c, workers);
    RunBlame(c, Init(c, workers), sched, s);
    if r :| r in s.errored {
      var n: nat :| BlamedWithin(c, s, r, n);
      BlameEnds(c, s, r, n);
    }
  }

  lemma {:induction false} BlameEnds(c: Config, s: State, r: Name, n: nat)
    requires BlamedWithin(c, s, r, n)
    ensures exists x :: HasRaised(s, x)
    decreases n
  {
    if !HasRaised(s, r) {
      var d :| d in Deps(c, r) && BlamedWithin(c, s, d, n - 1);
      BlameEnds(c, s, d, n - 1);
    }
  }

  // ----- The outcome of a complete run -----

  lemma AllInResults(c: Config, s: State)
    requires Inv(c, s) && Complete(s) && |s.threads| > 0
    ensures s.queue == [] && |s.results| == |c.order|
    ensures forall r :: r in c.order ==> InResults(s, r)
    ensures forall k :: 0 <= k < |s.results| ==> s.results[k].name in c.order
    ensures NoDup(Names(s.results))
  {
    assert s.threads[0].Exited?;
    BusyCountIdle(s.threads);
    forall r | r in c.order
      ensures InResults(s, r)
    {
      assert forall t: nat :: !HeldBy(s, t, r);
    }
  }

  /** The result a complete run must have: one result per task, errored exactly the bad
      resources, acted exactly the other included ones, an exception exactly for root causes. */
  ghost predicate Outcome(c: Config, s: State) {
    && |s.results| == |c.order| && NoDup(Names(s.results))
    && (forall r :: r in c.order <==> InResults(s, r))
    && (forall r :: r in s.errored <==> r in c.order && Bad(c, r))
    && (forall r :: r in s.acted <==> r in c.order && r in c.included && !Bad(c, r))
    && (forall k :: 0 <= k < |s.results| ==> (s.results[k].raised <==> Raises(c, s.results[k].name)))
  }

  /** Every complete run has that outcome, whatever the schedule and the number of workers. */
  lemma CompleteOutcome(c: Config, workers: nat, sched: seq<nat>, s: State)
    requires WellFormed(c) && workers > 0
    requires Runs(c, Init(c, workers), sched, s) && Complete(s)
    ensures Outcome(c, s)
  {
    InitInv(c, workers);
    RunBlame(c, Init(c, workers), sched, s);
    ThreadsKept(c, Init(c, workers), sched, s);
    FinalOutcome(c, s);
  }

  lemma FinalOutcome(c: Config, s: State)
    requires WellFormed(c) && Inv(c, s) && Blame(c, s) && Complete(s) && |s.threads| > 0
    ensures Outcome(c, s)
  {
    AllInResults(c, s);
    forall r | r in c.order
      ensures (r in s.errored <==> Bad(c, r)) && (r in s.acted <==> r in c.included && !Bad(c, r))
    {
      assert InResults(s, r);
      var k :| 0 <= k < |s.results| && s.results[k].name == r;
      VerdictIsSpec(c, s, k);
    }
    forall k | 0 <= k < |s.results|
      ensures s.results[k].raised <==> Raises(c, s.results[k].name)
    {
      VerdictIsSpec(c, s, k);
    }
  }

  lemma DoneClean(c: Config, s: State, r: Name)
    requires Inv(c, s) && r in s.done && r !in s.errored
    ensures !Bad(c, r)
  {
    forall n: nat
      ensures !BadWithin(c, r, n)
    {
      DoneCleanIsGood(c, s, r, n);
    }
  }

  lemma VerdictIsSpec(c: Config, s: State, k: nat)
    requires WellFormed(c) && Inv(c, s) && Blame(c, s) && k < |s.results|
    ensures var r := s.results[k].name;
            && (r in s.errored <==> Bad(c, r))
            && (r in s.acted <==> r in c.included && !Bad(c, r))
            && (s.results[k].raised <==> Raises(c, r))
  {
    var r, raised := s.results[k].name, s.results[k].raised;
    assert Settled(c, s, r, raised);
    assert r in s.done;
    if r !in s.errored {
      DoneClean(c, s, r);
      assert !BadWithin(c, r, 0);
    } else if raised {
      forall d | r in c.fails && GateOpen(c, s, r) && d in Deps(c, r)
        ensures !Bad(c, d)
      {
        DoneClean(c, s, d);
      }
    } else {
      var i :| 0 <= i < |Deps(c, r)| && Deps(c, r)[i] in s.done && Deps(c, r)[i] in s.errored;
      assert Bad(c, Deps(c, r)[i]);
    }
  }

  lemma {:induction false} ThreadsKept(c: Config, s: State, sched: seq<nat>, s': State)
    requires Runs(c, s, sched, s')
    ensures |s'.threads| == |s.threads|
    decreases |sched|
  {
    if sched != [] {
      ThreadsKept(c, Step(c, s, sched[0]), sched[1..], s');
    }
  }

  lemma SameResults(c: Config, s1: State, s2: State, x: WorkerResult)
    requires Outcome(c, s1) && Outcome(c, s2) && x in s1.results
    ensures x in s2.results
  {
    var k :| 0 <= k < |s1.results| && s1.results[k] == x;
    assert InResults(s1, x.name) && InResults(s2, x.name);
    var l :| 0 <= l < |s2.results| && s2.results[l].name == x.name;
    assert s2.results[l] == x;
  }

  /** Two complete runs of the same configuration agree, even with different worker counts. */
  lemma ScheduleIndependence(c: Config, w1: nat, sched1: seq<nat>, s1: State, w2: nat, sched2: seq<nat>, s2: State)
    requires WellFormed(c) && w1 > 0 && w2 > 0
    requires Runs(c, Init(c, w1), sched1, s1) && Complete(s1)
    requires Runs(c, Init(c, w2), sched2, s2) && Complete(s2)
    ensures s1.errored == s2.errored && s1.acted == s2.acted
    ensures multiset(s1.results) == multiset(s2.results)
  {
    CompleteOutcome(c, w1, sched1, s1);
    CompleteOutcome(c, w2, sched2, s2);
    assert forall r :: r in s1.errored <==> r in s2.errored;
    assert forall r :: r in s1.acted <==> r in s2.acted;
    forall x
      ensures x in s1.results <==> x in s2.results
    {
      if x in s1.results {
        SameResults(c, s1, s2, x);
      }
      if x in s2.results {
        SameResults(c, s2, s1, x);
      }
    }
    NamesNoDup(s1.results);
    NamesNoDup(s2.results);
    NoDupPermute(s1.results, s2.results);
  }

  lemma NamesNoDup(results: seq<WorkerResult>)
    requires NoDup(Names(results))
    ensures NoDup(results)
  {
    forall i, j | 0 <= i < j < |results|
      ensures results[i] != results[j]
    {
      assert Names(results)[i] != Names(results)[j];
    }
  }

  // ----- Termination -----

  function TaskWeight(c: Config, r: Name): nat {
    2 * |Deps(c, r)| + 6
  }

  function PcWeight(c: Config, pc: Pc): nat
    requires PcOk(c, pc)
  {
    match pc
    case Exited => 0
    case Idle => 1
    case Put(r, raised) => 2
    case Finally(r, raised) => 3
    case Act(r) => 4
    case Check(r, i) => 2 * (|Deps(c, r)| - i) + 4
    case Wait(r, i) => 2 * (|Deps(c, r)| - i) + 5
    case Enter(r) => TaskWeight(c, r)
  }

  function QueueWeight(c: Config, queue: seq<Name>): nat {
    if queue == [] then 0 else TaskWeight(c, queue[0]) + QueueWeight(c, queue[1..])
  }

  function ThreadsWeight(c: Config, threads: seq<Pc>): nat
    requires forall t :: 0 <= t < |threads| ==> PcOk(c, threads[t])
  {
    if threads == [] then 0 else PcWeight(c, threads[0]) + ThreadsWeight(c, threads[1..])
  }

  /** An upper bound on the number of steps left. */
  function Measure(c: Config, s: State): nat
    requires PcsOk(c, s)
  {
    QueueWeight(c, s.queue) + ThreadsWeight(c, s.threads)
  }

  lemma {:induction false} ThreadsWeightUpdate(c: Config, threads: seq<Pc>, t: nat, pc: Pc)
    requires t < |threads| && PcOk(c, pc)
    requires forall u :: 0 <= u < |threads| ==> PcOk(c, threads[u])
    ensures ThreadsWeight(c, threads[t := pc]) == ThreadsWeight(c, threads) - PcWeight(c, threads[t]) + PcWeight(c, pc)
  {
    if t == 0 {
      assert threads[t := pc][1..] == threads[1..];
    } else {
      assert threads[t := pc][1..] == threads[1..][t - 1 := pc];
      ThreadsWeightUpdate(c, threads[1..], t - 1, pc);
    }
  }

  lemma StepDecreases(c: Config, s: State, t: nat)
    requires PcsOk(c, s) && Enabled(c, s, t)
    ensures PcsOk(c, Step(c, s, t)) && Measure(c, Step(c, s, t)) < Measure(c, s)
  {
    var s' := Step(c, s, t);
    assert PcOk(c, s'.threads[t]);
    forall u | 0 <= u < |s'.threads|
      ensures PcOk(c, s'.threads[u])
    {
    }
    ThreadsWeightUpdate(c, s.threads, t, s'.threads[t]);
  }

  /** No schedule can keep the pool moving for more than the initial measure. */
  lemma {:induction false} RunsAreBounded(c: Config, s: State, sched: seq<nat>, s': State)
    requires PcsOk(c, s) && Runs(c, s, sched, s')
    ensures PcsOk(c, s') && |sched| + Measure(c, s') <= Measure(c, s)
    decreases |sched|
  {
    if sched != [] {
      StepDecreases(c, s, sched[0]);
      RunsAreBounded(c, Step(c, s, sched[0]), sched[1..], s');
    }
  }
}
