/** The dependency-gated worker pool as a transition system.

    Threads take tasks from a FIFO queue (nixops/parallel.py).  A task's worker waits for the
    events of the tasks it depends on, gives up silently when one of them is errored, acts, and
    sets its own event in a `finally` block (nixops/deployment.py).  The scheduler is arbitrary:
    a step is "thread t moves", for any enabled t.  The same worker shape serves creation
    (gate: `create_after`) and destruction (gate: `_wait_for`). */
module GatedPool {
  import opened Seqs

  type Name = string

  /** One run's fixed data.  `gateFails`: computing the dependencies raises.  `fails`: the
      action itself raises. */
  datatype Config = Config(
    order: seq<Name>,
    included: set<Name>,
    deps: map<Name, seq<Name>>,
    gateFails: set<Name>,
    fails: set<Name>)

  datatype WorkerResult = WorkerResult(name: Name, raised: bool)

  /** Where a thread is.  `Wait`/`Check` are the two halves of the gate loop body for
      dependency number i: waiting for its event, then reading its errored flag. */
  datatype Pc =
    | Idle
    | Exited
    | Enter(r: Name)
    | Wait(r: Name, i: nat)
    | Check(r: Name, i: nat)
    | Act(r: Name)
    | Finally(r: Name, raised: bool)
    | Put(r: Name, raised: bool)

  /** `done` lists the resources whose event is set, in the order of setting. */
  datatype State = State(
    queue: seq<Name>,
    threads: seq<Pc>,
    done: seq<Name>,
    errored: set<Name>,
    started: set<Name>,
    acted: set<Name>,
    results: seq<WorkerResult>)

  /** Task names are distinct, and a task depends only on other tasks of the same run. */
  ghost predicate WellFormed(c: Config) {
    && NoDup(c.order)
    && (forall r :: r in c.order ==> r in c.deps)
    && (forall r, d :: r in c.order && d in c.deps[r] ==> d in c.order)
  }

  function Deps(c: Config, r: Name): seq<Name> {
    if r in c.deps then c.deps[r] else []
  }

  predicate Busy(pc: Pc) { !pc.Idle? && !pc.Exited? }

  predicate PcOk(c: Config, pc: Pc) {
    match pc
    case Wait(r, i) => i <= |Deps(c, r)|
    case Check(r, i) => i < |Deps(c, r)|
    case _ => true
  }

  predicate PcsOk(c: Config, s: State) {
    forall t :: 0 <= t < |s.threads| ==> PcOk(c, s.threads[t])
  }

  function Init(c: Config, workers: nat): State {
    State(c.order, seq(workers, _ => Idle), [], {}, {}, {}, [])
  }

  predicate Enabled(c: Config, s: State, t: nat) {
    && t < |s.threads|
    && match s.threads[t]
       case Exited => false
       case Wait(r, i) => i < |Deps(c, r)| ==> Deps(c, r)[i] in s.done
       case _ => true
  }

  /** Thread t's next atomic step. */
  function Step(c: Config, s: State, t: nat): State
    requires PcsOk(c, s) && Enabled(c, s, t)
  {
    match s.threads[t]
    case Idle =>
      if s.queue == [] then s.(threads := s.threads[t := Exited])
      else s.(queue := s.queue[1..], threads := s.threads[t := Enter(s.queue[0])])
    case Enter(r) =>
      if r !in c.included then s.(threads := s.threads[t := Finally(r, false)])
      else if r in c.gateFails then
        s.(threads := s.threads[t := Finally(r, true)], errored := s.errored + {r})
      else s.(threads := s.threads[t := Wait(r, 0)])
    case Wait(r, i) =>
      if i < |Deps(c, r)| then s.(threads := s.threads[t := Check(r, i)])
      else s.(threads := s.threads[t := Act(r)], started := s.started + {r})
    case Check(r, i) =>
      if Deps(c, r)[i] in s.errored then
        s.(threads := s.threads[t := Finally(r, false)], errored := s.errored + {r})
      else s.(threads := s.threads[t := Wait(r, i + 1)])
    case Act(r) =>
      if r in c.fails then
        s.(threads := s.threads[t := Finally(r, true)], errored := s.errored + {r})
      else s.(threads := s.threads[t := Finally(r, false)], acted := s.acted + {r})
    case Finally(r, raised) =>
      s.(threads := s.threads[t := Put(r, raised)], done := s.done + [r])
    case Put(r, raised) =>
      s.(threads := s.threads[t := Idle], results := s.results + [WorkerResult(r, raised)])
    case Exited => s
  }

  /** Every schedule: `sched` names the thread that moves at each step. */
  ghost predicate Runs(c: Config, s: State, sched: seq<nat>, s': State)
    decreases |sched|
  {
    PcsOk(c, s) &&
    if sched == [] then s' == s
    else Enabled(c, s, sched[0]) && Runs(c, Step(c, s, sched[0]), sched[1..], s')
  }

  ghost predicate Complete(s: State) {
    forall t :: 0 <= t < |s.threads| ==> s.threads[t] == Exited
  }

  // ----- What the outcome should be, with no mention of threads -----

  /** r is included and fails itself, or has a bad dependency, along a chain of length <= n. */
  ghost predicate BadWithin(c: Config, r: Name, n: nat)
    decreases n
  {
    r in c.included &&
    (r in c.gateFails || r in c.fails ||
     (n > 0 && exists d :: d in Deps(c, r) && BadWithin(c, d, n - 1)))
  }

  /** The least set of included resources that fail themselves or have an errored dependency. */
  ghost predicate Bad(c: Config, r: Name) {
    exists n: nat :: BadWithin(c, r, n)
  }

  /** r's own worker raises, rather than returning silently. */
  ghost predicate Raises(c: Config, r: Name) {
    && r in c.included
    && (r in c.gateFails || (r in c.fails && forall d :: d in Deps(c, r) ==> !Bad(c, d)))
  }

  // ----- The invariant -----

  function Names(rs: seq<WorkerResult>): (ns: seq<Name>)
    ensures |ns| == |rs| && forall k :: 0 <= k < |rs| ==> ns[k] == rs[k].name
  {
    seq(|rs|, k requires 0 <= k < |rs| => rs[k].name)
  }

  function BusyCount(threads: seq<Pc>): nat {
    if threads == [] then 0
    else (if Busy(threads[0]) then 1 else 0) + BusyCount(threads[1..])
  }

  ghost predicate HeldBy(s: State, t: nat, r: Name) {
    t < |s.threads| && Busy(s.threads[t]) && s.threads[t].r == r
  }

  ghost predicate InResults(s: State, r: Name) {
    exists k :: 0 <= k < |s.results| && s.results[k].name == r
  }

  /** A task is never in two places. */
  ghost predicate Distinct(c: Config, s: State) {
    && (forall t :: 0 <= t < |s.threads| && Busy(s.threads[t]) ==>
          s.threads[t].r in c.order && s.threads[t].r !in s.queue)
    && (forall t, u :: 0 <= t < u < |s.threads| && Busy(s.threads[t]) && Busy(s.threads[u]) ==>
          s.threads[t].r != s.threads[u].r)
    && (forall k :: 0 <= k < |s.results| ==>
          s.results[k].name in c.order && s.results[k].name !in s.queue)
    && (forall k, l :: 0 <= k < l < |s.results| ==> s.results[k].name != s.results[l].name)
    && (forall k, t :: 0 <= k < |s.results| && 0 <= t < |s.threads| && Busy(s.threads[t]) ==>
          s.results[k].name != s.threads[t].r)
  }

  /** Each task is queued, held by one thread, or has one result; nothing is lost. */
  ghost predicate Placement(c: Config, s: State) {
    && |s.queue| <= |c.order|
    && s.queue == c.order[|c.order| - |s.queue|..]
    && |s.queue| + BusyCount(s.threads) + |s.results| == |c.order|
    && Distinct(c, s)
    && (forall r :: r in c.order ==>
          r in s.queue || InResults(s, r) || exists t: nat :: HeldBy(s, t, r))
    && (forall t :: 0 <= t < |s.threads| && s.threads[t].Exited? ==> s.queue == [])
  }

  /** An event is set exactly from `finally` on. */
  ghost predicate Events(c: Config, s: State) {
    && NoDup(s.done)
    && (forall r :: r in s.done ==> r in c.order && r !in s.queue)
    && (forall t :: 0 <= t < |s.threads| && Busy(s.threads[t]) ==>
          (s.threads[t].r in s.done <==> s.threads[t].Put?))
    && (forall k :: 0 <= k < |s.results| ==> s.results[k].name in s.done)
  }

  /** All of r's dependencies have their event set and are not errored. */
  ghost predicate GateOpen(c: Config, s: State, r: Name) {
    forall i :: 0 <= i < |Deps(c, r)| ==> Deps(c, r)[i] in s.done && Deps(c, r)[i] !in s.errored
  }

  ghost predicate Undecided(s: State, r: Name) {
    r !in s.errored && r !in s.acted
  }

  /** What is known of a resource once its worker has reached `finally`. */
  ghost predicate Settled(c: Config, s: State, r: Name, raised: bool) {
    if r !in c.included then Undecided(s, r) && r !in s.started && !raised
    else if r in s.errored then
      && r !in s.acted
      && (if raised then r in c.gateFails || (r in c.fails && GateOpen(c, s, r))
          else r !in c.gateFails &&
               exists i :: 0 <= i < |Deps(c, r)| && Deps(c, r)[i] in s.done && Deps(c, r)[i] in s.errored)
    else
      !raised && r in s.acted && r !in c.gateFails && r !in c.fails && GateOpen(c, s, r)
  }

  ghost predicate ThreadVerdict(c: Config, s: State, pc: Pc) {
    match pc
    case Idle => true
    case Exited => true
    case Enter(r) => Undecided(s, r) && r !in s.started
    case Wait(r, i) =>
      && Undecided(s, r) && r !in s.started && r in c.included && r !in c.gateFails
      && i <= |Deps(c, r)|
      && forall j :: 0 <= j < i ==> Deps(c, r)[j] in s.done && Deps(c, r)[j] !in s.errored
    case Check(r, i) =>
      && Undecided(s, r) && r !in s.started && r in c.included && r !in c.gateFails
      && i < |Deps(c, r)| && Deps(c, r)[i] in s.done
      && forall j :: 0 <= j < i ==> Deps(c, r)[j] in s.done && Deps(c, r)[j] !in s.errored
    case Act(r) =>
      Undecided(s, r) && r in s.started && r !in c.gateFails && GateOpen(c, s, r)
    case Finally(r, raised) => Settled(c, s, r, raised)
    case Put(r, raised) => Settled(c, s, r, raised)
  }

  ghost predicate Verdicts(c: Config, s: State) {
    && (forall t :: 0 <= t < |s.threads| ==> ThreadVerdict(c, s, s.threads[t]))
    && (forall k :: 0 <= k < |s.results| ==> Settled(c, s, s.results[k].name, s.results[k].raised))
    && (forall r :: r in s.queue ==> Undecided(s, r) && r !in s.started)
    && (forall r :: r in s.started ==> r in c.included && GateOpen(c, s, r))
    && s.errored <= c.included && s.acted <= s.started
    && (forall r :: r in s.started || r in s.errored ==> r in c.order)
  }

  /** In the order of `done`, an unerrored included resource follows its dependencies. */
  ghost predicate DoneOrder(c: Config, s: State) {
    forall k, d | 0 <= k < |s.done| && s.done[k] in c.included && s.done[k] !in s.errored &&
                  d in Deps(c, s.done[k]) :: d in s.done[..k]
  }

  ghost predicate Inv(c: Config, s: State) {
    PcsOk(c, s) && Placement(c, s) && Events(c, s) && Verdicts(c, s) && DoneOrder(c, s)
  }

  // ----- Preservation -----

  lemma BusyCountUpdate(threads: seq<Pc>, t: nat, pc: Pc)
    requires t < |threads|
    ensures BusyCount(threads[t := pc]) ==
            BusyCount(threads) - (if Busy(threads[t]) then 1 else 0) + (if Busy(pc) then 1 else 0)
  {
    if t == 0 {
      assert threads[t := pc][1..] == threads[1..];
    } else {
      assert threads[t := pc][1..] == threads[1..][t - 1 := pc];
      BusyCountUpdate(threads[1..], t - 1, pc);
    }
  }

  lemma BusyCountIdle(threads: seq<Pc>)
    requires forall t :: 0 <= t < |threads| ==> !Busy(threads[t])
    ensures BusyCount(threads) == 0
  {
  }

  lemma InitPlacement(c: Config, workers: nat)
    requires WellFormed(c)
    ensures Placement(c, Init(c, workers))
  {
    hide NoDup, BusyCount, HeldBy, InResults;
    var s := Init(c, workers);
    BusyCountIdle(s.threads);
    assert c.order[0..] == c.order;
    assert forall t :: 0 <= t < |s.threads| ==> s.threads[t] == Idle;
    assert Distinct(c, s);
  }

  lemma InitInv(c: Config, workers: nat)
    requires WellFormed(c)
    ensures Inv(c, Init(c, workers))
  {
    InitPlacement(c, workers);
    var s := Init(c, workers);
    assert forall t :: 0 <= t < |s.threads| ==> s.threads[t] == Idle;
  }

  /** Whoever held or had delivered a task still does, unless the mover did. */
  lemma StillPlaced(c: Config, s: State, s': State, t: nat, r: Name)
    requires Placement(c, s) && r in c.order && r !in s.queue
    requires t < |s.threads| && |s'.threads| == |s.threads| && s'.threads == s.threads[t := s'.threads[t]]
    requires s.results <= s'.results
    requires Busy(s.threads[t]) && s.threads[t].r == r ==> InResults(s', r) || HeldBy(s', t, r)
    ensures InResults(s', r) || exists u: nat :: HeldBy(s', u, r)
  {
    if InResults(s, r) {
      var k :| 0 <= k < |s.results| && s.results[k].name == r;
      assert s'.results[k].name == r;
    } else {
      var u: nat :| HeldBy(s, u, r);
      assert u != t ==> HeldBy(s', u, r);
    }
  }

  /** Thread t starts a task that is nowhere else. */
  lemma DistinctTake(c: Config, s: State, t: nat, x: Name, rest: seq<Name>)
    requires Distinct(c, s) && t < |s.threads| && x in c.order && x !in rest
    requires forall y :: y in rest ==> y in s.queue
    requires forall u :: 0 <= u < |s.threads| && Busy(s.threads[u]) ==> s.threads[u].r != x
    requires forall k :: 0 <= k < |s.results| ==> s.results[k].name != x
    ensures Distinct(c, s.(queue := rest, threads := s.threads[t := Enter(x)]))
  {
  }

  lemma PlacementPop(c: Config, s: State, t: nat)
    requires WellFormed(c) && Placement(c, s) && t < |s.threads| && s.threads[t].Idle? && s.queue != []
    ensures Placement(c, s.(queue := s.queue[1..], threads := s.threads[t := Enter(s.queue[0])]))
  {
    var s' := s.(queue := s.queue[1..], threads := s.threads[t := Enter(s.queue[0])]);
    BusyCountUpdate(s.threads, t, s'.threads[t]);
    PopKeepsDistinct(c, s);
    assert s.queue[0] in s.queue;
    DistinctTake(c, s, t, s.queue[0], s.queue[1..]);
    forall r | r in c.order
      ensures r in s'.queue || InResults(s', r) || exists u: nat :: HeldBy(s', u, r)
    {
      if r in s.queue {
        assert r in s'.queue || HeldBy(s', t, r);
      } else {
        StillPlaced(c, s, s', t, r);
      }
    }
  }

  lemma PlacementPut(c: Config, s: State, t: nat)
    requires Placement(c, s) && t < |s.threads| && s.threads[t].Put?
    ensures Placement(c, s.(threads := s.threads[t := Idle],
                            results := s.results + [WorkerResult(s.threads[t].r, s.threads[t].raised)]))
  {
    var s' := s.(threads := s.threads[t := Idle],
                 results := s.results + [WorkerResult(s.threads[t].r, s.threads[t].raised)]);
    BusyCountUpdate(s.threads, t, Idle);
    assert s'.results[|s.results|].name == s.threads[t].r;
    forall r | r in c.order && r !in s.queue
      ensures InResults(s', r) || exists u: nat :: HeldBy(s', u, r)
    {
      StillPlaced(c, s, s', t, r);
    }
  }

  /** A step that neither takes a task nor delivers a result. */
  lemma PlacementMove(c: Config, s: State, t: nat, s': State)
    requires Placement(c, s) && t < |s.threads|
    requires s'.queue == s.queue && s'.results == s.results && |s'.threads| == |s.threads|
    requires s'.threads == s.threads[t := s'.threads[t]]
    requires Busy(s.threads[t]) == Busy(s'.threads[t])
    requires Busy(s.threads[t]) ==> s'.threads[t].r == s.threads[t].r
    requires s'.threads[t].Exited? ==> s.queue == []
    ensures Placement(c, s')
  {
    BusyCountUpdate(s.threads, t, s'.threads[t]);
    forall r | r in c.order && r !in s.queue
      ensures InResults(s', r) || exists u: nat :: HeldBy(s', u, r)
    {
      StillPlaced(c, s, s', t, r);
    }
  }

  lemma StepPlacement(c: Config, s: State, t: nat)
    requires WellFormed(c) && Inv(c, s) && Enabled(c, s, t)
    ensures Placement(c, Step(c, s, t))
  {
    if s.threads[t].Idle? && s.queue != [] {
      PlacementPop(c, s, t);
    } else if s.threads[t].Put? {
      PlacementPut(c, s, t);
    } else {
      PlacementMove(c, s, t, Step(c, s, t));
    }
  }

  lemma PopKeepsDistinct(c: Config, s: State)
    requires WellFormed(c) && Placement(c, s) && s.queue != []
    ensures s.queue[0] in c.order && s.queue[0] !in s.queue[1..]
    ensures s.queue[1..] == c.order[|c.order| - |s.queue[1..]|..]
  {
    var k := |c.order| - |s.queue|;
    assert s.queue[0] == c.order[k];
    forall j | 1 <= j < |s.queue|
      ensures s.queue[j] != s.queue[0]
    {
      assert s.queue[j] == c.order[k + j];
    }
  }

  lemma EventsThread(c: Config, s: State, t: nat, u: nat)
    requires WellFormed(c) && Inv(c, s) && Enabled(c, s, t) && u < |s.threads|
    requires Busy(Step(c, s, t).threads[u])
    ensures var s' := Step(c, s, t); s'.threads[u].r in s'.done <==> s'.threads[u].Put?
  {
    var s' := Step(c, s, t);
    var pc := s.threads[t];
    if u == t {
      assert pc.Idle? ==> s'.threads[t].r in s.queue;
    } else {
      assert s'.threads[u] == s.threads[u];
      assert Busy(pc) ==> pc.r != s.threads[u].r;
    }
  }

  lemma StepEvents(c: Config, s: State, t: nat)
    requires WellFormed(c) && Inv(c, s) && Enabled(c, s, t)
    ensures Events(c, Step(c, s, t))
  {
    var s' := Step(c, s, t);
    var pc := s.threads[t];
    forall u | 0 <= u < |s'.threads| && Busy(s'.threads[u])
      ensures s'.threads[u].r in s'.done <==> s'.threads[u].Put?
    {
      EventsThread(c, s, t, u);
    }
    assert Busy(pc) ==> pc.r in c.order && pc.r !in s.queue;
    assert s'.queue == s.queue || s'.queue == s.queue[1..];
    assert forall k :: 0 <= k < |s.results| ==> s.results[k].name in s.done;
  }

  /** The flags of a resource whose event is set never change again. */
  lemma FlagsFinal(c: Config, s: State, t: nat)
    requires WellFormed(c) && Inv(c, s) && Enabled(c, s, t)
    ensures var s' := Step(c, s, t);
            && |s.done| <= |s'.done| && s.done == s'.done[..|s.done|]
            && s.started <= s'.started
            && s.errored <= s'.errored
            && forall d :: d in s.done ==> (d in s'.errored <==> d in s.errored) && (d in s'.acted <==> d in s.acted)
  {
  }

  lemma SettledStays(c: Config, s: State, t: nat, r: Name, raised: bool)
    requires WellFormed(c) && Inv(c, s) && Enabled(c, s, t)
    requires Settled(c, s, r, raised)
    requires Busy(s.threads[t]) && s.threads[t].r == r ==> s.threads[t].Finally? || s.threads[t].Put?
    ensures Settled(c, Step(c, s, t), r, raised)
  {
    FlagsFinal(c, s, t);
    var s' := Step(c, s, t);
    if r in c.included && r in s.errored && !raised {
      var i :| 0 <= i < |Deps(c, r)| && Deps(c, r)[i] in s.done && Deps(c, r)[i] in s.errored;
      assert Deps(c, r)[i] in s'.done;
    }
  }

  lemma MoverVerdict(c: Config, s: State, t: nat)
    requires WellFormed(c) && Inv(c, s) && Enabled(c, s, t)
    ensures ThreadVerdict(c, Step(c, s, t), Step(c, s, t).threads[t])
    ensures s.threads[t].Put? ==> Settled(c, Step(c, s, t), s.threads[t].r, s.threads[t].raised)
  {
    FlagsFinal(c, s, t);
    assert ThreadVerdict(c, s, s.threads[t]);
    if s.threads[t].Finally? || s.threads[t].Put? {
      SettledStays(c, s, t, s.threads[t].r, s.threads[t].raised);
    }
  }

  lemma OtherVerdict(c: Config, s: State, t: nat, u: nat)
    requires WellFormed(c) && Inv(c, s) && Enabled(c, s, t)
    requires u < |s.threads| && u != t
    ensures ThreadVerdict(c, Step(c, s, t), s.threads[u])
  {
    FlagsFinal(c, s, t);
    assert ThreadVerdict(c, s, s.threads[u]);
    if Busy(s.threads[u]) {
      assert Busy(s.threads[t]) ==> s.threads[t].r != s.threads[u].r;
      if s.threads[u].Finally? || s.threads[u].Put? {
        SettledStays(c, s, t, s.threads[u].r, s.threads[u].raised);
      }
    }
  }

  lemma StartedGates(c: Config, s: State, t: nat, r: Name)
    requires WellFormed(c) && Inv(c, s) && Enabled(c, s, t)
    requires r in Step(c, s, t).started
    ensures r in c.included && r in c.order && GateOpen(c, Step(c, s, t), r)
  {
    FlagsFinal(c, s, t);
    assert ThreadVerdict(c, s, s.threads[t]);
    if r in s.started {
      assert GateOpen(c, s, r);
    } else {
      assert s.threads[t].Wait? && r == s.threads[t].r;
    }
  }

  lemma FlagSets(c: Config, s: State, t: nat)
    requires WellFormed(c) && Inv(c, s) && Enabled(c, s, t)
    ensures var s' := Step(c, s, t);
            && s'.errored <= c.included && s'.acted <= s'.started
            && (forall r :: r in s'.started || r in s'.errored ==> r in c.order)
            && (forall r :: r in s'.queue ==> Undecided(s', r) && r !in s'.started)
  {
    var s' := Step(c, s, t);
    var pc := s.threads[t];
    assert ThreadVerdict(c, s, pc);
    assert Busy(pc) ==> pc.r in c.order && pc.r !in s.queue;
    assert forall r :: r in s'.queue ==> r in s.queue;
  }

  lemma StepVerdicts(c: Config, s: State, t: nat)
    requires WellFormed(c) && Inv(c, s) && Enabled(c, s, t)
    ensures Verdicts(c, Step(c, s, t))
  {
    var s' := Step(c, s, t);
    forall u | 0 <= u < |s'.threads|
      ensures ThreadVerdict(c, s', s'.threads[u])
    {
      if u == t {
        MoverVerdict(c, s, t);
      } else {
        OtherVerdict(c, s, t, u);
      }
    }
    forall k | 0 <= k < |s'.results|
      ensures Settled(c, s', s'.results[k].name, s'.results[k].raised)
    {
      if k < |s.results| {
        SettledStays(c, s, t, s.results[k].name, s.results[k].raised);
      } else {
        MoverVerdict(c, s, t);
      }
    }
    forall r | r in s'.started
      ensures r in c.included && GateOpen(c, s', r)
    {
      StartedGates(c, s, t, r);
    }
    FlagSets(c, s, t);
  }

  lemma StepDoneOrder(c: Config, s: State, t: nat)
    requires WellFormed(c) && Inv(c, s) && Enabled(c, s, t)
    ensures DoneOrder(c, Step(c, s, t))
  {
    var s' := Step(c, s, t);
    FlagsFinal(c, s, t);
    assert ThreadVerdict(c, s, s.threads[t]);
    forall k, d | 0 <= k < |s'.done| && s'.done[k] in c.included && s'.done[k] !in s'.errored &&
                  d in Deps(c, s'.done[k])
      ensures d in s'.done[..k]
    {
      if k < |s.done| {
        assert s'.done[k] == s.done[k] && s'.done[..k] == s.done[..k];
      } else {
        assert s'.done[..k] == s.done;
      }
    }
  }

  lemma StepInv(c: Config, s: State, t: nat)
    requires WellFormed(c) && Inv(c, s) && Enabled(c, s, t)
    ensures Inv(c, Step(c, s, t))
  {
    var s' := Step(c, s, t);
    StepPlacement(c, s, t);
    StepEvents(c, s, t);
    StepVerdicts(c, s, t);
    StepDoneOrder(c, s, t);
    forall u | 0 <= u < |s'.threads|
      ensures PcOk(c, s'.threads[u])
    {
    }
  }

  lemma {:induction false} RunInv(c: Config, s: State, sched: seq<nat>, s': State)
    requires WellFormed(c) && Inv(c, s) && Runs(c, s, sched, s')
    ensures Inv(c, s')
    decreases |sched|
  {
    if sched != [] {
      StepInv(c, s, sched[0]);
      RunInv(c, Step(c, s, sched[0]), sched[1..], s');
    }
  }
}
