/** `nixops.parallel.run_tasks`: running the pool under an arbitrary scheduler and turning the
    result queue into a return value or an exception. */
module RunTasks {
  import opened Seqs
  import opened GatedPool
  import opened PoolOutcome
  import opened PoolProgress

  /** A worker's return value; run_tasks keeps only truthy ones. */
  datatype Value = Falsy | Truthy(id: int)

  /** An exception: the task that threw it, and the position of its result in the queue. */
  datatype Exc = Exc(name: Name, position: nat)

  datatype Verdict =
    | Returned(values: seq<Value>)
    | Reraised(exception: Exc)
    | Multiple(exceptions: map<Name, Exc>)
    | BadWorkerCount

  function TruthyValues(names: seq<Name>, payload: map<Name, Value>): seq<Value> {
    if names == [] then []
    else
      var n := |names| - 1;
      TruthyValues(names[..n], payload) +
        (if names[n] in payload && payload[names[n]].Truthy? then [payload[names[n]]] else [])
  }

  ghost predicate NoneRaised(results: seq<WorkerResult>, n: nat)
    requires n <= |results|
  {
    forall k :: 0 <= k < n ==> !results[k].raised
  }

  /** Among the first n results, e is the last exception under its name. */
  ghost predicate LastRaised(results: seq<WorkerResult>, n: nat, e: Exc)
    requires n <= |results|
  {
    && e.position < n && results[e.position] == WorkerResult(e.name, true)
    && forall j :: e.position < j < n && results[j].raised ==> results[j].name != e.name
  }

  /** The exceptions dictionary after n results: each failing name with its last exception. */
  ghost predicate Recorded(results: seq<WorkerResult>, n: nat, exceptions: map<Name, Exc>)
    requires n <= |results|
  {
    && (forall x :: x in exceptions ==> LastRaised(results, n, exceptions[x]) && exceptions[x].name == x)
    && (forall k :: 0 <= k < n && results[k].raised ==> results[k].name in exceptions)
  }

  /** The main thread's loop over the result queue. */
  method Collect(results: seq<WorkerResult>, payload: map<Name, Value>)
    returns (values: seq<Value>, exceptions: map<Name, Exc>)
    ensures Recorded(results, |results|, exceptions)
    ensures exceptions == map[] ==> values == TruthyValues(Names(results), payload)
  {
    values, exceptions := [], map[];
    ghost var names := Names(results);
    var found := 0;
    while found < |results|
      invariant found <= |results|
      invariant Recorded(results, found, exceptions)
      invariant exceptions == map[] ==> values == TruthyValues(names[..found], payload)
    {
      var r := results[found];
      if r.raised {
        RecordNext(results, found, exceptions);
        exceptions := exceptions[r.name := Exc(r.name, found)];
        assert r.name in exceptions;
      } else {
        RecordSkip(results, found, exceptions);
        TruthyNext(names, found, payload);
        if r.name in payload && payload[r.name].Truthy? {
          values := values + [payload[r.name]];
        }
      }
      found := found + 1;
    }
    assert names[..found] == names;
  }

  /** Collecting the results and classifying the exceptions. */
  method CollectResults(results: seq<WorkerResult>, payload: map<Name, Value>) returns (v: Verdict)
    ensures !v.BadWorkerCount?
    ensures v.Returned? <==> NoneRaised(results, |results|)
    ensures v.Returned? ==> v.values == TruthyValues(Names(results), payload)
    ensures v.Returned? ==>
              forall x :: x in v.values <==>
                x.Truthy? && exists k :: 0 <= k < |results| && results[k].name in payload && payload[results[k].name] == x
    ensures v.Reraised? ==> Recorded(results, |results|, map[v.exception.name := v.exception])
    ensures v.Multiple? ==> Recorded(results, |results|, v.exceptions) && |v.exceptions| > 1
  {
    var values, exceptions := Collect(results, payload);
    TruthyOfResults(results, payload);
    if |exceptions| == 0 {
      v := Returned(values);
    } else {
      var name :| name in exceptions.Keys;
      assert LastRaised(results, |results|, exceptions[name]);
      if |exceptions| == 1 {
        OnlyKey(exceptions, name);
        assert exceptions == map[name := exceptions[name]];
        v := Reraised(exceptions[name]);
      } else {
        v := Multiple(exceptions);
      }
    }
  }

  lemma RecordSkip(results: seq<WorkerResult>, n: nat, exceptions: map<Name, Exc>)
    requires n < |results| && Recorded(results, n, exceptions) && !results[n].raised
    ensures Recorded(results, n + 1, exceptions)
  {
    forall x | x in exceptions
      ensures LastRaised(results, n + 1, exceptions[x])
    {
      assert LastRaised(results, n, exceptions[x]);
    }
  }

  lemma RecordNext(results: seq<WorkerResult>, n: nat, exceptions: map<Name, Exc>)
    requires n < |results| && Recorded(results, n, exceptions) && results[n].raised
    ensures Recorded(results, n + 1, exceptions[results[n].name := Exc(results[n].name, n)])
  {
    var after := exceptions[results[n].name := Exc(results[n].name, n)];
    forall x | x in after
      ensures LastRaised(results, n + 1, after[x]) && after[x].name == x
    {
      assert x != results[n].name ==> LastRaised(results, n, exceptions[x]);
    }
  }

  lemma TruthyNext(names: seq<Name>, n: nat, payload: map<Name, Value>)
    requires n < |names|
    ensures TruthyValues(names[..n + 1], payload) ==
            TruthyValues(names[..n], payload) +
              (if names[n] in payload && payload[names[n]].Truthy? then [payload[names[n]]] else [])
  {
    assert names[..n + 1][..n] == names[..n];
  }

  lemma OnlyKey(m: map<Name, Exc>, name: Name)
    requires name in m && |m| == 1
    ensures forall n :: n in m ==> n == name
  {
    assert m.Keys - {name} == {} by {
      assert |m.Keys - {name}| == 0;
    }
    forall n | n in m
      ensures n == name
    {
      assert n !in m.Keys - {name};
    }
  }

  /** The values kept are the truthy ones, one for each task that has one. */
  lemma {:induction false} TruthyMembers(names: seq<Name>, payload: map<Name, Value>)
    ensures forall x :: x in TruthyValues(names, payload) <==>
              x.Truthy? && exists n :: n in names && n in payload && payload[n] == x
    ensures |TruthyValues(names, payload)| == |HavingTruthy(names, payload)|
  {
    if names != [] {
      var n := |names| - 1;
      TruthyMembers(names[..n], payload);
      assert names == names[..n] + [names[n]];
    }
  }

  /** The tasks that return a truthy value. */
  function HavingTruthy(names: seq<Name>, payload: map<Name, Value>): seq<Name> {
    if names == [] then []
    else
      var n := |names| - 1;
      HavingTruthy(names[..n], payload) + if names[n] in payload && payload[names[n]] != Falsy then [names[n]] else []
  }

  lemma TruthyOfResults(results: seq<WorkerResult>, payload: map<Name, Value>)
    ensures forall x :: x in TruthyValues(Names(results), payload) <==>
              x.Truthy? && exists k :: 0 <= k < |results| && results[k].name in payload && payload[results[k].name] == x
  {
    var names := Names(results);
    TruthyMembers(names, payload);
    forall x
      ensures x in TruthyValues(names, payload) <==>
              x.Truthy? && exists k :: 0 <= k < |results| && results[k].name in payload && payload[results[k].name] == x
    {
      if n :| n in names && n in payload && payload[n] == x {
        var k :| 0 <= k < |names| && names[k] == n;
        assert results[k].name == n;
      }
      if k :| 0 <= k < |results| && results[k].name in payload && payload[results[k].name] == x {
        assert names[k] == results[k].name;
      }
    }
  }

  // ----- Values of a permutation -----

  lemma {:induction false} TruthyConcat(a: seq<Name>, b: seq<Name>, payload: map<Name, Value>)
    ensures TruthyValues(a + b, payload) == TruthyValues(a, payload) + TruthyValues(b, payload)
  {
    if b == [] {
      assert a + b == a;
    } else {
      var n := |b| - 1;
      assert (a + b)[..|a + b| - 1] == a + b[..n];
      TruthyConcat(a, b[..n], payload);
    }
  }

  /** Taking out one occurrence of x takes out its value and leaves the others. */
  lemma TakeOut(b: seq<Name>, x: Name, payload: map<Name, Value>) returns (rest: seq<Name>)
    requires x in multiset(b)
    ensures |rest| < |b| && multiset(rest) == multiset(b) - multiset{x}
    ensures multiset(TruthyValues(b, payload)) ==
            multiset(TruthyValues([x], payload)) + multiset(TruthyValues(rest, payload))
  {
    hide TruthyValues;
    var j :| 0 <= j < |b| && b[j] == x;
    rest := b[..j] + b[j + 1..];
    ThreeParts(b, j);
    TruthyConcat(b[..j], [x] + b[j + 1..], payload);
    TruthyConcat([x], b[j + 1..], payload);
    TruthyConcat(b[..j], b[j + 1..], payload);
  }

  lemma ThreeParts<T>(b: seq<T>, j: nat)
    requires j < |b|
    ensures b == b[..j] + ([b[j]] + b[j + 1..])
    ensures multiset(b[..j] + b[j + 1..]) == multiset(b) - multiset{b[j]}
  {
    assert b == b[..j] + [b[j]] + b[j + 1..];
    assert multiset(b) == multiset(b[..j]) + multiset{b[j]} + multiset(b[j + 1..]);
  }

  /** Reordering the tasks reorders the values and changes nothing else. */
  lemma {:induction false} TruthyPermutes(a: seq<Name>, b: seq<Name>, payload: map<Name, Value>)
    requires multiset(a) == multiset(b)
    ensures multiset(TruthyValues(a, payload)) == multiset(TruthyValues(b, payload))
    decreases |a|
  {
    assert |a| == |multiset(a)| == |multiset(b)| == |b|;
    if a != [] {
      var x := a[0];
      assert x in multiset(a);
      var a' := TakeOut(a, x, payload);
      var b' := TakeOut(b, x, payload);
      TruthyPermutes(a', b', payload);
    }
  }

  // ----- The whole call -----

  /** The pool does not get stuck: a worker for every task, each of which can come to an end, or a
      queue that lists dependencies first. */
  ghost predicate Proceeds(c: Config, nrWorkers: int) {
    nrWorkers >= 1 || nrWorkers == -1 ==>
      ((nrWorkers == -1 || nrWorkers >= |c.order|) && AllFinish(c)) || DepsFirst(c)
  }

  ghost predicate RootCause(c: Config, r: Name) {
    r in c.order && Raises(c, r)
  }

  function Included(c: Config, payload: map<Name, Value>): map<Name, Value> {
    map r | r in payload && r in c.included :: payload[r]
  }

  /** What a verdict says: nothing is bad, or these are the root causes. */
  ghost predicate Reports(c: Config, payload: map<Name, Value>, v: Verdict) {
    match v
    case Returned(values) =>
      && (forall r :: r in c.order ==> !Bad(c, r))
      && multiset(values) == multiset(TruthyValues(c.order, Included(c, payload)))
    case Reraised(e) => forall r :: RootCause(c, r) <==> r == e.name
    case Multiple(es) => |es| > 1 && forall r :: RootCause(c, r) <==> r in es
    case BadWorkerCount => false
  }

  /** run_tasks over the gated worker.  Whatever the scheduler does, exactly the good included
      tasks act; the call returns normally only if no task is bad, and otherwise raises exactly
      the root causes. */
  method RunTasks(c: Config, nrWorkers: int, payload: map<Name, Value>) returns (v: Verdict, acted: set<Name>)
    requires WellFormed(c) && Proceeds(c, nrWorkers)
    ensures c.order == [] ==> v == Returned([])
    ensures c.order != [] && nrWorkers < 1 && nrWorkers != -1 ==> v == BadWorkerCount && acted == {}
    ensures c.order != [] && (nrWorkers >= 1 || nrWorkers == -1) ==> Reports(c, payload, v)
    ensures !v.BadWorkerCount? ==> forall r :: r in acted <==> r in c.order && r in c.included && !Bad(c, r)
    ensures c.order != [] && v.Returned? ==>
              forall x :: x in v.values <==>
                x.Truthy? && exists r :: r in c.order && r in c.included && r in payload && payload[r] == x
  {
    if |c.order| == 0 {
      return Returned([]), {};
    }
    var workers := if nrWorkers == -1 then |c.order| else nrWorkers;
    if workers < 1 {
      return BadWorkerCount, {};
    }
    var s := Drain(c, workers);
    acted := s.acted;
    v := CollectResults(s.results, map r | r in payload && r in s.acted :: payload[r]);
    VerdictReports(c, s, payload, v);
    if v.Returned? {
      TruthyMembers(c.order, Included(c, payload));
      SameMembers(v.values, TruthyValues(c.order, Included(c, payload)));
    }
  }

  lemma SameMembers(a: seq<Value>, b: seq<Value>)
    requires multiset(a) == multiset(b)
    ensures forall x :: x in a <==> x in b
  {
    forall x
      ensures x in a <==> x in b
    {
      assert x in a <==> x in multiset(a);
      assert x in b <==> x in multiset(b);
    }
  }

  lemma VerdictReports(c: Config, s: State, payload: map<Name, Value>, v: Verdict)
    requires WellFormed(c) && Blame(c, s) && Outcome(c, s) && Complete(s) && !v.BadWorkerCount?
    requires v.Returned? <==> NoneRaised(s.results, |s.results|)
    requires v.Returned? ==>
               v.values == TruthyValues(Names(s.results), map r | r in payload && r in s.acted :: payload[r])
    requires v.Reraised? ==> Recorded(s.results, |s.results|, map[v.exception.name := v.exception])
    requires v.Multiple? ==> Recorded(s.results, |s.results|, v.exceptions) && |v.exceptions| > 1
    ensures Reports(c, payload, v)
  {
    match v
    case Returned(values) =>
      NoExceptionNoBad(c, s);
      ReturnedValues(c, s, payload);
    case Reraised(e) =>
      RecordedMeaning(c, s, map[e.name := e]);
    case Multiple(es) =>
      RecordedMeaning(c, s, es);
  }

  lemma ReturnedValues(c: Config, s: State, payload: map<Name, Value>)
    requires WellFormed(c) && Outcome(c, s) && forall r :: r in c.order ==> !Bad(c, r)
    ensures multiset(TruthyValues(Names(s.results), map r | r in payload && r in s.acted :: payload[r])) ==
            multiset(TruthyValues(c.order, Included(c, payload)))
  {
    var acted := map r | r in payload && r in s.acted :: payload[r];
    NamesAreOrder(c, s);
    NoDupPermute(Names(s.results), c.order);
    TruthyPermutes(Names(s.results), c.order, acted);
    TruthyRestrict(c.order, acted, Included(c, payload));
  }

  /** The worker threads, moved by an arbitrary scheduler until none is left. */
  method Drain(c: Config, workers: nat) returns (s: State)
    requires WellFormed(c) && workers > 0
    requires (workers >= |c.order| && AllFinish(c)) || DepsFirst(c)
    ensures Blame(c, s) && Complete(s) && Outcome(c, s)
  {
    s := Init(c, workers);
    InitInv(c, workers);
    while exists t: nat | t < |s.threads| :: Enabled(c, s, t)
      invariant Inv(c, s) && Blame(c, s) && |s.threads| == workers
      decreases Measure(c, s)
    {
      var t: nat :| t < |s.threads| && Enabled(c, s, t);
      StepBlame(c, s, t);
      StepKeeps(c, s, t);
      s := Step(c, s, t);
    }
    if !Complete(s) {
      if workers >= |c.order| && AllFinish(c) {
        NoDeadlockIfAllFinish(c, s);
      } else {
        NoDeadlockDepsFirst(c, s);
      }
    }
    FinalOutcome(c, s);
  }

  lemma NamesAreOrder(c: Config, s: State)
    requires WellFormed(c) && Outcome(c, s)
    ensures NoDup(Names(s.results)) && forall x :: x in Names(s.results) <==> x in c.order
  {
    forall x
      ensures x in Names(s.results) <==> x in c.order
    {
      if x in c.order {
        assert InResults(s, x);
        var k :| 0 <= k < |s.results| && s.results[k].name == x;
        assert Names(s.results)[k] == x;
      }
      if x in Names(s.results) {
        var k :| 0 <= k < |s.results| && Names(s.results)[k] == x;
        assert InResults(s, x);
      }
    }
  }

  lemma {:induction false} TruthyRestrict(names: seq<Name>, p: map<Name, Value>, q: map<Name, Value>)
    requires forall n :: n in names ==> (n in p <==> n in q) && (n in p ==> p[n] == q[n])
    ensures TruthyValues(names, p) == TruthyValues(names, q)
  {
    if names != [] {
      TruthyRestrict(names[..|names| - 1], p, q);
    }
  }

  lemma NoExceptionNoBad(c: Config, s: State)
    requires Blame(c, s) && Outcome(c, s) && Complete(s) && NoneRaised(s.results, |s.results|)
    ensures forall r :: r in c.order ==> !Bad(c, r)
  {
    forall r, n: nat
      ensures !BlamedWithin(c, s, r, n)
    {
      NobodyToBlame(c, s, r, n);
    }
    assert forall r :: r in s.errored ==> Blamed(c, s, r);
  }

  lemma {:induction false} NobodyToBlame(c: Config, s: State, r: Name, n: nat)
    requires Complete(s) && NoneRaised(s.results, |s.results|)
    ensures !BlamedWithin(c, s, r, n)
    decreases n
  {
    forall d | n > 0 && d in Deps(c, r)
      ensures !BlamedWithin(c, s, d, n - 1)
    {
      NobodyToBlame(c, s, d, n - 1);
    }
  }

  lemma RecordedMeaning(c: Config, s: State, exceptions: map<Name, Exc>)
    requires Outcome(c, s) && Recorded(s.results, |s.results|, exceptions)
    ensures forall r :: r in exceptions <==> RootCause(c, r)
  {
    forall r
      ensures r in exceptions <==> RootCause(c, r)
    {
      if RootCause(c, r) {
        assert InResults(s, r);
        var k :| 0 <= k < |s.results| && s.results[k].name == r;
      }
      if r in exceptions {
        assert LastRaised(s.results, |s.results|, exceptions[r]);
        assert InResults(s, r);
      }
    }
  }
}
