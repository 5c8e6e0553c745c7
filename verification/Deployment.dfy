/** The gated pool as `Deployment` uses it: the resources a deploy creates, the resources it
    destroys, and which ones are obsolete (nixops/deployment.py). */
module Deployment {
  import opened Seqs
  import opened GatedPool
  import opened PoolOutcome
  import opened PoolProgress
  import opened RunTasks

  /** should_do_n: an exclusion always wins, and an empty include list means everything. */
  predicate ShouldDo(name: Name, only: seq<Name>, except: seq<Name>): (r: bool)
    ensures r <==> name !in except && (only == [] || name in only)
  {
    if name in except then false
    else if only == [] then true
    else name in only
  }

  function Selected(resources: seq<Name>, only: seq<Name>, except: seq<Name>): set<Name> {
    set r | r in resources && ShouldDo(r, only, except)
  }

  function Without(resources: seq<Name>, gone: set<Name>): (kept: seq<Name>)
    ensures forall r :: r in kept <==> r in resources && r !in gone
    ensures NoDup(resources) ==> NoDup(kept)
  {
    if resources == [] then []
    else (if resources[0] in gone then [] else [resources[0]]) + Without(resources[1..], gone)
  }

  ghost predicate Precedes(s: seq<Name>, x: Name, y: Name) {
    exists i, j :: 0 <= i < j < |s| && s[i] == x && s[j] == y
  }

  /** What is kept keeps its order. */
  lemma {:induction false} WithoutOrder(resources: seq<Name>, gone: set<Name>, x: Name, y: Name)
    requires Precedes(Without(resources, gone), x, y)
    ensures Precedes(resources, x, y)
  {
    var kept := Without(resources, gone);
    var i, j :| 0 <= i < j < |kept| && kept[i] == x && kept[j] == y;
    var rest := Without(resources[1..], gone);
    if resources[0] in gone || i > 0 {
      var d := |kept| - |rest|;
      assert rest[i - d] == x && rest[j - d] == y;
      WithoutOrder(resources[1..], gone, x, y);
      var k, l :| 0 <= k < l < |resources[1..]| && resources[1..][k] == x && resources[1..][l] == y;
      assert resources[k + 1] == x && resources[l + 1] == y;
    } else {
      assert rest[j - 1] == y && y in resources[1..];
      var l :| 0 <= l < |resources[1..]| && resources[1..][l] == y;
      assert resources[0] == x && resources[l + 1] == y;
    }
  }

  // ----- Creation -----

  /** What a deploy knows about its active resources before the create workers start. */
  datatype CreatePlan = CreatePlan(
    active: seq<Name>,
    createAfter: map<Name, seq<Name>>,
    gateFails: set<Name>,
    createFails: set<Name>)

  function CreateConfig(p: CreatePlan, only: seq<Name>, except: seq<Name>): Config {
    Config(p.active, Selected(p.active, only, except), p.createAfter, p.gateFails, p.createFails)
  }

  /** In every interleaving of a deploy, `create(r)` has started only if everything in
      `create_after(r)` has its event set un-errored, for good, and has itself been created
      unless it was left out by include/exclude. */
  lemma CreateGate(p: CreatePlan, only: seq<Name>, except: seq<Name>, workers: nat,
                   sched: seq<nat>, s: State, more: seq<nat>, later: State, r: Name, d: Name)
    requires WellFormed(CreateConfig(p, only, except))
    requires Runs(CreateConfig(p, only, except), Init(CreateConfig(p, only, except), workers), sched, s)
    requires Runs(CreateConfig(p, only, except), s, more, later)
    requires r in s.started && r in p.createAfter && d in p.createAfter[r]
    ensures d in s.done && d !in s.errored && d !in later.errored
    ensures d in p.active && d !in except && (only == [] || d in only) ==> d in s.acted
    ensures r in p.active && r !in except && (only == [] || r in only)
  {
    var c := CreateConfig(p, only, except);
    GateSafety(c, workers, sched, s, more, later);
    assert d in Deps(c, r);
    assert Cleared(c, s, d) && Cleared(c, later, d);
  }

  /** r is to be created and cannot be: its create_after or its create raises, or something it has
      to be created after cannot be created, along a chain of length <= n. */
  ghost predicate CreateBad(p: CreatePlan, only: seq<Name>, except: seq<Name>, r: Name, n: nat)
    decreases n
  {
    && r in p.active && r !in except && (only == [] || r in only)
    && (r in p.gateFails || r in p.createFails ||
        (n > 0 && r in p.createAfter && exists d :: d in p.createAfter[r] && CreateBad(p, only, except, d, n - 1)))
  }

  /** r is to be created and nothing keeps it from being created. */
  ghost predicate Created(p: CreatePlan, only: seq<Name>, except: seq<Name>, r: Name) {
    && r in p.active && r !in except && (only == [] || r in only)
    && forall n: nat :: !CreateBad(p, only, except, r, n)
  }

  /** r's own worker raises: its create_after does, or its create after everything before it. */
  ghost predicate CreateRoot(p: CreatePlan, only: seq<Name>, except: seq<Name>, r: Name) {
    && r in p.active && r !in except && (only == [] || r in only)
    && (r in p.gateFails ||
        (r in p.createFails &&
         forall d, n: nat :: r in p.createAfter && d in p.createAfter[r] ==> !CreateBad(p, only, except, d, n)))
  }

  /** The verdict of the create workers: no exception if nothing is bad, otherwise the roots. */
  ghost predicate CreateReports(p: CreatePlan, only: seq<Name>, except: seq<Name>, v: Verdict) {
    match v
    case Returned(values) => values == [] && forall r, n: nat :: !CreateBad(p, only, except, r, n)
    case Reraised(e) => forall r :: CreateRoot(p, only, except, r) <==> r == e.name
    case Multiple(es) => |es| > 1 && forall r :: CreateRoot(p, only, except, r) <==> r in es
    case BadWorkerCount => false
  }

  /** Failing along create_after is failing in the pool. */
  lemma {:induction false} CreateBadIsBad(p: CreatePlan, only: seq<Name>, except: seq<Name>, r: Name, n: nat)
    ensures CreateBad(p, only, except, r, n) <==> BadWithin(CreateConfig(p, only, except), r, n)
    decreases n
  {
    var c := CreateConfig(p, only, except);
    if n > 0 {
      forall d: Name | d in Deps(c, r)
        ensures CreateBad(p, only, except, d, n - 1) <==> BadWithin(c, d, n - 1)
      {
        CreateBadIsBad(p, only, except, d, n - 1);
      }
      assert r in p.createAfter ==> Deps(c, r) == p.createAfter[r];
    }
  }

  lemma CreateRoots(p: CreatePlan, only: seq<Name>, except: seq<Name>)
    ensures var c := CreateConfig(p, only, except);
            && (forall r :: CreateRoot(p, only, except, r) <==> RootCause(c, r))
            && (forall r, n: nat :: CreateBad(p, only, except, r, n) <==> BadWithin(c, r, n))
  {
    hide CreateBad, BadWithin;
    var c := CreateConfig(p, only, except);
    forall r, n: nat
      ensures CreateBad(p, only, except, r, n) <==> BadWithin(c, r, n)
    {
      CreateBadIsBad(p, only, except, r, n);
    }
    forall r
      ensures CreateRoot(p, only, except, r) <==> RootCause(c, r)
    {
      assert forall d :: d in Deps(c, r) <==> r in p.createAfter && d in p.createAfter[r];
      if RootCause(c, r) && r !in p.gateFails {
        forall d, n: nat | d in Deps(c, r)
          ensures !CreateBad(p, only, except, d, n)
        {
          assert !Bad(c, d);
        }
      }
    }
  }

  lemma ReportsCreated(p: CreatePlan, only: seq<Name>, except: seq<Name>, v: Verdict)
    requires Reports(CreateConfig(p, only, except), map[], v)
    ensures CreateReports(p, only, except, v)
    ensures v.Returned? <==> forall r, n: nat :: !CreateBad(p, only, except, r, n)
  {
    hide CreateBad, BadWithin, CreateRoot, RootCause;
    var c := CreateConfig(p, only, except);
    CreateRoots(p, only, except);
    if v.Returned? {
      NoValues(c.order, v.values);
      forall r, n: nat
        ensures !BadWithin(c, r, n)
      {
        BadListed(p, only, except, r, n);
        assert r in p.active ==> !Bad(c, r);
      }
    } else {
      RaisedMeansBad(c, v);
      var r :| r in c.order && Bad(c, r);
      var n: nat :| BadWithin(c, r, n);
      assert CreateBad(p, only, except, r, n);
    }
  }

  lemma BadListed(p: CreatePlan, only: seq<Name>, except: seq<Name>, r: Name, n: nat)
    ensures BadWithin(CreateConfig(p, only, except), r, n) ==>
              r in p.active && Bad(CreateConfig(p, only, except), r)
  {
  }

  /** The create phase of `_deploy`.  It returns normally exactly if no resource to be created is
      bad, and then every one of them has been created; otherwise it raises exactly the roots. */
  method CreateResources(p: CreatePlan, only: seq<Name>, except: seq<Name>) returns (v: Verdict, created: set<Name>)
    requires WellFormed(CreateConfig(p, only, except)) && AllFinish(CreateConfig(p, only, except))
    ensures CreateReports(p, only, except, v)
    ensures v.Returned? <==> forall r, n: nat :: !CreateBad(p, only, except, r, n)
    ensures forall r :: r in created <==> Created(p, only, except, r)
    ensures forall r :: r in p.active && r !in except && (only == [] || r in only) && (r in p.gateFails || r in p.createFails) ==>
              r !in created && !v.Returned?
    ensures v.Returned? ==> forall r :: r in created <==> r in p.active && r !in except && (only == [] || r in only)
  {
    var c := CreateConfig(p, only, except);
    v, created := RunTasks.RunTasks(c, -1, map[]);
    if p.active == [] {
      NothingToCreate(c, v);
    }
    ReportsCreated(p, only, except, v);
    CreatedSet(p, only, except, created);
    OwnFailures(p, only, except);
  }

  lemma NothingToCreate(c: Config, v: Verdict)
    requires c.order == [] && v == Returned([])
    ensures Reports(c, map[], v)
  {
  }

  lemma OwnFailures(p: CreatePlan, only: seq<Name>, except: seq<Name>)
    ensures forall r :: r in p.active && r !in except && (only == [] || r in only) && (r in p.gateFails || r in p.createFails) ==>
              CreateBad(p, only, except, r, 0)
  {
  }

  lemma CreatedSet(p: CreatePlan, only: seq<Name>, except: seq<Name>, created: set<Name>)
    requires var c := CreateConfig(p, only, except);
             forall r :: r in created <==> r in c.order && r in c.included && !Bad(c, r)
    ensures forall r :: r in created <==> Created(p, only, except, r)
  {
    hide CreateBad, BadWithin;
    CreateRoots(p, only, except);
    var c := CreateConfig(p, only, except);
    forall r
      ensures r in created <==> Created(p, only, except, r)
    {
      if Bad(c, r) {
        var n: nat :| BadWithin(c, r, n);
        assert CreateBad(p, only, except, r, n);
      } else {
        forall n: nat
          ensures !CreateBad(p, only, except, r, n)
        {
          assert !BadWithin(c, r, n);
        }
      }
    }
  }

  lemma NoValues(names: seq<Name>, values: seq<Value>)
    requires multiset(values) == multiset(TruthyValues(names, map[]))
    ensures values == []
  {
    NoPayload(names);
    assert |values| == |multiset(values)|;
  }

  lemma {:induction false} NoPayload(names: seq<Name>)
    ensures TruthyValues(names, map[]) == []
  {
    if names != [] {
      NoPayload(names[..|names| - 1]);
    }
  }

  lemma RaisedMeansBad(c: Config, v: Verdict)
    requires Reports(c, map[], v) && !v.Returned?
    ensures exists r :: r in c.order && Bad(c, r)
  {
    var r;
    match v {
      case Reraised(e) =>
        r := e.name;
      case Multiple(es) =>
        assert es.Keys != {};
        r :| r in es.Keys;
    }
    assert RootCause(c, r) && BadWithin(c, r, 0);
  }

  // ----- Destruction -----

  /** Every resource gets the list of resources that name it in `destroy_before`: `_wait_for` is
      the transpose of that relation. */
  method BuildWaitFor(resources: seq<Name>, destroyBefore: map<Name, seq<Name>>) returns (waitFor: map<Name, seq<Name>>)
    requires forall r :: r in resources ==> r in destroyBefore
    requires forall r, x :: r in resources && x in destroyBefore[r] ==> x in resources
    ensures waitFor.Keys == set r | r in resources
    ensures forall x, r :: x in resources ==>
              (r in waitFor[x] <==> r in resources && x in destroyBefore[r])
  {
    waitFor := map x | x in resources :: [];
    for i := 0 to |resources|
      invariant waitFor.Keys == set r | r in resources
      invariant forall x, r :: x in resources ==>
                  (r in waitFor[x] <==> r in resources[..i] && x in destroyBefore[r])
    {
      waitFor := AppendTo(resources[i], destroyBefore[resources[i]], waitFor);
    }
    assert resources[..|resources|] == resources;
  }

  /** The inner loop: r is appended to the list of each of revDeps. */
  method AppendTo(r: Name, revDeps: seq<Name>, before: map<Name, seq<Name>>) returns (waitFor: map<Name, seq<Name>>)
    requires forall x :: x in revDeps ==> x in before
    ensures waitFor.Keys == before.Keys
    ensures forall x, q :: x in before ==> (q in waitFor[x] <==> q in before[x] || (q == r && x in revDeps))
  {
    waitFor := before;
    for j := 0 to |revDeps|
      invariant waitFor.Keys == before.Keys
      invariant forall x, q :: x in before ==> (q in waitFor[x] <==> q in before[x] || (q == r && x in revDeps[..j]))
    {
      var revDep := revDeps[j];
      waitFor := waitFor[revDep := waitFor[revDep] + [r]];
    }
    assert revDeps[..|revDeps|] == revDeps;
  }

  /** The outcome of `destroy` per resource: raising, or returning False and keeping the resource. */
  datatype DestroyPlan = DestroyPlan(destroyBefore: map<Name, seq<Name>>, destroyFails: set<Name>, destroyFalse: set<Name>)

  ghost predicate IsWaitFor(resources: seq<Name>, p: DestroyPlan, waitFor: map<Name, seq<Name>>) {
    && waitFor.Keys == (set r | r in resources)
    && forall x, r :: x in waitFor ==>
         (r in waitFor[x] <==> r in resources && r in p.destroyBefore && x in p.destroyBefore[r])
  }

  function DestroyConfig(resources: seq<Name>, p: DestroyPlan, waitFor: map<Name, seq<Name>>,
                         only: seq<Name>, except: seq<Name>): Config {
    Config(resources, Selected(resources, only, except), waitFor, {}, p.destroyFails)
  }

  /** `destroy(x)` has started only if every resource r that wants to be destroyed before x has
      finished un-errored, for good, and has been destroyed unless left out. */
  lemma DestroyGate(resources: seq<Name>, p: DestroyPlan, waitFor: map<Name, seq<Name>>, only: seq<Name>,
                    except: seq<Name>, workers: nat, sched: seq<nat>, s: State, more: seq<nat>, later: State, x: Name, r: Name)
    requires NoDup(resources) && IsWaitFor(resources, p, waitFor)
    requires var c := DestroyConfig(resources, p, waitFor, only, except);
             Runs(c, Init(c, workers), sched, s) && Runs(c, s, more, later)
    requires x in s.started && r in resources && r in p.destroyBefore && x in p.destroyBefore[r]
    ensures r in s.done && r !in s.errored && r !in later.errored
    ensures r !in except && (only == [] || r in only) ==> r in s.acted
    ensures x in resources && x !in except && (only == [] || x in only)
  {
    var c := DestroyConfig(resources, p, waitFor, only, except);
    ReachableInv(c, workers, sched, s);
    GateSafety(c, workers, sched, s, more, later);
    StartedKnown(c, s, x);
    assert r in Deps(c, x);
    assert Cleared(c, s, r) && Cleared(c, later, r);
  }

  lemma StartedKnown(c: Config, s: State, x: Name)
    requires Inv(c, s) && x in s.started
    ensures x in c.order
  {
  }

  ghost predicate SafeToDestroy(resources: seq<Name>, p: DestroyPlan) {
    && (forall r :: r in resources ==> r in p.destroyBefore)
    && (forall r, x :: r in resources && x in p.destroyBefore[r] ==> x in resources)
  }

  /** A numbering in which a selected resource comes after those it has to wait for. */
  ghost predicate DestroyRanks(resources: seq<Name>, p: DestroyPlan, selected: set<Name>, rank: map<Name, nat>) {
    && (forall r :: r in resources ==> r in rank)
    && (forall r, x | r in resources && r in selected && r in p.destroyBefore && x in p.destroyBefore[r] &&
                      x in resources && x in selected :: rank[r] < rank[x])
  }

  ghost predicate AcyclicDestroy(resources: seq<Name>, p: DestroyPlan, selected: set<Name>) {
    exists rank :: DestroyRanks(resources, p, selected, rank)
  }

  lemma AcyclicWaitFor(resources: seq<Name>, p: DestroyPlan, waitFor: map<Name, seq<Name>>, only: seq<Name>, except: seq<Name>)
    requires IsWaitFor(resources, p, waitFor) && AcyclicDestroy(resources, p, Selected(resources, only, except))
    requires NoDup(resources) && SafeToDestroy(resources, p)
    ensures WellFormed(DestroyConfig(resources, p, waitFor, only, except))
    ensures Acyclic(DestroyConfig(resources, p, waitFor, only, except))
  {
    var rank :| DestroyRanks(resources, p, Selected(resources, only, except), rank);
    assert Ranks(DestroyConfig(resources, p, waitFor, only, except), rank);
  }

  /** r is selected and cannot be destroyed: its destroy raises, or that of something it waits for. */
  ghost predicate DestroyBad(resources: seq<Name>, p: DestroyPlan, only: seq<Name>, except: seq<Name>, r: Name, n: nat)
    decreases n
  {
    r in resources && r !in except && (only == [] || r in only) &&
    (r in p.destroyFails ||
     (n > 0 && exists q | q in resources && q in p.destroyBefore && r in p.destroyBefore[q] ::
        DestroyBad(resources, p, only, except, q, n - 1)))
  }

  lemma {:induction false} DestroyBadIsBad(resources: seq<Name>, p: DestroyPlan, waitFor: map<Name, seq<Name>>,
                          only: seq<Name>, except: seq<Name>, r: Name, n: nat)
    requires IsWaitFor(resources, p, waitFor)
    ensures DestroyBad(resources, p, only, except, r, n) <==>
            BadWithin(DestroyConfig(resources, p, waitFor, only, except), r, n)
    decreases n
  {
    var c := DestroyConfig(resources, p, waitFor, only, except);
    if n > 0 && r in resources {
      forall q
        ensures q in resources && q in p.destroyBefore && r in p.destroyBefore[q] <==> q in Deps(c, r)
        ensures DestroyBad(resources, p, only, except, q, n - 1) <==> BadWithin(c, q, n - 1)
      {
        DestroyBadIsBad(resources, p, waitFor, only, except, q, n - 1);
      }
    }
  }

  ghost predicate Destroyed(resources: seq<Name>, p: DestroyPlan, only: seq<Name>, except: seq<Name>, r: Name) {
    && r in resources && r !in except && (only == [] || r in only) && r !in p.destroyFalse
    && forall n: nat :: !DestroyBad(resources, p, only, except, r, n)
  }

  /** r's destroy raises, after everything it waits for is done with. */
  ghost predicate DestroyRoot(resources: seq<Name>, p: DestroyPlan, only: seq<Name>, except: seq<Name>, r: Name) {
    && r in resources && r !in except && (only == [] || r in only) && r in p.destroyFails
    && forall q, n: nat :: q in resources && q in p.destroyBefore && r in p.destroyBefore[q] ==>
         !DestroyBad(resources, p, only, except, q, n)
  }

  /** The verdict of the destroy workers: no exception if nothing is bad, otherwise the roots. */
  ghost predicate DestroyReports(resources: seq<Name>, p: DestroyPlan, only: seq<Name>, except: seq<Name>, v: Verdict) {
    match v
    case Returned(values) => values == [] && forall r, n: nat :: !DestroyBad(resources, p, only, except, r, n)
    case Reraised(e) => forall r :: DestroyRoot(resources, p, only, except, r) <==> r == e.name
    case Multiple(es) => |es| > 1 && forall r :: DestroyRoot(resources, p, only, except, r) <==> r in es
    case BadWorkerCount => false
  }

  lemma DestroyRoots(resources: seq<Name>, p: DestroyPlan, waitFor: map<Name, seq<Name>>, only: seq<Name>, except: seq<Name>)
    requires IsWaitFor(resources, p, waitFor)
    ensures var c := DestroyConfig(resources, p, waitFor, only, except);
            && (forall r :: DestroyRoot(resources, p, only, except, r) <==> RootCause(c, r))
            && (forall r, n: nat :: DestroyBad(resources, p, only, except, r, n) <==> BadWithin(c, r, n))
  {
    hide DestroyBad, BadWithin;
    var c := DestroyConfig(resources, p, waitFor, only, except);
    forall r, n: nat
      ensures DestroyBad(resources, p, only, except, r, n) <==> BadWithin(c, r, n)
    {
      DestroyBadIsBad(resources, p, waitFor, only, except, r, n);
    }
    forall r
      ensures DestroyRoot(resources, p, only, except, r) <==> RootCause(c, r)
    {
      if r in resources {
        assert forall q :: q in Deps(c, r) <==> q in resources && q in p.destroyBefore && r in p.destroyBefore[q];
        if RootCause(c, r) {
          forall q, n: nat | q in Deps(c, r)
            ensures !DestroyBad(resources, p, only, except, q, n)
          {
            assert !Bad(c, q);
          }
        }
      }
    }
  }

  lemma ReportsDestroyed(resources: seq<Name>, p: DestroyPlan, waitFor: map<Name, seq<Name>>, only: seq<Name>,
                         except: seq<Name>, v: Verdict)
    requires IsWaitFor(resources, p, waitFor)
    requires Reports(DestroyConfig(resources, p, waitFor, only, except), map[], v)
    ensures DestroyReports(resources, p, only, except, v)
  {
    hide DestroyBad, BadWithin, DestroyRoot, RootCause;
    var c := DestroyConfig(resources, p, waitFor, only, except);
    DestroyRoots(resources, p, waitFor, only, except);
    if v.Returned? {
      NoValues(c.order, v.values);
      forall r, n: nat
        ensures !BadWithin(c, r, n)
      {
        assert r in resources ==> !Bad(c, r);
        BadKnown(c, r, n);
      }
    }
  }

  lemma BadKnown(c: Config, r: Name, n: nat)
    ensures BadWithin(c, r, n) ==> r in c.included && Bad(c, r)
  {
  }

  /** The destroy workers over a fixed list of resources: which ones end up deleted. */
  method RunDestroy(resources: seq<Name>, p: DestroyPlan, only: seq<Name>, except: seq<Name>)
    returns (v: Verdict, gone: set<Name>)
    requires NoDup(resources) && SafeToDestroy(resources, p) && AcyclicDestroy(resources, p, Selected(resources, only, except))
    ensures forall r :: r in gone <==> Destroyed(resources, p, only, except, r)
    ensures DestroyReports(resources, p, only, except, v)
    ensures v.Returned? ==>
              forall r :: r in gone <==> r in resources && r !in except && (only == [] || r in only) && r !in p.destroyFalse
    ensures forall r :: r in gone ==> r in resources && r !in except && (only == [] || r in only)
  {
    var waitFor := BuildWaitFor(resources, p.destroyBefore);
    assert IsWaitFor(resources, p, waitFor);
    if resources == [] {
      return Returned([]), {};
    }
    var c := DestroyConfig(resources, p, waitFor, only, except);
    AcyclicWaitFor(resources, p, waitFor, only, except);
    AcyclicFinishes(c);
    var acted;
    v, acted := RunTasks.RunTasks(c, -1, map[]);
    gone := acted - p.destroyFalse;
    DestroyedSet(resources, p, waitFor, only, except, acted);
    ReportsDestroyed(resources, p, waitFor, only, except, v);
  }

  /** What `_destroy_resources` does to the resources when it is called for toDestroy, if at all. */
  ghost predicate DestroysOnly(all: seq<Name>, p: DestroyPlan, toDestroy: seq<Name>, left: seq<Name>, v: Verdict) {
    if toDestroy == [] then left == all && v == Returned([])
    else
      && DestroyReports(all, p, toDestroy, [], v)
      && exists gone ::
           && (forall r :: r in gone <==> Destroyed(all, p, toDestroy, [], r))
           && left == Without(all, gone)
  }

  /** The obsolete resources that include and exclude leave. */
  ghost function Doomed(all: seq<Name>, definitions: seq<Name>, only: seq<Name>, except: seq<Name>): set<Name> {
    set r | r in all && r !in definitions && r !in except && (only == [] || r in only)
  }

  lemma SelectedAmong(resources: seq<Name>, only: seq<Name>)
    ensures Selected(resources, only, []) <= (set r | r in resources)
    ensures only != [] ==> forall r :: r in Selected(resources, only, []) <==> r in resources && r in only
  {
  }

  lemma OnlyThose(all: seq<Name>, p: DestroyPlan, toDestroy: seq<Name>, left: seq<Name>, v: Verdict)
    requires toDestroy == [] ==> left == all && v == Returned([])
    requires toDestroy != [] ==>
               && DestroyReports(all, p, toDestroy, [], v)
               && exists gone ::
                    && (forall r :: r in gone <==> Destroyed(all, p, toDestroy, [], r))
                    && left == Without(all, gone)
    ensures DestroysOnly(all, p, toDestroy, left, v)
    ensures forall r :: r in left ==> r in all
    ensures forall r :: r in all && r !in left ==> r in toDestroy
    ensures v.Returned? ==> forall r :: r in all && r in toDestroy ==> (r in left <==> r in p.destroyFalse)
  {
  }

  lemma OwnDestroyFails(resources: seq<Name>, p: DestroyPlan, only: seq<Name>, except: seq<Name>)
    ensures forall r :: r in resources && r !in except && (only == [] || r in only) && r in p.destroyFails ==>
              DestroyBad(resources, p, only, except, r, 0)
  {
  }

  /** The part of a deployment that `evaluate_active` and `_destroy_resources` change. */
  class Resources {
    var names: seq<Name>
    var obsolete: set<Name>

    ghost predicate Valid()
      reads this
    {
      NoDup(names)
    }

    constructor (names: seq<Name>, obsolete: set<Name>)
      requires NoDup(names)
      ensures Valid() && this.names == names && this.obsolete == obsolete
    {
      this.names := names;
      this.obsolete := obsolete;
    }

    /** `_destroy_resources`: exactly the selected resources that are not bad and whose destroy
        returned True are deleted; a destroy returning False is no error. */
    method DestroyResources(p: DestroyPlan, only: seq<Name>, except: seq<Name>) returns (v: Verdict)
      requires Valid() && SafeToDestroy(names, p) && AcyclicDestroy(names, p, Selected(names, only, except))
      modifies this`names
      ensures Valid()
      ensures exists gone ::
                && (forall r :: r in gone <==> Destroyed(old(names), p, only, except, r))
                && names == Without(old(names), gone)
      ensures DestroyReports(old(names), p, only, except, v)
      ensures forall x, y :: Precedes(names, x, y) ==> Precedes(old(names), x, y)
      ensures forall r :: r in old(names) && (r in except || (only != [] && r !in only)) ==> r in names
      ensures v.Returned? ==>
                forall r :: r in old(names) ==>
                  (r in names <==> r in except || (only != [] && r !in only) || r in p.destroyFalse)
      ensures forall r :: r in old(names) && r !in except && (only == [] || r in only) && r in p.destroyFails ==>
                r in names && !v.Returned?
    {
      var gone;
      v, gone := RunDestroy(names, p, only, except);
      OwnDestroyFails(names, p, only, except);
      forall x, y | Precedes(Without(names, gone), x, y)
        ensures Precedes(names, x, y)
      {
        WithoutOrder(names, gone, x, y);
      }
      names := Without(names, gone);
    }

    /** `evaluate_active`: resources without a definition become obsolete, and with
        `kill_obsolete` the selected obsolete ones, and no others, are destroyed. */
    method EvaluateActive(definitions: seq<Name>, only: seq<Name>, except: seq<Name>, killObsolete: bool,
                          p: DestroyPlan) returns (v: Verdict)
      requires Valid() && NoDup(definitions)
      requires var all := WithDefinitions(names, definitions);
               var doomed := Doomed(all, definitions, only, except);
               killObsolete && doomed != {} ==> SafeToDestroy(all, p) && AcyclicDestroy(all, p, doomed)
      modifies this
      ensures Valid()
      ensures forall r :: r in obsolete <==>
                if r in WithDefinitions(old(names), definitions) then r !in definitions else r in old(obsolete)
      ensures exists toDestroy ::
                && (forall r :: r in toDestroy <==>
                      r in old(names) && r !in definitions && r !in except && (only == [] || r in only) && killObsolete)
                && DestroysOnly(WithDefinitions(old(names), definitions), p, toDestroy, names, v)
      ensures forall d :: d in definitions ==> d in names && d !in obsolete
      ensures forall r :: r in names && r !in definitions ==> r in obsolete
      ensures forall r :: r in old(names) && r !in names ==>
                killObsolete && r !in definitions && r !in except && (only == [] || r in only)
      ensures killObsolete && v.Returned? ==>
                forall r :: r in old(names) && r !in definitions && r !in except && (only == [] || r in only) ==>
                  (r in names <==> r in p.destroyFalse)
      ensures !killObsolete ==> names == WithDefinitions(old(names), definitions) && v == Returned([])
    {
      hide DestroyReports, Destroyed, SafeToDestroy, AcyclicDestroy, Without, WithDefinitions, Selected, DestroysOnly;
      names := WithDefinitions(names, definitions);
      ghost var all := names;
      var toDestroy: seq<Name> := [];
      for i := 0 to |names|
        invariant names == WithDefinitions(old(names), definitions)
        invariant forall r :: r in obsolete <==> if r in names[..i] then r !in definitions else r in old(obsolete)
        invariant !killObsolete ==> toDestroy == []
        invariant forall r :: r in toDestroy <==>
                    r in names[..i] && r !in definitions && ShouldDo(r, only, except) && killObsolete
      {
        var m := names[i];
        if m in definitions {
          obsolete := obsolete - {m};
        } else {
          obsolete := obsolete + {m};
          if ShouldDo(m, only, except) && killObsolete {
            toDestroy := toDestroy + [m];
          }
        }
      }
      assert names[..|names|] == names;
      v := Returned([]);
      if toDestroy != [] {
        SelectedAmong(names, toDestroy);
        assert forall r :: r in Selected(names, toDestroy, []) <==> r in Doomed(all, definitions, only, except);
        assert Selected(names, toDestroy, []) == Doomed(all, definitions, only, except);
        assert toDestroy[0] in Doomed(all, definitions, only, except);
        v := DestroyResources(p, toDestroy, []);
      }
      OnlyThose(all, p, toDestroy, names, v);
    }
  }

  /** State objects for definitions that have none yet are added at the end. */
  function WithDefinitions(names: seq<Name>, definitions: seq<Name>): (all: seq<Name>)
    requires NoDup(names)
    ensures NoDup(all) && names <= all
    ensures forall r :: r in all <==> r in names || r in definitions
  {
    if definitions == [] then names
    else
      var n := |definitions| - 1;
      var before := WithDefinitions(names, definitions[..n]);
      if definitions[n] in before then before else before + [definitions[n]]
  }

  lemma DestroyedSet(resources: seq<Name>, p: DestroyPlan, waitFor: map<Name, seq<Name>>,
                     only: seq<Name>, except: seq<Name>, acted: set<Name>)
    requires IsWaitFor(resources, p, waitFor)
    requires var c := DestroyConfig(resources, p, waitFor, only, except);
             forall r :: r in acted <==> r in c.order && r in c.included && !Bad(c, r)
    ensures forall r :: r in acted - p.destroyFalse <==> Destroyed(resources, p, only, except, r)
  {
    var c := DestroyConfig(resources, p, waitFor, only, except);
    forall r
      ensures r in acted - p.destroyFalse <==> Destroyed(resources, p, only, except, r)
    {
      forall n: nat
        ensures DestroyBad(resources, p, only, except, r, n) <==> BadWithin(c, r, n)
      {
        DestroyBadIsBad(resources, p, waitFor, only, except, r, n);
      }
    }
  }
}
