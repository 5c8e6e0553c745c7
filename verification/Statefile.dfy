/** The nested transaction bracket of the state file's connection, shared by threads: which of
    commit and rollback is called, for which block, and what becomes of the lock. */
module Statefile {
  import opened PyStrings

  // ----- The connection -----

  /** What the database does when commit or rollback is called. */
  datatype Fault = Fine | ProgrammingError | OtherError

  /** A call of rollback, or else of commit, what the database did, and whether that raised. */
  datatype Call = Call(thread: nat, rollback: bool, fault: Fault, raised: bool)

  /** `owner` and `holds` are the state of the re-entrant lock. */
  datatype State = State(owner: Option<nat>, holds: nat, nesting: nat, mustRollback: bool, calls: seq<Call>)

  datatype Event = Enter(thread: nat) | Exit(thread: nat, exception: bool, fault: Fault)

  const START: State := State(None, 0, 0, false, [])

  /** Only rollback forgives, and only a ProgrammingError. */
  predicate Raises(rollback: bool, fault: Fault): (r: bool)
    ensures r <==> fault == OtherError || (fault == ProgrammingError && !rollback)
  {
    fault.OtherError? || (fault.ProgrammingError? && !rollback)
  }

  function Released(s: State): State {
    if s.holds <= 1 then s.(owner := None, holds := 0) else s.(holds := s.holds - 1)
  }

  /** One entry or exit; None if the thread has to wait, or is not inside. */
  function Step(s: State, e: Event): Option<State> {
    match e
    case Enter(t) =>
      if s.owner.Some? && s.owner != Some(t) then None
      else Some(State(Some(t), s.holds + 1, s.nesting + 1, s.nesting > 0 && s.mustRollback, s.calls))
    case Exit(t, exception, fault) =>
      if s.owner != Some(t) || s.nesting == 0 then None
      else
        var rollback := s.mustRollback || exception;
        var left := s.(mustRollback := rollback, nesting := s.nesting - 1);
        if s.nesting > 1 then Some(Released(left))
        else
          var raised := Raises(rollback, fault);
          var called := left.(calls := s.calls + [Call(t, rollback, fault, raised)]);
          Some(if raised then called else Released(called))
  }

  class Connection {
    var owner: Option<nat>
    var holds: nat
    var nesting: nat
    var mustRollback: bool
    var calls: seq<Call>

    function Current(): State
      reads this
    {
      State(owner, holds, nesting, mustRollback, calls)
    }

    constructor ()
      ensures Current() == START
    {
      owner, holds, nesting, mustRollback, calls := None, 0, 0, false, [];
    }

    /** `lock.acquire()`, if it does not block. */
    method TryAcquire(t: nat) returns (acquired: bool)
      modifies this`owner, this`holds
      ensures acquired <==> old(owner).None? || old(owner) == Some(t)
      ensures acquired ==> owner == Some(t) && holds == old(holds) + 1
      ensures !acquired ==> owner == old(owner) && holds == old(holds)
    {
      acquired := owner.None? || owner == Some(t);
      if acquired {
        owner, holds := Some(t), holds + 1;
      }
    }

    method Release()
      modifies this`owner, this`holds
      ensures Current() == Released(old(Current()))
    {
      if holds <= 1 {
        owner, holds := None, 0;
      } else {
        holds := holds - 1;
      }
    }

    /** `__enter__`; false if the thread has to wait. */
    method Enter(t: nat) returns (entered: bool)
      modifies this
      ensures entered <==> Step(old(Current()), Event.Enter(t)).Some?
      ensures Current() == if entered then Step(old(Current()), Event.Enter(t)).value else old(Current())
      ensures entered <==> old(owner).None? || old(owner) == Some(t)
      ensures entered ==>
                && owner == Some(t) && holds == old(holds) + 1 && nesting == old(nesting) + 1 && calls == old(calls)
                && mustRollback == (old(nesting) > 0 && old(mustRollback))
    {
      entered := TryAcquire(t);
      if entered {
        if nesting == 0 {
          mustRollback := false;
        }
        nesting := nesting + 1;
      }
    }

    /** `__exit__`; whether it raises, in which case the lock is not released. */
    method Exit(t: nat, exception: bool, fault: Fault) returns (raised: bool)
      requires owner == Some(t) && nesting > 0
      modifies this
      ensures Step(old(Current()), Event.Exit(t, exception, fault)) == Some(Current())
      ensures raised <==>
                old(nesting) == 1 &&
                (fault.OtherError? || (fault.ProgrammingError? && !exception && !old(mustRollback)))
      ensures nesting == old(nesting) - 1 && mustRollback == (old(mustRollback) || exception)
      ensures calls ==
              if old(nesting) == 1 then old(calls) + [Call(t, old(mustRollback) || exception, fault, raised)] else old(calls)
      ensures raised ==> owner == Some(t) && holds == old(holds)
      ensures !raised && old(holds) <= 1 ==> owner.None? && holds == 0
      ensures !raised && old(holds) > 1 ==> owner == Some(t) && holds == old(holds) - 1
    {
      if exception {
        mustRollback := true;
      }
      nesting := nesting - 1;
      raised := false;
      if nesting == 0 {
        raised := Raises(mustRollback, fault);
        calls := calls + [Call(t, mustRollback, fault, raised)];
        if raised {
          return;
        }
      }
      Release();
    }
  }

  // ----- Runs of many threads -----

  function Run(s: State, events: seq<Event>): Option<State> {
    if events == [] then Some(s)
    else
      var before :- Run(s, events[..|events| - 1]);
      Step(before, events[|events| - 1])
  }

  function Of(events: seq<Event>, t: nat): seq<Event> {
    if events == [] then []
    else
      var n := |events| - 1;
      Of(events[..n], t) + if events[n].thread == t then [events[n]] else []
  }

  /** How an outermost block ended: by a rollback, or by a commit, and what the database did. */
  datatype End = End(rollback: bool, fault: Fault)

  /** The calls made for t. */
  function Ends(calls: seq<Call>, t: nat): seq<End> {
    if calls == [] then []
    else
      var n := |calls| - 1;
      Ends(calls[..n], t) + if calls[n].thread == t then [End(calls[n].rollback, calls[n].fault)] else []
  }

  function RaisedCalls(calls: seq<Call>): nat {
    if calls == [] then 0
    else
      var n := |calls| - 1;
      RaisedCalls(calls[..n]) + if calls[n].raised then 1 else 0
  }

  /** One thread by itself: how deep it is, whether its block has failed, how its blocks ended. */
  datatype Track = Track(depth: nat, failed: bool, ended: seq<End>)

  function Advance(k: Track, e: Event): Track {
    match e
    case Enter(_) => Track(k.depth + 1, k.depth > 0 && k.failed, k.ended)
    case Exit(_, exception, fault) =>
      var failed := k.failed || exception;
      if k.depth == 0 then k
      else Track(k.depth - 1, failed, if k.depth == 1 then k.ended + [End(failed, fault)] else k.ended)
  }

  function Follow(k: Track, events: seq<Event>): Track {
    if events == [] then k
    else
      var n := |events| - 1;
      Advance(Follow(k, events[..n]), events[n])
  }

  const OUTSIDE: Track := Track(0, false, [])

  ghost function TrackOf(events: seq<Event>, t: nat): Track {
    Follow(OUTSIDE, Of(events, t))
  }

  /** The connection is in the state its owner's own events account for; nobody else is inside. */
  ghost predicate Accounted(s: State, events: seq<Event>) {
    && s.holds == s.nesting + RaisedCalls(s.calls)
    && (s.owner.None? <==> s.holds == 0)
    && (forall t: nat :: TrackOf(events, t).depth == if s.owner == Some(t) then s.nesting else 0)
    && (forall t: nat :: s.owner == Some(t) && s.nesting > 0 ==> TrackOf(events, t).failed == s.mustRollback)
    && (forall t: nat :: Ends(s.calls, t) == TrackOf(events, t).ended)
    && (forall k :: 0 <= k < |s.calls| ==> (s.calls[k].raised <==> Faulty(s.calls[k].rollback, s.calls[k].fault)))
  }

  /** A commit the database refused, or a rollback it refused for another reason than that the
      connection is in no state to be rolled back. */
  predicate Faulty(rollback: bool, fault: Fault) {
    match fault
    case Fine => false
    case ProgrammingError => !rollback
    case OtherError => true
  }

  lemma OfNext(events: seq<Event>, e: Event, t: nat)
    ensures TrackOf(events + [e], t) == if e.thread == t then Advance(TrackOf(events, t), e) else TrackOf(events, t)
  {
    hide Advance;
    assert (events + [e])[..|events|] == events;
    var own := Of(events, t);
    if e.thread == t {
      assert Of(events + [e], t) == own + [e];
      assert (own + [e])[..|own|] == own;
    } else {
      assert Of(events + [e], t) == own;
    }
  }

  lemma CallsNext(calls: seq<Call>, c: Call, t: nat)
    ensures RaisedCalls(calls + [c]) == RaisedCalls(calls) + if c.raised then 1 else 0
    ensures Ends(calls + [c], t) == Ends(calls, t) + if c.thread == t then [End(c.rollback, c.fault)] else []
  {
    assert (calls + [c])[..|calls|] == calls;
  }

  lemma StepAccounted(s: State, events: seq<Event>, e: Event)
    requires Accounted(s, events) && Step(s, e).Some?
    ensures Accounted(Step(s, e).value, events + [e])
  {
    hide TrackOf, RaisedCalls, Ends;
    var s' := Step(s, e).value;
    forall t: nat
      ensures TrackOf(events + [e], t) == if e.thread == t then Advance(TrackOf(events, t), e) else TrackOf(events, t)
    {
      OfNext(events, e, t);
    }
    if s'.calls != s.calls {
      var c := s'.calls[|s.calls|];
      forall t: nat
        ensures RaisedCalls(s'.calls) == RaisedCalls(s.calls) + if c.raised then 1 else 0
        ensures Ends(s'.calls, t) == Ends(s.calls, t) + if c.thread == t then [End(c.rollback, c.fault)] else []
      {
        CallsNext(s.calls, c, t);
      }
    }
  }

  lemma {:induction false} RunAccounted(events: seq<Event>, s: State)
    requires Run(START, events) == Some(s)
    ensures Accounted(s, events)
  {
    hide Step, Accounted;
    if events == [] {
      StartAccounted();
    } else {
      var n := |events| - 1;
      var before := Run(START, events[..n]).value;
      RunAccounted(events[..n], before);
      StepAccounted(before, events[..n], events[n]);
      assert events[..n] + [events[n]] == events;
    }
  }

  lemma StartAccounted()
    ensures Accounted(START, [])
  {
  }

  // ----- Blocks -----

  /** A `with` block: the blocks inside it, whether an exception leaves it (its own, or one of an
      inner block that was not swallowed) and what the database does if it is outermost. */
  datatype Block = Block(inner: seq<Block>, exception: bool, fault: Fault)

  function Events(b: Block, t: nat): seq<Event> {
    [Enter(t)] + AllEvents(b.inner, t) + [Exit(t, b.exception, b.fault)]
  }

  function AllEvents(bs: seq<Block>, t: nat): seq<Event> {
    if bs == [] then [] else Events(bs[0], t) + AllEvents(bs[1..], t)
  }

  /** Some exit at some depth of b saw an exception. */
  predicate Fails(b: Block) {
    b.exception || AnyFails(b.inner)
  }

  predicate AnyFails(bs: seq<Block>) {
    bs != [] && (Fails(bs[0]) || AnyFails(bs[1..]))
  }

  function Verdicts(bs: seq<Block>): seq<End> {
    seq(|bs|, i requires 0 <= i < |bs| => End(Fails(bs[i]), bs[i].fault))
  }

  lemma {:induction false} FollowConcat(k: Track, a: seq<Event>, b: seq<Event>)
    ensures Follow(k, a + b) == Follow(Follow(k, a), b)
    decreases |b|
  {
    hide Advance;
    if b == [] {
      assert a + b == a;
    } else {
      var n := |b| - 1;
      assert (a + b)[..|a| + n] == a + b[..n];
      FollowConcat(k, a, b[..n]);
    }
  }

  lemma FollowOne(k: Track, e: Event)
    ensures Follow(k, [e]) == Advance(k, e)
  {
    assert Follow(k, [e][..0]) == k;
  }

  lemma {:induction false} FollowBlock(k: Track, b: Block, t: nat)
    ensures Follow(k, Events(b, t)) ==
            if k.depth == 0 then Track(0, Fails(b), k.ended + [End(Fails(b), b.fault)]) else Track(k.depth, k.failed || Fails(b), k.ended)
    decreases b, 0
  {
    hide Follow, AllEvents;
    var exit := Exit(t, b.exception, b.fault);
    FollowConcat(k, [Enter(t)] + AllEvents(b.inner, t), [exit]);
    FollowConcat(k, [Enter(t)], AllEvents(b.inner, t));
    var entered := Advance(k, Enter(t));
    FollowOne(k, Enter(t));
    FollowInner(entered, b.inner, t);
    FollowOne(Follow(entered, AllEvents(b.inner, t)), exit);
  }

  lemma {:induction false} FollowInner(k: Track, bs: seq<Block>, t: nat)
    requires k.depth > 0
    ensures Follow(k, AllEvents(bs, t)) == Track(k.depth, k.failed || AnyFails(bs), k.ended)
    decreases bs, 1
  {
    if bs != [] {
      FollowConcat(k, Events(bs[0], t), AllEvents(bs[1..], t));
      FollowBlock(k, bs[0], t);
      FollowInner(Track(k.depth, k.failed || Fails(bs[0]), k.ended), bs[1..], t);
    }
  }

  lemma {:induction false} FollowOutermost(k: Track, bs: seq<Block>, t: nat)
    requires k.depth == 0
    ensures Follow(k, AllEvents(bs, t)).depth == 0
    ensures Follow(k, AllEvents(bs, t)).ended == k.ended + Verdicts(bs)
    decreases |bs|
  {
    if bs != [] {
      var first := Track(0, Fails(bs[0]), k.ended + [End(Fails(bs[0]), bs[0].fault)]);
      FollowConcat(k, Events(bs[0], t), AllEvents(bs[1..], t));
      FollowBlock(k, bs[0], t);
      FollowOutermost(first, bs[1..], t);
      assert Verdicts(bs) == [End(Fails(bs[0]), bs[0].fault)] + Verdicts(bs[1..]);
    }
  }

  // ----- The bracket -----

  /** Whenever every thread has run its blocks to the end: for each thread there was one call per
      outermost block, in order, a rollback exactly if some exit in that block saw an exception,
      whatever the other threads did; and the lock is free exactly if the database refused no commit,
      and no rollback but by a ProgrammingError. */
  lemma OneCallPerBlock(events: seq<Event>, s: State, blocks: seq<seq<Block>>)
    requires Run(START, events) == Some(s)
    requires forall t: nat :: Of(events, t) == if t < |blocks| then AllEvents(blocks[t], t) else []
    ensures forall t: nat :: t < |blocks| ==> Ends(s.calls, t) == Verdicts(blocks[t])
    ensures s.nesting == 0
    ensures s.owner.None? <==> forall i :: 0 <= i < |s.calls| ==> !s.calls[i].raised
    ensures s.owner.None? <==>
            forall t, b :: 0 <= t < |blocks| && b in blocks[t] ==>
              !b.fault.OtherError? && (b.fault.ProgrammingError? ==> Fails(b))
  {
    hide Ends, AllEvents, Verdicts;
    RunAccounted(events, s);
    forall t: nat
      ensures TrackOf(events, t).depth == 0
      ensures TrackOf(events, t).ended == if t < |blocks| then Verdicts(blocks[t]) else []
    {
      if t < |blocks| {
        FollowOutermost(OUTSIDE, blocks[t], t);
      } else {
        NothingFollowed(events, t);
      }
    }
    if s.owner.Some? {
      assert TrackOf(events, s.owner.value).depth == s.nesting;
    }
    NoneRaised(s.calls);
    assert Matched(s.calls, blocks);
    FaultyBlocks(s.calls, blocks);
  }

  lemma NothingFollowed(events: seq<Event>, t: nat)
    requires Of(events, t) == []
    ensures TrackOf(events, t) == OUTSIDE
  {
  }

  lemma {:induction false} EndsMembers(calls: seq<Call>, t: nat)
    ensures forall k :: 0 <= k < |calls| && calls[k].thread == t ==> End(calls[k].rollback, calls[k].fault) in Ends(calls, t)
    ensures forall e :: e in Ends(calls, t) ==>
              exists k :: 0 <= k < |calls| && calls[k].thread == t && e == End(calls[k].rollback, calls[k].fault)
  {
    if calls != [] {
      var n := |calls| - 1;
      EndsMembers(calls[..n], t);
      forall e | e in Ends(calls, t)
        ensures exists k :: 0 <= k < |calls| && calls[k].thread == t && e == End(calls[k].rollback, calls[k].fault)
      {
        if e in Ends(calls[..n], t) {
          var k :| 0 <= k < n && calls[..n][k].thread == t && e == End(calls[..n][k].rollback, calls[..n][k].fault);
          assert calls[k] == calls[..n][k];
        }
      }
      forall k | 0 <= k < |calls| && calls[k].thread == t
        ensures End(calls[k].rollback, calls[k].fault) in Ends(calls, t)
      {
        if k < n {
          assert calls[..n][k] == calls[k];
        }
      }
    }
  }

  /** Each call is that of some block, and each block has a call. */
  ghost predicate Matched(calls: seq<Call>, blocks: seq<seq<Block>>) {
    && (forall k :: 0 <= k < |calls| ==> (calls[k].raised <==> Faulty(calls[k].rollback, calls[k].fault)))
    && (forall t: nat :: Ends(calls, t) == if t < |blocks| then Verdicts(blocks[t]) else [])
  }

  lemma CallOfBlock(calls: seq<Call>, blocks: seq<seq<Block>>, k: nat) returns (t: nat, b: Block)
    requires Matched(calls, blocks) && k < |calls|
    ensures t < |blocks| && b in blocks[t] && (calls[k].raised <==> Faulty(Fails(b), b.fault))
  {
    hide Ends, Faulty;
    t := calls[k].thread;
    EndsMembers(calls, t);
    var e := End(calls[k].rollback, calls[k].fault);
    assert e in Ends(calls, t);
    var i :| 0 <= i < |Verdicts(blocks[t])| && Verdicts(blocks[t])[i] == e;
    b := blocks[t][i];
  }

  lemma BlockHasCall(calls: seq<Call>, blocks: seq<seq<Block>>, t: nat, b: Block) returns (k: nat)
    requires Matched(calls, blocks) && t < |blocks| && b in blocks[t]
    ensures k < |calls| && (calls[k].raised <==> Faulty(Fails(b), b.fault))
  {
    hide Ends, Faulty;
    var i :| 0 <= i < |blocks[t]| && blocks[t][i] == b;
    var e := Verdicts(blocks[t])[i];
    EndsMembers(calls, t);
    assert e in Ends(calls, t);
    k :| 0 <= k < |calls| && calls[k].thread == t && e == End(calls[k].rollback, calls[k].fault);
  }

  /** No call raised exactly if no block's call was faulty. */
  lemma FaultyBlocks(calls: seq<Call>, blocks: seq<seq<Block>>)
    requires Matched(calls, blocks)
    ensures (forall k :: 0 <= k < |calls| ==> !calls[k].raised) <==>
            forall t, b :: 0 <= t < |blocks| && b in blocks[t] ==> !Faulty(Fails(b), b.fault)
  {
    hide Faulty, Matched;
    forall k | 0 <= k < |calls|
      ensures exists t, b :: 0 <= t < |blocks| && b in blocks[t] && (calls[k].raised <==> Faulty(Fails(b), b.fault))
    {
      var t, b := CallOfBlock(calls, blocks, k);
    }
    forall t, b | 0 <= t < |blocks| && b in blocks[t]
      ensures exists k :: 0 <= k < |calls| && (calls[k].raised <==> Faulty(Fails(b), b.fault))
    {
      var k := BlockHasCall(calls, blocks, t, b);
    }
  }

  lemma {:induction false} NoneRaised(calls: seq<Call>)
    ensures RaisedCalls(calls) == 0 <==> forall i :: 0 <= i < |calls| ==> !calls[i].raised
  {
    if calls != [] {
      var n := |calls| - 1;
      NoneRaised(calls[..n]);
      assert calls == calls[..n] + [calls[n]];
    }
  }

  /** At any moment of any run, nesting is how deep the lock's owner is, and no other thread is
      inside a block. */
  lemma NestingIsDepth(events: seq<Event>, s: State, t: nat)
    requires Run(START, events) == Some(s)
    ensures TrackOf(events, t).depth == if s.owner == Some(t) then s.nesting else 0
    ensures Ends(s.calls, t) == TrackOf(events, t).ended
  {
    RunAccounted(events, s);
  }

  /** The run goes on inside the block it starts in: nobody leaves it but with the last event. */
  predicate StaysInside(s: State, events: seq<Event>) {
    events == [] ||
    (var before := events[..|events| - 1];
     StaysInside(s, before) && Run(s, before).Some? && Run(s, before).value.nesting > 0)
  }

  /** A block is not interrupted: until its owner leaves, all events are the owner's. */
  lemma {:induction false} NotInterrupted(s: State, t: nat, events: seq<Event>, s': State)
    requires s.owner == Some(t) && 0 < s.nesting <= s.holds
    requires StaysInside(s, events) && Run(s, events) == Some(s')
    ensures forall e :: e in events ==> e.thread == t
    ensures s'.nesting > 0 ==> s'.owner == Some(t) && s'.nesting <= s'.holds
  {
    if events != [] {
      var n := |events| - 1;
      NotInterrupted(s, t, events[..n], Run(s, events[..n]).value);
      assert events == events[..n] + [events[n]];
    }
  }

  /** All calls that raised were made by t. */
  predicate RaisedBy(calls: seq<Call>, t: nat) {
    if calls == [] then true
    else
      var n := |calls| - 1;
      RaisedBy(calls[..n], t) && (calls[n].raised ==> calls[n].thread == t)
  }

  /** Whose call has raised owns the lock. */
  ghost predicate RaisersOwn(s: State) {
    && s.holds == s.nesting + RaisedCalls(s.calls)
    && (RaisedCalls(s.calls) > 0 ==> s.owner.Some? && RaisedBy(s.calls, s.owner.value))
  }

  lemma {:induction false} NoneRaisedBy(calls: seq<Call>, t: nat)
    requires RaisedCalls(calls) == 0
    ensures RaisedBy(calls, t)
  {
    if calls != [] {
      NoneRaisedBy(calls[..|calls| - 1], t);
    }
  }

  lemma RaisedByNext(calls: seq<Call>, c: Call, t: nat)
    ensures RaisedBy(calls + [c], t) <==> RaisedBy(calls, t) && (c.raised ==> c.thread == t)
    ensures RaisedCalls(calls + [c]) == RaisedCalls(calls) + if c.raised then 1 else 0
  {
    assert (calls + [c])[..|calls|] == calls;
  }

  lemma StepRaisers(s: State, e: Event)
    requires RaisersOwn(s) && (s.owner.None? ==> s.holds == 0) && Step(s, e).Some?
    ensures RaisersOwn(Step(s, e).value)
  {
    hide RaisedCalls, RaisedBy;
    var s' := Step(s, e).value;
    if s'.calls != s.calls {
      RaisedByNext(s.calls, s'.calls[|s.calls|], e.thread);
      if RaisedCalls(s.calls) == 0 {
        NoneRaisedBy(s.calls, e.thread);
      }
    }
  }

  lemma {:induction false} RunRaisers(events: seq<Event>, s: State)
    requires Run(START, events) == Some(s)
    ensures RaisersOwn(s) && (s.owner.None? ==> s.holds == 0)
  {
    RunAccounted(events, s);
    hide Step, Accounted, RaisersOwn;
    if events == [] {
      StartRaisers();
    } else {
      var n := |events| - 1;
      var before := Run(START, events[..n]).value;
      RunRaisers(events[..n], before);
      StepRaisers(before, events[n]);
    }
    AccountedOwner(s, events);
  }

  lemma StartRaisers()
    ensures RaisersOwn(START)
  {
  }

  lemma AccountedOwner(s: State, events: seq<Event>)
    requires Accounted(s, events)
    ensures s.owner.None? ==> s.holds == 0
  {
  }

  /** Once a call has raised its thread keeps the lock forever: no other thread ever gets in. */
  lemma {:induction false} RaiseKeepsLock(events: seq<Event>, s: State, k: nat, more: seq<Event>, s': State)
    requires Run(START, events) == Some(s) && k < |s.calls| && s.calls[k].raised
    requires Run(s, more) == Some(s')
    ensures s'.owner == Some(s.calls[k].thread) && s'.holds > s'.nesting
    ensures forall e :: e in more ==> e.thread == s.calls[k].thread
  {
    RunRaisers(events, s);
    RaisedAt(s.calls, k);
    WhoRaised(s.calls, s.owner.value, k);
    HoldsOn(s, s.calls[k].thread, more, s');
  }

  lemma RaisedAt(calls: seq<Call>, k: nat)
    requires k < |calls| && calls[k].raised
    ensures RaisedCalls(calls) > 0
  {
    NoneRaised(calls);
  }

  lemma {:induction false} WhoRaised(calls: seq<Call>, t: nat, k: nat)
    requires RaisedBy(calls, t) && k < |calls| && calls[k].raised
    ensures calls[k].thread == t
  {
    if k < |calls| - 1 {
      WhoRaised(calls[..|calls| - 1], t, k);
    }
  }

  lemma {:induction false} HoldsOn(s: State, t: nat, events: seq<Event>, s': State)
    requires s.owner == Some(t) && s.holds > s.nesting && Run(s, events) == Some(s')
    ensures s'.owner == Some(t) && s'.holds > s'.nesting
    ensures forall e :: e in events ==> e.thread == t
  {
    hide Step;
    if events != [] {
      var n := |events| - 1;
      var before := Run(s, events[..n]).value;
      HoldsOn(s, t, events[..n], before);
      StepHolds(before, t, events[n]);
      assert events == events[..n] + [events[n]];
    }
  }

  lemma StepHolds(s: State, t: nat, e: Event)
    requires s.owner == Some(t) && s.holds > s.nesting && Step(s, e).Some?
    ensures e.thread == t
    ensures var s' := Step(s, e).value; s'.owner == Some(t) && s'.holds > s'.nesting
  {
  }

  /** So a commit the database refuses, or a rollback it refuses but by a ProgrammingError, shuts
      out every other thread for good. */
  lemma FaultKeepsLock(events: seq<Event>, s: State, t: nat, exception: bool, fault: Fault, more: seq<Event>, s': State)
    requires Run(START, events) == Some(s) && s.owner == Some(t) && s.nesting == 1
    requires fault.OtherError? || (fault.ProgrammingError? && !exception && !s.mustRollback)
    requires Run(START, events + [Exit(t, exception, fault)] + more) == Some(s')
    ensures s'.owner == Some(t)
    ensures forall e :: e in more ==> e.thread == t
  {
    var exit := Exit(t, exception, fault);
    var after := Step(s, exit).value;
    assert (events + [exit])[..|events|] == events;
    assert Run(START, events + [exit]) == Some(after);
    RunConcat(START, events + [exit], more);
    RaiseKeepsLock(events + [exit], after, |s.calls|, more, s');
  }

  lemma {:induction false} RunConcat(s: State, a: seq<Event>, b: seq<Event>)
    requires Run(s, a + b).Some?
    ensures Run(s, a).Some? && Run(Run(s, a).value, b) == Run(s, a + b)
    decreases |b|
  {
    hide Step;
    if b == [] {
      assert a + b == a;
    } else {
      var n := |b| - 1;
      assert (a + b)[..|a| + n] == a + b[..n] && (a + b)[|a| + n] == b[n];
      RunConcat(s, a, b[..n]);
    }
  }
}
