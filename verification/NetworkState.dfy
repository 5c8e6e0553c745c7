/** `network_state`: many clients fetch, edit and upload one stored state file under a
    shared/exclusive lock, and anything may raise.  Uploads are never lost exactly when at most one
    client writes or every writer keeps the lock. */
module NetworkState {
  import opened PyStrings

  /** A call of network_state.  `early`: the body releases the lock, as op_ssh does. */
  datatype Client = Client(writable: bool, doLock: bool, early: bool)

  /** What a client is about to do. */
  datatype Pc = Lock | Fetch | Open | OnOpen | Body | Close | Upload | Unlock | Done

  /** A state file stands for the edits that made it. */
  type File = seq<int>

  /** `fetched` and `mine` make up the local state file. */
  datatype Local = Local(
    pc: Pc, fetched: File, mine: File, ready: bool, closed: bool, uploaded: bool, raised: bool)

  /** `held`: who holds the lock; `uploads`: the edits of each upload so far. */
  datatype World = World(stored: File, held: set<nat>, uploads: seq<(nat, File)>, locals: seq<Local>)

  /** Proceed is the normal outcome of a step, Raise an exception.  An upload may also raise after
      it has stored the file. */
  datatype Action = Proceed | Raise | RaiseStored | Edit(edit: int) | EarlyUnlock

  // ----- Steps -----

  /** The driver's rule: any number of shared holds or one exclusive hold. */
  predicate MayLock(clients: seq<Client>, held: set<nat>, i: nat): (r: bool)
    requires i < |clients|
    ensures held == {} ==> r
    ensures r <==> forall j :: j in held ==> j < |clients| && !clients[i].writable && !clients[j].writable
  {
    if clients[i].writable then held == {}
    else forall j :: j in held ==> j < |clients| && !clients[j].writable
  }

  predicate WorldFor(clients: seq<Client>, w: World) {
    |w.locals| == |clients|
  }

  function At(w: World, i: nat, l: Local): World
    requires i < |w.locals|
  {
    w.(locals := w.locals[i := l])
  }

  function Store(w: World, i: nat, l: Local): World
    requires i < |w.locals|
  {
    At(w, i, l).(stored := l.fetched + l.mine, uploads := w.uploads + [(i, l.mine)])
  }

  /** One step of client i; None if the client cannot take it now. */
  function Step(clients: seq<Client>, w: World, i: nat, a: Action): (r: Option<World>)
    requires WorldFor(clients, w)
    ensures r.Some? ==> WorldFor(clients, r.value)
  {
    if i >= |clients| then None
    else
      var (c, l) := (clients[i], w.locals[i]);
      match (l.pc, a)
      case (Lock, Proceed) =>
        if !c.doLock then Some(At(w, i, l.(pc := Fetch)))
        else if MayLock(clients, w.held, i) then Some(At(w, i, l.(pc := Fetch)).(held := w.held + {i}))
        else None
      case (Lock, Raise) => Some(At(w, i, l.(pc := Done, raised := true)))
      case (Fetch, Proceed) => Some(At(w, i, l.(pc := Open, fetched := w.stored)))
      case (Fetch, Raise) => Some(At(w, i, l.(pc := Unlock, raised := true)))
      case (Open, Proceed) => Some(At(w, i, l.(pc := OnOpen, ready := true)))
      case (Open, Raise) => Some(At(w, i, l.(pc := Unlock, raised := true)))
      case (OnOpen, Edit(e)) => Some(At(w, i, l.(mine := l.mine + [e])))
      case (OnOpen, Proceed) => Some(At(w, i, l.(pc := Body)))
      case (OnOpen, Raise) => Some(At(w, i, l.(pc := Close, raised := true)))
      case (Body, Edit(e)) => Some(At(w, i, l.(mine := l.mine + [e])))
      case (Body, EarlyUnlock) => if c.early && c.doLock then Some(w.(held := w.held - {i})) else None
      case (Body, Proceed) => Some(At(w, i, l.(pc := Close)))
      case (Body, Raise) => Some(At(w, i, l.(pc := Close, raised := true)))
      case (Close, Proceed) => Some(At(w, i, l.(pc := if c.writable then Upload else Unlock, closed := true)))
      case (Close, Raise) => Some(At(w, i, l.(pc := Unlock, raised := true)))
      case (Upload, Proceed) => Some(Store(w, i, l.(pc := Unlock, uploaded := true)))
      case (Upload, RaiseStored) => Some(Store(w, i, l.(pc := Unlock, uploaded := true, raised := true)))
      case (Upload, Raise) => Some(At(w, i, l.(pc := Unlock, raised := true)))
      case (Unlock, Proceed) => Some(At(w, i, l.(pc := Done)).(held := if c.doLock then w.held - {i} else w.held))
      case _ => None
  }

  const START: Local := Local(Lock, [], [], false, false, false, false)

  function Init(clients: seq<Client>, stored: File): (w: World)
    ensures WorldFor(clients, w)
  {
    World(stored, {}, [], seq(|clients|, _ => START))
  }

  /** The world after a schedule of steps, if each can be taken. */
  function Run(clients: seq<Client>, w: World, schedule: seq<(nat, Action)>): (r: Option<World>)
    requires WorldFor(clients, w)
    ensures r.Some? ==> WorldFor(clients, r.value)
    decreases |schedule|
  {
    if schedule == [] then Some(w)
    else
      var next :- Step(clients, w, schedule[0].0, schedule[0].1);
      Run(clients, next, schedule[1..])
  }

  ghost predicate Reachable(clients: seq<Client>, stored: File, w: World) {
    exists schedule :: Run(clients, Init(clients, stored), schedule) == Some(w)
  }

  // ----- Invariants -----

  predicate Fetched(l: Local) {
    l.pc in {Open, OnOpen, Body, Close, Upload}
  }

  predicate Inside(l: Local) {
    l.pc in {Fetch, Unlock} || Fetched(l)
  }

  /** A client that keeps its lock from before the fetch until after the upload. */
  predicate KeepsLock(c: Client) { c.doLock && !c.early }

  /** What is true of one client whatever the others do. */
  predicate LocalOk(clients: seq<Client>, w: World, i: nat)
    requires WorldFor(clients, w) && i < |clients|
  {
    var (c, l) := (clients[i], w.locals[i]);
    && (i in w.held ==> c.doLock && Inside(l))
    && (KeepsLock(c) && Inside(l) ==> i in w.held)
    && (l.pc in {Lock, Fetch, Open} ==> l.mine == [] && !l.ready)
    && (l.pc in {OnOpen, Body, Close, Upload} ==> l.ready)
    && (l.pc in {Lock, Fetch, Open, OnOpen, Body, Close, Upload} ==> !l.uploaded)
    && (l.uploaded ==> l.closed) && (l.closed ==> l.ready)
    && (l.pc == Upload ==> l.closed) && (l.pc in {Lock, Fetch, Open, OnOpen, Body, Close} ==> !l.closed)
    && (l.uploaded || l.pc == Upload ==> c.writable)
    && (l.pc in {Unlock, Done} && !l.raised ==> l.closed && (c.writable ==> l.uploaded))
  }

  ghost function Concat(uploads: seq<(nat, File)>): File {
    if uploads == [] then [] else Concat(uploads[..|uploads| - 1]) + uploads[|uploads| - 1].1
  }

  ghost predicate UploadsOk(w: World) {
    && (forall k :: 0 <= k < |w.uploads| ==>
          var (i, edits) := w.uploads[k];
          i < |w.locals| && w.locals[i].uploaded && edits == w.locals[i].mine)
    && (forall k, m :: 0 <= k < m < |w.uploads| ==> w.uploads[k].0 != w.uploads[m].0)
    && (forall i :: 0 <= i < |w.locals| && w.locals[i].uploaded ==> (i, w.locals[i].mine) in w.uploads)
  }

  /** What every client configuration keeps. */
  ghost predicate Inv(clients: seq<Client>, w: World) {
    && WorldFor(clients, w)
    && (forall i :: i in w.held ==> i < |clients|)
    && (forall i, j :: i in w.held && j in w.held && i != j ==> !clients[i].writable)
    && (forall i :: 0 <= i < |clients| ==> LocalOk(clients, w, i))
    && UploadsOk(w)
  }

  lemma InitInv(clients: seq<Client>, stored: File)
    ensures Inv(clients, Init(clients, stored))
  {
  }

  lemma HeldInv(clients: seq<Client>, w: World, i: nat, a: Action)
    requires Inv(clients, w) && Step(clients, w, i, a).Some?
    ensures var w' := Step(clients, w, i, a).value;
            && (forall j :: j in w'.held ==> j < |clients|)
            && (forall j, k :: j in w'.held && k in w'.held && j != k ==> !clients[j].writable)
  {
    hide UploadsOk, LocalOk;
  }

  lemma LocalsInv(clients: seq<Client>, w: World, i: nat, a: Action, j: nat)
    requires Inv(clients, w) && Step(clients, w, i, a).Some? && j < |clients|
    ensures LocalOk(clients, Step(clients, w, i, a).value, j)
  {
    hide UploadsOk, MayLock;
    assert LocalOk(clients, w, j);
  }

  lemma UploadsInv(clients: seq<Client>, w: World, i: nat, a: Action)
    requires Inv(clients, w) && Step(clients, w, i, a).Some?
    ensures UploadsOk(Step(clients, w, i, a).value)
  {
    hide MayLock;
    assert LocalOk(clients, w, i);
    var w' := Step(clients, w, i, a).value;
    var (l, l') := (w.locals[i], w'.locals[i]);
    assert w'.locals == w.locals[i := l'];
    assert l.uploaded ==> l'.uploaded && l'.mine == l.mine;
    assert Delivered(w, w', i);
    UploadsStayOk(w, w', i);
  }

  /** Client i has uploaded nothing more, or for the first time what it had edited. */
  predicate Delivered(w: World, w': World, i: nat)
    requires i < |w.locals| == |w'.locals|
  {
    var (l, l') := (w.locals[i], w'.locals[i]);
    if w'.uploads == w.uploads then l'.uploaded == l.uploaded
    else w'.uploads == w.uploads + [(i, l.mine)] && !l.uploaded && l'.uploaded && l'.mine == l.mine
  }

  lemma UploadsStayOk(w: World, w': World, i: nat)
    requires UploadsOk(w) && i < |w.locals| == |w'.locals| && w'.locals == w.locals[i := w'.locals[i]]
    requires w.locals[i].uploaded ==> w'.locals[i].uploaded && w'.locals[i].mine == w.locals[i].mine
    requires Delivered(w, w', i)
    ensures UploadsOk(w')
  {
    if w'.uploads != w.uploads {
      assert w'.uploads[|w.uploads|] == (i, w.locals[i].mine);
    }
    forall k | 0 <= k < |w.uploads|
      ensures w'.uploads[k] == w.uploads[k] && w.uploads[k].0 < |w.locals| && w'.locals[w.uploads[k].0].uploaded
      ensures w'.locals[w.uploads[k].0].mine == w.uploads[k].1
    {
      var j := w.uploads[k].0;
      assert w.locals[j].uploaded && w.uploads[k].1 == w.locals[j].mine;
    }
    forall j | 0 <= j < |w'.locals| && w'.locals[j].uploaded
      ensures (j, w'.locals[j].mine) in w'.uploads
    {
      if w.locals[j].uploaded {
        assert (j, w.locals[j].mine) in w.uploads;
      }
    }
  }

  lemma StepInv(clients: seq<Client>, w: World, i: nat, a: Action)
    requires Inv(clients, w) && Step(clients, w, i, a).Some?
    ensures Inv(clients, Step(clients, w, i, a).value)
  {
    HeldInv(clients, w, i, a);
    forall j | 0 <= j < |clients|
      ensures LocalOk(clients, Step(clients, w, i, a).value, j)
    {
      LocalsInv(clients, w, i, a, j);
    }
    UploadsInv(clients, w, i, a);
  }

  // ----- No lost update -----

  predicate Guarded(clients: seq<Client>) {
    forall i :: 0 <= i < |clients| && clients[i].writable ==> KeepsLock(clients[i])
  }

  predicate OneWriter(clients: seq<Client>) {
    forall i, j :: 0 <= i < j < |clients| ==> !clients[i].writable || !clients[j].writable
  }

  /** Every writer works on the stored version, and every holder of the lock sees it. */
  predicate Current(clients: seq<Client>, w: World)
    requires WorldFor(clients, w)
  {
    forall i :: 0 <= i < |clients| && Fetched(w.locals[i]) && (clients[i].writable || (Guarded(clients) && i in w.held)) ==>
      w.locals[i].fetched == w.stored
  }

  lemma StepCurrent(clients: seq<Client>, w: World, i: nat, a: Action)
    requires Guarded(clients) || OneWriter(clients)
    requires Inv(clients, w) && Current(clients, w) && Step(clients, w, i, a).Some?
    ensures Current(clients, Step(clients, w, i, a).value)
  {
    hide UploadsOk, MayLock;
    var w' := Step(clients, w, i, a).value;
    assert LocalOk(clients, w, i);
    if w'.uploads != w.uploads {
      forall j | 0 <= j < |clients| && j != i && Fetched(w.locals[j])
        ensures !clients[j].writable && (Guarded(clients) ==> j !in w'.held)
      {
        assert LocalOk(clients, w, j);
      }
    }
  }

  lemma StepStored(clients: seq<Client>, w: World, i: nat, a: Action)
    requires Inv(clients, w) && Current(clients, w) && Step(clients, w, i, a).Some?
    ensures var w' := Step(clients, w, i, a).value;
            || (w'.stored == w.stored && w'.uploads == w.uploads)
            || (w'.stored == w.stored + w.locals[i].mine && w'.uploads == w.uploads + [(i, w.locals[i].mine)])
  {
    assert LocalOk(clients, w, i);
  }

  /** The invariants, and the account of what is stored. */
  ghost predicate Kept(clients: seq<Client>, base: File, w: World) {
    Inv(clients, w) && Current(clients, w) && w.stored == base + Concat(w.uploads)
  }

  ghost predicate Grown(w: World, w': World) {
    w.stored <= w'.stored && w.uploads <= w'.uploads
  }

  lemma StepKeeps(clients: seq<Client>, base: File, w: World, i: nat, a: Action)
    requires Guarded(clients) || OneWriter(clients)
    requires Kept(clients, base, w) && Step(clients, w, i, a).Some?
    ensures Kept(clients, base, Step(clients, w, i, a).value) && Grown(w, Step(clients, w, i, a).value)
  {
    var w' := Step(clients, w, i, a).value;
    StepInv(clients, w, i, a);
    StepCurrent(clients, w, i, a);
    StepStored(clients, w, i, a);
    hide Step, Inv, Current, Guarded, OneWriter, Concat;
    if w'.uploads != w.uploads {
      ConcatNext(w.uploads, (i, w.locals[i].mine), base);
    }
  }

  lemma ConcatNext(uploads: seq<(nat, File)>, next: (nat, File), base: File)
    ensures base + Concat(uploads + [next]) == base + Concat(uploads) + next.1
  {
    assert (uploads + [next])[..|uploads|] == uploads;
  }

  /** Over any run the stored file only grows, by the edits of each upload in turn. */
  lemma {:induction false} RunKeeps(clients: seq<Client>, base: File, w: World, schedule: seq<(nat, Action)>, w': World)
    requires Guarded(clients) || OneWriter(clients)
    requires WorldFor(clients, w) && Kept(clients, base, w) && Run(clients, w, schedule) == Some(w')
    ensures Kept(clients, base, w') && Grown(w, w')
    decreases |schedule|
  {
    hide Kept, Step, Grown, Guarded, OneWriter;
    if schedule == [] {
      NotGrown(w);
    } else {
      var next := Step(clients, w, schedule[0].0, schedule[0].1).value;
      StepKeeps(clients, base, w, schedule[0].0, schedule[0].1);
      RunKeeps(clients, base, next, schedule[1..], w');
      GrownOn(w, next, w');
    }
  }

  lemma NotGrown(w: World)
    ensures Grown(w, w)
  {
  }

  lemma GrownOn(w: World, next: World, w': World)
    requires Grown(w, next) && Grown(next, w')
    ensures Grown(w, w')
  {
  }

  lemma {:induction false} RunInv(clients: seq<Client>, w: World, schedule: seq<(nat, Action)>, w': World)
    requires WorldFor(clients, w) && Inv(clients, w) && Run(clients, w, schedule) == Some(w')
    ensures Inv(clients, w')
    decreases |schedule|
  {
    hide Inv, Step;
    if schedule != [] {
      StepInv(clients, w, schedule[0].0, schedule[0].1);
      RunInv(clients, Step(clients, w, schedule[0].0, schedule[0].1).value, schedule[1..], w');
    }
  }

  /** Whenever a writer uploads, what is stored is what it fetched; what is stored is always the
      edits of all uploads in turn; a holder of the lock sees the stored version. */
  lemma NoLostUpdate(clients: seq<Client>, stored: File, w: World)
    requires Guarded(clients) || OneWriter(clients)
    requires Reachable(clients, stored, w)
    ensures forall i :: 0 <= i < |clients| && w.locals[i].pc == Upload ==> w.locals[i].fetched == w.stored
    ensures w.stored == stored + Concat(w.uploads)
    ensures Guarded(clients) ==>
              forall i :: i in w.held && i < |clients| && Fetched(w.locals[i]) ==> w.locals[i].fetched == w.stored
  {
    var schedule :| Run(clients, Init(clients, stored), schedule) == Some(w);
    InitInv(clients, stored);
    RunKeeps(clients, stored, Init(clients, stored), schedule, w);
    forall i | 0 <= i < |clients| && w.locals[i].pc == Upload
      ensures clients[i].writable
    {
      assert LocalOk(clients, w, i);
    }
  }

  /** In any configuration: who uploads is a writer that fetched, opened and closed the state, each
      at most once and with all its edits; a writer that ends without an exception has uploaded; and
      a client that is done holds nothing. */
  lemma UploadsAccounted(clients: seq<Client>, stored: File, w: World)
    requires Reachable(clients, stored, w)
    ensures forall k :: 0 <= k < |w.uploads| ==>
              var i := w.uploads[k].0;
              i < |clients| && clients[i].writable && w.locals[i].ready && w.locals[i].closed && w.uploads[k].1 == w.locals[i].mine
    ensures forall k, m :: 0 <= k < m < |w.uploads| ==> w.uploads[k].0 != w.uploads[m].0
    ensures forall i :: 0 <= i < |clients| && clients[i].writable && w.locals[i].pc == Done && !w.locals[i].raised ==>
              (i, w.locals[i].mine) in w.uploads
    ensures forall i :: 0 <= i < |clients| && w.locals[i].pc == Done ==> i !in w.held
    ensures (forall i :: 0 <= i < |clients| ==> w.locals[i].pc == Done) ==> w.held == {}
    ensures forall i, j :: i in w.held && j in w.held && i != j ==> i < |clients| && !clients[i].writable
  {
    var schedule :| Run(clients, Init(clients, stored), schedule) == Some(w);
    InitInv(clients, stored);
    RunInv(clients, Init(clients, stored), schedule, w);
    var (c, l) := (clients, w.locals);
    forall i | 0 <= i < |clients|
      ensures l[i].uploaded ==> c[i].writable && l[i].ready && l[i].closed
      ensures c[i].writable && l[i].pc == Done && !l[i].raised ==> l[i].uploaded
      ensures l[i].pc == Done ==> i !in w.held
    {
      assert LocalOk(clients, w, i);
    }
  }

  /** An exception in onOpen or in the body does not keep a writer from uploading what it edited. */
  lemma UploadDespiteException(clients: seq<Client>, w: World, i: nat)
    requires WorldFor(clients, w) && Inv(clients, w) && i < |clients| && clients[i].writable
    requires w.locals[i].pc in {OnOpen, Body}
    ensures var schedule := [(i, Raise), (i, Proceed), (i, Proceed), (i, Proceed)];
            var w' := Run(clients, w, schedule);
            && w'.Some? && w'.value.locals[i].pc == Done && w'.value.locals[i].raised
            && w'.value.stored == w.locals[i].fetched + w.locals[i].mine && i !in w'.value.held
  {
    hide Inv;
    assert LocalOk(clients, w, i) by {
      LocalOf(clients, w, i);
    }
    var schedule := [(i, Raise), (i, Proceed), (i, Proceed), (i, Proceed)];
    var w1 := Step(clients, w, i, Raise).value;
    var w2 := Step(clients, w1, i, Proceed).value;
    var w3 := Step(clients, w2, i, Proceed).value;
    var w4 := Step(clients, w3, i, Proceed).value;
    assert w4.locals[i].pc == Done && w4.locals[i].raised && w4.stored == w.locals[i].fetched + w.locals[i].mine;
    RunStep(clients, w, schedule);
    RunStep(clients, w1, schedule[1..]);
    RunStep(clients, w2, schedule[2..]);
    RunStep(clients, w3, schedule[3..]);
    assert i !in w4.held;
  }

  lemma LocalOf(clients: seq<Client>, w: World, i: nat)
    requires Inv(clients, w) && i < |clients|
    ensures LocalOk(clients, w, i)
  {
  }

  lemma RunStep(clients: seq<Client>, w: World, schedule: seq<(nat, Action)>)
    requires WorldFor(clients, w) && schedule != [] && Step(clients, w, schedule[0].0, schedule[0].1).Some?
    ensures Run(clients, w, schedule) == Run(clients, Step(clients, w, schedule[0].0, schedule[0].1).value, schedule[1..])
  {
  }

  // ----- When an update can be lost -----

  /** Some run makes client i upload over a version it did not fetch. */
  ghost predicate CanLose(clients: seq<Client>, stored: File) {
    exists w, i :: Reachable(clients, stored, w) && Overwrites(w, i)
  }

  predicate Overwrites(w: World, i: nat) {
    i < |w.locals| && w.locals[i].pc == Upload && w.locals[i].fetched != w.stored
  }

  lemma {:induction false} RunAppend(clients: seq<Client>, w: World, s: seq<(nat, Action)>, t: seq<(nat, Action)>)
    requires WorldFor(clients, w) && Run(clients, w, s).Some?
    ensures Run(clients, w, s + t) == Run(clients, Run(clients, w, s).value, t)
    decreases |s|
  {
    hide Step;
    if s == [] {
      assert s + t == t;
    } else {
      assert (s + t)[1..] == s[1..] + t;
      RunAppend(clients, Step(clients, w, s[0].0, s[0].1).value, s[1..], t);
    }
  }

  /** One client steps through the given actions. */
  function Solo(i: nat, actions: seq<Action>): seq<(nat, Action)> {
    seq(|actions|, k requires 0 <= k < |actions| => (i, actions[k]))
  }

  lemma SoloStep(clients: seq<Client>, w: World, i: nat, actions: seq<Action>, w': World)
    requires WorldFor(clients, w) && actions != [] && Step(clients, w, i, actions[0]) == Some(w')
    ensures Run(clients, w, Solo(i, actions)) == Run(clients, w', Solo(i, actions[1..]))
  {
    assert Solo(i, actions)[1..] == Solo(i, actions[1..]);
  }

  lemma SoloDone(clients: seq<Client>, w: World, i: nat)
    requires WorldFor(clients, w)
    ensures Run(clients, w, Solo(i, [])) == Some(w)
  {
  }

  /** A client alone reaches its body. */
  lemma ReachBody(clients: seq<Client>, w: World, i: nat)
    requires WorldFor(clients, w) && i < |clients| && w.locals[i] == START && w.held == {}
    ensures var held := if clients[i].doLock then {i} else {};
            Run(clients, w, Solo(i, [Proceed, Proceed, Proceed, Proceed])) ==
            Some(w.(held := held, locals := w.locals[i := START.(pc := Body, fetched := w.stored, ready := true)]))
  {
    hide Run;
    var w1 := Step(clients, w, i, Proceed).value;
    var w2 := Step(clients, w1, i, Proceed).value;
    var w3 := Step(clients, w2, i, Proceed).value;
    var w4 := Step(clients, w3, i, Proceed).value;
    assert w4.locals == w.locals[i := START.(pc := Body, fetched := w.stored, ready := true)];
    assert w4.held == if clients[i].doLock then {i} else {};
    SoloStep(clients, w, i, [Proceed, Proceed, Proceed, Proceed], w1);
    SoloStep(clients, w1, i, [Proceed, Proceed, Proceed], w2);
    SoloStep(clients, w2, i, [Proceed, Proceed], w3);
    SoloStep(clients, w3, i, [Proceed], w4);
    SoloDone(clients, w4, i);
  }

  /** A writer in its body edits and uploads. */
  lemma EditAndUpload(clients: seq<Client>, w: World, j: nat)
    requires WorldFor(clients, w) && j < |clients| && clients[j].writable
    requires w.locals[j] == START.(pc := Body, fetched := w.stored, ready := true)
    ensures var w' := Run(clients, w, Solo(j, [Edit(0), Proceed, Proceed, Proceed]));
            && w'.Some? && w'.value.stored == w.stored + [0]
            && (forall i :: 0 <= i < |clients| && i != j ==> w'.value.locals[i] == w.locals[i])
  {
    hide Run;
    var w1 := Step(clients, w, j, Edit(0)).value;
    var w2 := Step(clients, w1, j, Proceed).value;
    var w3 := Step(clients, w2, j, Proceed).value;
    var w4 := Step(clients, w3, j, Proceed).value;
    SoloStep(clients, w, j, [Edit(0), Proceed, Proceed, Proceed], w1);
    SoloStep(clients, w1, j, [Proceed, Proceed, Proceed], w2);
    SoloStep(clients, w2, j, [Proceed, Proceed], w3);
    SoloStep(clients, w3, j, [Proceed], w4);
    SoloDone(clients, w4, j);
  }

  /** A writer without a hold on the lock is overtaken by another writer. */
  lemma LostUpdate(clients: seq<Client>, stored: File, i: nat, j: nat)
    requires i < |clients| && j < |clients| && i != j && clients[i].writable && clients[j].writable
    requires !KeepsLock(clients[i])
    ensures CanLose(clients, stored)
  {
    hide Step, Run;
    var w0 := Init(clients, stored);
    var go := Solo(i, [Proceed, Proceed, Proceed, Proceed]);
    ReachBody(clients, w0, i);
    var w1 := Run(clients, w0, go).value;
    var away, w2 := LetGo(clients, w1, i);
    RunAppend(clients, w0, go, away);
    var goJ := Solo(j, [Proceed, Proceed, Proceed, Proceed]);
    ReachBody(clients, w2, j);
    var w3 := Run(clients, w2, goJ).value;
    RunAppend(clients, w0, go + away, goJ);
    var upload := Solo(j, [Edit(0), Proceed, Proceed, Proceed]);
    EditAndUpload(clients, w3, j);
    var w4 := Run(clients, w3, upload).value;
    RunAppend(clients, w0, go + away + goJ, upload);
    var close := Solo(i, [Proceed, Proceed]);
    var w5 := Closes(clients, w4, i);
    RunAppend(clients, w0, go + away + goJ + upload, close);
    assert Reachable(clients, stored, w5) && Overwrites(w5, i);
  }

  /** A client that does not keep the lock can stand in its body without it. */
  lemma LetGo(clients: seq<Client>, w: World, i: nat) returns (away: seq<(nat, Action)>, w': World)
    requires WorldFor(clients, w) && i < |clients| && w.locals[i].pc == Body && !KeepsLock(clients[i])
    requires w.held == if clients[i].doLock then {i} else {}
    ensures Run(clients, w, away) == Some(w') && w' == w.(held := {})
  {
    if clients[i].doLock {
      w' := Step(clients, w, i, EarlyUnlock).value;
      SoloStep(clients, w, i, [EarlyUnlock], w');
      SoloDone(clients, w', i);
      away := Solo(i, [EarlyUnlock]);
    } else {
      away, w' := [], w;
    }
  }

  lemma Closes(clients: seq<Client>, w: World, i: nat) returns (w': World)
    requires WorldFor(clients, w) && i < |clients| && w.locals[i].pc == Body && clients[i].writable
    ensures Run(clients, w, Solo(i, [Proceed, Proceed])) == Some(w') && WorldFor(clients, w')
    ensures w'.stored == w.stored && w'.locals[i].pc == Upload && w'.locals[i].fetched == w.locals[i].fetched
  {
    var w1 := Step(clients, w, i, Proceed).value;
    w' := Step(clients, w1, i, Proceed).value;
    SoloStep(clients, w, i, [Proceed, Proceed], w1);
    SoloStep(clients, w1, i, [Proceed], w');
    SoloDone(clients, w', i);
  }

  /** An update can be lost if and only if two clients write and one of them does not keep the lock. */
  lemma LosesIff(clients: seq<Client>, stored: File)
    ensures CanLose(clients, stored) <==> !Guarded(clients) && !OneWriter(clients)
  {
    if Guarded(clients) || OneWriter(clients) {
      forall w, i: nat | Reachable(clients, stored, w)
        ensures !Overwrites(w, i)
      {
        NoLostUpdate(clients, stored, w);
        ReachableWorld(clients, stored, w);
      }
    }
    if !Guarded(clients) && !OneWriter(clients) {
      var i :| 0 <= i < |clients| && clients[i].writable && !KeepsLock(clients[i]);
      var k, m :| 0 <= k < m < |clients| && clients[k].writable && clients[m].writable;
      LostUpdate(clients, stored, i, if k == i then m else k);
    }
  }

  lemma ReachableWorld(clients: seq<Client>, stored: File, w: World)
    requires Reachable(clients, stored, w)
    ensures WorldFor(clients, w)
  {
  }

  // ----- Progress -----

  function StepsLeft(pc: Pc): nat {
    match pc
    case Lock => 8
    case Fetch => 7
    case Open => 6
    case OnOpen => 5
    case Body => 4
    case Close => 3
    case Upload => 2
    case Unlock => 1
    case Done => 0
  }

  ghost function Measure(ls: seq<Local>): nat {
    if ls == [] then 0 else Measure(ls[..|ls| - 1]) + StepsLeft(ls[|ls| - 1].pc)
  }

  predicate MovesOn(a: Action) { !a.Edit? && !a.EarlyUnlock? }

  lemma {:induction false} MeasureAt(ls: seq<Local>, i: nat, l: Local)
    requires i < |ls|
    ensures Measure(ls[i := l]) == Measure(ls) - StepsLeft(ls[i].pc) + StepsLeft(l.pc)
  {
    var n := |ls| - 1;
    if i == n {
      assert ls[i := l][..n] == ls[..n];
    } else {
      assert ls[i := l][..n] == ls[..n][i := l];
      MeasureAt(ls[..n], i, l);
    }
  }

  lemma StepMeasure(clients: seq<Client>, w: World, i: nat, a: Action)
    requires WorldFor(clients, w) && Step(clients, w, i, a).Some?
    ensures var w' := Step(clients, w, i, a).value;
            if MovesOn(a) then Measure(w'.locals) < Measure(w.locals) else Measure(w'.locals) == Measure(w.locals)
  {
    hide Step;
    var w' := Step(clients, w, i, a).value;
    StepLocal(clients, w, i, a);
    MeasureAt(w.locals, i, w'.locals[i]);
  }

  lemma StepLocal(clients: seq<Client>, w: World, i: nat, a: Action)
    requires WorldFor(clients, w) && Step(clients, w, i, a).Some?
    ensures i < |clients|
    ensures var w' := Step(clients, w, i, a).value;
            && w'.locals == w.locals[i := w'.locals[i]]
            && if MovesOn(a) then StepsLeft(w'.locals[i].pc) < StepsLeft(w.locals[i].pc) else w'.locals[i].pc == w.locals[i].pc
  {
  }

  /** The moves of client i in a schedule, edits and the early release apart. */
  function Moves(schedule: seq<(nat, Action)>, i: nat): nat {
    if schedule == [] then 0
    else (if schedule[0].0 == i && MovesOn(schedule[0].1) then 1 else 0) + Moves(schedule[1..], i)
  }

  lemma {:induction false} MovesLeft(clients: seq<Client>, w: World, schedule: seq<(nat, Action)>, i: nat)
    requires WorldFor(clients, w) && i < |clients| && Run(clients, w, schedule).Some?
    ensures Moves(schedule, i) <= StepsLeft(w.locals[i].pc)
    decreases |schedule|
  {
    hide Step, StepsLeft;
    if schedule != [] {
      var (j, a) := schedule[0];
      StepLocal(clients, w, j, a);
      MovesLeft(clients, Step(clients, w, j, a).value, schedule[1..], i);
    }
  }

  /** In any run from the start each client moves on at most eight times. */
  lemma MovesBounded(clients: seq<Client>, stored: File, schedule: seq<(nat, Action)>, i: nat)
    requires i < |clients| && Run(clients, Init(clients, stored), schedule).Some?
    ensures Moves(schedule, i) <= 8
  {
    MovesLeft(clients, Init(clients, stored), schedule, i);
  }

  predicate AllDone(w: World) {
    forall i :: 0 <= i < |w.locals| ==> w.locals[i].pc == Done
  }

  /** While a client is not done some client can go on without an exception. */
  lemma NoDeadlock(clients: seq<Client>, w: World) returns (i: nat)
    requires Inv(clients, w) && !AllDone(w)
    ensures Step(clients, w, i, Proceed).Some?
  {
    i :| i < |w.locals| && w.locals[i].pc != Done;
    if w.held != {} && w.locals[i].pc == Lock {
      i :| i in w.held;
      assert LocalOk(clients, w, i);
    }
  }

  /** Every run that gets somewhere can be finished, and then no lock is held. */
  lemma {:induction false} Completes(clients: seq<Client>, w: World) returns (schedule: seq<(nat, Action)>)
    requires WorldFor(clients, w) && Inv(clients, w)
    ensures var w' := Run(clients, w, schedule);
            w'.Some? && AllDone(w'.value) && w'.value.held == {}
    decreases Measure(w.locals)
  {
    hide Step;
    if AllDone(w) {
      schedule := [];
      NothingHeld(clients, w);
    } else {
      var i := NoDeadlock(clients, w);
      var next := Step(clients, w, i, Proceed).value;
      StepInv(clients, w, i, Proceed);
      StepMeasure(clients, w, i, Proceed);
      var rest := Completes(clients, next);
      schedule := [(i, Proceed)] + rest;
      assert schedule[1..] == rest;
    }
  }

  lemma NothingHeld(clients: seq<Client>, w: World)
    requires Inv(clients, w) && AllDone(w)
    ensures w.held == {}
  {
    forall i | i in w.held
      ensures LocalOk(clients, w, i)
    {
    }
  }

  // ----- Sharing, and what is edited -----

  /** A reader gets the lock beside any number of readers, a writer only when nobody has it, and
      nobody gets it beside a writer. */
  lemma LockIff(clients: seq<Client>, w: World, i: nat)
    requires Inv(clients, w) && i < |clients| && w.locals[i].pc == Lock && clients[i].doLock
    ensures Step(clients, w, i, Proceed).Some? <==>
            w.held == {} || (!clients[i].writable && forall j :: j in w.held ==> !clients[j].writable)
    ensures Step(clients, w, i, Proceed).Some? ==> Step(clients, w, i, Proceed).value.held == w.held + {i}
  {
    hide LocalOk, UploadsOk;
  }

  /** All clients that only read can be in their bodies at once, holding the lock. */
  lemma {:induction false} ReadersShare(clients: seq<Client>, stored: File, n: nat) returns (w: World)
    requires n <= |clients| && forall i :: 0 <= i < |clients| ==> !clients[i].writable && clients[i].doLock
    ensures Reachable(clients, stored, w)
    ensures forall i :: 0 <= i < n ==> w.locals[i].pc == Fetch && i in w.held
    ensures forall i :: n <= i < |clients| ==> w.locals[i] == START && i !in w.held
    ensures forall i :: i in w.held ==> i < n
  {
    if n == 0 {
      w := Init(clients, stored);
      assert Run(clients, w, []) == Some(w);
    } else {
      var before := ReadersShare(clients, stored, n - 1);
      var schedule :| Run(clients, Init(clients, stored), schedule) == Some(before);
      var i := n - 1;
      w := Step(clients, before, i, Proceed).value;
      RunAppend(clients, Init(clients, stored), schedule, [(i, Proceed)]);
      RunStep(clients, before, [(i, Proceed)]);
      assert [(i, Proceed)][1..] == [] && Run(clients, w, []) == Some(w);
    }
  }

  /** The edits of client i in a schedule. */
  function EditsOf(schedule: seq<(nat, Action)>, i: nat): File {
    if schedule == [] then []
    else (if schedule[0].0 == i && schedule[0].1.Edit? then [schedule[0].1.edit] else []) + EditsOf(schedule[1..], i)
  }

  lemma StepEdits(clients: seq<Client>, w: World, j: nat, a: Action, i: nat)
    requires WorldFor(clients, w) && Step(clients, w, j, a).Some? && i < |clients|
    ensures Step(clients, w, j, a).value.locals[i].mine ==
            if i == j && a.Edit? then w.locals[i].mine + [a.edit] else w.locals[i].mine
  {
  }

  /** The local edits of a client are those it made, in order. */
  lemma {:induction false} RunEdits(clients: seq<Client>, w: World, schedule: seq<(nat, Action)>, w': World, i: nat)
    requires WorldFor(clients, w) && Run(clients, w, schedule) == Some(w') && i < |clients|
    ensures w'.locals[i].mine == w.locals[i].mine + EditsOf(schedule, i)
    decreases |schedule|
  {
    hide Step;
    if schedule == [] {
      assert w.locals[i].mine + [] == w.locals[i].mine;
    } else {
      var (j, a) := schedule[0];
      var next := Step(clients, w, j, a).value;
      StepEdits(clients, w, j, a, i);
      RunEdits(clients, next, schedule[1..], w', i);
      var first := if j == i && a.Edit? then [a.edit] else [];
      assert next.locals[i].mine == w.locals[i].mine + first;
      assert w.locals[i].mine + first + EditsOf(schedule[1..], i) == w.locals[i].mine + (first + EditsOf(schedule[1..], i));
    }
  }

  /** What a client uploads are all the edits it has made. */
  lemma UploadsEdits(clients: seq<Client>, stored: File, schedule: seq<(nat, Action)>, w: World)
    requires Run(clients, Init(clients, stored), schedule) == Some(w)
    ensures forall k :: 0 <= k < |w.uploads| ==> w.uploads[k].1 == EditsOf(schedule, w.uploads[k].0)
  {
    assert Reachable(clients, stored, w);
    UploadsAccounted(clients, stored, w);
    forall k | 0 <= k < |w.uploads|
      ensures w.uploads[k].1 == EditsOf(schedule, w.uploads[k].0)
    {
      RunEdits(clients, Init(clients, stored), schedule, w, w.uploads[k].0);
      assert [] + EditsOf(schedule, w.uploads[k].0) == EditsOf(schedule, w.uploads[k].0);
    }
  }
}
