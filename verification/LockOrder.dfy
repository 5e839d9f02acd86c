/**
 * The order in which the binding takes its locks, and why no set of goroutines can deadlock:
 * writer-preferring RWMutexes, taken by every code path in strictly increasing rank.
 */
module LockOrder {
  import opened Text

  // Every lock of the binding; the numbers tell the objects of one kind apart.
  datatype Lock =
    | CallbackHandle(id: nat)
    | Connection(id: nat)
    | DomainHandle(id: nat)
    | NodeDeviceHandle(id: nat)
    | PoolHandle(id: nat)
    | VolumeHandle(id: nat)
    | StreamHandle(id: nat)
    | OtherHandle(id: nat)

  function Rank(lock: Lock): nat {
    match lock
    case CallbackHandle(_) => 0
    case Connection(_) => 1
    case DomainHandle(_) => 2
    case NodeDeviceHandle(_) => 2
    case PoolHandle(_) => 3
    case VolumeHandle(_) => 4
    case StreamHandle(_) => 5
    case OtherHandle(_) => 6
  }

  // A Mutex is a lock that is only ever written.
  datatype Request = Request(lock: Lock, write: bool)

  type Plan = seq<Request>

  // The code paths that hold a lock around a native call.
  datatype Operation =
    | UseConnection(conn: nat)
    | CloseConnection(conn: nat)
    | UseObject(lock: Lock)
    | FreeObject(lock: Lock)
    | RegisterDomainEvent(conn: nat, domain: Option<nat>)
    | RegisterNodeDeviceEvent(conn: nat, device: Option<nat>)
    | CloseCallback(callback: nat, conn: nat)
    | CreateVolumeFrom(pool: nat, source: nat)
    | VolumeStream(volume: nat, stream: nat)

  /** The locks an operation takes, in order; all are held until it returns. */
  function PlanOf(op: Operation): Plan {
    match op
    case UseConnection(c) => [Request(Connection(c), false)]
    case CloseConnection(c) => [Request(Connection(c), true)]
    case UseObject(lock) => [Request(lock, false)]
    case FreeObject(lock) => [Request(lock, true)]
    case RegisterDomainEvent(c, d) =>
      [Request(Connection(c), false)] + (if d.Some? then [Request(DomainHandle(d.value), false)] else [])
    case RegisterNodeDeviceEvent(c, d) =>
      [Request(Connection(c), false)] + (if d.Some? then [Request(NodeDeviceHandle(d.value), false)] else [])
    case CloseCallback(h, c) => [Request(CallbackHandle(h), true), Request(Connection(c), false)]
    case CreateVolumeFrom(p, v) => [Request(PoolHandle(p), false), Request(VolumeHandle(v), false)]
    case VolumeStream(v, s) => [Request(VolumeHandle(v), false), Request(StreamHandle(s), false)]
  }

  predicate Ascending(plan: Plan) {
    forall i, j | 0 <= i < j < |plan| :: Rank(plan[i].lock) < Rank(plan[j].lock)
  }

  lemma CodePathsAscend(op: Operation)
    ensures Ascending(PlanOf(op))
  {
  }

  // ----- Goroutines over RWMutexes -----

  // announced: a writer that waits for the lock, and keeps new readers out.
  datatype Routine = Routine(script: seq<Plan>, todo: Plan, held: Plan, announced: bool)

  type State = seq<Routine>

  datatype Step =
    | Start(g: nat)
    | Announce(g: nat)
    | Acquire(g: nat)
    | Release(g: nat)

  function Init(scripts: seq<seq<Plan>>): State {
    seq(|scripts|, g requires 0 <= g < |scripts| => Routine(scripts[g], [], [], false))
  }

  predicate Holds(r: Routine, lock: Lock, write: bool) {
    Request(lock, write) in r.held
  }

  predicate Waits(r: Routine, lock: Lock) {
    r.announced && r.todo != [] && r.todo[0].lock == lock
  }

  /** A reader gets in when no writer holds the lock or waits for it; a writer when nobody holds it. */
  predicate Free(s: State, request: Request) {
    if request.write then
      forall k | 0 <= k < |s| :: !Holds(s[k], request.lock, false) && !Holds(s[k], request.lock, true)
    else
      forall k | 0 <= k < |s| :: !Holds(s[k], request.lock, true) && !Waits(s[k], request.lock)
  }

  predicate Enabled(s: State, e: Step) {
    e.g < |s| &&
    var r := s[e.g];
    match e
    case Start(_) => r.todo == [] && r.held == [] && r.script != []
    case Announce(_) => r.todo != [] && r.todo[0].write && !r.announced
    case Acquire(_) => r.todo != [] && (r.todo[0].write ==> r.announced) && Free(s, r.todo[0])
    case Release(_) => r.todo == [] && r.held != []
  }

  function Next(s: State, e: Step): State
    requires Enabled(s, e)
  {
    var r := s[e.g];
    s[e.g :=
      match e
      case Start(_) => Routine(r.script[1..], r.script[0], [], false)
      case Announce(_) => r.(announced := true)
      case Acquire(_) => Routine(r.script, r.todo[1..], r.held + [r.todo[0]], false)
      case Release(_) => r.(held := r.held[..|r.held| - 1])]
  }

  function Run(scripts: seq<seq<Plan>>, es: seq<Step>): Option<State> {
    if es == [] then Some(Init(scripts))
    else
      match Run(scripts, es[..|es| - 1])
      case None => None
      case Some(s) => if Enabled(s, es[|es| - 1]) then Some(Next(s, es[|es| - 1])) else None
  }

  predicate Finished(r: Routine) {
    r.script == [] && r.todo == [] && r.held == []
  }

  // ----- No deadlock -----

  ghost predicate Ordered(r: Routine) {
    && Ascending(r.held + r.todo)
    && (r.announced ==> r.todo != [] && r.todo[0].write)
    && forall i | 0 <= i < |r.script| :: Ascending(r.script[i])
  }

  ghost predicate AllOrdered(s: State) {
    forall g | 0 <= g < |s| :: Ordered(s[g])
  }

  lemma NextOrdered(s: State, e: Step)
    requires AllOrdered(s) && Enabled(s, e)
    ensures AllOrdered(Next(s, e))
  {
    var r := s[e.g];
    assert Ordered(r);
    match e
    case Start(_) =>
      assert [] + r.script[0] == r.script[0];
    case Announce(_) =>
    case Acquire(_) =>
      assert (r.held + [r.todo[0]]) + r.todo[1..] == r.held + r.todo;
    case Release(_) =>
      assert r.held[..|r.held| - 1] + [] == (r.held + r.todo)[..|r.held| - 1];
  }

  lemma {:induction false} RunOrdered(scripts: seq<seq<Plan>>, es: seq<Step>)
    requires Run(scripts, es).Some?
    requires forall g, i | 0 <= g < |scripts| && 0 <= i < |scripts[g]| :: Ascending(scripts[g][i])
    ensures AllOrdered(Run(scripts, es).value) && |Run(scripts, es).value| == |scripts|
  {
    if es == [] {
    } else {
      RunOrdered(scripts, es[..|es| - 1]);
      NextOrdered(Run(scripts, es[..|es| - 1]).value, es[|es| - 1]);
    }
  }

  /** Among the goroutines that still want a lock, one wants a lock of the highest rank. */
  lemma {:induction false} Highest(s: State, n: nat, g0: nat) returns (g: nat)
    requires g0 < n <= |s| && s[g0].todo != []
    ensures g < n && s[g].todo != []
    ensures forall k | 0 <= k < n && s[k].todo != [] :: Rank(s[k].todo[0].lock) <= Rank(s[g].todo[0].lock)
  {
    g := g0;
    var i := 0;
    while i < n
      invariant 0 <= i <= n && g < n && s[g].todo != []
      invariant forall k | 0 <= k < i && s[k].todo != [] :: Rank(s[k].todo[0].lock) <= Rank(s[g].todo[0].lock)
    {
      if s[i].todo != [] && Rank(s[i].todo[0].lock) > Rank(s[g].todo[0].lock) {
        g := i;
      }
      i := i + 1;
    }
  }

  /** Whoever holds a lock wants only locks of higher rank. */
  lemma HolderWantsHigher(r: Routine, lock: Lock, write: bool)
    requires Ordered(r) && Holds(r, lock, write) && r.todo != []
    ensures Rank(lock) < Rank(r.todo[0].lock)
  {
    var i :| 0 <= i < |r.held| && r.held[i] == Request(lock, write);
    assert (r.held + r.todo)[i] == Request(lock, write) && (r.held + r.todo)[|r.held|] == r.todo[0];
  }

  /** A goroutine that wants a lock of the highest rank can go on, or its writer can, unless somebody can release. */
  lemma HighestGoesOn(s: State, g: nat) returns (e: Step)
    requires AllOrdered(s) && g < |s| && s[g].todo != []
    requires forall k | 0 <= k < |s| && s[k].todo != [] :: Rank(s[k].todo[0].lock) <= Rank(s[g].todo[0].lock)
    requires forall k | 0 <= k < |s| :: !Enabled(s, Release(k))
    ensures Enabled(s, e)
  {
    var request := s[g].todo[0];
    forall k, write | 0 <= k < |s| ensures !Holds(s[k], request.lock, write) {
      if Holds(s[k], request.lock, write) {
        assert !Enabled(s, Release(k));
        HolderWantsHigher(s[k], request.lock, write);
      }
    }
    if request.write && !s[g].announced {
      e := Announce(g);
    } else if exists k :: 0 <= k < |s| && Waits(s[k], request.lock) {
      var k :| 0 <= k < |s| && Waits(s[k], request.lock);
      assert Ordered(s[k]);
      e := Acquire(k);
    } else {
      e := Acquire(g);
    }
  }

  /** While some goroutine is not finished, some goroutine can step. */
  lemma SomeoneCanStep(scripts: seq<seq<Plan>>, es: seq<Step>, g: nat) returns (e: Step)
    requires Run(scripts, es).Some?
    requires forall g, i | 0 <= g < |scripts| && 0 <= i < |scripts[g]| :: Ascending(scripts[g][i])
    requires g < |Run(scripts, es).value| && !Finished(Run(scripts, es).value[g])
    ensures Enabled(Run(scripts, es).value, e)
  {
    RunOrdered(scripts, es);
    var s := Run(scripts, es).value;
    if k :| 0 <= k < |s| && Enabled(s, Release(k)) {
      e := Release(k);
    } else if s[g].todo == [] {
      assert !Enabled(s, Release(g));
      e := Start(g);
    } else {
      var top := Highest(s, |s|, g);
      e := HighestGoesOn(s, top);
    }
  }

  // ----- Every run ends -----

  function PlanWork(plans: seq<Plan>): nat {
    if plans == [] then 0 else 2 + 3 * |plans[0]| + PlanWork(plans[1..])
  }

  function Work(r: Routine): nat {
    PlanWork(r.script) + 3 * |r.todo| + |r.held| + (if r.announced then 0 else 1)
  }

  function TotalWork(s: State): nat {
    if s == [] then 0 else TotalWork(s[..|s| - 1]) + Work(s[|s| - 1])
  }

  lemma {:induction false} TotalWorkUpdate(s: State, g: nat, r: Routine)
    requires g < |s|
    ensures TotalWork(s[g := r]) + Work(s[g]) == TotalWork(s) + Work(r)
  {
    var n := |s| - 1;
    if g < n {
      TotalWorkUpdate(s[..n], g, r);
      assert s[g := r][..n] == s[..n][g := r];
    } else {
      assert s[g := r][..n] == s[..n];
    }
  }

  lemma StepWorks(s: State, e: Step)
    requires Enabled(s, e)
    ensures TotalWork(Next(s, e)) < TotalWork(s)
  {
    TotalWorkUpdate(s, e.g, Next(s, e)[e.g]);
  }

  lemma {:induction false} RunIsShort(scripts: seq<seq<Plan>>, es: seq<Step>)
    requires Run(scripts, es).Some?
    ensures |es| + TotalWork(Run(scripts, es).value) <= TotalWork(Init(scripts))
  {
    if es == [] {
    } else {
      RunIsShort(scripts, es[..|es| - 1]);
      StepWorks(Run(scripts, es[..|es| - 1]).value, es[|es| - 1]);
    }
  }

  /**
   * Deadlock freedom: goroutines that go through any operations of the binding stop only when
   * all of them are finished, and no run is longer than their work.
   */
  lemma NoDeadlock(operations: seq<seq<Operation>>, scripts: seq<seq<Plan>>, es: seq<Step>)
    requires |scripts| == |operations|
    requires forall g | 0 <= g < |scripts| ::
      |scripts[g]| == |operations[g]| && forall i | 0 <= i < |scripts[g]| :: scripts[g][i] == PlanOf(operations[g][i])
    requires Run(scripts, es).Some?
    ensures |es| <= TotalWork(Init(scripts))
    ensures var s := Run(scripts, es).value;
      |s| == |scripts| && ((forall e :: !Enabled(s, e)) <==> forall g | 0 <= g < |s| :: Finished(s[g]))
  {
    hide PlanOf, Ascending, TotalWork, Run;
    forall g, i | 0 <= g < |scripts| && 0 <= i < |scripts[g]| ensures Ascending(scripts[g][i]) {
      CodePathsAscend(operations[g][i]);
    }
    RunOrdered(scripts, es);
    RunIsShort(scripts, es);
    if g :| 0 <= g < |scripts| && !Finished(Run(scripts, es).value[g]) {
      var e := SomeoneCanStep(scripts, es, g);
    }
  }

  /** The order must be strict: reading the same lock twice deadlocks with a writer that came in between. */
  lemma NestedReadsDeadlock(lock: Lock)
    ensures var read, write := Request(lock, false), Request(lock, true);
      exists es :: var end := Run([[[read, read]], [[write]]], es);
        end.Some? && (forall e :: !Enabled(end.value, e)) && exists g :: 0 <= g < |end.value| && !Finished(end.value[g])
  {
    var read, write := Request(lock, false), Request(lock, true);
    var scripts := [[[read, read]], [[write]]];
    var es, s := ReaderFirst(scripts, read, write);
    assert [read, read][1..] == [read] && [] + [read] == [read] && [[write]][1..] == [];
    es, s := Then(scripts, es, s, Start(1));
    es, s := Then(scripts, es, s, Announce(1));
    Stuck(s, lock);
  }

  /** A reader that wants to read again, and a writer that waits for it. */
  lemma Stuck(s: State, lock: Lock)
    requires var read, write := Request(lock, false), Request(lock, true);
      s == [Routine([], [read], [read], false), Routine([], [write], [], true)]
    ensures (forall e :: !Enabled(s, e)) && !Finished(s[0])
  {
    assert Holds(s[0], lock, false) && Waits(s[1], lock);
  }

  lemma ReaderFirst(scripts: seq<seq<Plan>>, read: Request, write: Request) returns (es: seq<Step>, s: State)
    requires !read.write && scripts == [[[read, read]], [[write]]]
    ensures Run(scripts, es) == Some(s)
    ensures s == [Routine([], [read, read][1..], [] + [read], false), Routine([[write]], [], [], false)]
  {
    es, s := [], Init(scripts);
    es, s := Then(scripts, es, s, Start(0));
    assert [[read, read]][1..] == [] && s[0] == Routine([], [read, read], [], false);
    es, s := Then(scripts, es, s, Acquire(0));
  }

  lemma Then(scripts: seq<seq<Plan>>, es: seq<Step>, s: State, e: Step) returns (es': seq<Step>, s': State)
    requires Run(scripts, es) == Some(s) && Enabled(s, e)
    ensures es' == es + [e] && s' == Next(s, e) && Run(scripts, es') == Some(s')
  {
    es', s' := es + [e], Next(s, e);
    assert es'[..|es|] == es;
  }

  // ----- What the locks are for -----

  /** The objects whose pointers an operation hands to libvirt. */
  function Objects(op: Operation): set<Lock> {
    match op
    case UseConnection(c) => {Connection(c)}
    case CloseConnection(c) => {Connection(c)}
    case UseObject(lock) => {lock}
    case FreeObject(lock) => {lock}
    case RegisterDomainEvent(c, d) => {Connection(c)} + if d.Some? then {DomainHandle(d.value)} else {}
    case RegisterNodeDeviceEvent(c, d) => {Connection(c)} + if d.Some? then {NodeDeviceHandle(d.value)} else {}
    case CloseCallback(h, c) => {CallbackHandle(h), Connection(c)}
    case CreateVolumeFrom(p, v) => {PoolHandle(p), VolumeHandle(v)}
    case VolumeStream(v, s) => {VolumeHandle(v), StreamHandle(s)}
  }

  /** The objects of an operation that are gone after it. */
  function Ended(op: Operation): set<Lock> {
    match op
    case CloseConnection(c) => {Connection(c)}
    case FreeObject(lock) => {lock}
    case CloseCallback(h, _) => {CallbackHandle(h)}
    case _ => {}
  }

  /** Neither ends an object of the other. */
  predicate Compatible(a: Operation, b: Operation) {
    Ended(a) !! Objects(b) && Ended(b) !! Objects(a)
  }

  /** The goroutine has all locks of the operation: it makes the native call. */
  predicate Calls(r: Routine, op: Operation) {
    r.todo == [] && r.held == PlanOf(op)
  }

  ghost predicate Exclusive(s: State) {
    forall g, k, lock, write | 0 <= g < |s| && 0 <= k < |s| && g != k && Holds(s[g], lock, true) ::
      !Holds(s[k], lock, write)
  }

  lemma ExclusiveStays(s: State, e: Step)
    requires Exclusive(s) && Enabled(s, e)
    ensures Exclusive(Next(s, e))
  {
    var r, r' := s[e.g], Next(s, e)[e.g];
    if e.Acquire? {
      assert forall lock, write ::
        Holds(r', lock, write) <==> Holds(r, lock, write) || r.todo[0] == Request(lock, write);
    } else {
      assert forall lock, write :: Holds(r', lock, write) ==> Holds(r, lock, write);
    }
  }

  /** In every run, whoever holds a lock for writing is alone with it. */
  lemma {:induction false} LocksExclude(scripts: seq<seq<Plan>>, es: seq<Step>)
    requires Run(scripts, es).Some?
    ensures Exclusive(Run(scripts, es).value)
  {
    hide Exclusive;
    if es == [] {
      NothingHeld(scripts);
    } else {
      LocksExclude(scripts, es[..|es| - 1]);
      ExclusiveStays(Run(scripts, es[..|es| - 1]).value, es[|es| - 1]);
    }
  }

  lemma NothingHeld(scripts: seq<seq<Plan>>)
    ensures Exclusive(Init(scripts))
  {
  }

  /** An operation locks its objects, and those it ends for writing. */
  lemma PlanCovers(op: Operation)
    ensures forall lock :: lock in Ended(op) <==> Request(lock, true) in PlanOf(op)
    ensures forall lock :: lock in Objects(op) <==>
      Request(lock, false) in PlanOf(op) || Request(lock, true) in PlanOf(op)
  {
  }

  /** No goroutine is in a native call on an object while another is in the call that ends it. */
  lemma NoUseDuringFree(scripts: seq<seq<Plan>>, es: seq<Step>, g: nat, a: Operation, k: nat, b: Operation)
    requires Run(scripts, es).Some? && g < |Run(scripts, es).value| && k < |Run(scripts, es).value| && g != k
    requires Calls(Run(scripts, es).value[g], a) && Calls(Run(scripts, es).value[k], b)
    ensures Compatible(a, b)
  {
    hide Run, PlanOf, Objects, Ended;
    LocksExclude(scripts, es);
    PlanCovers(a);
    PlanCovers(b);
    var s := Run(scripts, es).value;
    forall lock ensures !(lock in Ended(a) && lock in Objects(b)) && !(lock in Ended(b) && lock in Objects(a)) {
      assert lock in Ended(a) ==> Holds(s[g], lock, true);
      assert lock in Ended(b) ==> Holds(s[k], lock, true);
      assert lock in Objects(a) ==> Holds(s[g], lock, false) || Holds(s[g], lock, true);
      assert lock in Objects(b) ==> Holds(s[k], lock, false) || Holds(s[k], lock, true);
    }
  }

  /** The locks forbid no more: two operations can be in their native calls at once exactly when compatible. */
  lemma OverlapExact(a: Operation, b: Operation)
    ensures (exists es :: var end := Run([[PlanOf(a)], [PlanOf(b)]], es);
               end.Some? && |end.value| == 2 && Calls(end.value[0], a) && Calls(end.value[1], b)) <==> Compatible(a, b)
  {
    var scripts := [[PlanOf(a)], [PlanOf(b)]];
    hide Run, PlanOf, Compatible, Calls;
    forall es | Run(scripts, es).Some? ensures |Run(scripts, es).value| == 2 {
      SameGoroutines(scripts, es);
    }
    if es :| Run(scripts, es).Some? && Calls(Run(scripts, es).value[0], a) && Calls(Run(scripts, es).value[1], b) {
      NoUseDuringFree(scripts, es, 0, a, 1, b);
    }
    if Compatible(a, b) {
      var es := BothCall(a, b, scripts);
    }
  }

  lemma {:induction false} SameGoroutines(scripts: seq<seq<Plan>>, es: seq<Step>)
    requires Run(scripts, es).Some?
    ensures |Run(scripts, es).value| == |scripts|
  {
    if es == [] {
    } else {
      SameGoroutines(scripts, es[..|es| - 1]);
    }
  }

  lemma BothCall(a: Operation, b: Operation, scripts: seq<seq<Plan>>) returns (es: seq<Step>)
    requires Compatible(a, b) && scripts == [[PlanOf(a)], [PlanOf(b)]]
    ensures var end := Run(scripts, es);
      end.Some? && |end.value| == 2 && Calls(end.value[0], a) && Calls(end.value[1], b)
  {
    hide Run, PlanOf, Objects, Ended, CanTake;
    var s := Init(scripts);
    es := [];
    RunEmpty(scripts);
    es, s := Then(scripts, es, s, Start(0));
    assert [PlanOf(a)][1..] == [] && s == [Routine([], PlanOf(a), [], false), Routine([PlanOf(b)], [], [], false)];
    TakesOwn(s, 0, a);
    es, s := TakesAll(scripts, es, s, 0);
    es, s := Then(scripts, es, s, Start(1));
    assert [PlanOf(b)][1..] == [] && [] + PlanOf(a) == PlanOf(a);
    assert s == [Routine([], [], PlanOf(a), false), Routine([], PlanOf(b), [], false)];
    TakesBeside(s, a, b);
    es, s := TakesAll(scripts, es, s, 1);
    assert [] + PlanOf(b) == PlanOf(b);
  }

  lemma RunEmpty(scripts: seq<seq<Plan>>)
    ensures Run(scripts, []) == Some(Init(scripts))
  {
  }

  /** Nobody else holds or waits for a lock that g still wants, and g holds none of them. */
  ghost predicate CanTake(s: State, g: nat)
    requires g < |s|
  {
    && !s[g].announced && Ascending(s[g].held + s[g].todo)
    && (forall k | 0 <= k < |s| && k != g :: s[k].todo == [])
    && (forall k, i, write | 0 <= k < |s| && k != g && 0 <= i < |s[g].todo| && Holds(s[k], s[g].todo[i].lock, write) ::
          !write && !s[g].todo[i].write)
  }

  lemma TakesOwn(s: State, g: nat, op: Operation)
    requires g < |s| && s[g].todo == PlanOf(op) && s[g].held == [] && !s[g].announced
    requires forall k | 0 <= k < |s| && k != g :: s[k].todo == [] && s[k].held == []
    ensures CanTake(s, g)
  {
    CodePathsAscend(op);
    hide PlanOf, Ascending;
    assert s[g].held + s[g].todo == PlanOf(op);
  }

  lemma TakesBeside(s: State, a: Operation, b: Operation)
    requires Compatible(a, b)
    requires s == [Routine([], [], PlanOf(a), false), Routine([], PlanOf(b), [], false)]
    ensures CanTake(s, 1)
  {
    CodePathsAscend(b);
    PlanCovers(a);
    PlanCovers(b);
    hide PlanOf, Objects, Ended, Ascending;
    assert s[1].held + s[1].todo == PlanOf(b);
    forall i, write | 0 <= i < |PlanOf(b)| && Holds(s[0], PlanOf(b)[i].lock, write)
      ensures !write && !PlanOf(b)[i].write
    {
      var request := PlanOf(b)[i];
      assert request in PlanOf(b) && Request(request.lock, write) in PlanOf(a);
      assert request.lock in Objects(a) && request.lock in Objects(b);
    }
  }

  /** A goroutine without rivals takes all its locks. */
  lemma {:induction false} TakesAll(scripts: seq<seq<Plan>>, es0: seq<Step>, s0: State, g: nat)
    returns (es: seq<Step>, s: State)
    requires Run(scripts, es0) == Some(s0) && g < |s0| && CanTake(s0, g)
    ensures Run(scripts, es) == Some(s) && s == s0[g := Routine(s0[g].script, [], s0[g].held + s0[g].todo, false)]
    decreases |s0[g].todo|
  {
    hide Run;
    if s0[g].todo == [] {
      es, s := es0, s0;
      assert s0[g].held + [] == s0[g].held;
    } else {
      hide Next, Enabled, CanTake;
      TakesNext(s0, g);
      es, s := es0, s0;
      if s0[g].todo[0].write {
        es, s := Then(scripts, es, s, Announce(g));
      }
      es, s := Then(scripts, es, s, Acquire(g));
      es, s := TakesAll(scripts, es, s, g);
      assert s0[g].held + [s0[g].todo[0]] + s0[g].todo[1..] == s0[g].held + s0[g].todo;
    }
  }

  /** One lock, and what is left still has no rivals. */
  lemma TakesNext(s: State, g: nat)
    requires g < |s| && CanTake(s, g) && s[g].todo != []
    ensures var s1 := if s[g].todo[0].write then s[g := s[g].(announced := true)] else s;
      var s2 := s[g := Routine(s[g].script, s[g].todo[1..], s[g].held + [s[g].todo[0]], false)];
      && (s[g].todo[0].write ==> Enabled(s, Announce(g)) && Next(s, Announce(g)) == s1)
      && Enabled(s1, Acquire(g)) && Next(s1, Acquire(g)) == s2 && CanTake(s2, g)
  {
    NotHeldYet(s[g]);
    NoRival(s, g);
    var s2 := s[g := Routine(s[g].script, s[g].todo[1..], s[g].held + [s[g].todo[0]], false)];
    assert s2[g].held + s2[g].todo == s[g].held + s[g].todo;
  }

  lemma NotHeldYet(r: Routine)
    requires r.todo != [] && Ascending(r.held + r.todo)
    ensures forall write :: !Holds(r, r.todo[0].lock, write)
  {
    var plan := r.held + r.todo;
    assert plan[|r.held|] == r.todo[0];
    forall i | 0 <= i < |r.held| ensures r.held[i].lock != r.todo[0].lock {
      assert plan[i] == r.held[i] && Rank(plan[i].lock) < Rank(plan[|r.held|].lock);
    }
  }

  lemma NoRival(s: State, g: nat)
    requires g < |s| && CanTake(s, g) && s[g].todo != [] && forall write :: !Holds(s[g], s[g].todo[0].lock, write)
    ensures Free(if s[g].todo[0].write then s[g := s[g].(announced := true)] else s, s[g].todo[0])
  {
    hide Ascending, PlanOf;
    var request := s[g].todo[0];
    forall k, write | 0 <= k < |s| && k != g && Holds(s[k], request.lock, write) ensures !write && !request.write {
      assert s[g].todo[0] == request;
    }
    var s1 := if request.write then s[g := s[g].(announced := true)] else s;
    forall k | 0 <= k < |s1|
      ensures s1[k].held == s[k].held && !Holds(s1[k], request.lock, true)
      ensures request.write ==> !Holds(s1[k], request.lock, false)
      ensures !request.write ==> !Waits(s1[k], request.lock)
    {
      assert forall write :: Holds(s1[k], request.lock, write) <==> Holds(s[k], request.lock, write);
      assert k != g ==> s1[k] == s[k] && s[k].todo == [];
    }
  }
}
