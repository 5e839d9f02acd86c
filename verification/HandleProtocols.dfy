/** What a call, a Free and a callback's handle do from start to end, in every reachable state. */
module HandleProtocols {
  import opened Text
  import opened HandleSteps
  import opened HandleInvariants
  import opened Handles

  predicate IsIdle(n: nat, es: seq<Step>, g: Routine) {
    Run(n, es).Some? && g < |Run(n, es).value.routines| && Run(n, es).value.routines[g].Idle?
  }

  predicate IsCalling(n: nat, es: seq<Step>, g: Routine) {
    Run(n, es).Some? && g < |Run(n, es).value.routines| && Run(n, es).value.routines[g].Calling?
  }

  /** More references were taken through borrowed handles than owners and running callbacks have. */
  predicate Dead(s: State, p: Ptr) {
    s.refs[p] + s.lent[p] <= s.debt[p]
  }

  /** No goroutine holds the handle's lock at all. */
  predicate Unlocked(s: State, h: Handle) {
    forall g | 0 <= g < |s.routines| ::
      match s.routines[g]
      case Idle(_) => true
      case Entering(_, held) => h !in held
      case Calling(held) => h !in held
      case Returning(held, _, _) => h !in held
      case Locked(k) => k != h
      case Freeing(k) => k != h
      case Clearing(k) => k != h
  }

  /** No goroutine holds the handle's write lock. */
  predicate Unwritten(s: State, h: Handle) {
    forall g | 0 <= g < |s.routines| :: s.routines[g] !in {Locked(h), Freeing(h), Clearing(h)}
  }

  /** The state with another ending for g, and whatever the call found out about the objects. */
  predicate Ends(s: State, s': State, g: Routine, ending: Ending)
    requires g < |s.routines|
  {
    s' == s.(routines := s.routines[g := Idle(ending)], fault := s'.fault, late := s'.late)
  }

  // ----- Runs of several steps of one goroutine -----

  function ReadLocks(g: Routine, k: nat): seq<Step> {
    seq(k, i => ReadLock(g))
  }

  function Wraps(g: Routine, k: nat): seq<Step> {
    seq(k, i => Wrap(g))
  }

  function Opened(refs: seq<Ptr>): seq<Slot> {
    seq(|refs|, i requires 0 <= i < |refs| => Open(refs[i], false))
  }

  function SetOf(handles: seq<Handle>): set<Handle> {
    set h | h in handles
  }

  /** Taking the read locks one by one. */
  lemma {:induction false} LocksAll(n: nat, es: seq<Step>, s: State, g: Routine, todo: seq<Handle>, held: set<Handle>)
    requires Run(n, es) == Some(s) && g < |s.routines| && s.routines[g] == Entering(todo, held)
    requires forall i | 0 <= i < |todo| :: CanRead(s, todo[i])
    ensures Run(n, es + ReadLocks(g, |todo|)) == Some(At(s, g, Entering([], held + SetOf(todo))))
    decreases |todo|
  {
    hide Run;
    if todo == [] {
      assert es + ReadLocks(g, 0) == es && held + SetOf([]) == held;
      assert s.routines[g := s.routines[g]] == s.routines;
    } else {
      hide Next, CanRead;
      var h := todo[0];
      RunThen(n, es, ReadLock(g));
      LocksOne(s, g);
      var s1 := At(s, g, Entering(todo[1..], held + {h}));
      LocksAll(n, es + [ReadLock(g)], s1, g, todo[1..], held + {h});
      assert es + [ReadLock(g)] + ReadLocks(g, |todo| - 1) == es + ReadLocks(g, |todo|);
      assert held + {h} + SetOf(todo[1..]) == held + SetOf(todo);
      AtAt(s, g, Entering(todo[1..], held + {h}), Entering([], held + SetOf(todo)));
    }
  }

  lemma LocksOne(s: State, g: Routine)
    requires g < |s.routines| && s.routines[g].Entering? && s.routines[g].todo != []
    requires forall i | 0 <= i < |s.routines[g].todo| :: CanRead(s, s.routines[g].todo[i])
    ensures var pc := s.routines[g]; var s1 := At(s, g, Entering(pc.todo[1..], pc.held + {pc.todo[0]}));
      && Next(s, ReadLock(g)) == Some(s1) && |s1.routines| == |s.routines|
      && s1.routines[g] == Entering(pc.todo[1..], pc.held + {pc.todo[0]})
      && forall i | 0 <= i < |pc.todo| - 1 :: CanRead(s1, pc.todo[1..][i])
  {
    var pc := s.routines[g];
    var s1 := At(s, g, Entering(pc.todo[1..], pc.held + {pc.todo[0]}));
    forall i | 0 <= i < |pc.todo| - 1 ensures CanRead(s1, pc.todo[1..][i]) {
      assert CanRead(s, pc.todo[i + 1]);
    }
  }

  /** Wrapping the references one by one. */
  lemma {:induction false} WrapsAll(n: nat, es: seq<Step>, s: State, g: Routine, held: set<Handle>, refs: seq<Ptr>,
                                    list: Option<Array>)
    requires Run(n, es) == Some(s) && g < |s.routines| && s.routines[g] == Returning(held, refs, list)
    ensures Run(n, es + Wraps(g, |refs|)) ==
      Some(At(s.(slots := s.slots + Opened(refs)), g, Returning(held, [], list)))
    decreases |refs|
  {
    hide Run;
    if refs == [] {
      assert es + Wraps(g, 0) == es && s.slots + Opened([]) == s.slots;
      assert s.routines[g := s.routines[g]] == s.routines;
    } else {
      var s1 := At(s.(slots := s.slots + [Open(refs[0], false)]), g, Returning(held, refs[1..], list));
      RunThen(n, es, Wrap(g));
      WrapsAll(n, es + [Wrap(g)], s1, g, held, refs[1..], list);
      assert es + [Wrap(g)] + Wraps(g, |refs| - 1) == es + Wraps(g, |refs|);
      assert s.slots + [Open(refs[0], false)] + Opened(refs[1..]) == s.slots + Opened(refs);
      assert s1.routines[g := Returning(held, [], list)] == s.routines[g := Returning(held, [], list)];
    }
  }

  // ----- Calls -----

  /**
   * A call on handles whose locks are free of writers reaches its native call with the read locks of all of
   * them, unless one has a nil pointer, which ends it with ErrClosed and no lock.
   */
  lemma CallOpens(n: nat, es: seq<Step>, g: Routine, handles: seq<Handle>)
    requires IsIdle(n, es, g)
    requires var s := Run(n, es).value;
      forall i | 0 <= i < |handles| :: handles[i] < |s.slots| && Unwritten(s, handles[i])
    ensures var s := Run(n, es).value;
      Run(n, es + [Begin(g, handles)] + ReadLocks(g, |handles|) + [CheckOpen(g)]) ==
        Some(s.(routines := s.routines[g :=
          if exists i :: 0 <= i < |handles| && s.slots[handles[i]].Nil? then Idle(ErrClosed)
          else Calling(SetOf(handles))]))
  {
    var s := Run(n, es).value;
    hide Run, Next;
    var s1 := At(s, g, Entering(handles, {}));
    RunThen(n, es, Begin(g, handles));
    Begins(s, g, handles);
    LocksAll(n, es + [Begin(g, handles)], s1, g, handles, {});
    assert {} + SetOf(handles) == SetOf(handles);
    AtAt(s, g, Entering(handles, {}), Entering([], SetOf(handles)));
    RunThen(n, es + [Begin(g, handles)] + ReadLocks(g, |handles|), CheckOpen(g));
    Checks(s, g, handles);
  }

  lemma Begins(s: State, g: Routine, handles: seq<Handle>)
    requires g < |s.routines| && s.routines[g].Idle?
    requires forall i | 0 <= i < |handles| :: handles[i] < |s.slots| && Unwritten(s, handles[i])
    ensures var s1 := At(s, g, Entering(handles, {}));
      && Next(s, Begin(g, handles)) == Some(s1) && |s1.routines| == |s.routines|
      && s1.routines[g] == Entering(handles, {})
      && forall i | 0 <= i < |handles| :: CanRead(s1, handles[i])
  {
    var s1 := At(s, g, Entering(handles, {}));
    forall i | 0 <= i < |handles| ensures CanRead(s1, handles[i]) {
      assert Unwritten(s, handles[i]);
      forall k | 0 <= k < |s1.routines| ensures !Writes(s1.routines[k], handles[i]) {
        assert s.routines[k] !in {Locked(handles[i]), Freeing(handles[i]), Clearing(handles[i])};
      }
    }
  }

  lemma Checks(s: State, g: Routine, handles: seq<Handle>)
    requires g < |s.routines| && forall i | 0 <= i < |handles| :: handles[i] < |s.slots|
    ensures Next(At(s, g, Entering([], SetOf(handles))), CheckOpen(g)) ==
      Some(s.(routines := s.routines[g :=
        if exists i :: 0 <= i < |handles| && s.slots[handles[i]].Nil? then Idle(ErrClosed)
        else Calling(SetOf(handles))]))
  {
    var pc := Entering([], SetOf(handles));
    var s1 := At(s, g, pc);
    AtAt(s, g, pc, Idle(ErrClosed));
    AtAt(s, g, pc, Calling(SetOf(handles)));
    if i :| 0 <= i < |handles| && s.slots[handles[i]].Nil? {
      assert handles[i] in SetOf(handles) && IsNil(s1, handles[i]);
    }
  }

  /**
   * A native call that fails ends with libvirt's error and one whose symbol is missing with SymbolUnavailable; both
   * leave every handle, reference and array as it was. Only a call that was made can meet a dead object or an
   * object whose callback is over.
   */
  lemma CallFails(n: nat, es: seq<Step>, g: Routine)
    requires IsCalling(n, es, g)
    ensures var s := Run(n, es).value;
      var held := s.routines[g].held;
      var failed, missing := Run(n, es + [Call(g, Failed)]), Run(n, es + [Call(g, Missing)]);
      && missing == Some(s.(routines := s.routines[g := Idle(SymbolUnavailable)]))
      && failed.Some? && Ends(s, failed.value, g, NativeError)
      && (forall h | h in held :: h < |s.slots| && s.slots[h].Open?)
      && (failed.value.fault <==> s.fault || exists h :: h in held && Dead(s, s.slots[h].ptr))
      && (failed.value.late <==>
            s.late || exists h :: h in held && s.slots[h].borrowed && s.slots[h].ptr !in s.lent)
  {
    hide Run, Next, Inv, Dead;
    InvRun(n, es);
    RunThen(n, es, Call(g, Failed));
    RunThen(n, es, Call(g, Missing));
    HeldIsOpen(Run(n, es).value, g);
    FailsAs(Run(n, es).value, g);
  }

  lemma HeldIsOpen(s: State, g: Routine)
    requires Inv(s) && g < |s.routines| && s.routines[g].Calling?
    ensures forall h | h in s.routines[g].held :: h < |s.slots| && s.slots[h].Open?
  {
    hide RefsOk, DebtOk, ArraysOk, FreedOk, SlotsOk, FaultOk, Excluded, PcsOk;
    AllOk(s, g);
  }

  lemma FailsAs(s: State, g: Routine)
    requires g < |s.routines| && s.routines[g].Calling?
    requires forall h | h in s.routines[g].held :: h < |s.slots| && s.slots[h].Open?
    ensures Next(s, Call(g, Missing)) == Some(s.(routines := s.routines[g := Idle(SymbolUnavailable)]))
    ensures var failed := Next(s, Call(g, Failed));
      && failed.Some? && Ends(s, failed.value, g, NativeError)
      && (failed.value.fault <==> s.fault || exists h :: h in s.routines[g].held && Dead(s, s.slots[h].ptr))
      && (failed.value.late <==>
            s.late || exists h :: h in s.routines[g].held && s.slots[h].borrowed && s.slots[h].ptr !in s.lent)
  {
    var held := s.routines[g].held;
    forall h | h in held ensures Dead(s, s.slots[h].ptr) <==> !Live(s, s.slots[h].ptr) {
    }
    hide Live, Dead;
    assert AllLive(s, held) <==> !exists h :: h in held && Dead(s, s.slots[h].ptr);
    if h :| h in held && s.slots[h].borrowed && s.slots[h].ptr !in s.lent {
      assert Late(s, h);
    }
    assert AnyLate(s, held) <==> exists h :: h in held && s.slots[h].borrowed && s.slots[h].ptr !in s.lent;
  }

  /** The references a native call hands out, in the order in which their handles are made. */
  function Handed(s: State, outcome: Outcome): (ps: seq<Ptr>)
    requires outcome.Ref? ==> outcome.handle < |s.slots| && !s.slots[outcome.handle].Nil?
  {
    match outcome
    case Ref(h) => [s.slots[h].ptr]
    case Fetched(p) => [p]
    case Listed(ps, _) => ps
    case Missing => []
    case Failed => []
    case Plain => []
  }

  /** How a goroutine goes on when its native call worked. */
  function Completion(g: Routine, taken: nat, listed: bool): seq<Step> {
    Wraps(g, taken) + (if listed then [FreeList(g)] else []) + [Unlock(g)] + [Finish(g)]
  }

  /**
   * A native call that works ends with no error. Every reference it handed out is then owned by one new open handle,
   * in order; the array they came in is freed; and nothing else changes.
   */
  lemma CallCompletes(n: nat, es: seq<Step>, g: Routine, outcome: Outcome)
    requires IsCalling(n, es, g) && !outcome.Missing? && !outcome.Failed?
    requires var s := Run(n, es).value; outcome.Ref? ==> outcome.handle in s.routines[g].held
    requires outcome.Listed? ==> outcome.block !in Run(n, es).value.arrays
    ensures var s := Run(n, es).value;
      (outcome.Ref? ==> outcome.handle < |s.slots| && s.slots[outcome.handle].Open?) &&
      var ps := Handed(s, outcome);
      var lists := if outcome.Listed? then 1 else 0;
      var end := Run(n, es + [Call(g, outcome)] + Completion(g, |ps|, outcome.Listed?));
      && end.Some?
      && Ends(s.(slots := s.slots + Opened(ps), refs := s.refs + multiset(ps),
                 listsMade := s.listsMade + lists, listsFreed := s.listsFreed + lists), end.value, g, Returned)
  {
    hide Run, Next, Inv, Handed, Opened, Completion;
    InvRun(n, es);
    var s := Run(n, es).value;
    HeldIsOpen(s, g);
    RunThen(n, es, Call(g, outcome));
    var s1 := CallHands(s, g, outcome);
    var list := if outcome.Listed? then Some(outcome.block) else None;
    Completes(n, es + [Call(g, outcome)], s1, g, s.routines[g].held, Handed(s, outcome), list);
    assert s.routines[g := s1.routines[g]][g := Idle(Returned)] == s.routines[g := Idle(Returned)];
    if list.Some? {
      assert s.arrays + multiset{outcome.block} - multiset{outcome.block} == s.arrays;
    }
  }

  /** The way back from a native call that worked. */
  lemma Completes(n: nat, es: seq<Step>, s: State, g: Routine, held: set<Handle>, ps: seq<Ptr>, list: Option<Array>)
    requires Run(n, es) == Some(s) && g < |s.routines| && s.routines[g] == Returning(held, ps, list)
    requires list.Some? ==> list.value in s.arrays
    ensures Run(n, es + Completion(g, |ps|, list.Some?)) ==
      Some(s.(slots := s.slots + Opened(ps), routines := s.routines[g := Idle(Returned)],
              arrays := if list.Some? then s.arrays - multiset{list.value} else s.arrays,
              listsFreed := s.listsFreed + if list.Some? then 1 else 0))
  {
    hide Run, Next, Opened, Wraps;
    WrapsAll(n, es, s, g, held, ps, list);
    var s1 := At(s.(slots := s.slots + Opened(ps)), g, Returning(held, [], list));
    var es1, s2 := ArrayBack(n, es + Wraps(g, |ps|), s1, g, held, list);
    Finishes(n, es1, s2, g, held);
    assert es1 + [Unlock(g)] + [Finish(g)] == es + Completion(g, |ps|, list.Some?);
    assert s.routines[g := Returning(held, [], list)][g := Returning(held, [], None)][g := Idle(Returned)] ==
      s.routines[g := Idle(Returned)];
  }

  /** The state right after a native call that worked. */
  lemma CallHands(s: State, g: Routine, outcome: Outcome) returns (s1: State)
    requires g < |s.routines| && s.routines[g].Calling? && !outcome.Missing? && !outcome.Failed?
    requires outcome.Ref? ==> outcome.handle in s.routines[g].held
    requires outcome.Ref? ==> outcome.handle < |s.slots| && s.slots[outcome.handle].Open?
    requires outcome.Listed? ==> outcome.block !in s.arrays
    ensures Next(s, Call(g, outcome)) == Some(s1)
    ensures var ps := Handed(s, outcome);
      s1 == s.(refs := s.refs + multiset(ps), fault := s1.fault, late := s1.late,
               arrays := if outcome.Listed? then s.arrays + multiset{outcome.block} else s.arrays,
               listsMade := s.listsMade + if outcome.Listed? then 1 else 0,
               routines := s.routines[g := Returning(s.routines[g].held, ps,
                                                     if outcome.Listed? then Some(outcome.block) else None)])
  {
    hide DoCall;
    match outcome
    case Ref(h) => s1 := HandsRef(s, g, h);
    case Fetched(p) => s1 := HandsFetched(s, g, p);
    case Listed(ps, a) => s1 := HandsListed(s, g, ps, a);
    case Plain => s1 := HandsNothing(s, g);
  }

  lemma HandsRef(s: State, g: Routine, h: Handle) returns (s1: State)
    requires g < |s.routines| && s.routines[g].Calling? && h in s.routines[g].held
    requires h < |s.slots| && s.slots[h].Open?
    ensures DoCall(s, g, Ref(h)) == Some(s1)
    ensures s1 == s.(refs := s.refs + multiset([s.slots[h].ptr]), fault := s1.fault, late := s1.late,
                     routines := s.routines[g := Returning(s.routines[g].held, [s.slots[h].ptr], None)])
  {
    hide AllLive, AnyLate;
    s1 := DoCall(s, g, Ref(h)).value;
  }

  lemma HandsFetched(s: State, g: Routine, p: Ptr) returns (s1: State)
    requires g < |s.routines| && s.routines[g].Calling?
    ensures DoCall(s, g, Fetched(p)) == Some(s1)
    ensures s1 == s.(refs := s.refs + multiset([p]), fault := s1.fault, late := s1.late,
                     routines := s.routines[g := Returning(s.routines[g].held, [p], None)])
  {
    hide AllLive, AnyLate;
    s1 := DoCall(s, g, Fetched(p)).value;
  }

  lemma HandsListed(s: State, g: Routine, ps: seq<Ptr>, a: Array) returns (s1: State)
    requires g < |s.routines| && s.routines[g].Calling? && a !in s.arrays
    ensures DoCall(s, g, Listed(ps, a)) == Some(s1)
    ensures s1 == s.(refs := s.refs + multiset(ps), fault := s1.fault, late := s1.late,
                     arrays := s.arrays + multiset{a}, listsMade := s.listsMade + 1,
                     routines := s.routines[g := Returning(s.routines[g].held, ps, Some(a))])
  {
    hide AllLive, AnyLate;
    s1 := DoCall(s, g, Listed(ps, a)).value;
  }

  lemma HandsNothing(s: State, g: Routine) returns (s1: State)
    requires g < |s.routines| && s.routines[g].Calling?
    ensures DoCall(s, g, Plain) == Some(s1)
    ensures s1 == s.(refs := s.refs + multiset([]), fault := s1.fault, late := s1.late,
                     routines := s.routines[g := Returning(s.routines[g].held, [], None)])
  {
    hide AllLive, AnyLate;
    s1 := DoCall(s, g, Plain).value;
    assert s.refs + multiset([]) == s.refs;
  }

  /** A list's array is freed, and then there is none to free. */
  lemma ArrayBack(n: nat, es: seq<Step>, s: State, g: Routine, held: set<Handle>, list: Option<Array>)
    returns (es1: seq<Step>, s1: State)
    requires Run(n, es) == Some(s) && g < |s.routines| && s.routines[g] == Returning(held, [], list)
    requires list.Some? ==> list.value in s.arrays
    ensures es1 == es + (if list.Some? then [FreeList(g)] else []) && Run(n, es1) == Some(s1)
    ensures s1 == s.(routines := s.routines[g := Returning(held, [], None)],
                     arrays := if list.Some? then s.arrays - multiset{list.value} else s.arrays,
                     listsFreed := s.listsFreed + if list.Some? then 1 else 0)
  {
    hide Run;
    if list.Some? {
      RunThen(n, es, FreeList(g));
      es1, s1 := es + [FreeList(g)], Next(s, FreeList(g)).value;
    } else {
      assert s.routines[g := s.routines[g]] == s.routines && es + [] == es;
      es1, s1 := es, s;
    }
  }

  lemma Finishes(n: nat, es: seq<Step>, s: State, g: Routine, held: set<Handle>)
    requires Run(n, es) == Some(s) && g < |s.routines| && s.routines[g] == Returning(held, [], None)
    ensures Run(n, es + [Unlock(g)] + [Finish(g)]) == Some(s.(routines := s.routines[g := Idle(Returned)]))
  {
    hide Run;
    RunThen(n, es, Unlock(g));
    RunThen(n, es + [Unlock(g)], Finish(g));
    AtAt(s, g, Returning({}, [], None), Idle(Returned));
  }

  // ----- Free -----

  /** Free of a closed handle is ErrClosed, and gives nothing back. */
  lemma FreeOfClosed(n: nat, es: seq<Step>, g: Routine, h: Handle)
    requires IsIdle(n, es, g) && h < |Run(n, es).value.slots|
    requires Run(n, es).value.slots[h].Nil? && Unlocked(Run(n, es).value, h)
    ensures var s := Run(n, es).value;
      Run(n, es + [WriteLock(g, h)] + [CheckFree(g)]) == Some(s.(routines := s.routines[g := Idle(ErrClosed)]))
  {
    var s := Run(n, es).value;
    hide Run, Next, Unlocked, CanWrite;
    LockIsFree(s, h);
    RefusesFree(s, g, h);
    RunThen(n, es, WriteLock(g, h));
    RunThen(n, es + [WriteLock(g, h)], CheckFree(g));
  }

  lemma RefusesFree(s: State, g: Routine, h: Handle)
    requires g < |s.routines| && s.routines[g].Idle? && h < |s.slots| && s.slots[h].Nil? && CanWrite(s, h)
    ensures Next(s, WriteLock(g, h)) == Some(At(s, g, Locked(h)))
    ensures Next(At(s, g, Locked(h)), CheckFree(g)) == Some(s.(routines := s.routines[g := Idle(ErrClosed)]))
  {
    hide CanWrite;
    AtAt(s, g, Locked(h), Idle(ErrClosed));
  }

  lemma LockIsFree(s: State, h: Handle)
    requires Unlocked(s, h)
    ensures CanWrite(s, h)
  {
  }

  /**
   * Free of an open handle that libvirt accepts: the handle's pointer is nil from then on, its reference is given
   * back, and a borrowed handle, which has none, leaves a debt. It meets a dead object exactly when libvirt counted
   * none before.
   */
  lemma FreeWorks(n: nat, es: seq<Step>, g: Routine, h: Handle)
    requires IsIdle(n, es, g) && h < |Run(n, es).value.slots|
    requires Run(n, es).value.slots[h].Open? && Unlocked(Run(n, es).value, h)
    ensures var s := Run(n, es).value; var p, borrowed := s.slots[h].ptr, s.slots[h].borrowed;
      var end := Run(n, es + [WriteLock(g, h)] + [CheckFree(g)] + [CallFree(g, FreeDone)] + [Clear(g)]);
      && end.Some?
      && Ends(s.(slots := s.slots[h := Nil(borrowed)], freed := s.freed + [h],
                 refs := if borrowed then s.refs else s.refs - multiset{p},
                 debt := if borrowed then s.debt + multiset{p} else s.debt), end.value, g, Returned)
      && (end.value.fault <==> s.fault || Dead(s, p))
      && (end.value.late <==> s.late || (borrowed && p !in s.lent))
  {
    var s := Run(n, es).value;
    hide Run, Unlocked, Next, Dead, CanWrite, Ends;
    LockIsFree(s, h);
    EntersFree(s, g, h);
    var s1 := FreesIt(s, g, h);
    RunThen(n, es, WriteLock(g, h));
    RunThen(n, es + [WriteLock(g, h)], CheckFree(g));
    RunThen(n, es + [WriteLock(g, h)] + [CheckFree(g)], CallFree(g, FreeDone));
    RunThen(n, es + [WriteLock(g, h)] + [CheckFree(g)] + [CallFree(g, FreeDone)], Clear(g));
  }

  lemma EntersFree(s: State, g: Routine, h: Handle)
    requires g < |s.routines| && s.routines[g].Idle? && h < |s.slots| && s.slots[h].Open? && CanWrite(s, h)
    ensures Next(s, WriteLock(g, h)) == Some(At(s, g, Locked(h)))
    ensures Next(At(s, g, Locked(h)), CheckFree(g)) == Some(At(s, g, Freeing(h)))
  {
    hide CanWrite;
    AtAt(s, g, Locked(h), Freeing(h));
  }

  lemma FreesIt(s: State, g: Routine, h: Handle) returns (s1: State)
    requires g < |s.routines| && h < |s.slots| && s.slots[h].Open?
    ensures Next(At(s, g, Freeing(h)), CallFree(g, FreeDone)) == Some(s1)
    ensures var p, borrowed := s.slots[h].ptr, s.slots[h].borrowed;
      var end := Next(s1, Clear(g));
      && end.Some?
      && Ends(s.(slots := s.slots[h := Nil(borrowed)], freed := s.freed + [h],
                 refs := if borrowed then s.refs else s.refs - multiset{p},
                 debt := if borrowed then s.debt + multiset{p} else s.debt), end.value, g, Returned)
      && (end.value.fault <==> s.fault || Dead(s, p))
      && (end.value.late <==> s.late || (borrowed && p !in s.lent))
  {
    hide Dead;
    s1 := GivesItBack(s, g, h);
    ClearsIt(s1, g, h);
    assert s.slots[h := s1.slots[h]][h := Nil(s.slots[h].borrowed)] == s.slots[h := Nil(s.slots[h].borrowed)];
    assert s.routines[g := Clearing(h)][g := Idle(Returned)] == s.routines[g := Idle(Returned)];
  }

  lemma GivesItBack(s: State, g: Routine, h: Handle) returns (s1: State)
    requires g < |s.routines| && h < |s.slots| && s.slots[h].Open?
    ensures Next(At(s, g, Freeing(h)), CallFree(g, FreeDone)) == Some(s1)
    ensures var p, borrowed := s.slots[h].ptr, s.slots[h].borrowed;
      && s1 == s.(slots := s.slots[h := Released(p, borrowed)], routines := s.routines[g := Clearing(h)],
                  refs := if borrowed then s.refs else s.refs - multiset{p},
                  debt := if borrowed then s.debt + multiset{p} else s.debt, fault := s1.fault, late := s1.late)
      && (s1.fault <==> s.fault || Dead(s, p))
      && (s1.late <==> s.late || (borrowed && p !in s.lent))
  {
    var s0 := At(s, g, Freeing(h));
    assert s0.slots == s.slots && s0.routines[g] == Freeing(h);
    s1 := DoCallFree(s0, g, FreeDone).value;
    GivesBack(s0.(fault := s1.fault, late := s1.late), h);
    AtAt(s, g, Freeing(h), Clearing(h));
  }

  lemma ClearsIt(s: State, g: Routine, h: Handle)
    requires g < |s.routines| && s.routines[g] == Clearing(h) && h < |s.slots|
    ensures Next(s, Clear(g)) ==
      Some(s.(slots := s.slots[h := Nil(s.slots[h].borrowed)], freed := s.freed + [h],
              routines := s.routines[g := Idle(Returned)]))
  {
  }

  // ----- Callbacks -----

  /** A callback's handle is a new one, open and borrowed; the callback's end only ends the loan. */
  lemma LoanWorks(n: nat, es: seq<Step>, g: Routine, p: Ptr)
    requires Run(n, es).Some? && g < |Run(n, es).value.routines|
    ensures var s := Run(n, es).value;
      var lent := s.(slots := s.slots + [Open(p, true)], lent := s.lent + multiset{p});
      && Run(n, es + [Lend(g, p)]) == Some(lent)
      && Run(n, es + [Lend(g, p)] + [Unlend(g, p)]) == Some(s.(slots := s.slots + [Open(p, true)]))
      && (p !in s.lent <==> Run(n, es + [Unlend(g, p)]) == None)
  {
    hide Run, Next;
    var s := Run(n, es).value;
    LendsAndEnds(s, g, p);
    RunThen(n, es, Lend(g, p));
    RunThen(n, es, Unlend(g, p));
    RunThen(n, es + [Lend(g, p)], Unlend(g, p));
  }

  lemma LendsAndEnds(s: State, g: Routine, p: Ptr)
    requires g < |s.routines|
    ensures var lent := s.(slots := s.slots + [Open(p, true)], lent := s.lent + multiset{p});
      && Next(s, Lend(g, p)) == Some(lent)
      && Next(lent, Unlend(g, p)) == Some(s.(slots := s.slots + [Open(p, true)]))
      && (p !in s.lent <==> Next(s, Unlend(g, p)) == None)
  {
    assert s.lent + multiset{p} - multiset{p} == s.lent;
  }
}
