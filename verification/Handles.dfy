/** Handle safety over every run, and what borrowed handles can break. */
module Handles {
  import opened Text
  import opened HandleSteps
  import opened HandleInvariants

  // ----- Every run -----

  ghost predicate Inv(s: State) {
    Excluded(s) && PcsOk(s) && SlotsOk(s) && FreedOk(s) && RefsOk(s) && DebtOk(s) && ArraysOk(s) && FaultOk(s)
  }

  lemma InvAtInit(n: nat)
    ensures Inv(Init(n))
  {
    TotalEmpty(InFlight, Init(n).routines);
    TotalEmpty(ListOf, Init(n).routines);
  }

  lemma PcsStayOk(s: State, e: Step)
    requires Excluded(s) && PcsOk(s) && SlotsOk(s) && Next(s, e).Some?
    ensures PcsOk(Next(s, e).value)
  {
    hide Next, PcOk;
    StepMoves(s, e);
    OwnStaysOk(s, e);
    var s' := Next(s, e).value;
    forall g | 0 <= g < |s'.routines| ensures PcOk(s', g) {
      if g != e.g {
        OthersStayOk(s, s', e.g, g);
      }
    }
  }

  lemma InvStep(s: State, e: Step)
    requires Inv(s) && Next(s, e).Some?
    ensures Inv(Next(s, e).value)
  {
    hide Next, Excluded, PcsOk, SlotsOk, FreedOk, RefsOk, DebtOk, ArraysOk, FaultOk;
    StepMoves(s, e);
    StepLocks(s, e);
    ExcludedStays(s, Next(s, e).value, e.g);
    PcsStayOk(s, e);
    SlotsStayOk(s, e);
    FreedStaysOk(s, e);
    RefsStayOk(s, e);
    ArraysStayOk(s, e);
    DebtStaysOk(s, e);
    FaultStaysOk(s, e);
  }

  lemma {:induction false} InvRun(n: nat, es: seq<Step>)
    requires Run(n, es).Some?
    ensures Inv(Run(n, es).value)
  {
    hide Inv, Next;
    if es == [] {
      InvAtInit(n);
    } else {
      InvRun(n, es[..|es| - 1]);
      InvStep(Run(n, es[..|es| - 1]).value, es[|es| - 1]);
    }
  }

  /** Nobody can free a handle in use. */
  predicate UsedSafely(s: State, h: Handle) {
    h < |s.slots| && s.slots[h].Open? && CanRead(s, h)
  }

  lemma InUse(s: State, g: Routine, h: Handle)
    requires Excluded(s) && PcsOk(s) && g < |s.routines| && s.routines[g].Calling? && h in s.routines[g].held
    ensures UsedSafely(s, h)
  {
    AllOk(s, g);
    assert Reads(s.routines[g], h);
  }

  /**
   * After any run of any number of goroutines: a native call saw a dead object only if a borrowed
   * handle was freed, or used after its callback; no array was freed twice, and every one made was
   * freed or is in one goroutine's hands; no handle was freed twice; and a handle in use is open
   * and locked against every Free.
   */
  lemma HandleSafety(n: nat, es: seq<Step>)
    requires Run(n, es).Some?
    ensures var s := Run(n, es).value;
      && (s.fault ==> !NoneFreed(s.slots) || s.late)
      && !s.doubleFree && s.listsFreed + |s.arrays| == s.listsMade
      && (forall a :: s.arrays[a] == Total(ListOf, s.routines)[a])
      && (forall i, j | 0 <= i < j < |s.freed| :: s.freed[i] != s.freed[j])
      && (forall g, h | 0 <= g < |s.routines| && s.routines[g].Calling? && h in s.routines[g].held :: UsedSafely(s, h))
  {
    hide Run, Excluded, PcsOk, SlotsOk, UsedSafely, NoneFreed;
    InvRun(n, es);
    var s := Run(n, es).value;
    forall g, h | 0 <= g < |s.routines| && s.routines[g].Calling? && h in s.routines[g].held
      ensures UsedSafely(s, h)
    {
      InUse(s, g, h);
    }
  }

  /**
   * What libvirt counts for the binding is, for every object, the number of open handles that own a
   * reference plus the references in flight, exactly when no borrowed handle was freed.
   */
  lemma CountsExact(n: nat, es: seq<Step>)
    requires Run(n, es).Some?
    ensures var s := Run(n, es).value;
      (forall p :: Count(s, p) == Total(OwnedBySlot, s.slots)[p] + Total(InFlight, s.routines)[p]) <==>
        NoneFreed(s.slots)
  {
    hide Run, Excluded, PcsOk, SlotsOk, FreedOk, ArraysOk, NoneFreed;
    InvRun(n, es);
    var s := Run(n, es).value;
    if s.debt != multiset{} {
      var p :| p in s.debt;
      assert Count(s, p) != s.refs[p];
    }
  }

  /** Freeing a borrowed handle takes the reference of another one, whose next call then sees a dead object. */
  lemma BorrowedFreeFaults()
    ensures exists es :: var end := Run(1, es); end.Some? && end.value.fault && !end.value.late
  {
    hide Run, Next;
    var es, s := Starts();
    es, s := Fetches(es, s, 7);
    var owner := |s.slots| - 1;
    es, s := Takes(es, s, Lend(0, 7));
    es, s := FreesBorrowed(es, s, |s.slots| - 1);
    es, s := Takes(es, s, Unlend(0, 7));
    es, s := Uses(es, s, owner);
  }

  lemma Starts() returns (es: seq<Step>, s: State)
    ensures Run(1, es) == Some(s) && s == Init(1)
  {
    es, s := [], Init(1);
  }

  lemma Takes(es0: seq<Step>, s0: State, e: Step) returns (es: seq<Step>, s: State)
    requires Run(1, es0) == Some(s0) && |s0.routines| == 1 && e.g == 0 && Lends(e) && (e.Unlend? ==> e.ptr in s0.lent)
    ensures Run(1, es) == Some(s) && Some(s) == if e.Lend? then DoLend(s0, e.ptr) else DoUnlend(s0, e.ptr)
  {
    RunThen(1, es0, e);
    es, s := es0 + [e], Next(s0, e).value;
  }

  lemma Then(es0: seq<Step>, s0: State, e: Step) returns (es: seq<Step>, s: State)
    requires Run(1, es0) == Some(s0) && Next(s0, e).Some?
    ensures Run(1, es) == Some(s) && Next(s0, e) == Some(s)
  {
    RunThen(1, es0, e);
    es, s := es0 + [e], Next(s0, e).value;
  }

  /** A call without a handle fetches a reference, which gets a handle. */
  lemma Fetches(es0: seq<Step>, s0: State, p: Ptr) returns (es: seq<Step>, s: State)
    requires Run(1, es0) == Some(s0) && s0.routines == [Idle(Returned)] && !s0.fault && !s0.late
    ensures Run(1, es) == Some(s) && s.routines == [Idle(Returned)] && !s.fault && !s.late
    ensures s.slots == s0.slots + [Open(p, false)] && s.refs == s0.refs + multiset{p} && s.debt == s0.debt
      && s.lent == s0.lent
  {
    hide Run;
    es, s := Called(es0, s0, p);
    assert s.routines[0].refs[1..] == [];
    es, s := Then(es, s, Wrap(0));
    assert s.routines == [Returning({}, [], None)];
    es, s := Then(es, s, Finish(0));
  }

  lemma Called(es0: seq<Step>, s0: State, p: Ptr) returns (es: seq<Step>, s: State)
    requires Run(1, es0) == Some(s0) && s0.routines == [Idle(Returned)] && !s0.fault && !s0.late
    ensures Run(1, es) == Some(s) && s.routines == [Returning({}, [p], None)] && !s.fault && !s.late
    ensures s.slots == s0.slots && s.refs == s0.refs + multiset{p} && s.debt == s0.debt && s.lent == s0.lent
  {
    hide Run;
    es, s := Then(es0, s0, Begin(0, []));
    assert s.routines == [Entering([], {})];
    es, s := Then(es, s, CheckOpen(0));
    assert s.routines == [Calling({})];
    es, s := Then(es, s, Call(0, Fetched(p)));
  }

  lemma FreesBorrowed(es0: seq<Step>, s0: State, h: Handle) returns (es: seq<Step>, s: State)
    requires Run(1, es0) == Some(s0) && s0.routines == [Idle(Returned)] && !s0.fault && !s0.late
    requires h < |s0.slots| && s0.slots[h].Open? && s0.slots[h].borrowed && s0.slots[h].ptr in s0.lent
    requires Live(s0, s0.slots[h].ptr)
    ensures Run(1, es) == Some(s) && s.routines == [Idle(Returned)] && !s.fault && !s.late
    ensures s.slots == s0.slots[h := Nil(true)] && s.refs == s0.refs && s.debt == s0.debt + multiset{s0.slots[h].ptr}
    ensures s.lent == s0.lent
  {
    hide Run;
    es, s := BeginsFree(es0, s0, h);
    es, s := Then(es, s, CallFree(0, FreeDone));
    assert s.routines == [Clearing(h)];
    es, s := Then(es, s, Clear(0));
  }

  lemma BeginsFree(es0: seq<Step>, s0: State, h: Handle) returns (es: seq<Step>, s: State)
    requires Run(1, es0) == Some(s0) && s0.routines == [Idle(Returned)] && h < |s0.slots| && s0.slots[h].Open?
    ensures Run(1, es) == Some(s) && s == s0.(routines := [Freeing(h)])
  {
    hide Run;
    es, s := Then(es0, s0, WriteLock(0, h));
    assert s.routines == [Locked(h)];
    es, s := Then(es, s, CheckFree(0));
    assert s.routines == [Freeing(h)];
  }

  lemma Uses(es0: seq<Step>, s0: State, h: Handle) returns (es: seq<Step>, s: State)
    requires Run(1, es0) == Some(s0) && s0.routines == [Idle(Returned)] && !s0.late
    requires h < |s0.slots| && s0.slots[h].Open? && !s0.slots[h].borrowed && !Live(s0, s0.slots[h].ptr)
    ensures Run(1, es) == Some(s) && s.fault && !s.late
  {
    hide Run;
    OpensAgain(s0, 0, h);
    es, s := Then(es0, s0, Begin(0, [h]));
    es, s := Then(es, s, ReadLock(0));
    es, s := Then(es, s, CheckOpen(0));
    UseFaults(s, h);
    es, s := Then(es, s, Call(0, Plain));
  }

  lemma UseFaults(s: State, h: Handle)
    requires |s.routines| == 1 && s.routines[0] == Calling({h}) && !s.late
    requires h < |s.slots| && s.slots[h].Open? && !s.slots[h].borrowed && !Live(s, s.slots[h].ptr)
    ensures Next(s, Call(0, Plain)).Some? && Next(s, Call(0, Plain)).value.fault && !Next(s, Call(0, Plain)).value.late
  {
    assert h in {h};
  }

  /** With no call under way nothing is in flight; once every handle was freed, no reference is left. */
  lemma NothingLeaks(n: nat, es: seq<Step>)
    requires Run(n, es).Some? && forall g | 0 <= g < |Run(n, es).value.routines| :: Run(n, es).value.routines[g].Idle?
    ensures var s := Run(n, es).value;
      && s.arrays == multiset{} && s.listsFreed == s.listsMade
      && (NoneFreed(s.slots) ==> forall p :: Count(s, p) == Total(OwnedBySlot, s.slots)[p])
      && (forall h | 0 <= h < |s.slots| :: s.slots[h].Open? <==> h !in s.freed)
      && ((forall h | 0 <= h < |s.slots| && !s.slots[h].borrowed :: h in s.freed) ==> s.refs == multiset{})
  {
    hide Run, Excluded, PcsOk, SlotsOk, FreedOk, NoneFreed;
    InvRun(n, es);
    var s := Run(n, es).value;
    TotalEmpty(InFlight, s.routines);
    TotalEmpty(ListOf, s.routines);
    OpenOrFreed(s);
    if forall h | 0 <= h < |s.slots| && !s.slots[h].borrowed :: h in s.freed {
      TotalEmpty(OwnedBySlot, s.slots);
    }
  }

  lemma OpenOrFreed(s: State)
    requires SlotsOk(s) && FreedOk(s) && forall g | 0 <= g < |s.routines| :: s.routines[g].Idle?
    ensures forall h | 0 <= h < |s.slots| :: s.slots[h].Open? <==> h !in s.freed
  {
    assert forall h | 0 <= h < |s.slots| :: s.slots[h].Nil? <==> IsNil(s, h);
  }

  /**
   * Handles that share an object, as after AddReference, own a reference each; a successful Free of
   * one takes one reference back, closes that handle, and leaves the other open on a live object.
   */
  lemma SharedReferences(n: nat, es: seq<Step>, g: Routine, h: Handle, k: Handle)
    requires Run(n, es).Some? && g < |Run(n, es).value.routines| && Run(n, es).value.routines[g] == Freeing(h)
    requires var s := Run(n, es).value;
      h != k && h < |s.slots| && k < |s.slots| && s.slots[k] == s.slots[h] && s.slots[h].Open? && !s.slots[h].borrowed
    ensures var s := Run(n, es).value; var p := s.slots[k].ptr;
      var end := Run(n, es + [CallFree(g, FreeDone)] + [Clear(g)]);
      && s.refs[p] >= 2
      && end.Some? && end.value.slots == s.slots[h := Nil(false)] && end.value.freed == s.freed + [h]
      && end.value.refs == s.refs - multiset{p} && end.value.refs[p] >= 1
      && end.value.routines == s.routines[g := Idle(Returned)]
  {
    hide Run, Next, Excluded, PcsOk, SlotsOk, FreedOk, RefsOk, DebtOk, ArraysOk, FaultOk;
    InvRun(n, es);
    var s := Run(n, es).value;
    TwoReferences(s, h, k);
    var s1 := FreesAndClears(s, g, h);
    RunThen(n, es, CallFree(g, FreeDone));
    RunThen(n, es + [CallFree(g, FreeDone)], Clear(g));
  }

  lemma FreesAndClears(s: State, g: Routine, h: Handle) returns (s1: State)
    requires g < |s.routines| && s.routines[g] == Freeing(h)
    requires h < |s.slots| && s.slots[h].Open? && !s.slots[h].borrowed
    ensures Next(s, CallFree(g, FreeDone)) == Some(s1)
    ensures var end := Next(s1, Clear(g));
      && end.Some? && end.value.slots == s.slots[h := Nil(false)] && end.value.freed == s.freed + [h]
      && end.value.refs == s.refs - multiset{s.slots[h].ptr} && end.value.routines == s.routines[g := Idle(Returned)]
  {
    s1 := DoCallFree(s, g, FreeDone).value;
  }

  lemma TwoReferences(s: State, h: Handle, k: Handle)
    requires RefsOk(s) && h != k && h < |s.slots| && k < |s.slots|
    requires s.slots[k] == s.slots[h] && s.slots[h].Open? && !s.slots[h].borrowed
    ensures s.refs[s.slots[k].ptr] >= 2
  {
    TotalHasTwo(OwnedBySlot, s.slots, h, k);
  }

  lemma {:induction false} TotalHasTwo<T>(f: T -> multiset<nat>, xs: seq<T>, i: nat, j: nat)
    requires i < |xs| && j < |xs| && i != j
    ensures forall v :: f(xs[i])[v] + f(xs[j])[v] <= Total(f, xs)[v]
  {
    var front, last := xs[..|xs| - 1], |xs| - 1;
    if i == last {
      TotalHas(f, front, j);
    } else if j == last {
      TotalHas(f, front, i);
    } else {
      TotalHasTwo(f, front, i, j);
    }
  }

  /** After a successful Free the handle stays closed: every later use of it ends with ErrClosed. */
  lemma ClosedForever(n: nat, es: seq<Step>, more: seq<Step>, h: Handle)
    requires Run(n, es).Some? && Run(n, es + more).Some? && h in Run(n, es).value.freed
    ensures var s := Run(n, es + more).value;
      && h in s.freed
      && (forall g | 0 <= g < |s.routines| && s.routines[g].Entering? && s.routines[g].todo == []
            && h in s.routines[g].held ::
            Next(s, CheckOpen(g)) == Some(At(s, g, Idle(ErrClosed))))
      && (forall g | 0 <= g < |s.routines| && s.routines[g] == Locked(h) ::
            Next(s, CheckFree(g)) == Some(At(s, g, Idle(ErrClosed))))
  {
    hide Run, Excluded, PcsOk, SlotsOk, RefsOk, ArraysOk;
    FreedForever(n, es, more, h);
    InvRun(n, es + more);
  }

  lemma {:induction false} FreedForever(n: nat, es: seq<Step>, more: seq<Step>, h: Handle)
    requires Run(n, es).Some? && Run(n, es + more).Some? && h in Run(n, es).value.freed
    ensures h in Run(n, es + more).value.freed
    decreases |more|
  {
    hide Next;
    if more == [] {
      assert es + more == es;
    } else {
      var fewer, e := more[..|more| - 1], more[|more| - 1];
      assert es + more == (es + fewer) + [e];
      assert (es + more)[..|es + more| - 1] == es + fewer;
      FreedForever(n, es, fewer, h);
      FreedStays(Run(n, es + fewer).value, e, h);
    }
  }

  lemma FreedStays(s: State, e: Step, h: Handle)
    requires Next(s, e).Some? && h in s.freed
    ensures h in Next(s, e).value.freed
  {
    hide DoBegin, DoReadLock, DoCheckOpen, DoCall, DoWrap, DoFreeList,
         DoUnlock, DoFinish, DoWriteLock, DoCheckFree, DoCallFree, DoLend, DoUnlend, IsNil;
    if OnlyLocks(e) {
      RestStays(s, e);
    } else if Lends(e) {
      LendsLittle(s, e);
    } else {
      match e
      case Call(g, outcome) => CallReturns(s, g, outcome);
      case Wrap(g) => WrapNil(s, g);
      case FreeList(g) => FreeListNil(s, g);
      case CallFree(g, result) => CallFreeNil(s, g, result);
      case Clear(_) =>
    }
  }

  /**
   * A failed Free, or one whose symbol is missing, leaves the handle open: the same goroutine can use it again
   * at once.
   */
  lemma FailedFreeLeavesHandle(n: nat, es: seq<Step>, g: Routine, h: Handle, result: FreeOutcome)
    requires Run(n, es).Some? && g < |Run(n, es).value.routines| && Run(n, es).value.routines[g] == Freeing(h)
    requires !result.FreeDone?
    ensures var s := Run(n, es).value;
      var failed := Run(n, es + [CallFree(g, result)]);
      var again := Run(n, es + [CallFree(g, result)] + [Begin(g, [h])] + [ReadLock(g)] + [CheckOpen(g)]);
      && failed.Some? && again.Some?
      && failed.value.routines == s.routines[g := Idle(if result.FreeMissing? then SymbolUnavailable else NativeError)]
      && failed.value.slots == s.slots && failed.value.refs == s.refs && failed.value.debt == s.debt
      && again.value == At(failed.value, g, Calling({h}))
  {
    hide Run, Next, Inv;
    InvRun(n, es);
    var s := Run(n, es).value;
    var s1 := FreeFails(s, g, h, result);
    OpensAgain(s1, g, h);
    RunThen(n, es, CallFree(g, result));
    RunThen(n, es + [CallFree(g, result)], Begin(g, [h]));
    RunThen(n, es + [CallFree(g, result)] + [Begin(g, [h])], ReadLock(g));
    RunThen(n, es + [CallFree(g, result)] + [Begin(g, [h])] + [ReadLock(g)], CheckOpen(g));
  }

  lemma RunThen(n: nat, es: seq<Step>, e: Step)
    requires Run(n, es).Some?
    ensures Run(n, es + [e]) == Next(Run(n, es).value, e)
  {
    assert (es + [e])[..|es|] == es;
  }

  /** The lock is free again, and the pointer still there. */
  lemma FreeFails(s: State, g: Routine, h: Handle, result: FreeOutcome) returns (s1: State)
    requires Inv(s) && g < |s.routines| && s.routines[g] == Freeing(h) && !result.FreeDone?
    ensures Next(s, CallFree(g, result)) == Some(s1) && |s1.routines| == |s.routines|
    ensures s1.routines == s.routines[g := Idle(if result.FreeMissing? then SymbolUnavailable else NativeError)]
    ensures s1.slots == s.slots && s1.refs == s.refs && s1.debt == s.debt
    ensures h < |s1.slots| && s1.slots[h].Open? && CanRead(s1, h)
  {
    hide RefsOk, DebtOk, ArraysOk, FreedOk, SlotsOk, FaultOk, PcsOk, Live, Late;
    AllOk(s, g);
    s1 := DoCallFree(s, g, result).value;
    assert Writes(s.routines[g], h);
  }

  lemma OpensAgain(s: State, g: Routine, h: Handle)
    requires g < |s.routines| && s.routines[g].Idle? && h < |s.slots| && s.slots[h].Open? && CanRead(s, h)
    ensures Next(s, Begin(g, [h])) == Some(At(s, g, Entering([h], {})))
    ensures Next(At(s, g, Entering([h], {})), ReadLock(g)) == Some(At(s, g, Entering([], {h})))
    ensures Next(At(s, g, Entering([], {h})), CheckOpen(g)) == Some(At(s, g, Calling({h})))
  {
    AtAt(s, g, Entering([h], {}), Entering([], {h}));
    AtAt(s, g, Entering([], {h}), Calling({h}));
    assert [h][1..] == [] && {} + {h} == {h};
  }

  lemma AtAt(s: State, g: Routine, pc: Pc, pc': Pc)
    requires g < |s.routines|
    ensures |At(s, g, pc).routines| == |s.routines| && At(At(s, g, pc), g, pc') == At(s, g, pc')
  {
  }
}
