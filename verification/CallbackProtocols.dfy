/**
 * What a registration, its refusal, a delivery, the free callback and Close do from start to end, in every
 * reachable state.
 */
module CallbackProtocols {
  import opened Text
  import opened Callbacks

  /** A step that gives the next state continues the run. */
  lemma Continues(es: seq<Step>, e: Step)
    requires Run(es).Some?
    ensures Run(es + [e]) == Next(Run(es).value, e)
  {
    assert (es + [e])[..|es|] == es;
  }

  // ----- Registration -----

  function Stores(s: State, t: Thread, token: Token, kind: Kind): State {
    s.(live := s.live + {token}, records := s.records[token := s.nextRecord], nextRecord := s.nextRecord + 1,
       threads := s.threads[t := Stored(token, s.nextRecord, kind)], mallocs := s.mallocs + 1)
  }

  lemma StoringWorks(s: State, t: Thread, token: Token, kind: Kind)
    requires t !in s.threads && token !in s.live
    ensures Next(s, Malloc(t, token, kind)) ==
      Some(s.(live := s.live + {token}, threads := s.threads[t := Allocated(token, kind)], mallocs := s.mallocs + 1))
    ensures Next(Next(s, Malloc(t, token, kind)).value, StoreRecord(t)) == Some(Stores(s, t, token, kind))
  {
    var s1 := s.(live := s.live + {token}, threads := s.threads[t := Allocated(token, kind)], mallocs := s.mallocs + 1);
    assert s1.threads[t := Stored(token, s.nextRecord, kind)] == s.threads[t := Stored(token, s.nextRecord, kind)];
  }

  /**
   * A registration that libvirt accepts has its token live and its new record under it, is open and held by libvirt,
   * and leaves no thread behind; a close callback is the installed one of its connection.
   */
  lemma RegistrationWorks(es: seq<Step>, t: Thread, token: Token, kind: Kind, reg: Reg)
    requires Run(es).Some?
    requires var s := Run(es).value; t !in s.threads && token !in s.live && reg !in s.regs
    requires var s := Run(es).value; kind.ByConn? ==> kind.conn !in s.current && kind.conn !in s.disposed
    ensures var s := Run(es).value;
      Run(es + [Malloc(t, token, kind)] + [StoreRecord(t)] + [Accept(t, reg)]) ==
        Some(s.(live := s.live + {token}, records := s.records[token := s.nextRecord], nextRecord := s.nextRecord + 1,
                regs := s.regs[reg := Registration(token, s.nextRecord, kind, false, false, false)],
                current := if kind.ByConn? then s.current[kind.conn := reg] else s.current, mallocs := s.mallocs + 1))
  {
    hide Run, Next;
    var s := Run(es).value;
    StoringWorks(s, t, token, kind);
    AcceptWorks(s, t, token, kind, reg);
    Continues(es, Malloc(t, token, kind));
    Continues(es + [Malloc(t, token, kind)], StoreRecord(t));
    Continues(es + [Malloc(t, token, kind)] + [StoreRecord(t)], Accept(t, reg));
  }

  lemma AcceptWorks(s: State, t: Thread, token: Token, kind: Kind, reg: Reg)
    requires t !in s.threads && reg !in s.regs
    requires kind.ByConn? ==> kind.conn !in s.current && kind.conn !in s.disposed
    ensures Next(Stores(s, t, token, kind), Accept(t, reg)) ==
      Some(s.(live := s.live + {token}, records := s.records[token := s.nextRecord], nextRecord := s.nextRecord + 1,
              regs := s.regs[reg := Registration(token, s.nextRecord, kind, false, false, false)],
              current := if kind.ByConn? then s.current[kind.conn := reg] else s.current, mallocs := s.mallocs + 1))
  {
    assert s.threads[t := Stored(token, s.nextRecord, kind)] - {t} == s.threads;
  }

  /** A connection has one close callback at a time: libvirt accepts no second one. */
  lemma SecondCloseCallbackRefused(es: seq<Step>, t: Thread, reg: Reg)
    requires Run(es).Some? && t in Run(es).value.threads && Run(es).value.threads[t].Stored?
    requires var s := Run(es).value; s.threads[t].kind.ByConn? && s.threads[t].kind.conn in s.current
    ensures Run(es + [Accept(t, reg)]) == None
  {
    Continues(es, Accept(t, reg));
  }

  /** A refused registration is discarded: its record leaves the table, its token is freed, and it is never accepted. */
  lemma RefusalDiscards(es: seq<Step>, t: Thread)
    requires Run(es).Some? && t in Run(es).value.threads && Run(es).value.threads[t].Stored?
    ensures var s := Run(es).value; var token := s.threads[t].token;
      && token in s.live && token in s.records
      && Run(es + [Refuse(t)] + [Delete(t)] + [Free(t)]) ==
           Some(s.(live := s.live - {token}, records := s.records - {token}, threads := s.threads - {t},
                   frees := s.frees + 1))
      && forall reg :: Run(es + [Refuse(t)] + [Accept(t, reg)]) == None
  {
    hide Run, Next;
    var s := Run(es).value;
    StoredIsListed(es, t);
    DiscardWorks(s, t);
    Continues(es, Refuse(t));
    Continues(es + [Refuse(t)], Delete(t));
    Continues(es + [Refuse(t)] + [Delete(t)], Free(t));
    forall reg ensures Run(es + [Refuse(t)] + [Accept(t, reg)]) == None {
      RefusedIsNotAccepted(s, t, reg);
      Continues(es + [Refuse(t)], Accept(t, reg));
    }
  }

  lemma StoredIsListed(es: seq<Step>, t: Thread)
    requires Run(es).Some? && t in Run(es).value.threads && Run(es).value.threads[t].Stored?
    ensures var s := Run(es).value; s.threads[t].token in s.live && s.threads[t].token in s.records && !s.badFree
  {
    hide Run, CurrentOk, ClosingOk, ClosedOk, RemovalsOk, RecordsUnique, FreeingOk;
    InvRun(es);
    var s := Run(es).value;
    var own :| OwnedBy(s, own);
    HeldIsLive(s, own, t);
  }

  lemma DiscardWorks(s: State, t: Thread)
    requires t in s.threads && s.threads[t].Stored? && s.threads[t].token in s.live && !s.badFree
    ensures var token := s.threads[t].token;
      var s1 := s.(threads := s.threads[t := Refused(token)]);
      var s2 := s.(records := s.records - {token}, threads := s.threads[t := Discarded(token)]);
      && Next(s, Refuse(t)) == Some(s1) && Next(s1, Delete(t)) == Some(s2)
      && Next(s2, Free(t)) ==
           Some(s.(live := s.live - {token}, records := s.records - {token}, threads := s.threads - {t},
                   frees := s.frees + 1))
  {
    var token := s.threads[t].token;
    assert s.threads[t := Refused(token)][t := Discarded(token)] == s.threads[t := Discarded(token)];
    assert s.threads[t := Discarded(token)] - {t} == s.threads - {t};
  }

  lemma RefusedIsNotAccepted(s: State, t: Thread, reg: Reg)
    requires t in s.threads && s.threads[t].Stored?
    ensures Next(s, Refuse(t)).Some? && Next(Next(s, Refuse(t)).value, Accept(t, reg)) == None
  {
  }

  // ----- The free callback -----

  /** The free callback takes the record out and frees the token; it runs once, and no delivery begins after it. */
  lemma FreeCallbackWorks(es: seq<Step>, t: Thread, reg: Reg)
    requires Run(es).Some? && t !in Run(es).value.threads && reg in Run(es).value.regs
    requires var s := Run(es).value; !s.regs[reg].released && !Installed(s, reg)
    ensures var s := Run(es).value; var token := s.regs[reg].token;
      var end := Run(es + [EnterFree(t, reg)] + [LoadAndDelete(t)] + [Free(t)]);
      && token in s.live && token in s.records
      && end == Some(s.(live := s.live - {token}, records := s.records - {token}, frees := s.frees + 1,
                        regs := s.regs[reg := s.regs[reg].(released := true)]))
      && forall u :: Next(end.value, EnterFree(u, reg)) == None && Next(end.value, Deliver(u, reg)) == None
  {
    hide Run, Next;
    var s := Run(es).value;
    UnreleasedIsListed(es, reg);
    FreeingWorks(s, t, reg);
    Continues(es, EnterFree(t, reg));
    Continues(es + [EnterFree(t, reg)], LoadAndDelete(t));
    Continues(es + [EnterFree(t, reg)] + [LoadAndDelete(t)], Free(t));
    forall u ensures var end := s.(live := s.live - {s.regs[reg].token}, records := s.records - {s.regs[reg].token},
                                   frees := s.frees + 1, regs := s.regs[reg := s.regs[reg].(released := true)]);
      Next(end, EnterFree(u, reg)) == None && Next(end, Deliver(u, reg)) == None
    {
      ReleasedIsSilent(s, u, reg);
    }
  }

  lemma UnreleasedIsListed(es: seq<Step>, reg: Reg)
    requires Run(es).Some? && reg in Run(es).value.regs && !Run(es).value.regs[reg].released
    ensures var s := Run(es).value; s.regs[reg].token in s.live && s.regs[reg].token in s.records && !s.badFree
  {
    hide Run, CurrentOk, ClosingOk, ClosedOk, RemovalsOk, RecordsUnique, FreeingOk;
    InvRun(es);
    var s := Run(es).value;
    var own :| OwnedBy(s, own);
  }

  lemma FreeingWorks(s: State, t: Thread, reg: Reg)
    requires t !in s.threads && reg in s.regs && !s.regs[reg].released && !Installed(s, reg)
    requires s.regs[reg].token in s.live && s.regs[reg].token in s.records && !s.badFree
    ensures var token := s.regs[reg].token;
      var regs := s.regs[reg := s.regs[reg].(released := true)];
      var s1 := s.(regs := regs, threads := s.threads[t := FreeEntered(token, reg)]);
      var s2 := s.(regs := regs, records := s.records - {token}, threads := s.threads[t := FreeLoaded(token)]);
      && Next(s, EnterFree(t, reg)) == Some(s1) && Next(s1, LoadAndDelete(t)) == Some(s2)
      && Next(s2, Free(t)) ==
           Some(s.(live := s.live - {token}, records := s.records - {token}, frees := s.frees + 1, regs := regs))
  {
    var token := s.regs[reg].token;
    assert s.threads[t := FreeEntered(token, reg)][t := FreeLoaded(token)] == s.threads[t := FreeLoaded(token)];
    assert s.threads[t := FreeLoaded(token)] - {t} == s.threads;
  }

  lemma ReleasedIsSilent(s: State, u: Thread, reg: Reg)
    requires reg in s.regs
    ensures var end := s.(live := s.live - {s.regs[reg].token}, records := s.records - {s.regs[reg].token},
                          frees := s.frees + 1, regs := s.regs[reg := s.regs[reg].(released := true)]);
      Next(end, EnterFree(u, reg)) == None && Next(end, Deliver(u, reg)) == None
  {
  }

  // ----- Delivery -----

  /** A delivery finds the registration's record and changes nothing. */
  lemma DeliveryWorks(es: seq<Step>, t: Thread, reg: Reg)
    requires Run(es).Some? && t !in Run(es).value.threads
    requires reg in Run(es).value.regs && !Run(es).value.regs[reg].released
    ensures var s := Run(es).value;
      && Run(es + [Deliver(t, reg)] + [Load(t)]) == Some(At(s, t, Delivered(reg, s.regs[reg].record)))
      && Run(es + [Deliver(t, reg)] + [Load(t)] + [Finish(t)]) == Some(s)
  {
    hide Run, Next;
    var s := Run(es).value;
    OwnRecordListed(es, reg);
    DeliversTo(s, t, reg);
    Continues(es, Deliver(t, reg));
    Continues(es + [Deliver(t, reg)], Load(t));
    Continues(es + [Deliver(t, reg)] + [Load(t)], Finish(t));
  }

  lemma OwnRecordListed(es: seq<Step>, reg: Reg)
    requires Run(es).Some? && reg in Run(es).value.regs && !Run(es).value.regs[reg].released
    ensures var s := Run(es).value;
      s.regs[reg].token in s.records && s.records[s.regs[reg].token] == s.regs[reg].record
  {
    hide Run, CurrentOk, ClosingOk, ClosedOk, RemovalsOk, RecordsUnique, FreeingOk, OwnedBy;
    InvRun(es);
  }

  lemma DeliversTo(s: State, t: Thread, reg: Reg)
    requires t !in s.threads && reg in s.regs && !s.regs[reg].released
    requires s.regs[reg].token in s.records && s.records[s.regs[reg].token] == s.regs[reg].record
    ensures Next(s, Deliver(t, reg)) == Some(At(s, t, Delivering(reg)))
    ensures Next(At(s, t, Delivering(reg)), Load(t)) == Some(At(s, t, Delivered(reg, s.regs[reg].record)))
    ensures Next(At(s, t, Delivered(reg, s.regs[reg].record)), Finish(t)) == Some(s)
  {
    var found := Delivered(reg, s.regs[reg].record);
    assert s.threads[t := Delivering(reg)][t := found] == s.threads[t := found];
    assert s.threads[t := found] - {t} == s.threads;
  }

  // ----- Close, and what libvirt does by itself -----

  /** A Close whose native call fails changes nothing, so that it can be tried again. */
  lemma FailedCloseChangesNothing(es: seq<Step>, t: Thread, h: Reg)
    requires Run(es).Some? && t !in Run(es).value.threads && h in Run(es).value.regs
    requires var s := Run(es).value;
      && !s.regs[h].kind.ByNumber? && !s.regs[h].closed && s.regs[h].token in s.records
      && forall u | u in s.threads :: s.threads[u] != Unregistering(h)
    ensures Run(es + [CheckActive(t, h)] + [Unregister(t, false)]) == Run(es)
  {
    hide Run, Next;
    var s := Run(es).value;
    FailsToClose(s, t, h);
    Continues(es, CheckActive(t, h));
    Continues(es + [CheckActive(t, h)], Unregister(t, false));
  }

  lemma FailsToClose(s: State, t: Thread, h: Reg)
    requires t !in s.threads && h in s.regs && !s.regs[h].kind.ByNumber? && !s.regs[h].closed
    requires s.regs[h].token in s.records && forall u | u in s.threads :: s.threads[u] != Unregistering(h)
    ensures Next(s, CheckActive(t, h)) == Some(At(s, t, Unregistering(h)))
    ensures Next(At(s, t, Unregistering(h)), Unregister(t, false)) == Some(s)
  {
    assert s.threads[t := Unregistering(h)] - {t} == s.threads;
  }

  /** libvirt gives up the installed close callback only; the connection can then get another one. */
  lemma DropUninstalls(es: seq<Step>, reg: Reg)
    requires Run(es).Some? && reg in Run(es).value.regs
    ensures var s := Run(es).value;
      Run(es + [Drop(reg)]) ==
        if Installed(s, reg) then
          Some(s.(current := s.current - {s.regs[reg].kind.conn}, dropped := s.dropped + {reg}))
        else None
  {
    Continues(es, Drop(reg));
  }

  /** With the last reference to a connection its close callback goes, and it never gets another one. */
  lemma DisposeUninstalls(es: seq<Step>, more: seq<Step>, c: Conn)
    requires Run(es).Some? && c !in Run(es).value.disposed
    requires Run(es + [Dispose(c)] + more).Some?
    ensures var s := Run(es).value;
      Run(es + [Dispose(c)]) == Some(s.(disposed := s.disposed + {c}, current := s.current - {c}))
    ensures c !in Run(es + [Dispose(c)] + more).value.current
  {
    Continues(es, Dispose(c));
    DisposedForever(es + [Dispose(c)], more, c);
    CurrentOnRun(es + [Dispose(c)] + more);
  }

  lemma {:induction false} DisposedForever(es: seq<Step>, more: seq<Step>, c: Conn)
    requires Run(es).Some? && Run(es + more).Some? && c in Run(es).value.disposed
    ensures c in Run(es + more).value.disposed
    decreases |more|
  {
    hide Next;
    if more == [] {
      assert es + more == es;
    } else {
      var fewer, e := more[..|more| - 1], more[|more| - 1];
      assert es + more == (es + fewer) + [e];
      assert (es + more)[..|es + more| - 1] == es + fewer;
      DisposedForever(es, fewer, c);
      DisposedStays(Run(es + fewer).value, e, c);
    }
  }

  lemma DisposedStays(s: State, e: Step, c: Conn)
    requires Next(s, e).Some? && c in s.disposed
    ensures c in Next(s, e).value.disposed
  {
  }

  /** A node-device event is deregistered by its number once, while libvirt has it; no other kind is. */
  lemma DeregisterWorks(es: seq<Step>, reg: Reg)
    requires Run(es).Some? && reg in Run(es).value.regs
    ensures var s := Run(es).value; var r := s.regs[reg];
      Run(es + [Deregister(reg)]) ==
        if r.kind.ByNumber? && !r.deregistered && !r.released then
          Some(s.(regs := s.regs[reg := r.(deregistered := true)]))
        else None
  {
    Continues(es, Deregister(reg));
  }
}
