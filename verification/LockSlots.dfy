/**
 The locker's own map. Redis excludes under every interleaving; the map tells Unlock which token to
 release, and that holds exactly as long as nobody unlocks an id that an acquire has reserved on the
 same locker, nobody closes a locker with an acquire in flight, and the Redis key is not empty.
 */
module LockSlots {
  import opened Wrappers
  import opened Redis
  import opened LockProtocol
  import opened LockSafety

  ghost predicate ReservedOn(w: World, c: nat, n: nat, id: string) {
    c in w.calls && On(w.calls[c], n, id) && Reserved(w.calls[c])
  }

  /** An acquire of the id succeeded here and was not unlocked since. */
  ghost predicate HeldOn(w: World, c: nat, n: nat, id: string) {
    c in w.held && c in w.calls && On(w.calls[c], n, id)
  }

  /** Some acquire of the id has reserved the slot and not settled yet. */
  ghost predicate Busy(w: World, n: nat, id: string) {
    exists c :: ReservedOn(w, c, n, id)
  }

  /** The acquire has returned. */
  predicate Back(c: Call) {
    c.pc.Acquired? || c.pc.Failed?
  }

  /** Every acquire of the locker has returned. */
  ghost predicate Quiescent(w: World, n: nat) {
    forall c :: c in w.calls && w.calls[c].locker == n ==> Back(w.calls[c])
  }

  // ---------------------------------------------------------------- the invariant

  /** An acquire with the slot reserved finds its placeholder there; a successful one not unlocked yet
      finds its mutex there, unless the locker was closed. */
  ghost predicate CallInSlot(w: World, c: nat)
    requires c in w.calls && w.calls[c].locker in w.lockers
  {
    var call := w.calls[c]; var l := w.lockers[call.locker];
    && (Reserved(call) ==> SlotAt(w, call.locker, call.id) == Some(Mutex("", c)))
    && (c in w.held && !l.closed ==> SlotAt(w, call.locker, call.id) == Some(Mutex(call.key, c)))
    && (l.closed ==> !InFlight(call))
  }

  /** A placeholder belongs to an acquire in flight, a named mutex to a section not unlocked yet. */
  ghost predicate SlotExplained(w: World, m: Mutex) {
    && m.owner in w.calls
    && (m.name == "" ==> Reserved(w.calls[m.owner]))
    && (m.name != "" ==> m.owner in w.held)
  }

  ghost predicate SlotInv(w: World) {
    && (forall c :: c in w.calls && w.calls[c].key != "" && w.calls[c].locker in w.lockers ==> CallInSlot(w, c))
    && (forall n, id :: n in w.lockers && Key(w.lockers[n], id) != "" && SlotAt(w, n, id).Some? ==>
          SlotExplained(w, SlotAt(w, n, id).value))
  }

  // ---------------------------------------------------------------- the discipline

  /** Unlock only while no acquire has the id reserved on the locker, close only a quiescent locker (a Close of
      a closed one does nothing). */
  ghost predicate Polite(w: World, s: Step) {
    match s
    case Unlock(_, n, id) => !Busy(w, n, id)
    case CloseFlip(_, n) => n in w.lockers && !w.lockers[n].closed ==> Quiescent(w, n)
    case _ => true
  }

  ghost predicate PoliteRun(w: World, run: seq<Step>)
    decreases |run|
  {
    run == [] || (PoliteRun(w, run[..|run| - 1]) && Polite(Replay(w, run[..|run| - 1]), run[|run| - 1]))
  }

  /** The call discipline of the package: Unlock only after a successful acquire that was not unlocked yet. */
  lemma UnlockAfterSuccessIsPolite(w: World, u: nat, c: nat)
    requires Inv(w) && SlotInv(w) && c in w.held && w.calls[c].key != ""
    ensures Polite(w, Unlock(u, w.calls[c].locker, w.calls[c].id))
  {
    var n, id := w.calls[c].locker, w.calls[c].id;
    assert CallPlaced(w, c) && CallInSlot(w, c);
    forall d ensures !ReservedOn(w, d, n, id) {
      if d in w.calls && On(w.calls[d], n, id) {
        assert CallPlaced(w, d) && CallInSlot(w, d);
      }
    }
  }

  // ---------------------------------------------------------------- polite steps keep the invariant

  /** What empties or refills an occupied slot. */
  lemma SlotLeaves(w: World, s: Step, n: nat, id: string)
    requires SlotAt(w, n, id).Some? && SlotAt(Next(w, s), n, id) != SlotAt(w, n, id)
    ensures
      || (s.Unlock? && s.locker == n && s.id == id)
      || (s.CloseDrop? && s.id == id && Won(w, s.close) && w.closes[s.close].locker == n)
      || (s.Settle? && s.call in w.calls && On(w.calls[s.call], n, id) && Reserved(w.calls[s.call]))
  {
    SlotAfter(w, s, n, id);
  }

  /** An acquire reserves its slot by Reserve, which puts its placeholder there, and frees it by Settle. */
  ghost predicate SlotMoves(w: World, s: Step, c: nat)
    requires c in w.calls && c in Next(w, s).calls
  {
    && (!Reserved(w.calls[c]) && Reserved(Next(w, s).calls[c]) ==>
          s == Reserve(c) && SlotAt(Next(w, s), w.calls[c].locker, w.calls[c].id) == Some(Mutex("", c)))
    && (Reserved(w.calls[c]) && !Reserved(Next(w, s).calls[c]) ==> s == Settle(c) && Enabled(w, s))
    && (InFlight(Next(w, s).calls[c]) ==> InFlight(w.calls[c]))
  }

  lemma ReservedNext(w: World, s: Step, c: nat)
    requires c in w.calls
    ensures c in Next(w, s).calls && SlotMoves(w, s, c)
  {
    CallsAfter(w, s);
    SlotAfter(w, s, w.calls[c].locker, w.calls[c].id);
  }

  lemma BeginNext(w: World, s: Step, c: nat)
    requires c in Next(w, s).calls && c !in w.calls
    ensures !Reserved(Next(w, s).calls[c])
    ensures Next(w, s).calls[c].locker in w.lockers && Next(w, s).lockers == w.lockers
    ensures w.lockers[Next(w, s).calls[c].locker].closed ==> Next(w, s).calls[c].pc == Failed(Closed)
  {
    NewCall(w, s, c);
  }

  /** An acquire is alone in its slot. */
  lemma AloneInSlot(w: World, c: nat, d: nat)
    requires Inv(w) && SlotInv(w) && c in w.calls && d in w.calls && w.calls[c].key != ""
    requires On(w.calls[d], w.calls[c].locker, w.calls[c].id) && Reserved(w.calls[d])
    requires Reserved(w.calls[c]) || (c in w.held && !w.lockers[w.calls[c].locker].closed)
    ensures c == d
  {
    assert CallPlaced(w, c) && CallPlaced(w, d);
    assert CallInSlot(w, c) && CallInSlot(w, d);
  }

  lemma NewCallInSlot(w: World, s: Step, c: nat)
    requires CallsInv(w) && c in Next(w, s).calls && c !in w.calls
    ensures Next(w, s).calls[c].locker in Next(w, s).lockers && CallInSlot(Next(w, s), c)
  {
    BeginNext(w, s, c);
    if c in Next(w, s).held {
      HeldNext(w, s, c);
    }
  }

  /** A slot an acquire has a right to is emptied or refilled by that acquire only. */
  lemma SlotKept(w: World, s: Step, c: nat)
    requires Inv(w) && SlotInv(w) && Polite(w, s)
    requires c in w.calls && w.calls[c].key != "" && w.calls[c].locker in w.lockers
    requires Reserved(w.calls[c]) || (c in w.held && !w.lockers[w.calls[c].locker].closed)
    requires c in Next(w, s).held || Reserved(w.calls[c])
    requires s == Settle(c) ==> Next(w, s) == w
    ensures SlotAt(Next(w, s), w.calls[c].locker, w.calls[c].id) == SlotAt(w, w.calls[c].locker, w.calls[c].id)
  {
    var n, id := w.calls[c].locker, w.calls[c].id;
    assert CallPlaced(w, c) && CallInSlot(w, c);
    if SlotAt(Next(w, s), n, id) != SlotAt(w, n, id) {
      SlotLeaves(w, s, n, id);
      if s.Settle? {
        AloneInSlot(w, c, s.call);
      } else if s.Unlock? {
        assert Reserved(w.calls[c]) ==> ReservedOn(w, c, n, id);
        UnlockEnds(w, s.unlock, n, id, c);
      }
    }
  }

  lemma UnlockEnds(w: World, u: nat, n: nat, id: string, c: nat)
    requires c in w.calls && On(w.calls[c], n, id) && SlotAt(Next(w, Unlock(u, n, id)), n, id) != SlotAt(w, n, id)
    ensures c !in Next(w, Unlock(u, n, id)).held
  {
  }

  lemma ReservedInSlot(w: World, s: Step, c: nat)
    requires Inv(w) && SlotInv(w) && Polite(w, s)
    requires c in w.calls && w.calls[c].key != "" && w.calls[c].locker in w.lockers
    requires c in Next(w, s).calls && Reserved(Next(w, s).calls[c])
    ensures SlotAt(Next(w, s), w.calls[c].locker, w.calls[c].id) == Some(Mutex("", c))
  {
    assert CallInSlot(w, c);
    ReservedNext(w, s, c);
    if Reserved(w.calls[c]) {
      if s == Settle(c) {
        SettleLeaves(w, c);
      }
      SlotKept(w, s, c);
    }
  }

  lemma HeldInSlot(w: World, s: Step, c: nat)
    requires Inv(w) && SlotInv(w) && Polite(w, s)
    requires c in w.calls && w.calls[c].key != "" && w.calls[c].locker in w.lockers
    requires !w.lockers[w.calls[c].locker].closed && c in Next(w, s).held
    ensures SlotAt(Next(w, s), w.calls[c].locker, w.calls[c].id) == Some(Mutex(w.calls[c].key, c))
  {
    assert CallInSlot(w, c);
    if c !in w.held {
      HeldNext(w, s, c);
      WinInSlot(w, c);
    } else {
      if s == Settle(c) {
        HeldIsSettled(w, c);
      }
      SlotKept(w, s, c);
    }
  }

  /** A closed locker has no acquire in flight: a polite Close waits for that. */
  lemma ClosedIsIdle(w: World, s: Step, c: nat)
    requires SlotInv(w) && Polite(w, s)
    requires c in w.calls && w.calls[c].key != "" && w.calls[c].locker in w.lockers
    requires c in Next(w, s).calls && InFlight(Next(w, s).calls[c])
    requires w.calls[c].locker in Next(w, s).lockers
    ensures !Next(w, s).lockers[w.calls[c].locker].closed
  {
    assert CallInSlot(w, c);
    ReservedNext(w, s, c);
    LocalNext(w, s, w.calls[c].locker);
  }

  lemma OldCallInSlot(w: World, s: Step, c: nat)
    requires Inv(w) && SlotInv(w) && Polite(w, s)
    requires c in w.calls && w.calls[c].key != ""
    ensures c in Next(w, s).calls && Next(w, s).calls[c].locker in Next(w, s).lockers && CallInSlot(Next(w, s), c)
  {
    assert CallPlaced(w, c);
    NextKeepsCall(w, s, c);
    LocalNext(w, s, w.calls[c].locker);
    if Reserved(Next(w, s).calls[c]) {
      ReservedInSlot(w, s, c);
    }
    if InFlight(Next(w, s).calls[c]) {
      ClosedIsIdle(w, s, c);
    }
    if c in Next(w, s).held && !w.lockers[w.calls[c].locker].closed {
      HeldInSlot(w, s, c);
    }
  }

  lemma SettleLeaves(w: World, c: nat)
    requires c in w.calls && w.calls[c].locker in w.lockers && Reserved(w.calls[c])
    requires c in Next(w, Settle(c)).calls && Reserved(Next(w, Settle(c)).calls[c])
    ensures Next(w, Settle(c)) == w
  {
  }

  lemma HeldIsSettled(w: World, c: nat)
    requires CallsInv(w) && c in w.held
    ensures Next(w, Settle(c)) == w
  {
  }

  lemma WinInSlot(w: World, c: nat)
    requires c in w.calls && w.calls[c].locker in w.lockers && w.calls[c].pc.Winning?
    ensures SlotAt(Next(w, Settle(c)), w.calls[c].locker, w.calls[c].id) == Some(Mutex(w.calls[c].key, c))
    ensures c in Next(w, Settle(c)).calls && Next(w, Settle(c)).calls[c].pc == Acquired
  {
  }

  lemma KeptSlotExplained(w: World, s: Step, n: nat, id: string, m: Mutex)
    requires CallsInv(w) && SlotsInv(w) && SlotExplained(w, m) && n in w.lockers && Key(w.lockers[n], id) != ""
    requires SlotAt(w, n, id) == Some(m) && SlotAt(Next(w, s), n, id) == Some(m)
    ensures SlotExplained(Next(w, s), m)
  {
    NextKeepsCall(w, s, m.owner);
    assert MutexOf(w, m, n, id) && CallPlaced(w, m.owner);
    if m.name == "" {
      StaysReserved(w, s, n, id, m);
    } else if m.owner !in Next(w, s).held {
      HeldKept(w, s, m.owner);
    }
  }

  lemma StaysReserved(w: World, s: Step, n: nat, id: string, m: Mutex)
    requires m.owner in w.calls && On(w.calls[m.owner], n, id) && Reserved(w.calls[m.owner]) && m.name == ""
    requires w.calls[m.owner].key != ""
    requires SlotAt(w, n, id) == Some(m) && SlotAt(Next(w, s), n, id) == Some(m)
    ensures m.owner in Next(w, s).calls && Reserved(Next(w, s).calls[m.owner])
  {
    ReservedNext(w, s, m.owner);
    SlotAfter(w, s, n, id);
  }

  lemma NewSlotExplained(w: World, s: Step, n: nat, id: string)
    requires CallsInv(w) && n in w.lockers && Key(w.lockers[n], id) != ""
    requires SlotAt(Next(w, s), n, id).Some? && SlotAt(Next(w, s), n, id) != SlotAt(w, n, id)
    ensures SlotExplained(Next(w, s), SlotAt(Next(w, s), n, id).value)
  {
    SlotNext(w, s, n, id);
    assert CallPlaced(w, s.call);
  }

  lemma SlotInvNext(w: World, s: Step)
    requires Inv(w) && SlotInv(w) && Polite(w, s)
    ensures SlotInv(Next(w, s))
  {
    var w' := Next(w, s);
    forall c | c in w'.calls && w'.calls[c].key != "" && w'.calls[c].locker in w'.lockers ensures CallInSlot(w', c) {
      if c in w.calls {
        NextKeepsCall(w, s, c);
        OldCallInSlot(w, s, c);
      } else {
        NewCallInSlot(w, s, c);
      }
    }
    forall n, id | n in w'.lockers && Key(w'.lockers[n], id) != "" && SlotAt(w', n, id).Some?
      ensures SlotExplained(w', SlotAt(w', n, id).value)
    {
      LocalNext(w, s, n);
      if SlotAt(w', n, id) == SlotAt(w, n, id) {
        KeptSlotExplained(w, s, n, id, SlotAt(w, n, id).value);
      } else {
        NewSlotExplained(w, s, n, id);
      }
    }
  }

  lemma {:induction false} SlotInvReplay(w: World, run: seq<Step>)
    requires Inv(w) && SlotInv(w) && PoliteRun(w, run)
    ensures SlotInv(Replay(w, run))
    decreases |run|
  {
    if run != [] {
      InvReplay(w, run[..|run| - 1]);
      SlotInvReplay(w, run[..|run| - 1]);
      SlotInvNext(Replay(w, run[..|run| - 1]), run[|run| - 1]);
    }
  }

  // ---------------------------------------------------------------- what it means for callers

  /** In every polite run an id of an open locker is free, or has one acquire in flight, or is held by one
      acquire whose mutex the map keeps; and the map says which. */
  lemma {:induction false} SlotTellsTheTruth(w: World, run: seq<Step>, n: nat, id: string)
    requires Initial(w) && PoliteRun(w, run)
    requires n in Replay(w, run).lockers && !Replay(w, run).lockers[n].closed
    requires Key(Replay(w, run).lockers[n], id) != ""
    ensures var now := Replay(w, run);
      match SlotAt(now, n, id)
      case None => forall c :: !ReservedOn(now, c, n, id) && !HeldOn(now, c, n, id)
      case Some(m) =>
        if IsPlaceholder(m) then forall c :: (ReservedOn(now, c, n, id) <==> c == m.owner) && !HeldOn(now, c, n, id)
        else forall c :: (HeldOn(now, c, n, id) <==> c == m.owner) && !ReservedOn(now, c, n, id)
  {
    InvReplay(w, run);
    SlotInvReplay(w, run);
    var now := Replay(w, run);
    forall c | ReservedOn(now, c, n, id) || HeldOn(now, c, n, id) ensures CallPlaced(now, c) && CallInSlot(now, c) {
    }
    if SlotAt(now, n, id).Some? {
      assert SlotExplained(now, SlotAt(now, n, id).value) && MutexOf(now, SlotAt(now, n, id).value, n, id);
    }
  }

  /** An Unlock of the acquire's id on its locker goes to Redis with the acquire's own mutex. */
  ghost predicate UnlockFinds(w: World, u: nat, c: nat)
    requires c in w.calls
  {
    var w' := Next(w, Unlock(u, w.calls[c].locker, w.calls[c].id));
    u in w'.unlocks && w'.unlocks[u].pc == Remote(Mutex(w.calls[c].key, c))
  }

  /** So in a polite run an Unlock of a held id on an open locker reaches the right token. */
  lemma {:induction false} UnlockReachesTheToken(w: World, run: seq<Step>, u: nat, c: nat)
    requires Initial(w) && PoliteRun(w, run)
    requires c in Replay(w, run).held && u !in Replay(w, run).unlocks && c in Replay(w, run).calls
    requires Replay(w, run).calls[c].locker in Replay(w, run).lockers
    requires !Replay(w, run).lockers[Replay(w, run).calls[c].locker].closed && Replay(w, run).calls[c].key != ""
    ensures UnlockFinds(Replay(w, run), u, c)
  {
    InvReplay(w, run);
    SlotInvReplay(w, run);
    HeldUnlock(Replay(w, run), u, c);
  }

  lemma HeldUnlock(w: World, u: nat, c: nat)
    requires SlotInv(w) && c in w.held && c in w.calls && u !in w.unlocks && w.calls[c].key != ""
    requires w.calls[c].locker in w.lockers && !w.lockers[w.calls[c].locker].closed
    ensures UnlockFinds(w, u, c)
  {
    assert CallInSlot(w, c);
  }

  /** The settling of a failed acquire leaves its slot as the acquire found it, free, and touches no other. */
  ghost predicate SettleRestores(w: World, c: nat, n: nat, id: string)
    requires c in w.calls
  {
    if On(w.calls[c], n, id)
    then SlotAt(w, n, id) == Some(Mutex("", c)) && SlotAt(Next(w, Settle(c)), n, id) == None
    else SlotAt(Next(w, Settle(c)), n, id) == SlotAt(w, n, id)
  }

  lemma {:induction false} FailedAcquireRestoresSlot(w: World, run: seq<Step>, c: nat, n: nat, id: string)
    requires Initial(w) && PoliteRun(w, run)
    requires c in Replay(w, run).calls && Replay(w, run).calls[c].pc.Losing? && Replay(w, run).calls[c].key != ""
    ensures SettleRestores(Replay(w, run), c, n, id)
  {
    InvReplay(w, run);
    SlotInvReplay(w, run);
    FailedSettle(Replay(w, run), c, n, id);
  }

  lemma FailedSettle(w: World, c: nat, n: nat, id: string)
    requires CallsInv(w) && SlotInv(w)
    requires c in w.calls && w.calls[c].pc.Losing? && w.calls[c].key != ""
    ensures SettleRestores(w, c, n, id)
  {
    assert CallPlaced(w, c) && CallInSlot(w, c);
    SlotAfter(w, Settle(c), n, id);
  }

  // ---------------------------------------------------------------- the boundary

  /** An Unlock keeps the map truthful if and only if no acquire has the id reserved on the locker. */
  lemma UnlockBoundary(w: World, u: nat, n: nat, id: string)
    requires Inv(w) && SlotInv(w)
    requires n in w.lockers && u !in w.unlocks && Key(w.lockers[n], id) != ""
    ensures SlotInv(Next(w, Unlock(u, n, id))) <==> !Busy(w, n, id)
  {
    var w' := Next(w, Unlock(u, n, id));
    if Busy(w, n, id) {
      var c :| ReservedOn(w, c, n, id);
      assert CallPlaced(w, c) && c in w'.calls && SlotAt(w', n, id).None?;
      assert !CallInSlot(w', c);
    } else {
      SlotInvNext(w, Unlock(u, n, id));
    }
  }

  /** The name check of Unlock recognises a placeholder: a lock just acquired can be released if and only
      if its Redis key is not empty. */
  lemma UnlockAfterWin(w: World, c: nat, u: nat)
    requires Inv(w) && c in w.calls && w.calls[c].pc.Winning? && u !in w.unlocks
    ensures var call := w.calls[c]; var after := Next(Next(w, Settle(c)), Unlock(u, call.locker, call.id));
      if call.key != "" then after.unlocks[u].pc == Remote(Mutex(call.key, c))
      else after.unlocks[u].pc == Done(Failure(NotHeld)) && after.db == w.db
  {
    assert CallPlaced(w, c);
  }

  /** That happens: with an empty prefix and an empty id an acquire wins, and no Unlock reaches its lock. */
  lemma {:induction false} EmptyKeyLosesTheLock(w: World, n: nat, id: string, u: nat)
    requires Initial(w) && n in w.lockers && Key(w.lockers[n], id) == ""
    ensures var now := Replay(w, [Begin(0, n, id, 10, 1), Reserve(0), Attempt(0, Answered), Settle(0)]);
      && InSection(now, 0) && EntryIs(now, "", 0)
      && u in Next(now, Unlock(u, n, id)).unlocks && Next(now, Unlock(u, n, id)).unlocks[u].pc == Done(Failure(NotHeld))
      && Next(now, Unlock(u, n, id)).db == now.db
  {
    var run := [Begin(0, n, id, 10, 1), Reserve(0), Attempt(0, Answered), Settle(0)];
    ReplayFour(w, run);
    EmptyKeyReserved(w, n, id);
    EmptyKeyWins(Next(Next(w, run[0]), run[1]), n, id);
    EmptyKeyUnlock(Replay(w, run), n, id, u);
  }

  ghost predicate EmptyKeyAcquire(w: World, n: nat, id: string, pc: Pc) {
    && n in w.lockers && w.unlocks == map[] && w.calls.Keys == {0}
    && w.calls[0] == Call(n, id, "", 10, 1, w.db.now, pc, Idle)
  }

  lemma EmptyKeyReserved(w: World, n: nat, id: string)
    requires Initial(w) && n in w.lockers && Key(w.lockers[n], id) == ""
    ensures var now := Next(Next(w, Begin(0, n, id, 10, 1)), Reserve(0));
      EmptyKeyAcquire(now, n, id, Trying(1)) && now.db.items == map[]
  {
  }

  lemma EmptyKeyWins(w: World, n: nat, id: string)
    requires EmptyKeyAcquire(w, n, id, Trying(1)) && w.db.items == map[]
    ensures var now := Next(Next(w, Attempt(0, Answered)), Settle(0));
      && EmptyKeyAcquire(now, n, id, Acquired) && 0 in now.held && EntryIs(now, "", 0)
      && SlotAt(now, n, id) == Some(Mutex("", 0))
  {
    assert EmptyKeyAcquire(Next(w, Attempt(0, Answered)), n, id, Winning);
  }

  lemma EmptyKeyUnlock(w: World, n: nat, id: string, u: nat)
    requires EmptyKeyAcquire(w, n, id, Acquired) && SlotAt(w, n, id) == Some(Mutex("", 0))
    ensures var after := Next(w, Unlock(u, n, id));
      u in after.unlocks && after.unlocks[u].pc == Done(Failure(NotHeld)) && after.db == w.db
  {
  }

  /** An Unlock that hits an acquire in flight: it removes the placeholder and a second acquire gets in. */
  function InFlightUnlocked(n: nat, id: string): seq<Step> {
    [Begin(0, n, id, 10, 1), Reserve(0), Unlock(0, n, id), Begin(1, n, id, 10, 1), Reserve(1)]
  }

  /** The first acquire wins and stores its mutex, the second loses to it in Redis and deletes the slot. */
  function SecondAcquireFails(): seq<Step> {
    [Attempt(0, Answered), Settle(0), Attempt(1, Answered), Release(1, Answered, GiveUp(false, Taken)), Settle(1)]
  }

  ghost predicate TwoAcquires(w: World, n: nat, id: string, pc0: Pc, pc1: Pc) {
    && n in w.lockers && w.unlocks.Keys == {0} && w.calls.Keys == {0, 1}
    && w.calls[0] == Call(n, id, Key(w.lockers[n], id), 10, 1, w.db.now, pc0, Idle)
    && w.calls[1] == Call(n, id, Key(w.lockers[n], id), 10, 1, w.db.now, pc1, Idle)
  }

  lemma {:induction false} InFlightUnlockedRun(w: World, n: nat, id: string)
    requires Initial(w) && n in w.lockers
    ensures var now := Replay(w, InFlightUnlocked(n, id));
      && TwoAcquires(now, n, id, Trying(1), Trying(1)) && now.held == {} && now.db.items == map[]
  {
    var run := InFlightUnlocked(n, id);
    ReplayFive(w, run);
    PlaceholderUnlocked(w, n, id);
    SecondReserves(Next(Next(Next(w, run[0]), run[1]), run[2]), n, id);
  }

  ghost predicate OneAcquire(w: World, n: nat, id: string) {
    && n in w.lockers && !w.lockers[n].closed && w.unlocks.Keys == {0} && w.calls.Keys == {0}
    && w.calls[0] == Call(n, id, Key(w.lockers[n], id), 10, 1, w.db.now, Trying(1), Idle)
    && w.held == {} && w.db.items == map[] && SlotAt(w, n, id).None?
  }

  lemma PlaceholderUnlocked(w: World, n: nat, id: string)
    requires Initial(w) && n in w.lockers
    ensures OneAcquire(Next(Next(Next(w, Begin(0, n, id, 10, 1)), Reserve(0)), Unlock(0, n, id)), n, id)
  {
  }

  lemma SecondReserves(w: World, n: nat, id: string)
    requires OneAcquire(w, n, id)
    ensures var now := Next(Next(w, Begin(1, n, id, 10, 1)), Reserve(1));
      && TwoAcquires(now, n, id, Trying(1), Trying(1)) && now.held == {} && now.db.items == map[]
  {
  }

  lemma {:induction false} SecondAcquireFailsRun(w: World, n: nat, id: string)
    requires TwoAcquires(w, n, id, Trying(1), Trying(1)) && w.held == {} && w.db.items == map[]
    ensures var now := Replay(w, SecondAcquireFails());
      && TwoAcquires(now, n, id, Acquired, Failed(NotAcquired)) && now.held == {0}
      && EntryIs(now, now.calls[0].key, 0) && SlotAt(now, n, id).None?
  {
    var run := SecondAcquireFails();
    ReplayFive(w, run);
    FirstWins(w, n, id);
    SecondLoses(Next(Next(w, run[0]), run[1]), n, id);
  }

  lemma FirstWins(w: World, n: nat, id: string)
    requires TwoAcquires(w, n, id, Trying(1), Trying(1)) && w.held == {} && w.db.items == map[]
    ensures var now := Next(Next(w, Attempt(0, Answered)), Settle(0));
      && TwoAcquires(now, n, id, Acquired, Trying(1)) && now.held == {0} && EntryIs(now, now.calls[0].key, 0)
  {
    assert TwoAcquires(Next(w, Attempt(0, Answered)), n, id, Winning, Trying(1));
  }

  lemma SecondLoses(w: World, n: nat, id: string)
    requires TwoAcquires(w, n, id, Acquired, Trying(1)) && w.held == {0} && EntryIs(w, w.calls[0].key, 0)
    ensures var last := Next(Next(w, Attempt(1, Answered)), Release(1, Answered, GiveUp(false, Taken)));
      var now := Next(last, Settle(1));
      && TwoAcquires(now, n, id, Acquired, Failed(NotAcquired)) && now.held == {0}
      && EntryIs(now, now.calls[0].key, 0) && SlotAt(now, n, id).None?
  {
    SecondFails(w, n, id);
    SecondReleases(Next(w, Attempt(1, Answered)), n, id);
    SecondSettles(Next(Next(w, Attempt(1, Answered)), Release(1, Answered, GiveUp(false, Taken))), n, id);
  }

  lemma SecondFails(w: World, n: nat, id: string)
    requires TwoAcquires(w, n, id, Acquired, Trying(1)) && w.held == {0} && EntryIs(w, w.calls[0].key, 0)
    ensures var now := Next(w, Attempt(1, Answered));
      TwoAcquires(now, n, id, Acquired, Releasing(0)) && now.held == {0} && EntryIs(now, now.calls[0].key, 0)
  {
  }

  lemma SecondReleases(w: World, n: nat, id: string)
    requires TwoAcquires(w, n, id, Acquired, Releasing(0)) && w.held == {0} && EntryIs(w, w.calls[0].key, 0)
    ensures var now := Next(w, Release(1, Answered, GiveUp(false, Taken)));
      TwoAcquires(now, n, id, Acquired, Losing(NotAcquired)) && now.held == {0} && EntryIs(now, now.calls[0].key, 0)
  {
  }

  lemma SecondSettles(w: World, n: nat, id: string)
    requires TwoAcquires(w, n, id, Acquired, Losing(NotAcquired)) && w.held == {0} && EntryIs(w, w.calls[0].key, 0)
    ensures var now := Next(w, Settle(1));
      && TwoAcquires(now, n, id, Acquired, Failed(NotAcquired)) && now.held == {0}
      && EntryIs(now, now.calls[0].key, 0) && SlotAt(now, n, id).None?
  {
  }

  lemma {:induction false} ReplayPrefix(w: World, run: seq<Step>, k: nat)
    requires k < |run|
    ensures Replay(w, run[..k + 1]) == Next(Replay(w, run[..k]), run[k])
  {
    assert run[..k + 1] == run[..k] + [run[k]];
    ReplayExtends(w, run[..k], run[k]);
  }

  lemma {:induction false} ReplayTwo(w: World, run: seq<Step>)
    requires |run| == 2
    ensures Replay(w, run) == Next(Next(w, run[0]), run[1])
  {
    ReplayPrefix(w, run, 0);
    ReplayPrefix(w, run, 1);
    assert run[..0] == [] && run[..2] == run;
  }

  lemma {:induction false} ReplayFour(w: World, run: seq<Step>)
    requires |run| == 4
    ensures Replay(w, run) == Next(Next(Next(Next(w, run[0]), run[1]), run[2]), run[3])
  {
    ReplayTwo(w, run[..2]);
    ReplayPrefix(w, run, 2);
    ReplayPrefix(w, run, 3);
    assert run[..4] == run;
  }

  lemma {:induction false} ReplayFive(w: World, run: seq<Step>)
    requires |run| == 5
    ensures Replay(w, run) == Next(Next(Next(Next(Next(w, run[0]), run[1]), run[2]), run[3]), run[4])
  {
    ReplayFour(w, run[..4]);
    ReplayPrefix(w, run, 4);
    assert run[..5] == run;
  }

  /** After that run the first acquire is inside its section with its entry in Redis, and no Unlock of its
      id on its locker can reach it any more. */
  lemma {:induction false} UnlockInFlightLosesTheLock(w: World, n: nat, id: string, u: nat)
    requires Initial(w) && n in w.lockers && u != 0
    ensures var now := Replay(w, InFlightUnlocked(n, id) + SecondAcquireFails());
      && InSection(now, 0) && EntryIs(now, now.calls[0].key, 0)
      && u in Next(now, Unlock(u, n, id)).unlocks && Next(now, Unlock(u, n, id)).unlocks[u].pc == Done(Failure(NotHeld))
      && Next(now, Unlock(u, n, id)).db == now.db
  {
    ReplayConcat(w, InFlightUnlocked(n, id), SecondAcquireFails());
    InFlightUnlockedRun(w, n, id);
    SecondAcquireFailsRun(Replay(w, InFlightUnlocked(n, id)), n, id);
  }

  // ---------------------------------------------------------------- Close under races

  /** A Close that got past its compare-and-swap: only acquires past the closed check at that moment are
      still on their way on its locker, and an entry that none of them owns is one it still has to visit. */
  ghost predicate CloseInv(w: World, k: nat) {
    Won(w, k) ==>
      var close := w.closes[k];
      && (forall c :: c in w.calls && w.calls[c].locker == close.locker && InFlight(w.calls[c]) ==> c in close.flight)
      && (forall id :: SlotAt(w, close.locker, id).Some? ==>
            ToVisit(close, id) || SlotAt(w, close.locker, id).value.owner in close.flight)
  }

  predicate ToVisit(close: Closing, id: string) {
    close.pc.Flipped? || (close.pc.Draining? && id in close.pc.todo)
  }

  lemma FlightNext(w: World, s: Step, k: nat, c: nat)
    requires ClosesInv(w) && Won(w, k) && CloseInv(w, k) && k in Next(w, s).closes
    requires c in Next(w, s).calls && Next(w, s).calls[c].locker == w.closes[k].locker && InFlight(Next(w, s).calls[c])
    ensures c in w.closes[k].flight
  {
    if c in w.calls {
      NextKeepsCall(w, s, c);
      ReservedNext(w, s, c);
    } else {
      BeginNext(w, s, c);
    }
  }

  /** An entry still to be visited is visited or stays one to be visited. */
  lemma ToVisitNext(w: World, s: Step, k: nat, id: string)
    requires Won(w, k) && w.closes[k].locker in w.lockers && k in Next(w, s).closes
    requires ToVisit(w.closes[k], id) && SlotAt(Next(w, s), w.closes[k].locker, id).Some?
    ensures ToVisit(Next(w, s).closes[k], id)
  {
    match s
    case CloseRange(_) =>
    case CloseDrop(_, _) =>
    case CloseReturn(_) =>
    case _ =>
  }

  lemma EntryToVisit(w: World, s: Step, k: nat, id: string)
    requires ClosesInv(w) && Won(w, k) && CloseInv(w, k) && k in Next(w, s).closes
    requires SlotAt(Next(w, s), w.closes[k].locker, id).Some?
    ensures ToVisit(Next(w, s).closes[k], id)
      || SlotAt(Next(w, s), w.closes[k].locker, id).value.owner in w.closes[k].flight
  {
    var n := w.closes[k].locker;
    if SlotAt(Next(w, s), n, id) != SlotAt(w, n, id) {
      SlotNext(w, s, n, id);
    } else if ToVisit(w.closes[k], id) {
      ToVisitNext(w, s, k, id);
    }
  }

  lemma CloseInvNext(w: World, s: Step, k: nat)
    requires ClosesInv(w) && CloseInv(w, k)
    ensures CloseInv(Next(w, s), k)
  {
    var w' := Next(w, s);
    if Won(w, k) {
      CloseKept(w, s, k);
      var n := w.closes[k].locker;
      forall c | c in w'.calls && w'.calls[c].locker == n && InFlight(w'.calls[c]) { FlightNext(w, s, k, c); }
      forall id | SlotAt(w', n, id).Some? { EntryToVisit(w, s, k, id); }
    } else if Won(w', k) {
      if k in w.closes {
        CloseKept(w, s, k);
      }
      NewClose(w, s, k);
    }
  }

  lemma {:induction false} CloseInvReplay(w: World, run: seq<Step>, k: nat)
    requires Inv(w) && CloseInv(w, k)
    ensures Inv(Replay(w, run)) && CloseInv(Replay(w, run), k)
    decreases |run|
  {
    if run != [] {
      CloseInvReplay(w, run[..|run| - 1], k);
      InvNext(Replay(w, run[..|run| - 1]), run[|run| - 1]);
      CloseInvNext(Replay(w, run[..|run| - 1]), run[|run| - 1], k);
    }
  }

  lemma {:induction false} CloseKeptReplay(w: World, run: seq<Step>, k: nat)
    requires k in w.closes
    ensures k in Replay(w, run).closes
    ensures Replay(w, run).closes[k].locker == w.closes[k].locker
      && Replay(w, run).closes[k].flight == w.closes[k].flight
    decreases |run|
  {
    if run != [] {
      CloseKeptReplay(w, run[..|run| - 1], k);
      CloseKept(Replay(w, run[..|run| - 1]), run[|run| - 1], k);
    }
  }

  /** Any entry a locker still has once a Close of it that won has returned belongs to an acquire of that
      locker that was past the closed check, and not back yet, at the compare-and-swap. */
  lemma {:induction false} EntriesAfterClose(w: World, before: seq<Step>, after: seq<Step>, k: nat, n: nat, id: string)
    requires Initial(w)
    requires n in Replay(w, before).lockers && k !in Replay(w, before).closes
    requires var now := Replay(w, before + [CloseFlip(k, n)] + after);
      k in now.closes && now.closes[k].pc == Returned(true) && SlotAt(now, n, id).Some?
    ensures var owner := SlotAt(Replay(w, before + [CloseFlip(k, n)] + after), n, id).value.owner;
      var flip := Replay(w, before);
      owner in flip.calls && flip.calls[owner].locker == n && !Back(flip.calls[owner])
  {
    ReplayExtends(w, before, CloseFlip(k, n));
    ReplayConcat(w, before + [CloseFlip(k, n)], after);
    CloseInvReplay(w, before + [CloseFlip(k, n)] + after, k);
    CloseKeptReplay(Replay(w, before + [CloseFlip(k, n)]), after, k);
  }

  // ---------------------------------------------------------------- what a closed locker can still hold

  /** The acquire may yet put an entry into the map: it has not reserved its slot, can still win, or has won. */
  predicate CanFill(call: Call) {
    || call.pc.Checked? || call.pc.Winning?
    || (call.pc.Trying? && call.pc.left > 0) || (call.pc.Releasing? && call.pc.left > 0)
  }

  ghost predicate Holds(w: World, n: nat) {
    exists id :: SlotAt(w, n, id).Some?
  }

  /** After this continuation the map holds an entry. */
  ghost predicate Leaves(w: World, run: seq<Step>, n: nat) {
    Holds(Replay(w, run), n)
  }

  ghost predicate Fillable(w: World, n: nat) {
    exists c :: c in w.calls && w.calls[c].locker == n && CanFill(w.calls[c])
  }

  lemma CanFillNext(w: World, s: Step, c: nat)
    requires c in w.calls && c in Next(w, s).calls && CanFill(Next(w, s).calls[c])
    ensures CanFill(w.calls[c])
  {
    CallsAfter(w, s);
  }

  /** Nothing comes into an empty map of a closed locker without an acquire that can still fill it. */
  lemma EmptyNext(w: World, s: Step, n: nat)
    requires n in w.lockers && w.lockers[n].closed && !Holds(w, n) && !Fillable(w, n)
    ensures n in Next(w, s).lockers && Next(w, s).lockers[n].closed
    ensures !Holds(Next(w, s), n) && !Fillable(Next(w, s), n)
  {
    LocalNext(w, s, n);
    if id :| SlotAt(Next(w, s), n, id).Some? {
      SlotNext(w, s, n, id);
    }
    if c :| c in Next(w, s).calls && Next(w, s).calls[c].locker == n && CanFill(Next(w, s).calls[c]) {
      if c in w.calls {
        NextKeepsCall(w, s, c);
        CanFillNext(w, s, c);
      } else {
        NewCall(w, s, c);
      }
    }
  }

  lemma {:induction false} EmptyReplay(w: World, run: seq<Step>, n: nat)
    requires n in w.lockers && w.lockers[n].closed && !Holds(w, n) && !Fillable(w, n)
    ensures n in Replay(w, run).lockers && Replay(w, run).lockers[n].closed
    ensures !Holds(Replay(w, run), n) && !Fillable(Replay(w, run), n)
    decreases |run|
  {
    if run != [] {
      EmptyReplay(w, run[..|run| - 1], n);
      EmptyNext(Replay(w, run[..|run| - 1]), run[|run| - 1], n);
    }
  }

  /** The time after which the entry of a key has expired. */
  function Wait(w: World, key: string): nat {
    if key in w.db.items && w.db.items[key].expiry.Some? && w.db.items[key].expiry.value > w.db.now
    then w.db.items[key].expiry.value - w.db.now
    else 0
  }

  lemma WaitFrees(w: World, c: nat)
    requires Inv(w) && c in w.calls && w.calls[c].pc.Trying?
    ensures var after := Next(w, Elapse(Wait(w, w.calls[c].key)));
      Look(after.db, w.calls[c].key).None? && after.calls == w.calls && after.lockers == w.lockers
  {
    assert w.calls[c].key in w.db.items ==> EntryOwned(w, w.calls[c].key);
  }

  lemma FreeKeyIsWon(w: World, c: nat)
    requires c in w.calls && w.calls[c].pc.Trying? && w.calls[c].pc.left > 0 && Look(w.db, w.calls[c].key).None?
    ensures var after := Next(w, Attempt(c, Answered));
      c in after.calls && after.calls[c] == w.calls[c].(pc := Winning) && after.lockers == w.lockers
  {
    AttemptCalls(w, c, Answered);
  }

  /** What an acquire that can still win does next until its entry is in the map. */
  lemma {:induction false} WinnerFills(w: World, c: nat) returns (run: seq<Step>)
    requires c in w.calls && w.calls[c].locker in w.lockers && w.calls[c].pc.Winning?
    ensures Holds(Replay(w, run), w.calls[c].locker)
  {
    run := [Settle(c)];
    ReplayPrefix(w, run, 0);
    assert run[..0] == [] && run[..1] == run;
    SlotAfter(w, Settle(c), w.calls[c].locker, w.calls[c].id);
    assert SlotAt(Replay(w, run), w.calls[c].locker, w.calls[c].id).Some?;
  }

  lemma {:induction false} TryingFills(w: World, c: nat) returns (run: seq<Step>)
    requires Inv(w) && c in w.calls && w.calls[c].locker in w.lockers && w.calls[c].pc.Trying? && w.calls[c].pc.left > 0
    ensures Holds(Replay(w, run), w.calls[c].locker)
  {
    var first := [Elapse(Wait(w, w.calls[c].key)), Attempt(c, Answered)];
    ReplayTwo(w, first);
    WaitFrees(w, c);
    FreeKeyIsWon(Next(w, first[0]), c);
    var rest := WinnerFills(Replay(w, first), c);
    ReplayConcat(w, first, rest);
    run := first + rest;
  }

  lemma {:induction false} ReleasingFills(w: World, c: nat) returns (run: seq<Step>)
    requires Inv(w) && c in w.calls && w.calls[c].locker in w.lockers && w.calls[c].pc.Releasing?
    requires w.calls[c].pc.left > 0
    ensures Holds(Replay(w, run), w.calls[c].locker)
  {
    var s := Release(c, Unsent, Again);
    ReplayOne(w, s);
    InvNext(w, s);
    ReleaseCalls(w, c, Unsent, Again);
    LocalNext(w, s, w.calls[c].locker);
    var rest := TryingFills(Next(w, s), c);
    ReplayConcat(w, [s], rest);
    run := [s] + rest;
  }

  lemma {:induction false} CheckedFills(w: World, c: nat) returns (run: seq<Step>)
    requires c in w.calls && w.calls[c].locker in w.lockers && w.calls[c].pc.Checked?
    ensures Holds(Replay(w, run), w.calls[c].locker)
  {
    run := [Reserve(c)];
    ReplayOne(w, run[0]);
    SlotAfter(w, Reserve(c), w.calls[c].locker, w.calls[c].id);
    assert SlotAt(Replay(w, run), w.calls[c].locker, w.calls[c].id).Some?;
  }

  lemma {:induction false} ReplayOne(w: World, s: Step)
    ensures Replay(w, [s]) == Next(w, s)
  {
    ReplayPrefix(w, [s], 0);
    assert [s][..0] == [] && [s][..1] == [s];
  }

  lemma {:induction false} Fills(w: World, c: nat) returns (run: seq<Step>)
    requires Inv(w) && c in w.calls && w.calls[c].locker in w.lockers && CanFill(w.calls[c])
    ensures Holds(Replay(w, run), w.calls[c].locker)
  {
    match w.calls[c].pc
    case Checked => run := CheckedFills(w, c);
    case Trying(_) => run := TryingFills(w, c);
    case Releasing(_) => run := ReleasingFills(w, c);
    case Winning => run := WinnerFills(w, c);
  }

  /** The map of a closed locker holds an entry now or in some continuation if and only if it holds one now or
      one of its acquires can still fill it. */
  lemma {:induction false} ClosedMapBoundary(w: World, n: nat)
    requires Inv(w) && n in w.lockers && w.lockers[n].closed
    ensures (exists run :: Leaves(w, run, n)) <==> Holds(w, n) || Fillable(w, n)
  {
    if Holds(w, n) {
      assert Leaves(w, [], n);
    } else if Fillable(w, n) {
      var c :| c in w.calls && w.calls[c].locker == n && CanFill(w.calls[c]);
      var run := Fills(w, c);
      assert Leaves(w, run, n);
    } else {
      forall run ensures !Leaves(w, run, n) { EmptyReplay(w, run, n); }
    }
  }

  /** After a Close that won has returned: its locker can hold an entry from then on if and only if it holds
      one or has an acquire that can still fill it, and either way that acquire was past the closed check, and
      not back yet, at the compare-and-swap. Without such an acquire the map stays empty for ever. */
  lemma {:induction false} MapAfterClose(w: World, run: seq<Step>, k: nat)
    requires Initial(w) && k in Replay(w, run).closes && Replay(w, run).closes[k].pc == Returned(true)
    ensures var now := Replay(w, run); var close := now.closes[k];
      && ((exists more :: Leaves(now, more, close.locker)) <==>
            Holds(now, close.locker) || Fillable(now, close.locker))
      && (forall id :: SlotAt(now, close.locker, id).Some? ==>
            SlotAt(now, close.locker, id).value.owner in close.flight)
      && (forall c :: c in now.calls && now.calls[c].locker == close.locker && CanFill(now.calls[c]) ==>
            c in close.flight)
      && (close.flight == {} ==> forall more :: !Leaves(now, more, close.locker))
  {
    CloseInvReplay(w, run, k);
    ClosedMapBoundary(Replay(w, run), Replay(w, run).closes[k].locker);
  }

  /** It happens: an acquire that was trying when Close ran stores its mutex in the emptied map. */
  function CloseDuringAcquire(n: nat, id: string): seq<Step> {
    [Begin(0, n, id, 10, 1), Reserve(0), CloseFlip(0, n), CloseRange(0), CloseDrop(0, id), CloseReturn(0)]
  }

  ghost predicate AcquireAndClose(w: World, n: nat, id: string, pc: Pc, closing: ClosePc) {
    && n in w.lockers && w.calls.Keys == {0} && w.calls[0].locker == n && w.calls[0].id == id
    && w.calls[0].pc == pc && w.closes.Keys == {0} && w.closes[0].locker == n && w.closes[0].pc == closing
    && w.lockers[n].closed && w.db.items == map[]
  }

  lemma CloseBegins(w: World, n: nat, id: string)
    requires Initial(w) && n in w.lockers
    ensures var now := Next(Next(Next(w, Begin(0, n, id, 10, 1)), Reserve(0)), CloseFlip(0, n));
      && AcquireAndClose(now, n, id, Trying(1), Flipped)
      && now.lockers[n].mutexes == map[id := Mutex("", 0)]
  {
  }

  lemma CloseEnds(w: World, n: nat, id: string)
    requires AcquireAndClose(w, n, id, Trying(1), Flipped) && w.lockers[n].mutexes == map[id := Mutex("", 0)]
    ensures var now := Next(Next(Next(w, CloseRange(0)), CloseDrop(0, id)), CloseReturn(0));
      AcquireAndClose(now, n, id, Trying(1), Returned(true)) && now.lockers[n].mutexes == map[]
  {
    RangeBegins(w, n, id);
    LastDrop(Next(w, CloseRange(0)), n, id);
    EmptyReturn(Next(Next(w, CloseRange(0)), CloseDrop(0, id)), n, id);
  }

  lemma RangeBegins(w: World, n: nat, id: string)
    requires AcquireAndClose(w, n, id, Trying(1), Flipped) && w.lockers[n].mutexes == map[id := Mutex("", 0)]
    ensures var now := Next(w, CloseRange(0));
      AcquireAndClose(now, n, id, Trying(1), Draining({id})) && now.lockers[n].mutexes == map[id := Mutex("", 0)]
  {
  }

  lemma LastDrop(w: World, n: nat, id: string)
    requires AcquireAndClose(w, n, id, Trying(1), Draining({id})) && w.lockers[n].mutexes == map[id := Mutex("", 0)]
    ensures var now := Next(w, CloseDrop(0, id));
      AcquireAndClose(now, n, id, Trying(1), Draining({})) && now.lockers[n].mutexes == map[]
  {
    assert {id} - {id} == {} && map[id := Mutex("", 0)] - {id} == map[];
  }

  lemma EmptyReturn(w: World, n: nat, id: string)
    requires AcquireAndClose(w, n, id, Trying(1), Draining({})) && w.lockers[n].mutexes == map[]
    ensures var now := Next(w, CloseReturn(0));
      AcquireAndClose(now, n, id, Trying(1), Returned(true)) && now.lockers[n].mutexes == map[]
  {
  }

  lemma LateWin(w: World, n: nat, id: string)
    requires AcquireAndClose(w, n, id, Trying(1), Returned(true))
    ensures var now := Next(Next(w, Attempt(0, Answered)), Settle(0));
      && n in now.lockers && now.lockers[n].closed && 0 in now.closes && now.closes[0].pc == Returned(true)
      && SlotAt(now, n, id) == Some(Mutex(w.calls[0].key, 0)) && 0 in now.held
  {
    FreeKeyIsWon(w, 0);
    SlotAfter(Next(w, Attempt(0, Answered)), Settle(0), n, id);
  }

  lemma {:induction false} EntryStoredAfterClose(w: World, n: nat, id: string)
    requires Initial(w) && n in w.lockers
    ensures var returned := Replay(w, CloseDuringAcquire(n, id));
      var now := Replay(returned, [Attempt(0, Answered), Settle(0)]);
      && 0 in returned.closes && returned.closes[0].pc == Returned(true) && !Holds(returned, n)
      && n in now.lockers && now.lockers[n].closed && Holds(now, n) && 0 in now.held
  {
    var run := CloseDuringAcquire(n, id);
    ReplayFive(w, run[..5]);
    ReplayPrefix(w, run, 5);
    assert run[..6] == run;
    CloseBegins(w, n, id);
    CloseEnds(Next(Next(Next(w, run[0]), run[1]), run[2]), n, id);
    var returned := Replay(w, run);
    ReplayTwo(returned, [Attempt(0, Answered), Settle(0)]);
    LateWin(returned, n, id);
    assert SlotAt(Replay(returned, [Attempt(0, Answered), Settle(0)]), n, id).Some?;
  }

  // ---------------------------------------------------------------- one Close wins

  /** The Closes of a locker that returned after closing it. */
  function Closers(w: World, n: nat): set<nat> {
    set k | k in w.closes && w.closes[k].locker == n && w.closes[k].pc == Returned(true)
  }

  ghost predicate OneWinner(w: World, n: nat) {
    forall k1, k2 :: Won(w, k1) && Won(w, k2) && w.closes[k1].locker == n && w.closes[k2].locker == n ==> k1 == k2
  }

  ghost predicate CloseCounted(w: World, n: nat) {
    n in w.lockers ==> w.lockers[n].clientCloses == if w.lockers[n].closeClient then |Closers(w, n)| else 0
  }

  lemma OneWinnerNext(w: World, s: Step, n: nat)
    requires ClosesInv(w) && OneWinner(w, n)
    ensures OneWinner(Next(w, s), n)
  {
    var w' := Next(w, s);
    forall k1, k2 | Won(w', k1) && Won(w', k2) && w'.closes[k1].locker == n && w'.closes[k2].locker == n
      ensures k1 == k2
    {
      WinnerNext(w, s, k1);
      WinnerNext(w, s, k2);
    }
  }

  /** A winner was one before, or its compare-and-swap found the locker open. */
  lemma WinnerNext(w: World, s: Step, k: nat)
    requires Won(Next(w, s), k)
    ensures if k in w.closes then Won(w, k) && Next(w, s).closes[k].locker == w.closes[k].locker
            else s == CloseFlip(k, Next(w, s).closes[k].locker) && s.locker in w.lockers && !w.lockers[s.locker].closed
  {
    if k in w.closes {
      CloseKept(w, s, k);
    } else {
      NewClose(w, s, k);
    }
  }

  lemma CloserNext(w: World, s: Step, n: nat, k: nat)
    ensures k in Closers(Next(w, s), n) <==> k in Closers(w, n) || Returns(w, s, k, n)
  {
    match s
    case CloseFlip(_, _) => CloserFlip(w, s, n, k);
    case CloseRange(_) => CloserDrain(w, s, n, k);
    case CloseDrop(_, _) => CloserDrain(w, s, n, k);
    case CloseReturn(_) => CloserReturn(w, s, n, k);
    case _ => OtherStepsKeepCloses(w, s);
  }

  lemma CloserFlip(w: World, s: Step, n: nat, k: nat)
    requires s.CloseFlip?
    ensures k in Closers(Next(w, s), n) <==> k in Closers(w, n)
  {
  }

  lemma CloserDrain(w: World, s: Step, n: nat, k: nat)
    requires s.CloseRange? || s.CloseDrop?
    ensures k in Closers(Next(w, s), n) <==> k in Closers(w, n)
  {
  }

  lemma CloserReturn(w: World, s: Step, n: nat, k: nat)
    requires s.CloseReturn?
    ensures k in Closers(Next(w, s), n) <==> k in Closers(w, n) || Returns(w, s, k, n)
  {
  }

  lemma CloseCountedNext(w: World, s: Step, n: nat)
    requires CloseCounted(w, n)
    ensures CloseCounted(Next(w, s), n)
  {
    if n in Next(w, s).lockers {
      LocalNext(w, s, n);
      forall k { CloserNext(w, s, n, k); }
      if s.CloseReturn? && Returns(w, s, s.close, n) {
        assert Closers(Next(w, s), n) == Closers(w, n) + {s.close};
      } else {
        assert Closers(Next(w, s), n) == Closers(w, n);
      }
    }
  }

  lemma {:induction false} OneWinnerReplay(w: World, run: seq<Step>, n: nat)
    requires Inv(w) && OneWinner(w, n) && CloseCounted(w, n)
    ensures Inv(Replay(w, run)) && OneWinner(Replay(w, run), n) && CloseCounted(Replay(w, run), n)
    decreases |run|
  {
    if run != [] {
      var now := Replay(w, run[..|run| - 1]);
      OneWinnerReplay(w, run[..|run| - 1], n);
      InvNext(now, run[|run| - 1]);
      OneWinnerNext(now, run[|run| - 1], n);
      CloseCountedNext(now, run[|run| - 1], n);
    }
  }

  lemma AtMostOneCloser(w: World, n: nat)
    requires OneWinner(w, n)
    ensures |Closers(w, n)| <= 1
  {
    if k :| k in Closers(w, n) {
      assert Closers(w, n) == {k};
    }
  }

  /** Over any number of concurrent Closes of a locker at most one gets past the compare-and-swap; the client
      is closed once, when that one returns, and only if the locker owns it. */
  lemma {:induction false} ClientClosedAtMostOnce(w: World, run: seq<Step>, n: nat)
    requires Initial(w) && n in Replay(w, run).lockers
    ensures OneWinner(Replay(w, run), n)
    ensures var l := Replay(w, run).lockers[n];
      && l.clientCloses <= 1
      && (l.clientCloses == 1 <==> l.closeClient && exists k :: k in Closers(Replay(w, run), n))
  {
    assert Closers(w, n) == {};
    OneWinnerReplay(w, run, n);
    AtMostOneCloser(Replay(w, run), n);
    assert Closers(Replay(w, run), n) != {} ==> exists k :: k in Closers(Replay(w, run), n);
  }

  /** The Close lost the compare-and-swap, so no step of it is enabled. */
  ghost predicate Over(w: World, k: nat, id: string) {
    && k in w.closes && w.closes[k].pc == Returned(false)
    && Next(w, CloseRange(k)) == Next(w, CloseDrop(k, id)) == Next(w, CloseReturn(k)) == w
  }

  lemma {:induction false} OverStays(w: World, run: seq<Step>, k: nat, id: string)
    requires k in w.closes && w.closes[k].pc == Returned(false)
    ensures Over(Replay(w, run), k, id)
    decreases |run|
  {
    if run != [] {
      OverStays(w, run[..|run| - 1], k, id);
      CloseKept(Replay(w, run[..|run| - 1]), run[|run| - 1], k);
    }
    LostIsOver(Replay(w, run), k, id);
  }

  lemma LostIsOver(w: World, k: nat, id: string)
    requires k in w.closes && w.closes[k].pc == Returned(false)
    ensures Over(w, k, id)
  {
    assert !Enabled(w, CloseRange(k)) && !Enabled(w, CloseDrop(k, id)) && !Enabled(w, CloseReturn(k));
  }

  /** A Close of a closed locker returns at once and changes neither a locker nor Redis; whatever happens
      afterwards, no step of it ever changes anything. */
  lemma {:induction false} LosingClose(w: World, run: seq<Step>, k: nat, n: nat, id: string)
    requires k !in w.closes && n in w.lockers && w.lockers[n].closed
    ensures var after := Next(w, CloseFlip(k, n));
      && after.lockers == w.lockers && after.db == w.db && after.held == w.held
      && Over(Replay(after, run), k, id)
  {
    assert w.lockers[n := w.lockers[n]] == w.lockers;
    OverStays(Next(w, CloseFlip(k, n)), run, k, id);
  }

  // ---------------------------------------------------------------- acquires after Close

  lemma {:induction false} LateCalls(w: World, run: seq<Step>, n: nat, c: nat)
    requires n in w.lockers && w.lockers[n].closed && c !in w.calls
    requires c in Replay(w, run).calls && Replay(w, run).calls[c].locker == n
    ensures Replay(w, run).calls[c].pc == Failed(Closed)
    decreases |run|
  {
    if run != [] {
      var now := Replay(w, run[..|run| - 1]);
      ClosedReplay(w, run[..|run| - 1], n);
      if c in now.calls {
        NextKeepsCall(now, run[|run| - 1], c);
        LateCalls(w, run[..|run| - 1], n, c);
        FailedNext(now, run[|run| - 1], c);
      } else {
        BeginNext(now, run[|run| - 1], c);
      }
    }
  }

  /** A failed acquire is over: no step runs for it any more. */
  lemma FailedNext(w: World, s: Step, c: nat)
    requires c in w.calls && w.calls[c].pc.Failed?
    ensures c in Next(w, s).calls && Next(w, s).calls[c].pc == w.calls[c].pc
    ensures s.Reserve? || s.Attempt? || s.Release? || s.Settle? ==> s.call == c ==> Next(w, s) == w
  {
    if Moves(s, c) {
      FailedIsOver(w, s, c);
    } else {
      PcKept(w, s, c);
    }
  }

  lemma FailedIsOver(w: World, s: Step, c: nat)
    requires c in w.calls && w.calls[c].pc.Failed? && Moves(s, c)
    ensures Next(w, s) == w
  {
    assert !Enabled(w, s);
  }

  lemma {:induction false} ClosedReplay(w: World, run: seq<Step>, n: nat)
    requires n in w.lockers && w.lockers[n].closed
    ensures n in Replay(w, run).lockers && Replay(w, run).lockers[n].closed
    decreases |run|
  {
    if run != [] {
      ClosedReplay(w, run[..|run| - 1], n);
      LocalNext(Replay(w, run[..|run| - 1]), run[|run| - 1], n);
    }
  }

  /** An acquire that starts on a closed locker returns ErrClosed, and none of its steps ever
      touches Redis or the map. */
  lemma {:induction false} AcquireAfterClose(w: World, before: seq<Step>, after: seq<Step>, n: nat, c: nat, s: Step)
    requires Initial(w) && n in Replay(w, before).lockers && Replay(w, before).lockers[n].closed
    requires c !in Replay(w, before).calls
    requires var now := Replay(w, before + after); c in now.calls && now.calls[c].locker == n
    ensures var now := Replay(w, before + after);
      && now.calls[c].pc == Failed(Closed)
      && ((s.Reserve? || s.Attempt? || s.Release? || s.Settle?) && s.call == c ==> Next(now, s) == now)
  {
    ReplayConcat(w, before, after);
    LateCalls(Replay(w, before), after, n, c);
    FailedNext(Replay(w, before + after), s, c);
  }
}
