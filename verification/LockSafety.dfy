/**
 Safety of the lock over every run, whatever callers do: exclusion, no lost update, and nobody
 touches an entry of another acquire.
 */
module LockSafety {
  import opened Wrappers
  import opened Redis
  import opened LockProtocol

  // ---------------------------------------------------------------- the invariant

  /** An entry in Redis carries the token of an acquire of that key and outlives its ttl, counted from the
      acquire's beginning, but not counted from now. */
  ghost predicate EntryOwned(w: World, k: string)
    requires k in w.db.items
  {
    var item := w.db.items[k];
    && item.value in w.calls && w.calls[item.value].key == k
    && item.expiry.Some? && w.calls[item.value].began + w.calls[item.value].ttl <= item.expiry.value
    && item.expiry.value <= w.db.now + w.calls[item.value].ttl
  }

  /** A mutex belongs to an acquire of that id on that locker, and a named one to a successful one. */
  ghost predicate MutexOf(w: World, m: Mutex, n: nat, id: string) {
    && m.owner in w.calls && On(w.calls[m.owner], n, id)
    && (m.name != "" ==> m.name == w.calls[m.owner].key && w.calls[m.owner].pc.Acquired?)
  }

  /** An unlock on its way to Redis carries a named mutex whose section is over. */
  ghost predicate UnlockOwned(w: World, u: nat)
    requires u in w.unlocks && w.unlocks[u].pc.Remote?
  {
    var m := w.unlocks[u].pc.mutex;
    m.name != "" && MutexOf(w, m, w.unlocks[u].locker, w.unlocks[u].id) && m.owner !in w.held
  }

  ghost predicate CallPlaced(w: World, c: nat)
    requires c in w.calls
  {
    && w.calls[c].locker in w.lockers
    && w.calls[c].key == Key(w.lockers[w.calls[c].locker], w.calls[c].id)
    && w.calls[c].began <= w.db.now
  }

  /** The acquire has won and neither an Unlock nor its ttl has ended that. */
  ghost predicate Owns(w: World, c: nat) {
    c in w.calls && (c in w.held || w.calls[c].pc.Winning?) && w.db.now < w.calls[c].began + w.calls[c].ttl
  }

  ghost predicate EntryIs(w: World, k: string, token: nat) {
    Look(w.db, k).Some? && Look(w.db, k).value.value == token
  }

  ghost predicate OthersEntry(w: World, k: string, token: nat) {
    Look(w.db, k).Some? && Look(w.db, k).value.value != token
  }

  ghost predicate CallsInv(w: World) {
    && (forall c :: c in w.calls ==> CallPlaced(w, c))
    && (forall c :: c in w.held ==> c in w.calls && w.calls[c].pc.Acquired?)
  }

  ghost predicate EntriesInv(w: World) {
    forall k :: k in w.db.items ==> EntryOwned(w, k)
  }

  ghost predicate SlotsInv(w: World) {
    forall n, id :: SlotAt(w, n, id).Some? ==> MutexOf(w, SlotAt(w, n, id).value, n, id)
  }

  ghost predicate UnlocksInv(w: World) {
    forall u :: u in w.unlocks && w.unlocks[u].pc.Remote? ==> UnlockOwned(w, u)
  }

  ghost predicate OwnersInv(w: World) {
    forall c :: Owns(w, c) ==> EntryIs(w, w.calls[c].key, c)
  }

  /** The Close got past its compare-and-swap. */
  ghost predicate Won(w: World, k: nat) {
    k in w.closes && w.closes[k].pc != Returned(false)
  }

  /** A Close that got past its compare-and-swap left its locker closed. */
  ghost predicate ClosesInv(w: World) {
    forall k :: Won(w, k) ==> w.closes[k].locker in w.lockers && w.lockers[w.closes[k].locker].closed
  }

  ghost predicate Inv(w: World) {
    CallsInv(w) && EntriesInv(w) && SlotsInv(w) && UnlocksInv(w) && OwnersInv(w) && ClosesInv(w)
  }

  // ---------------------------------------------------------------- every step keeps it

  /** What an acquire was called with stays, and so does a success. */
  predicate SameCall(before: Call, after: Call) {
    && after.locker == before.locker && after.id == before.id && after.key == before.key
    && after.ttl == before.ttl && after.tries == before.tries && after.began == before.began
    && (before.pc.Acquired? ==> after.pc.Acquired?)
  }

  /** The acquires after a step. */
  function NextCalls(w: World, s: Step): map<nat, Call> {
    if !Enabled(w, s) then w.calls else
    match s
    case Begin(c, n, id, ttl, tries) =>
      var l := w.lockers[n];
      var pc := if l.closed then Failed(Closed) else if ttl <= 0 then Failed(NotAcquired) else Checked;
      w.calls[c := Call(n, id, Key(l, id), ttl, tries, w.db.now, pc, Idle)]
    case Reserve(c) =>
      var call := w.calls[c];
      Moved(w, c, if call.id in w.lockers[call.locker].mutexes then Failed(NotAcquired) else Trying(call.tries))
    case Attempt(c, net) =>
      var won := net.Answered? && Look(w.db, w.calls[c].key).None?;
      Moved(w, c, if won then Winning else Releasing(w.calls[c].pc.left - 1))
    case Release(c, _, retry) =>
      var again := Trying(w.calls[c].pc.left);
      Moved(w, c, if retry.Again? then again else Losing(MapAcquireErr(retry.contextDone, retry.raw)))
    case Settle(c) => Moved(w, c, if w.calls[c].pc.Winning? then Acquired else Failed(w.calls[c].pc.error))
    case ReadShared(c) => w.calls[c := w.calls[c].(work := Seen(SharedAt(w, w.calls[c].key)))]
    case WriteShared(c) => w.calls[c := w.calls[c].(work := Written)]
    case _ => w.calls
  }

  function Moved(w: World, c: nat, pc: Pc): map<nat, Call>
    requires c in w.calls
  {
    w.calls[c := w.calls[c].(pc := pc)]
  }

  lemma ReserveCalls(w: World, c: nat)
    ensures Next(w, Reserve(c)).calls == NextCalls(w, Reserve(c))
  {
  }

  lemma AttemptCalls(w: World, c: nat, net: Net)
    ensures Next(w, Attempt(c, net)).calls == NextCalls(w, Attempt(c, net))
  {
  }

  lemma ReleaseCalls(w: World, c: nat, net: Net, retry: Retry)
    ensures Next(w, Release(c, net, retry)).calls == NextCalls(w, Release(c, net, retry))
  {
  }

  lemma SettleCalls(w: World, c: nat)
    ensures Next(w, Settle(c)).calls == NextCalls(w, Settle(c))
  {
  }

  lemma OtherCalls(w: World, s: Step)
    requires !s.Reserve? && !s.Attempt? && !s.Release? && !s.Settle?
    ensures Next(w, s).calls == NextCalls(w, s)
  {
  }

  lemma CallsAfter(w: World, s: Step)
    ensures Next(w, s).calls == NextCalls(w, s)
  {
    match s
    case Reserve(c) => ReserveCalls(w, c);
    case Attempt(c, net) => AttemptCalls(w, c, net);
    case Release(c, net, retry) => ReleaseCalls(w, c, net, retry);
    case Settle(c) => SettleCalls(w, c);
    case _ => OtherCalls(w, s);
  }

  /** A step never changes what an acquire was called with, and never undoes a success. */
  lemma NextKeepsCall(w: World, s: Step, c: nat)
    requires c in w.calls
    ensures c in Next(w, s).calls && SameCall(w.calls[c], Next(w, s).calls[c])
  {
    CallsAfter(w, s);
  }

  /** The steps that move an acquire. */
  predicate Moves(s: Step, c: nat) {
    || (s.Reserve? && s.call == c) || (s.Attempt? && s.call == c)
    || (s.Release? && s.call == c) || (s.Settle? && s.call == c)
  }

  /** An acquire is moved by its own steps only. */
  lemma PcKept(w: World, s: Step, c: nat)
    requires c in w.calls && !Moves(s, c)
    ensures c in Next(w, s).calls && Next(w, s).calls[c].pc == w.calls[c].pc
  {
    CallsAfter(w, s);
  }

  /** A new acquire comes from Begin. */
  lemma NewCall(w: World, s: Step, c: nat)
    requires c in Next(w, s).calls && c !in w.calls
    ensures s.Begin? && s.call == c && s.locker in w.lockers
    ensures Next(w, s).lockers == w.lockers
    ensures Next(w, s).calls[c] == Call(s.locker, s.id, Key(w.lockers[s.locker], s.id), s.ttl, s.tries, w.db.now,
      if w.lockers[s.locker].closed then Failed(Closed) else if s.ttl <= 0 then Failed(NotAcquired) else Checked, Idle)
  {
    CallsAfter(w, s);
    OtherStepsKeepLocals(w, s);
  }

  /** The Close returns by this step. */
  ghost predicate Returns(w: World, s: Step, k: nat, n: nat) {
    s == CloseReturn(k) && Enabled(w, s) && w.closes[k].locker == n
  }

  /** A locker keeps its options, is closed by a compare-and-swap and never reopened, and its client is closed
      by Closes that return. */
  ghost predicate LocalKept(w: World, s: Step, n: nat) {
    && (n in w.lockers <==> n in Next(w, s).lockers)
    && (n in w.lockers ==>
          var before, after := w.lockers[n], Next(w, s).lockers[n];
          && after.prefix == before.prefix && after.closeClient == before.closeClient
          && (before.closed ==> after.closed)
          && (!before.closed && after.closed ==> s.CloseFlip? && s.locker == n)
          && after.clientCloses == before.clientCloses
               + if s.CloseReturn? && Returns(w, s, s.close, n) && before.closeClient then 1 else 0)
  }

  lemma ReserveKeepsLocal(w: World, n: nat, c: nat)
    ensures LocalKept(w, Reserve(c), n)
  {
  }

  lemma SettleKeepsLocal(w: World, n: nat, c: nat)
    ensures LocalKept(w, Settle(c), n)
  {
  }

  lemma UnlockKeepsLocal(w: World, n: nat, u: nat, m: nat, id: string)
    ensures LocalKept(w, Unlock(u, m, id), n)
  {
  }

  lemma CloseFlipKeepsLocal(w: World, n: nat, k: nat, m: nat)
    ensures LocalKept(w, CloseFlip(k, m), n)
  {
  }

  lemma CloseDropKeepsLocal(w: World, n: nat, k: nat, id: string)
    ensures LocalKept(w, CloseDrop(k, id), n)
  {
  }

  lemma CloseReturnKeepsLocal(w: World, n: nat, k: nat)
    ensures LocalKept(w, CloseReturn(k), n)
  {
  }

  predicate MovesLocals(s: Step) {
    s.Reserve? || s.Settle? || s.Unlock? || s.CloseFlip? || s.CloseDrop? || s.CloseReturn?
  }

  lemma OtherStepsKeepLocals(w: World, s: Step)
    requires !MovesLocals(s)
    ensures Next(w, s).lockers == w.lockers
  {
  }

  lemma LocalNext(w: World, s: Step, n: nat)
    ensures LocalKept(w, s, n)
  {
    match s
    case Reserve(c) => ReserveKeepsLocal(w, n, c);
    case Settle(c) => SettleKeepsLocal(w, n, c);
    case Unlock(u, m, id) => UnlockKeepsLocal(w, n, u, m, id);
    case CloseFlip(k, m) => CloseFlipKeepsLocal(w, n, k, m);
    case CloseDrop(k, id) => CloseDropKeepsLocal(w, n, k, id);
    case CloseReturn(k) => CloseReturnKeepsLocal(w, n, k);
    case _ => OtherStepsKeepLocals(w, s);
  }

  lemma WinIsAcquired(w: World, c: nat)
    requires c in w.calls && w.calls[c].pc.Winning? && c in Next(w, Settle(c)).held && c !in w.held
    ensures c in Next(w, Settle(c)).calls && Next(w, Settle(c)).calls[c].pc.Acquired?
  {
  }

  lemma PlacedNext(w: World, s: Step, c: nat)
    requires CallsInv(w) && c in Next(w, s).calls
    ensures CallPlaced(Next(w, s), c)
  {
    NextKeepsTime(w, s);
    if c in w.calls {
      assert CallPlaced(w, c);
      NextKeepsCall(w, s, c);
      LocalNext(w, s, w.calls[c].locker);
    } else {
      NewCall(w, s, c);
    }
  }

  lemma HeldAcquired(w: World, s: Step, c: nat)
    requires CallsInv(w) && c in Next(w, s).held
    ensures c in Next(w, s).calls && Next(w, s).calls[c].pc.Acquired?
  {
    if c !in w.held {
      HeldNext(w, s, c);
      WinIsAcquired(w, c);
    } else {
      NextKeepsCall(w, s, c);
    }
  }

  /** Only an attempt adds an entry or extends one; it then carries that acquire's token and ttl. */
  lemma EntryNext(w: World, s: Step, k: string)
    requires k in Next(w, s).db.items
    requires !(k in w.db.items && w.db.items[k] == Next(w, s).db.items[k])
    ensures s.Attempt? && s.call in w.calls && k == w.calls[s.call].key
    ensures Next(w, s).db.items[k] == Item(s.call, Some(w.db.now + w.calls[s.call].ttl))
  {
  }

  lemma EntryOwnedNext(w: World, s: Step, k: string)
    requires CallsInv(w) && EntriesInv(w) && k in Next(w, s).db.items
    ensures EntryOwned(Next(w, s), k)
  {
    var w' := Next(w, s);
    if k in w.db.items && w.db.items[k] == w'.db.items[k] {
      assert EntryOwned(w, k);
      NextKeepsCall(w, s, w.db.items[k].value);
      NextKeepsTime(w, s);
    } else {
      EntryNext(w, s, k);
      assert CallPlaced(w, s.call);
      NextKeepsCall(w, s, s.call);
    }
  }

  lemma MutexOfNext(w: World, s: Step, m: Mutex, n: nat, id: string)
    requires MutexOf(w, m, n, id)
    ensures MutexOf(Next(w, s), m, n, id)
  {
    NextKeepsCall(w, s, m.owner);
  }

  /** What a slot holds after a step. */
  function NextSlot(w: World, s: Step, n: nat, id: string): Option<Mutex> {
    if !Enabled(w, s) then SlotAt(w, n, id) else
    match s
    case Reserve(c) =>
      if On(w.calls[c], n, id) && SlotAt(w, n, id).None? then Some(Mutex("", c)) else SlotAt(w, n, id)
    case Settle(c) =>
      if !On(w.calls[c], n, id) then SlotAt(w, n, id)
      else if w.calls[c].pc.Winning? then Some(Mutex(w.calls[c].key, c)) else None
    case Unlock(_, m, jd) => if m == n && jd == id then None else SlotAt(w, n, id)
    case CloseDrop(k, jd) => if w.closes[k].locker == n && jd == id then None else SlotAt(w, n, id)
    case _ => SlotAt(w, n, id)
  }

  lemma ReserveSlot(w: World, c: nat, n: nat, id: string)
    ensures SlotAt(Next(w, Reserve(c)), n, id) == NextSlot(w, Reserve(c), n, id)
  {
  }

  lemma SettleSlot(w: World, c: nat, n: nat, id: string)
    ensures SlotAt(Next(w, Settle(c)), n, id) == NextSlot(w, Settle(c), n, id)
  {
  }

  lemma UnlockSlot(w: World, u: nat, m: nat, jd: string, n: nat, id: string)
    ensures SlotAt(Next(w, Unlock(u, m, jd)), n, id) == NextSlot(w, Unlock(u, m, jd), n, id)
  {
  }

  lemma CloseSlot(w: World, s: Step, n: nat, id: string)
    requires s.CloseFlip? || s.CloseDrop? || s.CloseReturn?
    ensures SlotAt(Next(w, s), n, id) == NextSlot(w, s, n, id)
  {
  }

  lemma SlotAfter(w: World, s: Step, n: nat, id: string)
    ensures SlotAt(Next(w, s), n, id) == NextSlot(w, s, n, id)
  {
    match s
    case Reserve(c) => ReserveSlot(w, c, n, id);
    case Settle(c) => SettleSlot(w, c, n, id);
    case Unlock(u, m, jd) => UnlockSlot(w, u, m, jd, n, id);
    case CloseFlip(_, _) => CloseSlot(w, s, n, id);
    case CloseDrop(_, _) => CloseSlot(w, s, n, id);
    case CloseReturn(_) => CloseSlot(w, s, n, id);
    case _ => OtherStepsKeepLocals(w, s);
  }

  /** A slot is filled only by a reservation or by a win, and then holds that acquire's own mutex. */
  lemma SlotNext(w: World, s: Step, n: nat, id: string)
    requires SlotAt(Next(w, s), n, id).Some? && SlotAt(Next(w, s), n, id) != SlotAt(w, n, id)
    ensures (s.Reserve? || s.Settle?) && s.call in w.calls && On(w.calls[s.call], n, id) && Enabled(w, s)
    ensures s.Reserve? ==> SlotAt(Next(w, s), n, id) == Some(Mutex("", s.call))
    ensures s.Settle? ==>
      && SlotAt(Next(w, s), n, id) == Some(Mutex(w.calls[s.call].key, s.call)) && w.calls[s.call].pc.Winning?
      && s.call in Next(w, s).calls && Next(w, s).calls[s.call].pc == Acquired && s.call in Next(w, s).held
  {
    SlotAfter(w, s, n, id);
    if s.Settle? {
      WinSettles(w, s.call);
    }
  }

  lemma WinSettles(w: World, c: nat)
    requires Enabled(w, Settle(c)) && w.calls[c].pc.Winning?
    ensures c in Next(w, Settle(c)).calls && Next(w, Settle(c)).calls[c].pc == Acquired && c in Next(w, Settle(c)).held
  {
  }

  lemma SlotOwnedNext(w: World, s: Step, n: nat, id: string)
    requires SlotsInv(w) && SlotAt(Next(w, s), n, id).Some?
    ensures MutexOf(Next(w, s), SlotAt(Next(w, s), n, id).value, n, id)
  {
    var m := SlotAt(Next(w, s), n, id).value;
    if SlotAt(w, n, id) == Some(m) {
      MutexOfNext(w, s, m, n, id);
    } else {
      SlotNext(w, s, n, id);
      NextKeepsCall(w, s, s.call);
    }
  }

  /** Once an acquire has succeeded, its section never opens again. */
  lemma HeldNext(w: World, s: Step, c: nat)
    requires c in Next(w, s).held && c !in w.held
    ensures c in w.calls && w.calls[c].pc.Winning? && s == Settle(c)
  {
  }

  /** An unlock of the id ends a section, and empties the slot. */
  lemma HeldKept(w: World, s: Step, c: nat)
    requires c in w.held && c !in Next(w, s).held
    ensures s.Unlock? && c in w.calls && On(w.calls[c], s.locker, s.id) && SlotAt(Next(w, s), s.locker, s.id).None?
  {
  }

  lemma RemoteKept(w: World, s: Step, u: nat)
    requires u in w.unlocks && u in Next(w, s).unlocks && Next(w, s).unlocks[u].pc.Remote?
    ensures Next(w, s).unlocks[u] == w.unlocks[u]
  {
    match s
    case Unlock(_, _, _) =>
    case UnlockRemote(_, _, _) =>
    case _ =>
  }

  /** An unlock that goes to Redis takes the named mutex it found in the slot and ends the id's section. */
  lemma NewUnlock(w: World, s: Step, u: nat)
    requires u !in w.unlocks && u in Next(w, s).unlocks && Next(w, s).unlocks[u].pc.Remote?
    ensures var unlock := Next(w, s).unlocks[u];
      && s == Unlock(u, unlock.locker, unlock.id)
      && SlotAt(w, unlock.locker, unlock.id) == Some(unlock.pc.mutex) && unlock.pc.mutex.name != ""
      && Next(w, s).held == HeldElsewhere(w, unlock.locker, unlock.id)
  {
  }

  lemma UnlockOwnedNext(w: World, s: Step, u: nat)
    requires CallsInv(w) && UnlocksInv(w) && SlotsInv(w)
    requires u in Next(w, s).unlocks && Next(w, s).unlocks[u].pc.Remote?
    ensures UnlockOwned(Next(w, s), u)
  {
    var unlock := Next(w, s).unlocks[u];
    var c := unlock.pc.mutex.owner;
    if u in w.unlocks {
      RemoteKept(w, s, u);
      assert UnlockOwned(w, u);
      if c in Next(w, s).held {
        HeldNext(w, s, c);
      }
    } else {
      NewUnlock(w, s, u);
      assert MutexOf(w, unlock.pc.mutex, unlock.locker, unlock.id);
    }
    MutexOfNext(w, s, unlock.pc.mutex, unlock.locker, unlock.id);
  }

  /** A live entry leaves Redis only through a release by its own acquire or an unlock carrying its token. */
  lemma LiveEntryNext(w: World, s: Step, k: string)
    requires Look(w.db, k).Some?
    requires Look(Next(w, s).db, k) != Look(w.db, k)
    ensures var token := Look(w.db, k).value.value;
      || (s.Elapse? && w.db.items[k].expiry.Some? && w.db.items[k].expiry.value <= w.db.now + s.time)
      || (s.Release? && s.call == token && token in w.calls && w.calls[token].pc.Releasing?)
      || (s.UnlockRemote? && s.unlock in w.unlocks && w.unlocks[s.unlock].pc.Remote?
          && w.unlocks[s.unlock].pc.mutex == Mutex(k, token))
  {
  }

  lemma OwnerNext(w: World, s: Step, c: nat)
    requires Inv(w) && Owns(Next(w, s), c)
    ensures EntryIs(Next(w, s), Next(w, s).calls[c].key, c)
  {
    var w' := Next(w, s);
    if Owns(w, c) {
      var k := w.calls[c].key;
      NextKeepsCall(w, s, c);
      assert EntryIs(w, k, c) && EntryOwned(w, k);
      if Look(w'.db, k) != Look(w.db, k) {
        LiveEntryNext(w, s, k);
      }
    } else {
      NewOwner(w, s, c);
    }
  }

  /** An acquire becomes the owner only by an answered attempt that set the key. */
  lemma NewOwner(w: World, s: Step, c: nat)
    requires CallsInv(w) && !Owns(w, c) && Owns(Next(w, s), c)
    ensures EntryIs(Next(w, s), Next(w, s).calls[c].key, c)
  {
    if c in w.calls {
      NextKeepsCall(w, s, c);
      NextKeepsTime(w, s);
      if c in Next(w, s).held && c !in w.held {
        HeldNext(w, s, c);
      }
    }
    if c !in Next(w, s).held {
      NewWinner(w, s, c);
    }
  }

  lemma NextKeepsTime(w: World, s: Step)
    ensures w.db.now <= Next(w, s).db.now
  {
  }

  lemma NewWinner(w: World, s: Step, c: nat)
    requires c in Next(w, s).calls && Next(w, s).calls[c].pc.Winning?
    requires !(c in w.calls && w.calls[c].pc.Winning?)
    ensures s == Attempt(c, Answered) && Look(w.db, Next(w, s).calls[c].key).None?
    ensures Next(w, s).db == SetNX(w.db, Next(w, s).calls[c].key, c, Next(w, s).calls[c].ttl).0
  {
    if c !in w.calls {
      NewCall(w, s, c);
    } else if !Moves(s, c) {
      PcKept(w, s, c);
    } else if s.Attempt? {
      WinningAttempt(w, c, s.net);
    } else {
      OnlyAttemptsWin(w, s, c);
    }
  }

  lemma WinningAttempt(w: World, c: nat, net: Net)
    requires c in w.calls && !w.calls[c].pc.Winning?
    requires c in Next(w, Attempt(c, net)).calls && Next(w, Attempt(c, net)).calls[c].pc.Winning?
    ensures net == Answered && Look(w.db, w.calls[c].key).None?
    ensures Next(w, Attempt(c, net)).calls[c] == w.calls[c].(pc := Winning)
    ensures Next(w, Attempt(c, net)).db == SetNX(w.db, w.calls[c].key, c, w.calls[c].ttl).0
  {
  }

  lemma OnlyAttemptsWin(w: World, s: Step, c: nat)
    requires c in w.calls && !w.calls[c].pc.Winning? && (s.Reserve? || s.Release? || s.Settle?) && s.call == c
    ensures c in Next(w, s).calls && !Next(w, s).calls[c].pc.Winning?
  {
    CallsAfter(w, s);
  }

  lemma OtherStepsKeepCloses(w: World, s: Step)
    requires !s.CloseFlip? && !s.CloseRange? && !s.CloseDrop? && !s.CloseReturn?
    ensures Next(w, s).closes == w.closes
  {
  }

  /** A Close keeps its locker and what it saw, and stays on its side of the compare-and-swap. */
  lemma CloseKept(w: World, s: Step, k: nat)
    requires k in w.closes
    ensures k in Next(w, s).closes
    ensures Next(w, s).closes[k].locker == w.closes[k].locker && Next(w, s).closes[k].flight == w.closes[k].flight
    ensures Won(Next(w, s), k) == Won(w, k)
  {
    match s
    case CloseFlip(_, _) =>
    case CloseRange(_) =>
    case CloseDrop(_, _) =>
    case CloseReturn(_) =>
    case _ => OtherStepsKeepCloses(w, s);
  }

  /** The compare-and-swap of a Close that wins. */
  lemma NewClose(w: World, s: Step, k: nat)
    requires k !in w.closes && Won(Next(w, s), k)
    ensures s.CloseFlip? && s.close == k && s.locker in w.lockers && !w.lockers[s.locker].closed
    ensures Next(w, s).closes[k] == Closing(s.locker, Flight(w, s.locker), Flipped) && Next(w, s).calls == w.calls
    ensures s.locker in Next(w, s).lockers && Next(w, s).lockers[s.locker].closed
    ensures forall n, id :: SlotAt(Next(w, s), n, id) == SlotAt(w, n, id)
  {
    if !s.CloseFlip? {
      StepsOfCloses(w, s, k);
    }
  }

  lemma StepsOfCloses(w: World, s: Step, k: nat)
    requires k !in w.closes && !s.CloseFlip?
    ensures k !in Next(w, s).closes
  {
    match s
    case CloseRange(_) =>
    case CloseDrop(_, _) =>
    case CloseReturn(_) =>
    case _ => OtherStepsKeepCloses(w, s);
  }

  lemma WonNext(w: World, s: Step, k: nat)
    requires ClosesInv(w) && Won(Next(w, s), k)
    ensures var n := Next(w, s).closes[k].locker; n in Next(w, s).lockers && Next(w, s).lockers[n].closed
  {
    if k in w.closes {
      CloseKept(w, s, k);
      LocalNext(w, s, w.closes[k].locker);
    } else {
      NewClose(w, s, k);
    }
  }

  lemma InvNext(w: World, s: Step)
    requires Inv(w)
    ensures Inv(Next(w, s))
  {
    var w' := Next(w, s);
    forall c | c in w'.calls { PlacedNext(w, s, c); }
    forall c | c in w'.held { HeldAcquired(w, s, c); }
    forall k | k in w'.db.items { EntryOwnedNext(w, s, k); }
    forall n, id | SlotAt(w', n, id).Some? { SlotOwnedNext(w, s, n, id); }
    forall u | u in w'.unlocks && w'.unlocks[u].pc.Remote? { UnlockOwnedNext(w, s, u); }
    forall c | Owns(w', c) { OwnerNext(w, s, c); }
    forall k | Won(w', k) { WonNext(w, s, k); }
  }

  lemma {:induction false} InvReplay(w: World, run: seq<Step>)
    requires Inv(w)
    ensures Inv(Replay(w, run))
    decreases |run|
  {
    if run != [] {
      InvReplay(w, run[..|run| - 1]);
      InvNext(Replay(w, run[..|run| - 1]), run[|run| - 1]);
    }
  }

  // ---------------------------------------------------------------- exclusion

  lemma OneSectionPerKey(w: World, c1: nat, c2: nat)
    requires Inv(w) && InSection(w, c1) && InSection(w, c2)
    requires w.calls[c1].key == w.calls[c2].key
    ensures c1 == c2
  {
    assert Owns(w, c1) && Owns(w, c2);
  }

  /** Whatever the callers and the clock do, and whichever commands and replies the network loses, two critical
      sections on one key never overlap. A command that arrives late is the subject of module LockDelays. */
  lemma {:induction false} Exclusion(w: World, run: seq<Step>, c1: nat, c2: nat)
    requires Initial(w)
    requires InSection(Replay(w, run), c1) && InSection(Replay(w, run), c2)
    requires Replay(w, run).calls[c1].key == Replay(w, run).calls[c2].key
    ensures c1 == c2
  {
    InvReplay(w, run);
    OneSectionPerKey(Replay(w, run), c1, c2);
  }

  /** A section begins when its acquire returns with success, within the ttl. */
  lemma SectionBegins(w: World, s: Step, c: nat)
    requires CallsInv(w) && !InSection(w, c)
    ensures InSection(Next(w, s), c) <==>
      && s == Settle(c) && c in w.calls && w.calls[c].locker in w.lockers && w.calls[c].pc.Winning?
      && w.db.now < w.calls[c].began + w.calls[c].ttl
  {
    NextKeepsTime(w, s);
    if InSection(Next(w, s), c) {
      if c !in w.held {
        HeldNext(w, s, c);
      }
      NextKeepsCall(w, s, c);
      SettleKeepsTime(w, c);
    }
    if Enabled(w, Settle(c)) && w.calls[c].pc.Winning? {
      WinSettles(w, c);
      NextKeepsCall(w, Settle(c), c);
      SettleKeepsTime(w, c);
    }
  }

  lemma SettleKeepsTime(w: World, c: nat)
    ensures Next(w, Settle(c)).db == w.db
  {
  }

  /** And it ends by an Unlock of its id on its locker or when its ttl has passed, and in no other way. */
  lemma SectionEnds(w: World, s: Step, c: nat)
    requires InSection(w, c)
    ensures !InSection(Next(w, s), c) <==>
      || (s.Unlock? && Enabled(w, s) && On(w.calls[c], s.locker, s.id))
      || (s.Elapse? && w.calls[c].began + w.calls[c].ttl <= w.db.now + s.time)
  {
    NextKeepsCall(w, s, c);
    TimeNext(w, s);
    if s.Unlock? {
      UnlockEndsSection(w, s.unlock, s.locker, s.id, c);
    } else if c !in Next(w, s).held {
      HeldKept(w, s, c);
    }
  }

  lemma TimeNext(w: World, s: Step)
    ensures Next(w, s).db.now == w.db.now + if s.Elapse? then s.time else 0
  {
  }

  lemma UnlockEndsSection(w: World, u: nat, n: nat, id: string, c: nat)
    requires c in w.held && c in w.calls
    ensures c in Next(w, Unlock(u, n, id)).held <==> !(Enabled(w, Unlock(u, n, id)) && On(w.calls[c], n, id))
  {
  }

  /** A lock whose holder never unlocks it frees itself: what an entry of Redis blocks is free once the ttl of
      the acquire that set it has passed. */
  lemma {:induction false} LockFreesItself(w: World, run: seq<Step>, k: string, time: nat)
    requires Initial(w) && Look(Replay(w, run).db, k).Some?
    ensures var now := Replay(w, run); var c := Look(now.db, k).value.value;
      && c in now.calls && now.calls[c].key == k
      && (time >= now.calls[c].ttl ==> Look(Tick(now.db, time), k).None?)
  {
    InvReplay(w, run);
    assert EntryOwned(Replay(w, run), k);
  }

  // ---------------------------------------------------------------- foreign entries

  /** The step acts for the acquire with this token: its own clean-up, or the remote half of an Unlock of
      its id on its own locker. */
  ghost predicate ActsFor(w: World, s: Step, token: nat) {
    && token in w.calls
    && match s
       case Release(c, _, _) => c == token && w.calls[c].pc.Releasing?
       case UnlockRemote(u, _, _) =>
         && u in w.unlocks && w.unlocks[u].pc.Remote? && w.unlocks[u].pc.mutex.owner == token
         && On(w.calls[token], w.unlocks[u].locker, w.unlocks[u].id)
         && w.calls[token].pc.Acquired? && token !in w.held
       case _ => false
  }

  /** In any run, however undisciplined, an entry is removed or changed only by the passing of its own
      expiry or by a step that acts for the acquire that wrote it. */
  lemma {:induction false} ForeignEntriesSafe(w: World, run: seq<Step>, s: Step, k: string)
    requires Initial(w)
    requires Look(Replay(w, run).db, k).Some?
    requires Look(Next(Replay(w, run), s).db, k) != Look(Replay(w, run).db, k)
    ensures var now := Replay(w, run); var entry := Look(now.db, k).value;
      || (s.Elapse? && entry.expiry.Some? && entry.expiry.value <= now.db.now + s.time)
      || ActsFor(now, s, entry.value)
  {
    InvReplay(w, run);
    LiveEntryNext(Replay(w, run), s, k);
    if s.UnlockRemote? {
      assert UnlockOwned(Replay(w, run), s.unlock);
    }
  }

  /** The remote half of an Unlock returns nil exactly when its own entry was still there and Redis answered,
      that it has expired exactly when the key is gone, and that it is not held or an error of redsync when
      someone else has it. It deletes its own entry unless it never reached Redis, and nothing else. */
  lemma {:induction false} UnlockReportsTheTruth(w: World, run: seq<Step>, u: nat, net: Net, taken: bool)
    requires Initial(w)
    requires u in Replay(w, run).unlocks && Replay(w, run).unlocks[u].pc.Remote?
    ensures var now := Replay(w, run);
      var after, m := Next(now, UnlockRemote(u, net, taken)), now.unlocks[u].pc.mutex;
      && m.owner in now.calls && On(now.calls[m.owner], now.unlocks[u].locker, now.unlocks[u].id)
      && after.unlocks[u].pc.Done?
      && (after.unlocks[u].pc.outcome == Success
          <==> net == Answered && EntryIs(now, now.calls[m.owner].key, m.owner))
      && (after.unlocks[u].pc.outcome == Failure(Expired)
          <==> net == Answered && Look(now.db, now.calls[m.owner].key).None?)
      && (after.unlocks[u].pc.outcome == Failure(NotHeld)
          <==> net == Answered && !taken && OthersEntry(now, now.calls[m.owner].key, m.owner))
      && (after.unlocks[u].pc.outcome == Failure(Transport)
          <==> net != Answered || (taken && OthersEntry(now, now.calls[m.owner].key, m.owner)))
      && (net != Unsent && EntryIs(now, now.calls[m.owner].key, m.owner)
          ==> after.db.items == now.db.items - {now.calls[m.owner].key} && after.db.now == now.db.now)
      && (net == Unsent || !EntryIs(now, now.calls[m.owner].key, m.owner) ==> after.db == now.db)
  {
    InvReplay(w, run);
    assert UnlockOwned(Replay(w, run), u);
  }

  // ---------------------------------------------------------------- an unlock in time succeeds

  ghost predicate Carries(w: World, u: nat, token: nat) {
    u in w.unlocks && w.unlocks[u].pc.Remote? && w.unlocks[u].pc.mutex.owner == token
  }

  ghost predicate InTime(w: World, c: nat) {
    c in w.calls && w.db.now < w.calls[c].began + w.calls[c].ttl
  }

  /** A token is in one place: in a slot, or carried by one unlock. */
  ghost predicate OneCarrier(w: World) {
    && (forall u, v, c :: Carries(w, u, c) && Carries(w, v, c) ==> u == v)
    && (forall n, id, u :: SlotAt(w, n, id).Some? && SlotAt(w, n, id).value.name != "" ==>
          !Carries(w, u, SlotAt(w, n, id).value.owner))
  }

  /** And until its ttl its entry is in Redis. */
  ghost predicate CarriedInRedis(w: World) {
    && (forall u, c :: Carries(w, u, c) && InTime(w, c) ==> EntryIs(w, w.calls[c].key, c))
    && (forall n, id :: SlotAt(w, n, id).Some? ==> MutexInRedis(w, SlotAt(w, n, id).value))
  }

  ghost predicate MutexInRedis(w: World, m: Mutex) {
    m.name != "" && InTime(w, m.owner) ==> EntryIs(w, m.name, m.owner)
  }

  lemma CarrierNext(w: World, s: Step, u: nat, c: nat)
    requires Carries(Next(w, s), u, c)
    ensures Carries(w, u, c)
      || (s.Unlock? && u == s.unlock && SlotAt(w, s.locker, s.id).Some?
          && SlotAt(w, s.locker, s.id).value.name != "" && SlotAt(w, s.locker, s.id).value.owner == c
          && SlotAt(Next(w, s), s.locker, s.id).None?)
  {
    match s
    case Unlock(_, _, _) =>
    case UnlockRemote(_, _, _) =>
    case _ =>
  }

  lemma OneCarrierNext(w: World, s: Step)
    requires Inv(w) && OneCarrier(w)
    ensures OneCarrier(Next(w, s))
  {
    var w' := Next(w, s);
    forall u, v, c | Carries(w', u, c) && Carries(w', v, c) ensures u == v {
      CarrierNext(w, s, u, c);
      CarrierNext(w, s, v, c);
    }
    forall n, id, u | SlotAt(w', n, id).Some? && SlotAt(w', n, id).value.name != ""
      ensures !Carries(w', u, SlotAt(w', n, id).value.owner)
    {
      SlotAndCarrierNext(w, s, n, id, u);
    }
  }

  lemma SlotAndCarrierNext(w: World, s: Step, n: nat, id: string, u: nat)
    requires Inv(w) && OneCarrier(w)
    requires SlotAt(Next(w, s), n, id).Some? && SlotAt(Next(w, s), n, id).value.name != ""
    ensures !Carries(Next(w, s), u, SlotAt(Next(w, s), n, id).value.owner)
  {
    var m := SlotAt(Next(w, s), n, id).value;
    if SlotAt(w, n, id) == Some(m) {
      assert MutexOf(w, m, n, id);
    } else {
      SlotNext(w, s, n, id);
    }
    if u in w.unlocks && w.unlocks[u].pc.Remote? {
      assert UnlockOwned(w, u);
    }
    if s.Unlock? && SlotAt(w, s.locker, s.id).Some? {
      assert MutexOf(w, SlotAt(w, s.locker, s.id).value, s.locker, s.id);
    }
    if Carries(Next(w, s), u, m.owner) {
      CarrierNext(w, s, u, m.owner);
    }
  }

  /** The entry of a token in time stays, unless the step is the one unlock that carries it. */
  lemma EntryStays(w: World, s: Step, c: nat)
    requires Inv(w) && c in w.calls && w.calls[c].pc.Acquired?
    requires EntryIs(w, w.calls[c].key, c) && InTime(Next(w, s), c)
    requires !(s.UnlockRemote? && Carries(w, s.unlock, c))
    ensures EntryIs(Next(w, s), w.calls[c].key, c)
  {
    NextKeepsCall(w, s, c);
    assert EntryOwned(w, w.calls[c].key);
    if Look(Next(w, s).db, w.calls[c].key) != Look(w.db, w.calls[c].key) {
      LiveEntryNext(w, s, w.calls[c].key);
    }
  }

  lemma NowPasses(w: World, s: Step, c: nat)
    requires c in w.calls && InTime(Next(w, s), c)
    ensures InTime(w, c) && Next(w, s).calls[c].key == w.calls[c].key
  {
    NextKeepsCall(w, s, c);
    NextKeepsTime(w, s);
  }

  lemma SlotInRedisNext(w: World, s: Step, n: nat, id: string)
    requires Inv(w) && OneCarrier(w) && CarriedInRedis(w)
    requires SlotAt(Next(w, s), n, id).Some?
    ensures MutexInRedis(Next(w, s), SlotAt(Next(w, s), n, id).value)
  {
    var m := SlotAt(Next(w, s), n, id).value;
    if m.name != "" && InTime(Next(w, s), m.owner) {
      if SlotAt(w, n, id) == Some(m) {
        assert MutexOf(w, m, n, id);
        NowPasses(w, s, m.owner);
        EntryStays(w, s, m.owner);
      } else {
        SlotNext(w, s, n, id);
        NowPasses(w, s, m.owner);
        assert Owns(Next(w, s), m.owner);
        OwnerNext(w, s, m.owner);
      }
    }
  }

  lemma CarriedInRedisNext(w: World, s: Step)
    requires Inv(w) && OneCarrier(w) && CarriedInRedis(w)
    ensures CarriedInRedis(Next(w, s))
  {
    var w' := Next(w, s);
    forall u, c | Carries(w', u, c) && InTime(w', c) ensures EntryIs(w', w'.calls[c].key, c) {
      CarrierInRedisNext(w, s, u, c);
    }
    forall n, id | SlotAt(w', n, id).Some? {
      SlotInRedisNext(w, s, n, id);
    }
  }

  lemma CarrierInRedisNext(w: World, s: Step, u: nat, c: nat)
    requires Inv(w) && OneCarrier(w) && CarriedInRedis(w)
    requires Carries(Next(w, s), u, c) && InTime(Next(w, s), c)
    ensures EntryIs(Next(w, s), Next(w, s).calls[c].key, c)
  {
    CarrierNext(w, s, u, c);
    if Carries(w, u, c) {
      assert UnlockOwned(w, u);
      if s.UnlockRemote? && Carries(w, s.unlock, c) {
        assert s.unlock == u;
        RemoteIsOver(w, s);
      }
    } else {
      assert MutexOf(w, SlotAt(w, s.locker, s.id).value, s.locker, s.id);
      assert MutexInRedis(w, SlotAt(w, s.locker, s.id).value);
    }
    NowPasses(w, s, c);
    EntryStays(w, s, c);
  }

  lemma RemoteIsOver(w: World, s: Step)
    requires s.UnlockRemote? && s.unlock in w.unlocks && w.unlocks[s.unlock].pc.Remote?
    ensures s.unlock in Next(w, s).unlocks && !Next(w, s).unlocks[s.unlock].pc.Remote?
  {
  }

  lemma {:induction false} CarriedReplay(w: World, run: seq<Step>)
    requires Inv(w) && OneCarrier(w) && CarriedInRedis(w)
    ensures Inv(Replay(w, run)) && OneCarrier(Replay(w, run)) && CarriedInRedis(Replay(w, run))
    decreases |run|
  {
    if run != [] {
      var now := Replay(w, run[..|run| - 1]);
      CarriedReplay(w, run[..|run| - 1]);
      InvNext(now, run[|run| - 1]);
      OneCarrierNext(now, run[|run| - 1]);
      CarriedInRedisNext(now, run[|run| - 1]);
    }
  }

  /** In any run, an Unlock that found its mutex and is answered before ttl after the acquire began
      returns nil and frees the key. */
  lemma {:induction false} UnlockInTimeSucceeds(w: World, run: seq<Step>, u: nat, c: nat, taken: bool)
    requires Initial(w)
    requires Carries(Replay(w, run), u, c) && InTime(Replay(w, run), c)
    ensures var after := Next(Replay(w, run), UnlockRemote(u, Answered, taken));
      && u in after.unlocks && after.unlocks[u].pc == Done(Success)
      && Look(after.db, Replay(w, run).calls[c].key).None?
  {
    CarriedReplay(w, run);
    UnlockReportsTheTruth(w, run, u, Answered, taken);
  }

  // ---------------------------------------------------------------- no lost update

  /** The acquires of a key whose worker has finished its read-modify-write. */
  function Completed(w: World, key: string): set<nat> {
    set c | c in w.calls && w.calls[c].key == key && w.calls[c].work.Written?
  }

  ghost predicate WorkInv(w: World) {
    && (forall c :: c in w.calls && !w.calls[c].pc.Acquired? ==> w.calls[c].work.Idle?)
    && (forall c :: InSection(w, c) && w.calls[c].work.Seen? ==> w.calls[c].work.value == SharedAt(w, w.calls[c].key))
    && (forall key :: SharedAt(w, key) == |Completed(w, key)|)
  }

  /** The counter changes only by an enabled write. */
  lemma SharedNext(w: World, s: Step, key: string)
    ensures SharedAt(Next(w, s), key) ==
      if s.WriteShared? && Enabled(w, s) && w.calls[s.call].key == key then w.calls[s.call].work.value + 1
      else SharedAt(w, key)
  {
    match s
    case WriteShared(_) =>
    case _ =>
  }

  /** So does a worker's progress, by its own reads and writes. */
  lemma WorkNext(w: World, s: Step, c: nat)
    requires c in w.calls
    ensures c in Next(w, s).calls
    ensures Next(w, s).calls[c].work ==
      if s == ReadShared(c) && Enabled(w, s) then Seen(SharedAt(w, w.calls[c].key))
      else if s == WriteShared(c) && Enabled(w, s) then Written
      else w.calls[c].work
  {
    CallsAfter(w, s);
  }

  lemma NewCallIdle(w: World, s: Step, c: nat)
    requires c !in w.calls && c in Next(w, s).calls
    ensures Next(w, s).calls[c].work.Idle? && !Next(w, s).calls[c].pc.Acquired?
  {
    NewCall(w, s, c);
  }

  lemma SeenNext(w: World, s: Step, c: nat)
    requires Inv(w) && WorkInv(w)
    requires InSection(Next(w, s), c) && Next(w, s).calls[c].work.Seen?
    ensures Next(w, s).calls[c].work.value == SharedAt(Next(w, s), Next(w, s).calls[c].key)
  {
    SectionNext(w, s, c);
    SharedNext(w, s, w.calls[c].key);
    if s.WriteShared? && Enabled(w, s) && w.calls[s.call].key == w.calls[c].key {
      OneSectionPerKey(w, s.call, c);
    }
  }

  /** A worker that has seen the counter in its section read it by this step or had seen it before. */
  lemma SectionNext(w: World, s: Step, c: nat)
    requires CallsInv(w) && WorkInv(w)
    requires InSection(Next(w, s), c) && Next(w, s).calls[c].work.Seen?
    ensures InSection(w, c) && Next(w, s).calls[c].key == w.calls[c].key
    ensures Next(w, s).calls[c].work == w.calls[c].work
      || (s == ReadShared(c) && Next(w, s).calls[c].work == Seen(SharedAt(w, w.calls[c].key)))
    ensures s == WriteShared(c) ==> !Enabled(w, s)
  {
    if c !in w.held {
      HeldNext(w, s, c);
    }
    assert c in w.calls;
    NextKeepsCall(w, s, c);
    NextKeepsTime(w, s);
    WorkNext(w, s, c);
  }

  ghost predicate Writes(w: World, s: Step, c: nat, key: string) {
    s == WriteShared(c) && Enabled(w, s) && w.calls[c].key == key
  }

  lemma CompletesNext(w: World, s: Step, key: string, c: nat)
    ensures c in Completed(Next(w, s), key) <==> c in Completed(w, key) || Writes(w, s, c, key)
  {
    if c in w.calls {
      NextKeepsCall(w, s, c);
      WorkNext(w, s, c);
    } else if c in Next(w, s).calls {
      NewCallIdle(w, s, c);
    }
  }

  lemma CompletedNext(w: World, s: Step, key: string)
    requires WorkInv(w)
    ensures SharedAt(Next(w, s), key) == |Completed(Next(w, s), key)|
  {
    SharedNext(w, s, key);
    CompletedSet(w, s, key);
    if s.WriteShared? && Writes(w, s, s.call, key) {
      WriterIsNew(w, s.call, key);
    }
  }

  lemma CompletedSet(w: World, s: Step, key: string)
    ensures Completed(Next(w, s), key) ==
      Completed(w, key) + if s.WriteShared? && Writes(w, s, s.call, key) then {s.call} else {}
  {
    forall c { CompletesNext(w, s, key, c); }
  }

  lemma WriterIsNew(w: World, c: nat, key: string)
    requires WorkInv(w) && Writes(w, WriteShared(c), c, key)
    ensures c !in Completed(w, key) && w.calls[c].work.value == |Completed(w, key)|
  {
  }

  /** A worker that reads and writes inside its section adds one to the counter and is counted, and nobody else
      is. */
  lemma ReadThenWrite(w: World, c: nat)
    requires InSection(w, c) && w.calls[c].work.Idle?
    ensures var key, after := w.calls[c].key, Next(Next(w, ReadShared(c)), WriteShared(c));
      && SharedAt(after, key) == SharedAt(w, key) + 1
      && Completed(after, key) == Completed(w, key) + {c} && c !in Completed(w, key)
  {
    ReadInSection(w, c);
    WriteInSection(Next(w, ReadShared(c)), c);
  }

  lemma ReadInSection(w: World, c: nat)
    requires InSection(w, c) && w.calls[c].work.Idle?
    ensures var after := Next(w, ReadShared(c));
      && InSection(after, c) && after.calls[c] == w.calls[c].(work := Seen(SharedAt(w, w.calls[c].key)))
      && after.shared == w.shared && Completed(after, w.calls[c].key) == Completed(w, w.calls[c].key)
      && c !in Completed(w, w.calls[c].key)
  {
    CompletedSet(w, ReadShared(c), w.calls[c].key);
  }

  lemma WriteInSection(w: World, c: nat)
    requires InSection(w, c) && w.calls[c].work.Seen?
    ensures var key, after := w.calls[c].key, Next(w, WriteShared(c));
      SharedAt(after, key) == w.calls[c].work.value + 1 && Completed(after, key) == Completed(w, key) + {c}
  {
    SharedNext(w, WriteShared(c), w.calls[c].key);
    CompletedSet(w, WriteShared(c), w.calls[c].key);
  }

  lemma IdleNext(w: World, s: Step, c: nat)
    requires Inv(w) && WorkInv(w)
    requires c in Next(w, s).calls && !Next(w, s).calls[c].pc.Acquired?
    ensures Next(w, s).calls[c].work.Idle?
  {
    if c in w.calls {
      NextKeepsCall(w, s, c);
      WorkNext(w, s, c);
    } else {
      NewCallIdle(w, s, c);
    }
  }

  lemma WorkInvNext(w: World, s: Step)
    requires Inv(w) && WorkInv(w)
    ensures WorkInv(Next(w, s))
  {
    var w' := Next(w, s);
    forall c | InSection(w', c) && w'.calls[c].work.Seen?
      ensures w'.calls[c].work.value == SharedAt(w', w'.calls[c].key)
    {
      SeenNext(w, s, c);
    }
    forall key ensures SharedAt(w', key) == |Completed(w', key)| { CompletedNext(w, s, key); }
    forall c | c in w'.calls && !w'.calls[c].pc.Acquired? ensures w'.calls[c].work.Idle? { IdleNext(w, s, c); }
  }

  lemma {:induction false} WorkInvReplay(w: World, run: seq<Step>)
    requires Inv(w) && WorkInv(w)
    ensures WorkInv(Replay(w, run))
    decreases |run|
  {
    if run != [] {
      InvReplay(w, run[..|run| - 1]);
      WorkInvReplay(w, run[..|run| - 1]);
      WorkInvNext(Replay(w, run[..|run| - 1]), run[|run| - 1]);
    }
  }

  /** Workers that read and write a shared counter only inside their sections lose no update: after any
      run the counter of every key equals the number of sections that completed their write. */
  lemma {:induction false} NoLostUpdate(w: World, run: seq<Step>, key: string)
    requires Initial(w)
    ensures SharedAt(Replay(w, run), key) == |Completed(Replay(w, run), key)|
  {
    assert forall k :: Completed(w, k) == {};
    WorkInvReplay(w, run);
  }
}
