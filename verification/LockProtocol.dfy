/**
 The distributed lock as a state machine: any number of lockers share one Redis, and each of
 their operations is cut into the atomic actions of the Go code. A run is any sequence of steps;
 a step that is not enabled changes nothing, so every sequence is a run and every theorem about
 "all runs" quantifies over all interleavings.

 The random value that redsync draws for an acquire is modelled by the identity of that acquire.
 */
module LockProtocol {
  import opened Wrappers
  import opened Redis

  datatype LockError = NotAcquired | NotHeld | Expired | Closed | ContextDone | Transport

  datatype Outcome = Success | Failure(error: LockError)

  /** What redsync reports when an acquire gives up. */
  datatype AcquireError = Taken | TriesExhausted | OtherError

  /** A *redsync.Mutex. The placeholder is the zero Mutex, so its name is empty; `owner` is the
      acquire that allocated it, which for a named mutex is also its token. */
  datatype Mutex = Mutex(name: string, owner: nat)

  /** The fields of one redisLocker, and how often its client was closed. */
  datatype Local = Local(
    prefix: string, closeClient: bool, mutexes: map<string, Mutex>, closed: bool, clientCloses: nat)

  datatype Pc =
    | Checked                  // past the closed and ttl checks
    | Trying(left: nat)        // slot reserved, `left` attempts left
    | Releasing(left: nat)     // the attempt failed, redsync takes back what it may have set
    | Winning                  // redsync returned nil
    | Losing(error: LockError) // redsync returned an error
    | Acquired
    | Failed(error: LockError)

  /** A worker's read-modify-write of the resource its lock guards. */
  datatype Work = Idle | Seen(value: int) | Written

  datatype Call = Call(locker: nat, id: string, key: string, ttl: int, tries: nat, began: int, pc: Pc, work: Work)

  datatype UnlockPc = Remote(mutex: Mutex) | Done(outcome: Outcome)

  datatype Unlocking = Unlocking(locker: nat, id: string, pc: UnlockPc)

  datatype ClosePc =
    | Flipped                     // the compare-and-swap succeeded
    | Draining(todo: set<string>) // Range began, these entries are still to be visited
    | Returned(won: bool)

  /** A call of Close; `flight` are the acquires of the locker that were past the closed check, and not back
      yet, at its compare-and-swap. */
  datatype Closing = Closing(locker: nat, flight: set<nat>, pc: ClosePc)

  /** `held` are the acquires that returned nil and whose id was not unlocked on their locker since. */
  datatype World = World(
    db: Db<nat>,
    lockers: map<nat, Local>,
    calls: map<nat, Call>,
    unlocks: map<nat, Unlocking>,
    closes: map<nat, Closing>,
    held: set<nat>,
    shared: map<string, int>)

  datatype Retry = Again | GiveUp(contextDone: bool, raw: AcquireError)

  datatype Step =
    | Elapse(time: nat)
    | Begin(call: nat, locker: nat, id: string, ttl: int, tries: nat)
    | Reserve(call: nat)
    | Attempt(call: nat, net: Net)
    | Release(call: nat, net: Net, retry: Retry)
    | Settle(call: nat)
    | Unlock(unlock: nat, locker: nat, id: string)
    | UnlockRemote(unlock: nat, net: Net, taken: bool)
    | CloseFlip(close: nat, locker: nat)
    | CloseRange(close: nat)
    | CloseDrop(close: nat, id: string)
    | CloseReturn(close: nat)
    | ReadShared(call: nat)
    | WriteShared(call: nat)

  // ---------------------------------------------------------------- the locker's own state

  function Key(l: Local, id: string): string {
    l.prefix + id
  }

  function MapAcquireErr(contextDone: bool, raw: AcquireError): LockError {
    if contextDone then ContextDone
    else if raw.Taken? || raw.TriesExhausted? then NotAcquired
    else Transport
  }

  function StoreSlot(l: Local, id: string, m: Mutex): Local {
    l.(mutexes := l.mutexes[id := m])
  }

  function DeleteSlot(l: Local, id: string): Local {
    l.(mutexes := l.mutexes - {id})
  }

  predicate IsPlaceholder(m: Mutex) {
    m.name == ""
  }

  /** Past the closed check and not yet returned. */
  predicate InFlight(c: Call) {
    c.pc.Checked? || Reserved(c)
  }

  /** Between LoadOrStore and the final Store or Delete. */
  predicate Reserved(c: Call) {
    c.pc.Trying? || c.pc.Releasing? || c.pc.Winning? || c.pc.Losing?
  }

  predicate On(c: Call, locker: nat, id: string) {
    c.locker == locker && c.id == id
  }

  /** The acquires of a locker that are past its closed check and not back yet. */
  function Flight(w: World, n: nat): set<nat> {
    set c | c in w.calls && w.calls[c].locker == n && InFlight(w.calls[c])
  }

  function HeldElsewhere(w: World, n: nat, id: string): set<nat> {
    set c | c in w.held && !(c in w.calls && On(w.calls[c], n, id))
  }

  // ---------------------------------------------------------------- steps

  function WithPc(w: World, c: nat, pc: Pc): World
    requires c in w.calls
  {
    w.(calls := w.calls[c := w.calls[c].(pc := pc)])
  }

  function WithLocal(w: World, n: nat, l: Local): World {
    w.(lockers := w.lockers[n := l])
  }

  predicate Enabled(w: World, s: Step) {
    match s
    case Elapse(_) => true
    case Begin(c, n, id, ttl, tries) => c !in w.calls && n in w.lockers && tries >= 1
    case Reserve(c) => c in w.calls && w.calls[c].locker in w.lockers && w.calls[c].pc.Checked?
    case Attempt(c, _) => c in w.calls && w.calls[c].pc.Trying? && w.calls[c].pc.left > 0
    case Release(c, _, retry) =>
      c in w.calls && w.calls[c].pc.Releasing? && (retry.Again? ==> w.calls[c].pc.left > 0)
    case Settle(c) =>
      c in w.calls && w.calls[c].locker in w.lockers && (w.calls[c].pc.Winning? || w.calls[c].pc.Losing?)
    case Unlock(u, n, id) => u !in w.unlocks && n in w.lockers
    case UnlockRemote(u, _, _) => u in w.unlocks && w.unlocks[u].pc.Remote?
    case CloseFlip(k, n) => k !in w.closes && n in w.lockers
    case CloseRange(k) => k in w.closes && w.closes[k].locker in w.lockers && w.closes[k].pc.Flipped?
    case CloseDrop(k, _) => k in w.closes && w.closes[k].locker in w.lockers && w.closes[k].pc.Draining?
    case CloseReturn(k) => k in w.closes && w.closes[k].locker in w.lockers && w.closes[k].pc == Draining({})
    case ReadShared(c) => InSection(w, c) && w.calls[c].work.Idle?
    case WriteShared(c) => InSection(w, c) && w.calls[c].work.Seen?
  }

  function Next(w: World, s: Step): World {
    if !Enabled(w, s) then w else
    match s
    case Elapse(time) => w.(db := Tick(w.db, time))
    case Begin(c, n, id, ttl, tries) =>
      var l := w.lockers[n];
      var pc := if l.closed then Failed(Closed) else if ttl <= 0 then Failed(NotAcquired) else Checked;
      w.(calls := w.calls[c := Call(n, id, Key(l, id), ttl, tries, w.db.now, pc, Idle)])
    case Reserve(c) => NextReserve(w, c)
    case Attempt(c, net) => NextAttempt(w, c, net)
    case Release(c, net, retry) =>
      var db := if net.Unsent? then w.db else CompareDelete(w.db, w.calls[c].key, c).0;
      var pc := if retry.Again? then Trying(w.calls[c].pc.left)
                else Losing(MapAcquireErr(retry.contextDone, retry.raw));
      WithPc(w, c, pc).(db := db)
    case Settle(c) => NextSettle(w, c)
    case Unlock(u, n, id) => NextUnlock(w, u, n, id)
    case UnlockRemote(u, net, taken) => NextUnlockRemote(w, u, net, taken)
    case CloseFlip(k, n) => NextCloseFlip(w, k, n)
    case CloseRange(k) => WithClosePc(w, k, Draining(w.lockers[w.closes[k].locker].mutexes.Keys))
    case CloseDrop(k, id) =>
      var n := w.closes[k].locker;
      WithLocal(WithClosePc(w, k, Draining(w.closes[k].pc.todo - {id})), n, DeleteSlot(w.lockers[n], id))
    case CloseReturn(k) =>
      var n := w.closes[k].locker; var l := w.lockers[n];
      var closes := l.clientCloses + if l.closeClient then 1 else 0;
      WithLocal(WithClosePc(w, k, Returned(true)), n, l.(clientCloses := closes))
    case ReadShared(c) =>
      w.(calls := w.calls[c := w.calls[c].(work := Seen(SharedAt(w, w.calls[c].key)))])
    case WriteShared(c) =>
      w.(shared := w.shared[w.calls[c].key := w.calls[c].work.value + 1],
         calls := w.calls[c := w.calls[c].(work := Written)])
  }

  function WithClosePc(w: World, k: nat, pc: ClosePc): World
    requires k in w.closes
  {
    w.(closes := w.closes[k := w.closes[k].(pc := pc)])
  }

  /** The compare-and-swap of Close: on a closed locker the call returns at once. Range visits every entry
      that stays from its beginning to its end, and may visit any other. */
  function NextCloseFlip(w: World, k: nat, n: nat): World
    requires Enabled(w, CloseFlip(k, n))
  {
    var l := w.lockers[n];
    var pc := if l.closed then Returned(false) else Flipped;
    WithLocal(w, n, l.(closed := true)).(closes := w.closes[k := Closing(n, Flight(w, n), pc)])
  }

  function NextReserve(w: World, c: nat): World
    requires Enabled(w, Reserve(c))
  {
    var call := w.calls[c];
    var l := w.lockers[call.locker];
    if call.id in l.mutexes then WithPc(w, c, Failed(NotAcquired))
    else WithLocal(WithPc(w, c, Trying(call.tries)), call.locker, StoreSlot(l, call.id, Mutex("", c)))
  }

  /** One SET NX PX of redsync. Lost also covers an answer that came after the validity window. */
  function NextAttempt(w: World, c: nat, net: Net): World
    requires Enabled(w, Attempt(c, net))
  {
    var call := w.calls[c];
    var (db, applied) := SetNX(w.db, call.key, c, call.ttl);
    match net
    case Unsent => WithPc(w, c, Releasing(call.pc.left - 1))
    case Lost => WithPc(w, c, Releasing(call.pc.left - 1)).(db := db)
    case Answered => WithPc(w, c, if applied then Winning else Releasing(call.pc.left - 1)).(db := db)
  }

  function NextSettle(w: World, c: nat): World
    requires Enabled(w, Settle(c))
  {
    var call := w.calls[c];
    var l := w.lockers[call.locker];
    if call.pc.Winning? then
      WithLocal(WithPc(w, c, Acquired), call.locker, StoreSlot(l, call.id, Mutex(call.key, c)))
        .(held := w.held + {c})
    else
      WithLocal(WithPc(w, c, Failed(call.pc.error)), call.locker, DeleteSlot(l, call.id))
  }

  function NextUnlock(w: World, u: nat, n: nat, id: string): World
    requires Enabled(w, Unlock(u, n, id))
  {
    var l := w.lockers[n];
    var pc := if id !in l.mutexes || IsPlaceholder(l.mutexes[id]) then Done(Failure(NotHeld))
              else Remote(l.mutexes[id]);
    WithLocal(w, n, DeleteSlot(l, id))
      .(unlocks := w.unlocks[u := Unlocking(n, id, pc)],
        held := HeldElsewhere(w, n, id))
  }

  function NextUnlockRemote(w: World, u: nat, net: Net, taken: bool): World
    requires Enabled(w, UnlockRemote(u, net, taken))
  {
    var m := w.unlocks[u].pc.mutex;
    var (db, reply) := CompareDelete(w.db, m.name, m.owner);
    var outcome :=
      match net
      case Unsent => Failure(Transport)
      case Lost => Failure(Transport)
      case Answered => UnlockOutcome(reply, taken);
    w.(db := if net.Unsent? then w.db else db,
       unlocks := w.unlocks[u := w.unlocks[u].(pc := Done(outcome))])
  }

  /** redsync reports a foreign value either as (false, nil) or as an error of its own. */
  function UnlockOutcome(reply: DeleteReply, taken: bool): Outcome {
    match reply
    case Deleted => Success
    case Absent => Failure(Expired)
    case Foreign => Failure(if taken then Transport else NotHeld)
  }

  /** What the locker's map holds for the id. */
  function SlotAt(w: World, n: nat, id: string): Option<Mutex> {
    if n in w.lockers && id in w.lockers[n].mutexes then Some(w.lockers[n].mutexes[id]) else None
  }

  // ---------------------------------------------------------------- runs

  function SharedAt(w: World, key: string): int {
    if key in w.shared then w.shared[key] else 0
  }

  /** The critical section of an acquire: from its success to the earlier of an Unlock of its id on
      its locker and its ttl after it began. */
  predicate InSection(w: World, c: nat) {
    c in w.held && c in w.calls && w.db.now < w.calls[c].began + w.calls[c].ttl
  }

  /** Any set of unused lockers over an empty Redis. */
  ghost predicate Initial(w: World) {
    && w.db.items == map[] && w.calls == map[] && w.unlocks == map[] && w.closes == map[]
    && w.held == {} && w.shared == map[]
    && forall n :: n in w.lockers ==>
         var l := w.lockers[n];
         l.mutexes == map[] && !l.closed && l.clientCloses == 0
  }

  function Replay(w: World, run: seq<Step>): World
    decreases |run|
  {
    if run == [] then w else Next(Replay(w, run[..|run| - 1]), run[|run| - 1])
  }

  lemma {:induction false} ReplayExtends(w: World, run: seq<Step>, s: Step)
    ensures Replay(w, run + [s]) == Next(Replay(w, run), s)
  {
    assert (run + [s])[..|run|] == run;
  }

  lemma {:induction false} ReplayConcat(w: World, a: seq<Step>, b: seq<Step>)
    ensures Replay(w, a + b) == Replay(Replay(w, a), b)
    decreases |b|
  {
    if b == [] {
      assert a + b == a;
    } else {
      assert (a + b)[..|a + b| - 1] == a + b[..|b| - 1];
      ReplayConcat(w, a, b[..|b| - 1]);
    }
  }
}
