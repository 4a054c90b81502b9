/**
 The lock over a network that may deliver a command late: a command given up by its caller can still reach
 Redis at any later moment, any number of times. redsync uses one random value for all attempts of a call, so a
 late release of one attempt can hit the entry of the next. Exclusion survives late commands exactly if no
 acquire makes more than one attempt.
 */
module LockDelays {
  import opened Wrappers
  import opened Redis
  import opened LockProtocol
  import opened LockSafety

  /** A command on its way, by the acquire or the mutex whose value it carries. */
  datatype Late = LateSet(call: nat) | LateRelease(call: nat) | LateUnlock(mutex: Mutex)

  datatype Slow = Slow(w: World, late: set<Late>)

  /** A step as before, a step whose command is late, and the arrival of a late command. */
  datatype Event = Prompt(step: Step) | Delay(step: Step) | Arrive(late: Late)

  /** To its caller a late command looks like one that never reached Redis. */
  function GivenUp(s: Step): Step {
    match s
    case Attempt(c, _) => Attempt(c, Unsent)
    case Release(c, _, retry) => Release(c, Unsent, retry)
    case UnlockRemote(u, _, taken) => UnlockRemote(u, Unsent, taken)
    case _ => s
  }

  function CommandsOf(w: World, s: Step): set<Late> {
    if !Enabled(w, s) then {} else
    match s
    case Attempt(c, _) => {LateSet(c)}
    case Release(c, _, _) => {LateRelease(c)}
    case UnlockRemote(u, _, _) => {LateUnlock(w.unlocks[u].pc.mutex)}
    case _ => {}
  }

  function Execute(w: World, l: Late): Db<nat> {
    match l
    case LateSet(c) => if c in w.calls then SetNX(w.db, w.calls[c].key, c, w.calls[c].ttl).0 else w.db
    case LateRelease(c) => if c in w.calls then CompareDelete(w.db, w.calls[c].key, c).0 else w.db
    case LateUnlock(m) => CompareDelete(w.db, m.name, m.owner).0
  }

  function SlowNext(d: Slow, e: Event): Slow {
    match e
    case Prompt(s) => d.(w := Next(d.w, s))
    case Delay(s) => Slow(Next(d.w, GivenUp(s)), d.late + CommandsOf(d.w, s))
    case Arrive(l) => if l in d.late then d.(w := d.w.(db := Execute(d.w, l))) else d
  }

  function SlowReplay(d: Slow, run: seq<Event>): Slow
    decreases |run|
  {
    if run == [] then d else SlowNext(SlowReplay(d, run[..|run| - 1]), run[|run| - 1])
  }

  // ---------------------------------------------------------------- one attempt

  /** The attempts an acquire has left. */
  predicate WithinBudget(call: Call) {
    && (call.pc.Trying? ==> call.pc.left <= call.tries)
    && (call.pc.Releasing? ==> call.pc.left < call.tries)
  }

  ghost predicate Budgeted(w: World) {
    forall c :: c in w.calls ==> WithinBudget(w.calls[c])
  }

  ghost predicate Single(w: World) {
    forall c :: c in w.calls ==> w.calls[c].tries <= 1
  }

  /** A late release belongs to an acquire that has lost, a late unlock to one whose section is over. */
  ghost predicate Harmless(w: World, l: Late) {
    match l
    case LateSet(c) => c in w.calls
    case LateRelease(c) => c in w.calls && c !in w.held && (w.calls[c].pc.Losing? || w.calls[c].pc.Failed?)
    case LateUnlock(m) => m.owner in w.calls && m.owner !in w.held && w.calls[m.owner].pc.Acquired?
  }

  ghost predicate SlowInv(d: Slow) {
    Inv(d.w) && Budgeted(d.w) && Single(d.w) && forall l :: l in d.late ==> Harmless(d.w, l)
  }

  lemma BudgetedNext(w: World, s: Step)
    requires Budgeted(w)
    ensures Budgeted(Next(w, s))
  {
    forall c | c in Next(w, s).calls ensures WithinBudget(Next(w, s).calls[c]) { CallBudgetNext(w, s, c); }
  }

  lemma CallBudgetNext(w: World, s: Step, c: nat)
    requires c in w.calls ==> WithinBudget(w.calls[c])
    requires c in Next(w, s).calls
    ensures WithinBudget(Next(w, s).calls[c])
  {
    CallsAfter(w, s);
  }

  lemma SingleNext(w: World, s: Step)
    requires Single(w) && (s.Begin? ==> s.tries <= 1)
    ensures Single(Next(w, s))
  {
    CallsAfter(w, s);
  }

  lemma HarmlessNext(w: World, s: Step, l: Late)
    requires CallsInv(w) && Harmless(w, l)
    ensures Harmless(Next(w, s), l)
  {
    var c := if l.LateUnlock? then l.mutex.owner else l.call;
    NextKeepsCall(w, s, c);
    if c in Next(w, s).held && c !in w.held {
      HeldNext(w, s, c);
    }
    if l.LateRelease? {
      LostStaysLost(w, s, c);
    }
  }

  lemma LostStaysLost(w: World, s: Step, c: nat)
    requires c in w.calls && (w.calls[c].pc.Losing? || w.calls[c].pc.Failed?)
    ensures c in Next(w, s).calls && (Next(w, s).calls[c].pc.Losing? || Next(w, s).calls[c].pc.Failed?)
  {
    CallsAfter(w, s);
  }

  /** With one attempt the release follows the last one, so its acquire has lost by then. */
  lemma DelayedIsHarmless(w: World, s: Step, l: Late)
    requires Inv(w) && Budgeted(w) && Single(w) && l in CommandsOf(w, s)
    ensures Harmless(Next(w, GivenUp(s)), l)
  {
    match s
    case Attempt(c, _) => NextKeepsCall(w, Attempt(c, Unsent), c);
    case Release(c, _, retry) => OnlyReleaseLost(w, c, retry);
    case UnlockRemote(u, _, taken) =>
      assert UnlockOwned(w, u) && Harmless(w, l);
      HarmlessNext(w, UnlockRemote(u, Unsent, taken), l);
  }

  lemma OnlyReleaseLost(w: World, c: nat, retry: Retry)
    requires CallsInv(w) && Budgeted(w) && Single(w) && Enabled(w, Release(c, Unsent, retry))
    ensures Harmless(Next(w, Release(c, Unsent, retry)), LateRelease(c))
  {
    ReleaseCalls(w, c, Unsent, retry);
    if c in Next(w, Release(c, Unsent, retry)).held && c !in w.held {
      HeldNext(w, Release(c, Unsent, retry), c);
    }
  }

  // ---------------------------------------------------------------- a late command that arrives

  lemma ArrivesOwned(w: World, l: Late, k: string)
    requires CallsInv(w) && EntriesInv(w) && Harmless(w, l)
    requires k in Execute(w, l).items
    ensures EntryOwned(w.(db := Execute(w, l)), k)
  {
    if k in w.db.items {
      assert EntryOwned(w, k);
    }
    if l.LateSet? {
      assert CallPlaced(w, l.call);
    }
  }

  lemma ArrivesOwners(w: World, l: Late, c: nat)
    requires Inv(w) && Harmless(w, l) && Owns(w, c)
    ensures EntryIs(w.(db := Execute(w, l)), w.calls[c].key, c)
  {
    assert EntryIs(w, w.calls[c].key, c);
  }

  lemma ArriveKeepsInv(w: World, l: Late)
    requires Inv(w) && Harmless(w, l)
    ensures Inv(w.(db := Execute(w, l)))
  {
    var w' := w.(db := Execute(w, l));
    assert w'.db.now == w.db.now;
    forall c | c in w'.calls ensures CallPlaced(w', c) { assert CallPlaced(w, c); }
    forall k | k in w'.db.items { ArrivesOwned(w, l, k); }
    forall n, id | SlotAt(w', n, id).Some? ensures MutexOf(w', SlotAt(w', n, id).value, n, id) {
      assert SlotAt(w, n, id) == SlotAt(w', n, id);
    }
    forall u | u in w'.unlocks && w'.unlocks[u].pc.Remote? ensures UnlockOwned(w', u) { assert UnlockOwned(w, u); }
    forall c | Owns(w', c) ensures EntryIs(w', w'.calls[c].key, c) {
      assert Owns(w, c);
      ArrivesOwners(w, l, c);
    }
    forall k | Won(w', k) ensures w'.closes[k].locker in w'.lockers && w'.lockers[w'.closes[k].locker].closed {
      assert Won(w, k);
    }
  }

  lemma StepKeepsSlowInv(d: Slow, s: Step, late: set<Late>)
    requires SlowInv(d) && (s.Begin? ==> s.tries <= 1)
    requires forall l :: l in late ==> Harmless(Next(d.w, s), l)
    ensures SlowInv(Slow(Next(d.w, s), d.late + late))
  {
    InvNext(d.w, s);
    BudgetedNext(d.w, s);
    SingleNext(d.w, s);
    forall l | l in d.late { HarmlessNext(d.w, s, l); }
  }

  lemma SlowInvNext(d: Slow, e: Event)
    requires SlowInv(d) && TriesAtMost(e, 1)
    ensures SlowInv(SlowNext(d, e))
  {
    match e
    case Prompt(s) =>
      StepKeepsSlowInv(d, s, {});
      assert d.late + {} == d.late;
    case Delay(s) =>
      forall l | l in CommandsOf(d.w, s) { DelayedIsHarmless(d.w, s, l); }
      StepKeepsSlowInv(d, GivenUp(s), CommandsOf(d.w, s));
    case Arrive(l) =>
      if l in d.late {
        ArriveKeepsInv(d.w, l);
        forall k | k in d.late ensures Harmless(SlowNext(d, e).w, k) { assert Harmless(d.w, k); }
      }
  }

  predicate TriesAtMost(e: Event, tries: nat) {
    !e.Arrive? && e.step.Begin? ==> e.step.tries <= tries
  }

  predicate AllTryAtMost(run: seq<Event>, tries: nat) {
    forall i :: 0 <= i < |run| ==> TriesAtMost(run[i], tries)
  }

  lemma {:induction false} SlowInvReplay(d: Slow, run: seq<Event>)
    requires SlowInv(d) && AllTryAtMost(run, 1)
    ensures SlowInv(SlowReplay(d, run))
    decreases |run|
  {
    if run != [] {
      SlowInvReplay(d, run[..|run| - 1]);
      SlowInvNext(SlowReplay(d, run[..|run| - 1]), run[|run| - 1]);
    }
  }

  ghost predicate Excludes(w: World) {
    forall c1, c2 :: InSection(w, c1) && InSection(w, c2) && w.calls[c1].key == w.calls[c2].key ==> c1 == c2
  }

  /** With one attempt per acquire, critical sections on one key never overlap, however late commands arrive. */
  lemma {:induction false} ExclusionWithOneAttempt(w: World, run: seq<Event>)
    requires Initial(w) && AllTryAtMost(run, 1)
    ensures Excludes(SlowReplay(Slow(w, {}), run).w)
  {
    SlowInvReplay(Slow(w, {}), run);
    var now := SlowReplay(Slow(w, {}), run).w;
    forall c1, c2 | InSection(now, c1) && InSection(now, c2) && now.calls[c1].key == now.calls[c2].key
      ensures c1 == c2
    {
      OneSectionPerKey(now, c1, c2);
    }
  }

  // ---------------------------------------------------------------- two attempts

  lemma {:induction false} SlowExtends(d: Slow, run: seq<Event>, e: Event)
    ensures SlowReplay(d, run + [e]) == SlowNext(SlowReplay(d, run), e)
  {
    assert (run + [e])[..|run|] == run;
  }

  lemma {:induction false} SlowOne(d: Slow, e: Event)
    ensures SlowReplay(d, [e]) == SlowNext(d, e)
  {
    assert [e][..0] == [];
  }

  lemma {:induction false} SlowConcat(d: Slow, a: seq<Event>, b: seq<Event>)
    ensures SlowReplay(d, a + b) == SlowReplay(SlowReplay(d, a), b)
    decreases |b|
  {
    if b == [] {
      assert a + b == a;
    } else {
      assert (a + b)[..|a + b| - 1] == a + b[..|b| - 1];
      SlowConcat(d, a, b[..|b| - 1]);
    }
  }

  lemma {:induction false} SlowTwo(d: Slow, e1: Event, e2: Event)
    ensures SlowReplay(d, [e1, e2]) == SlowNext(SlowNext(d, e1), e2)
  {
    SlowOne(d, e1);
    SlowExtends(d, [e1], e2);
    assert [e1] + [e2] == [e1, e2];
  }

  /** Acquire c of this key and of locker n, begun just now, stands at pc. */
  ghost predicate Stands(w: World, c: nat, n: nat, id: string, key: string, tries: nat, pc: Pc) {
    && n in w.lockers && c in w.calls && w.calls[c].locker == n && w.calls[c].id == id && w.calls[c].key == key
    && w.calls[c].ttl == 10 && w.calls[c].began == w.db.now && w.calls[c].tries == tries && w.calls[c].pc == pc
  }

  ghost predicate Unused(w: World, n: nat, id: string, key: string) {
    n in w.lockers && !w.lockers[n].closed && w.lockers[n].mutexes == map[] && Key(w.lockers[n], id) == key
  }

  /** What the steps of acquire c on locker n leave alone. */
  ghost predicate RestKept(w: World, w': World, c: nat, n: nat) {
    && w'.db.now == w.db.now
    && (forall m :: m in w.lockers && m != n ==> m in w'.lockers && w'.lockers[m] == w.lockers[m])
    && (forall b :: b in w.calls && b != c ==> b in w'.calls && w'.calls[b] == w.calls[b])
  }

  /** An acquire enters. */
  function Entry(c: nat, n: nat, id: string, tries: nat): seq<Event> {
    [Prompt(Begin(c, n, id, 10, tries)), Prompt(Reserve(c))]
  }

  lemma {:induction false} Enters(d: Slow, c: nat, n: nat, id: string, key: string, tries: nat)
    requires Unused(d.w, n, id, key) && c !in d.w.calls && tries >= 1
    ensures var now := SlowReplay(d, Entry(c, n, id, tries));
      && Stands(now.w, c, n, id, key, tries, Trying(tries)) && RestKept(d.w, now.w, c, n)
      && now.late == d.late && now.w.db == d.w.db && now.w.held == d.w.held
  {
    SlowTwo(d, Prompt(Begin(c, n, id, 10, tries)), Prompt(Reserve(c)));
  }

  /** Its first attempt fails and the release of it is late. */
  function Failure(): seq<Event> {
    [Prompt(Attempt(0, Unsent)), Delay(Release(0, Unsent, Again))]
  }

  lemma {:induction false} FailsOnce(d: Slow, n: nat, id: string, key: string)
    requires Stands(d.w, 0, n, id, key, 2, Trying(2))
    ensures var now := SlowReplay(d, Failure());
      && Stands(now.w, 0, n, id, key, 2, Trying(1)) && RestKept(d.w, now.w, 0, n)
      && LateRelease(0) in now.late && now.w.db == d.w.db
  {
    SlowTwo(d, Prompt(Attempt(0, Unsent)), Delay(Release(0, Unsent, Again)));
  }

  /** An attempt on a free key wins and the acquire returns. */
  function Victory(c: nat): seq<Event> {
    [Prompt(Attempt(c, Answered)), Prompt(Settle(c))]
  }

  lemma {:induction false} Wins(d: Slow, c: nat, n: nat, id: string, key: string, tries: nat)
    requires Stands(d.w, c, n, id, key, tries, Trying(1)) && Look(d.w.db, key).None?
    ensures var now := SlowReplay(d, Victory(c));
      && Stands(now.w, c, n, id, key, tries, Acquired) && RestKept(d.w, now.w, c, n)
      && now.late == d.late && now.w.held == d.w.held + {c} && EntryIs(now.w, key, c)
  {
    SlowTwo(d, Prompt(Attempt(c, Answered)), Prompt(Settle(c)));
    TakesKey(d.w, c, n, id, key, tries);
    KeepsKey(Next(d.w, Attempt(c, Answered)), c, n, id, key, tries);
  }

  lemma TakesKey(w: World, c: nat, n: nat, id: string, key: string, tries: nat)
    requires Stands(w, c, n, id, key, tries, Trying(1)) && Look(w.db, key).None?
    ensures var now := Next(w, Attempt(c, Answered));
      && Stands(now, c, n, id, key, tries, Winning) && RestKept(w, now, c, n)
      && now.held == w.held && EntryIs(now, key, c)
  {
  }

  lemma KeepsKey(w: World, c: nat, n: nat, id: string, key: string, tries: nat)
    requires Stands(w, c, n, id, key, tries, Winning) && EntryIs(w, key, c)
    ensures var now := Next(w, Settle(c));
      && Stands(now, c, n, id, key, tries, Acquired) && RestKept(w, now, c, n)
      && now.held == w.held + {c} && EntryIs(now, key, c)
  {
  }

  /** The late release of an acquire deletes its own entry. */
  lemma Arrives(d: Slow, c: nat, n: nat, id: string, key: string, tries: nat)
    requires Stands(d.w, c, n, id, key, tries, Acquired) && LateRelease(c) in d.late && EntryIs(d.w, key, c)
    ensures var now := SlowNext(d, Arrive(LateRelease(c)));
      && Stands(now.w, c, n, id, key, tries, Acquired) && RestKept(d.w, now.w, c, n)
      && now.w.held == d.w.held && Look(now.w.db, key).None?
  {
  }

  /** The first acquire wins with its second attempt; then the release of the first attempt arrives. */
  function LateReleaseRun(n: nat, id: string): seq<Event> {
    Entry(0, n, id, 2) + Failure() + Victory(0) + [Arrive(LateRelease(0))]
  }

  lemma {:induction false} LosesItsEntry(w: World, n: nat, id: string, key: string)
    requires Initial(w) && Unused(w, n, id, key)
    ensures var now := SlowReplay(Slow(w, {}), LateReleaseRun(n, id));
      && Stands(now.w, 0, n, id, key, 2, Acquired) && RestKept(w, now.w, 0, n)
      && 0 in now.w.held && Look(now.w.db, key).None? && 1 !in now.w.calls
  {
    var d := Slow(w, {});
    InParts(d, n, id);
    OneCall(d, n, id);
    Enters(d, 0, n, id, key, 2);
    WinsAndLoses(SlowReplay(d, Entry(0, n, id, 2)), n, id, key);
  }

  lemma {:induction false} InParts(d: Slow, n: nat, id: string)
    ensures SlowReplay(d, LateReleaseRun(n, id)) ==
      SlowNext(SlowReplay(SlowReplay(SlowReplay(d, Entry(0, n, id, 2)), Failure()), Victory(0)), Arrive(LateRelease(0)))
  {
    SlowConcat(d, Entry(0, n, id, 2), Failure());
    SlowConcat(d, Entry(0, n, id, 2) + Failure(), Victory(0));
    SlowExtends(d, Entry(0, n, id, 2) + Failure() + Victory(0), Arrive(LateRelease(0)));
  }

  lemma {:induction false} WinsAndLoses(d: Slow, n: nat, id: string, key: string)
    requires Stands(d.w, 0, n, id, key, 2, Trying(2)) && Look(d.w.db, key).None?
    ensures var now := SlowNext(SlowReplay(SlowReplay(d, Failure()), Victory(0)), Arrive(LateRelease(0)));
      && Stands(now.w, 0, n, id, key, 2, Acquired) && RestKept(d.w, now.w, 0, n)
      && 0 in now.w.held && Look(now.w.db, key).None?
  {
    FailsOnce(d, n, id, key);
    Wins(SlowReplay(d, Failure()), 0, n, id, key, 2);
    Arrives(SlowReplay(SlowReplay(d, Failure()), Victory(0)), 0, n, id, key, 2);
  }

  /** Only acquires that began are there. */
  lemma {:induction false} NoOtherCalls(d: Slow, run: seq<Event>)
    requires forall i :: 0 <= i < |run| && !run[i].Arrive? && run[i].step.Begin? ==> run[i].step.call == 0
    requires 1 !in d.w.calls
    ensures 1 !in SlowReplay(d, run).w.calls
    decreases |run|
  {
    if run != [] {
      var e := run[|run| - 1];
      NoOtherCalls(d, run[..|run| - 1]);
      if !e.Arrive? {
        CallsAfter(SlowReplay(d, run[..|run| - 1]).w, if e.Prompt? then e.step else GivenUp(e.step));
      }
    }
  }

  lemma {:induction false} OneCall(d: Slow, n: nat, id: string)
    requires 1 !in d.w.calls
    ensures 1 !in SlowReplay(d, LateReleaseRun(n, id)).w.calls
  {
    NoOtherCalls(d, LateReleaseRun(n, id));
  }

  /** Then another locker takes the key, and two acquires are inside their sections at once. */
  lemma {:induction false} TwoAttemptsFail(w: World, n: nat, m: nat, id: string)
    requires Initial(w) && n in w.lockers && m in w.lockers && n != m && w.lockers[n].prefix == w.lockers[m].prefix
    ensures var now := SlowReplay(Slow(w, {}), LateReleaseRun(n, id) + (Entry(1, m, id, 1) + Victory(1))).w;
      InSection(now, 0) && InSection(now, 1) && now.calls[0].key == now.calls[1].key
  {
    var key := Key(w.lockers[n], id);
    var d := SlowReplay(Slow(w, {}), LateReleaseRun(n, id));
    var d1 := SlowReplay(d, Entry(1, m, id, 1));
    SlowConcat(Slow(w, {}), LateReleaseRun(n, id), Entry(1, m, id, 1) + Victory(1));
    SlowConcat(d, Entry(1, m, id, 1), Victory(1));
    LosesItsEntry(w, n, id, key);
    Enters(d, 1, m, id, key, 1);
    Wins(d1, 1, m, id, key, 1);
  }

  /** Over a network with late commands, exclusion holds in every run whose acquires make at most `tries` attempts
      if and only if that is one attempt. */
  lemma {:induction false} DelayBoundary(w: World, n: nat, m: nat, tries: nat)
    requires Initial(w) && n in w.lockers && m in w.lockers && n != m && w.lockers[n].prefix == w.lockers[m].prefix
    ensures (forall run :: AllTryAtMost(run, tries) ==> Excludes(SlowReplay(Slow(w, {}), run).w)) <==> tries <= 1
  {
    if tries <= 1 {
      forall run | AllTryAtMost(run, tries) ensures Excludes(SlowReplay(Slow(w, {}), run).w) {
        ExclusionWithOneAttempt(w, run);
      }
    } else {
      var run := LateReleaseRun(n, "a") + (Entry(1, m, "a", 1) + Victory(1));
      TwoAttemptsFail(w, n, m, "a");
      assert AllTryAtMost(run, tries) && !Excludes(SlowReplay(Slow(w, {}), run).w);
    }
  }
}
