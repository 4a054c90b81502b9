/**
 The locker as the Go object it is: a mutable map of mutexes and a closed flag, with methods that work
 on them and on Redis action by action. Between two actions anybody else may run; `Interfere` stands
 for that. Every action is logged, so what a method ensures is that the code together with its
 environment performs a run of the lock protocol, to which all theorems about runs apply.
 */
module Locker {
  import opened Wrappers
  import opened Redis
  import opened LockProtocol
  import opened LockSafety
  import opened LockSlots

  /** One operation in progress. */
  datatype Actor = Acquiring(call: nat) | Releaser(unlock: nat) | Closer(close: nat)

  predicate ActsAs(s: Step, a: Actor) {
    match a
    case Acquiring(c) =>
      || (s.Begin? && s.call == c) || (s.Reserve? && s.call == c) || (s.Attempt? && s.call == c)
      || (s.Release? && s.call == c) || (s.Settle? && s.call == c)
    case Releaser(u) => (s.Unlock? && s.unlock == u) || (s.UnlockRemote? && s.unlock == u)
    case Closer(k) =>
      || (s.CloseFlip? && s.close == k) || (s.CloseRange? && s.close == k)
      || (s.CloseDrop? && s.close == k) || (s.CloseReturn? && s.close == k)
  }

  ghost predicate Others(run: seq<Step>, from: nat, a: Actor) {
    from <= |run| && forall i :: from <= i < |run| ==> !ActsAs(run[i], a)
  }

  // ---------------------------------------------------------------- what others cannot do

  /** Nobody else moves an acquire, an unlock or a close. */
  ghost predicate Kept(w: World, w': World, a: Actor) {
    match a
    case Acquiring(c) =>
      && (c in w.calls <==> c in w'.calls)
      && (c in w.calls ==>
            && w'.calls[c].locker == w.calls[c].locker && w'.calls[c].id == w.calls[c].id
            && w'.calls[c].key == w.calls[c].key && w'.calls[c].ttl == w.calls[c].ttl
            && w'.calls[c].tries == w.calls[c].tries && w'.calls[c].pc == w.calls[c].pc)
    case Releaser(u) =>
      && (u in w.unlocks <==> u in w'.unlocks) && (u in w.unlocks ==> w'.unlocks[u] == w.unlocks[u])
    case Closer(k) =>
      && (k in w.closes <==> k in w'.closes) && (k in w.closes ==> w'.closes[k] == w.closes[k])
  }

  lemma OtherKeepsAcquire(w: World, s: Step, c: nat)
    requires !ActsAs(s, Acquiring(c))
    ensures Kept(w, Next(w, s), Acquiring(c))
  {
    if c in w.calls {
      NextKeepsCall(w, s, c);
      PcKept(w, s, c);
    } else if c in Next(w, s).calls {
      NewCall(w, s, c);
    }
  }

  lemma OtherKeepsUnlock(w: World, s: Step, u: nat)
    requires !ActsAs(s, Releaser(u))
    ensures Kept(w, Next(w, s), Releaser(u))
  {
  }

  lemma OtherKeepsClose(w: World, s: Step, k: nat)
    requires !ActsAs(s, Closer(k))
    ensures Kept(w, Next(w, s), Closer(k))
  {
  }

  lemma {:induction false} OthersKeep(w: World, run: seq<Step>, from: nat, a: Actor)
    requires Others(run, from, a)
    ensures Kept(Replay(w, run[..from]), Replay(w, run), a)
    decreases |run|
  {
    if from == |run| {
      assert run[..from] == run;
    } else {
      var most := run[..|run| - 1];
      assert most[..from] == run[..from];
      OthersKeep(w, most, from, a);
      match a
      case Acquiring(c) => OtherKeepsAcquire(Replay(w, most), run[|run| - 1], c);
      case Releaser(u) => OtherKeepsUnlock(Replay(w, most), run[|run| - 1], u);
      case Closer(k) => OtherKeepsClose(Replay(w, most), run[|run| - 1], k);
    }
  }

  function CommandOf(s: Step, c: nat): seq<Net> {
    match s
    case Attempt(call, net) => if call == c then [net] else []
    case Release(call, net, _) => if call == c then [net] else []
    case _ => []
  }

  /** How the commands of an acquire fared on the network, in the order they were sent. */
  ghost function Traffic(run: seq<Step>, c: nat): seq<Net>
    decreases |run|
  {
    if run == [] then [] else Traffic(run[..|run| - 1], c) + CommandOf(run[|run| - 1], c)
  }

  lemma {:induction false} TrafficOfOthers(run: seq<Step>, from: nat, c: nat)
    requires Others(run, from, Acquiring(c))
    ensures Traffic(run, c) == Traffic(run[..from], c)
    decreases |run|
  {
    if from == |run| {
      assert run[..from] == run;
    } else {
      assert run[..|run| - 1][..from] == run[..from];
      TrafficOfOthers(run[..|run| - 1], from, c);
      assert !ActsAs(run[|run| - 1], Acquiring(c));
    }
  }

  lemma {:induction false} OneMoreStep(run: seq<Step>, s: Step, c: nat)
    ensures Traffic(run + [s], c) == Traffic(run, c) + CommandOf(s, c)
  {
    assert (run + [s])[..|run|] == run;
  }

  lemma {:induction false} OneMoreStepEach(run: seq<Step>, s: Step)
    ensures forall c :: Traffic(run + [s], c) == Traffic(run, c) + CommandOf(s, c)
  {
    forall c { OneMoreStep(run, s, c); }
  }

  /** The locker whose map or flag the step can change. */
  function LocalOf(w: World, s: Step): Option<nat> {
    match s
    case Reserve(c) => if c in w.calls then Some(w.calls[c].locker) else None
    case Settle(c) => if c in w.calls then Some(w.calls[c].locker) else None
    case Unlock(_, n, _) => Some(n)
    case CloseFlip(_, n) => Some(n)
    case CloseDrop(k, _) => if k in w.closes then Some(w.closes[k].locker) else None
    case CloseReturn(k) => if k in w.closes then Some(w.closes[k].locker) else None
    case _ => None
  }

  lemma OneLocalMoves(w: World, s: Step, n: nat)
    requires LocalOf(w, s) != Some(n) && n in w.lockers
    ensures n in Next(w, s).lockers && Next(w, s).lockers[n] == w.lockers[n]
  {
    match s
    case Reserve(_) =>
    case Settle(_) =>
    case Unlock(_, _, _) =>
    case CloseFlip(_, _) =>
    case CloseDrop(_, _) =>
    case CloseReturn(_) =>
    case _ => OtherStepsKeepLocals(w, s);
  }

  lemma OtherLocalsStay(w: World, s: Step)
    ensures forall n :: n in w.lockers && LocalOf(w, s) != Some(n) ==>
      n in Next(w, s).lockers && Next(w, s).lockers[n] == w.lockers[n]
  {
    forall n | n in w.lockers && LocalOf(w, s) != Some(n) { OneLocalMoves(w, s, n); }
  }

  /** Why redsync gave up, and whether the caller's context was done by then. */
  datatype Reason = Reason(contextDone: bool, raw: AcquireError)

  /** What an acquire meets: the network for each of its commands, whether redsync gives up early after the
      n-th attempt, and the reason when the attempts run out. */
  datatype Weather = Weather(net: nat -> Net, stop: nat -> Option<Reason>, exhausted: Reason)
  {
    /** Whether redsync gives up after its n-th attempt of `tries`. */
    function Stop(n: nat, tries: nat): Option<Reason> {
      if n == tries then Some(exhausted) else stop(n)
    }

    /** redsync does not give up after any of the first n attempts. */
    ghost predicate GoesOn(n: nat, tries: nat) {
      forall k :: 1 <= k <= n ==> Stop(k, tries).None?
    }

    /** What the first n commands meet. */
    ghost function First(n: nat): (nets: seq<Net>)
      ensures |nets| == n && forall i :: 0 <= i < n ==> nets[i] == net(i)
    {
      seq(n, i requires 0 <= i < n => net(i))
    }
  }

  /** A round of redsync is one command when it wins and two when it does not. */
  lemma OneMoreRound(weather: Weather, n: nat)
    ensures weather.First(2 * n + 1) == weather.First(2 * n) + [weather.net(2 * n)]
    ensures weather.First(2 * (n + 1)) == weather.First(2 * n) + [weather.net(2 * n), weather.net(2 * n + 1)]
  {
  }

  // ---------------------------------------------------------------- objects

  /** The Redis all lockers share, the lockers, the run performed so far and the world that run leads to. */
  class Cluster {
    var db: Db<nat>
    ghost const start: World
    ghost var members: set<RedisLocker>
    ghost var run: seq<Step>
    ghost var now: World

    ghost predicate Logged()
      reads this
    {
      Initial(start) && now == Replay(start, run) && db == now.db
    }

    /** The fields of a locker are what the protocol says they are. */
    ghost predicate Mirrors(l: RedisLocker)
      reads this, l
    {
      l.cluster == this && l.number in now.lockers
      && now.lockers[l.number] == Local(l.prefix, l.closeClient, l.mutexes, l.closed, l.clientCloses)
    }

    ghost predicate Valid()
      reads this, members
    {
      && Logged()
      && (forall l :: l in members ==> Mirrors(l))
      && (forall l, m :: l in members && m in members && l.number == m.number ==> l == m)
    }

    constructor (clock: int, ghost w: World)
      requires Initial(w) && w.db == Db(clock, map[])
      ensures Valid() && start == w && run == [] && now == w && members == {}
    {
      db := Db(clock, map[]);
      start := w;
      run := [];
      now := w;
      members := {};
    }

    /** Note an action; the caller performs it on the real fields of the one locker it is about. */
    ghost method Log(s: Step)
      requires Valid()
      modifies this`run, this`now
      ensures run == old(run) + [s] && now == Next(old(now), s) && now == Replay(start, run)
      ensures forall c :: Traffic(run, c) == Traffic(old(run), c) + CommandOf(s, c)
      ensures forall l :: l in members && Some(l.number) != LocalOf(old(now), s) ==> Mirrors(l)
    {
      ReplayExtends(start, run, s);
      OneMoreStepEach(run, s);
      OtherLocalsStay(now, s);
      run := run + [s];
      now := Next(now, s);
    }
  }

  class RedisLocker {
    const cluster: Cluster
    const number: nat
    const prefix: string
    const defaultTries: nat
    const closeClient: bool
    var mutexes: map<string, Mutex>
    var closed: bool
    var clientCloses: nat

    ghost predicate Valid()
      reads this, cluster, cluster.members
    {
      cluster.Valid() && this in cluster.members && defaultTries >= 1
    }

    /** A locker that has not been used yet; WithTries clamps the retry budget to at least 1. */
    constructor (cluster: Cluster, number: nat, prefix: string, tries: int, closeClient: bool)
      requires cluster.Valid() && number in cluster.now.lockers
      requires cluster.now.lockers[number] == Local(prefix, closeClient, map[], false, 0)
      requires forall l :: l in cluster.members ==> l.number != number
      modifies cluster`members
      ensures Valid() && this.cluster == cluster && this.number == number
        && cluster.members == old(cluster.members) + {this}
      ensures defaultTries == if tries < 1 then 1 else tries
    {
      this.cluster, this.number, this.prefix, this.closeClient := cluster, number, prefix, closeClient;
      defaultTries := if tries < 1 then 1 else tries;
      mutexes, closed, clientCloses := map[], false, 0;
      new;
      cluster.members := cluster.members + {this};
    }

    /** Any number of actions of other operations, on this locker or any other. */
    method Interfere(ghost a: Actor)
      requires Valid()
      modifies cluster`db, cluster`run, cluster`now, cluster.members
      ensures Valid()
      ensures old(cluster.run) <= cluster.run && Others(cluster.run, |old(cluster.run)|, a)
    {
    }

    method Yield(ghost a: Actor)
      requires Valid()
      modifies cluster`db, cluster`run, cluster`now, cluster.members
      ensures Valid() && old(cluster.run) <= cluster.run
      ensures Kept(old(cluster.now), cluster.now, a)
      ensures a.Acquiring? ==> Traffic(cluster.run, a.call) == Traffic(old(cluster.run), a.call)
    {
      ghost var before := cluster.run;
      Interfere(a);
      OthersKeep(cluster.start, cluster.run, |before|, a);
      assert cluster.run[..|before|] == before;
      if a.Acquiring? {
        TrafficOfOthers(cluster.run, |before|, a.call);
      }
    }

    // -------------------------------------------------------------- acquire

    /** Where the acquire `c` of this locker stands. */
    ghost predicate At(c: nat, id: string, ttl: int, tries: nat, pc: Pc)
      reads this, cluster
    {
      && c in cluster.now.calls
      && On(cluster.now.calls[c], number, id) && cluster.now.calls[c].key == prefix + id
      && cluster.now.calls[c].ttl == ttl && cluster.now.calls[c].tries == tries && cluster.now.calls[c].pc == pc
    }

    method CheckClosed(id: string, ttl: int, tries: nat, token: nat) returns (error: Option<LockError>)
      requires Valid() && tries >= 1 && token !in cluster.now.calls
      modifies cluster`run, cluster`now
      ensures Valid() && old(cluster.run) <= cluster.run
      ensures At(token, id, ttl, tries, if error.Some? then Failed(error.value) else Checked)
      ensures error == if closed then Some(Closed) else if ttl <= 0 then Some(NotAcquired) else None
      ensures cluster.now.calls[token].began == cluster.db.now
      ensures Traffic(cluster.run, token) == Traffic(old(cluster.run), token)
    {
      cluster.Log(Begin(token, number, id, ttl, tries));
      error := if closed then Some(Closed) else if ttl <= 0 then Some(NotAcquired) else None;
    }

    method LoadOrStore(ghost ttl: int, ghost tries: nat, id: string, token: nat) returns (loaded: bool)
      requires Valid() && At(token, id, ttl, tries, Checked)
      modifies this`mutexes, cluster`run, cluster`now
      ensures Valid() && cluster.run == old(cluster.run) + [Reserve(token)]
      ensures At(token, id, ttl, tries, if loaded then Failed(NotAcquired) else Trying(tries))
      ensures loaded == (id in old(mutexes))
      ensures Traffic(cluster.run, token) == Traffic(old(cluster.run), token)
      ensures mutexes == if loaded then old(mutexes) else old(mutexes)[id := Mutex("", token)]
    {
      cluster.Log(Reserve(token));
      loaded := id in mutexes;
      if !loaded {
        mutexes := mutexes[id := Mutex("", token)];
      }
    }

    /** One SET NX PX. */
    method TrySet(ghost tries: nat, id: string, ttl: int, token: nat, ghost left: nat, net: Net) returns (won: bool)
      requires Valid() && left >= 1 && At(token, id, ttl, tries, Trying(left))
      modifies cluster`db, cluster`run, cluster`now
      ensures Valid() && old(cluster.run) <= cluster.run
      ensures At(token, id, ttl, tries, if won then Winning else Releasing(left - 1))
      ensures Traffic(cluster.run, token) == Traffic(old(cluster.run), token) + [net]
      ensures won <==> net == Answered && Look(old(cluster.db), prefix + id).None?
      ensures cluster.db == if net.Unsent? then old(cluster.db) else SetNX(old(cluster.db), prefix + id, token, ttl).0
    {
      cluster.Log(Attempt(token, net));
      won := false;
      if net != Unsent {
        var (db, applied) := SetNX(cluster.db, prefix + id, token, ttl);
        cluster.db := db;
        won := net == Answered && applied;
      }
    }

    /** The release after a failed attempt. */
    method TakeBack(
      ghost ttl: int, ghost tries: nat, id: string, token: nat, ghost left: nat, net: Net, ghost retry: Retry)
      requires Valid() && At(token, id, ttl, tries, Releasing(left)) && (retry.Again? ==> left > 0)
      modifies cluster`db, cluster`run, cluster`now
      ensures Valid() && old(cluster.run) <= cluster.run
      ensures At(token, id, ttl, tries,
                 if retry.Again? then Trying(left) else Losing(MapAcquireErr(retry.contextDone, retry.raw)))
      ensures Traffic(cluster.run, token) == Traffic(old(cluster.run), token) + [net]
      ensures cluster.db == if net.Unsent? then old(cluster.db)
        else CompareDelete(old(cluster.db), prefix + id, token).0
    {
      cluster.Log(Release(token, net, retry));
      if net != Unsent {
        cluster.db := CompareDelete(cluster.db, prefix + id, token).0;
      }
    }

    method Undo(
      ghost ttl: int, ghost tries: nat, id: string, token: nat, ghost left: nat, net: Net, stop: Option<Reason>)
      requires Valid() && At(token, id, ttl, tries, Releasing(left)) && (left == 0 ==> stop.Some?)
      modifies cluster`db, cluster`run, cluster`now, cluster.members
      ensures Valid() && old(cluster.run) <= cluster.run
      ensures At(token, id, ttl, tries,
                 if stop.None? then Trying(left) else Losing(MapAcquireErr(stop.value.contextDone, stop.value.raw)))
      ensures Traffic(cluster.run, token) == Traffic(old(cluster.run), token) + [net]
    {
      Yield(Acquiring(token));
      var retry := if stop.None? then Again else GiveUp(stop.value.contextDone, stop.value.raw);
      TakeBack(ttl, tries, id, token, left, net, retry);
    }

    /** One round of redsync: an attempt, and after a lost one the release. */
    method TryOnce(ghost tries: nat, id: string, ttl: int, token: nat, n: nat, weather: Weather, stop: Option<Reason>)
      returns (won: bool)
      requires Valid() && n < tries && At(token, id, ttl, tries, Trying(tries - n)) && (n + 1 == tries ==> stop.Some?)
      modifies cluster`db, cluster`run, cluster`now, cluster.members
      ensures Valid() && old(cluster.run) <= cluster.run
      ensures At(token, id, ttl, tries,
                 if won then Winning
                 else if stop.None? then Trying(tries - n - 1)
                 else Losing(MapAcquireErr(stop.value.contextDone, stop.value.raw)))
      ensures Traffic(cluster.run, token) == Traffic(old(cluster.run), token)
                + if won then [weather.net(2 * n)] else [weather.net(2 * n), weather.net(2 * n + 1)]
      ensures won ==> weather.net(2 * n) == Answered
    {
      Yield(Acquiring(token));
      won := TrySet(tries, id, ttl, token, tries - n, weather.net(2 * n));
      if !won {
        Undo(ttl, tries, id, token, tries - n - 1, weather.net(2 * n + 1), stop);
      }
    }

    /** So far the acquire sent what it had sent before and the first n commands of this weather. */
    ghost predicate Sent(before: seq<Net>, token: nat, weather: Weather, n: nat)
      reads cluster
    {
      Traffic(cluster.run, token) == before + weather.First(n)
    }

    /** The same round, counted. */
    method Round(ghost before: seq<Net>, tries: nat, id: string, ttl: int, token: nat, n: nat, weather: Weather)
      returns (won: bool, stop: Option<Reason>)
      requires Valid() && n < tries && At(token, id, ttl, tries, Trying(tries - n))
      requires Sent(before, token, weather, 2 * n)
      modifies cluster`db, cluster`run, cluster`now, cluster.members
      ensures Valid() && old(cluster.run) <= cluster.run
      ensures At(token, id, ttl, tries,
                 if won then Winning
                 else if stop.None? then Trying(tries - n - 1)
                 else Losing(MapAcquireErr(stop.value.contextDone, stop.value.raw)))
      ensures Sent(before, token, weather, if won then 2 * n + 1 else 2 * (n + 1))
      ensures stop == weather.Stop(n + 1, tries) && (won ==> weather.net(2 * n) == Answered)
    {
      OneMoreRound(weather, n);
      stop := weather.Stop(n + 1, tries);
      won := TryOnce(tries, id, ttl, token, n, weather, stop);
    }

    /** redsync's TryLockContext and LockContext: up to `tries` attempts, each followed by a release when it
        failed. It returns at the first attempt that took the key and was answered, gives up early only when
        told to, and otherwise sends exactly `tries` attempts. */
    method Redsync(id: string, ttl: int, tries: nat, token: nat, weather: Weather)
      returns (result: Option<Reason>, ghost sent: nat)
      requires Valid() && tries >= 1 && At(token, id, ttl, tries, Trying(tries))
      modifies cluster`db, cluster`run, cluster`now, cluster.members
      ensures Valid() && old(cluster.run) <= cluster.run
      ensures At(token, id, ttl, tries,
                 if result.None? then Winning else Losing(MapAcquireErr(result.value.contextDone, result.value.raw)))
      ensures 1 <= sent <= tries
      ensures Sent(old(Traffic(cluster.run, token)), token, weather, if result.None? then 2 * sent - 1 else 2 * sent)
      ensures result.None? ==> weather.net(2 * sent - 2) == Answered
      ensures weather.GoesOn(sent - 1, tries)
      ensures result.Some? ==> result == weather.Stop(sent, tries)
    {
      ghost var before := Traffic(cluster.run, token);
      var n: nat := 0;
      while true
        invariant n < tries && Valid() && At(token, id, ttl, tries, Trying(tries - n))
        invariant old(cluster.run) <= cluster.run
        invariant Sent(before, token, weather, 2 * n)
        invariant weather.GoesOn(n, tries)
        decreases tries - n
      {
        var won, stop := Round(before, tries, id, ttl, token, n, weather);
        n := n + 1;
        if won || stop.Some? {
          return if won then None else stop, n;
        }
      }
    }

    method SettleSlot(ghost ttl: int, ghost tries: nat, id: string, token: nat, error: Option<LockError>)
      requires Valid() && At(token, id, ttl, tries, if error.None? then Winning else Losing(error.value))
      modifies this`mutexes, cluster`run, cluster`now
      ensures Valid() && old(cluster.run) <= cluster.run
      ensures At(token, id, ttl, tries, if error.None? then Acquired else Failed(error.value))
      ensures mutexes == if error.None? then old(mutexes)[id := Mutex(prefix + id, token)] else old(mutexes) - {id}
      ensures error.None? ==> token in cluster.now.held
      ensures Traffic(cluster.run, token) == Traffic(old(cluster.run), token)
    {
      cluster.Log(Settle(token));
      if error.Some? {
        mutexes := mutexes - {id};
      } else {
        mutexes := mutexes[id := Mutex(prefix + id, token)];
      }
    }

    /** The end of an acquire that went through redsync. */
    method Finish(ghost ttl: int, ghost tries: nat, id: string, token: nat, failed: Option<Reason>)
      returns (outcome: Outcome)
      requires Valid()
      requires At(token, id, ttl, tries,
                  if failed.None? then Winning else Losing(MapAcquireErr(failed.value.contextDone, failed.value.raw)))
      modifies cluster`db, cluster`run, cluster`now, cluster.members
      ensures Valid() && old(cluster.run) <= cluster.run
      ensures outcome == if failed.None? then Success
        else Failure(MapAcquireErr(failed.value.contextDone, failed.value.raw))
      ensures At(token, id, ttl, tries, if failed.None? then Acquired else Failed(outcome.error))
      ensures if failed.None?
        then token in cluster.now.held && id in mutexes && mutexes[id] == Mutex(prefix + id, token)
        else id !in mutexes
      ensures Traffic(cluster.run, token) == Traffic(old(cluster.run), token)
    {
      Yield(Acquiring(token));
      var error := if failed.None? then None else Some(MapAcquireErr(failed.value.contextDone, failed.value.raw));
      SettleSlot(ttl, tries, id, token, error);
      outcome := if error.None? then Success else Failure(error.value);
    }

    /** The i-th action of the run is the LoadOrStore of the acquire, and it found the slot occupied or free. */
    ghost predicate Found(i: nat, token: nat, id: string, occupied: bool)
      reads this, cluster
    {
      && i < |cluster.run| && cluster.run[i] == Reserve(token)
      && SlotAt(Replay(cluster.start, cluster.run[..i]), number, id).Some? == occupied
    }

    /** The checks and the reservation at the beginning of an acquire. */
    method Enter(id: string, ttl: int, tries: nat, token: nat) returns (error: Option<LockError>, ghost i: nat)
      requires Valid() && tries >= 1 && token !in cluster.now.calls
      modifies cluster`db, cluster`run, cluster`now, cluster.members
      ensures Valid() && old(cluster.run) <= cluster.run
      ensures At(token, id, ttl, tries, if error.Some? then Failed(error.value) else Trying(tries))
      ensures cluster.now.calls[token].began == old(cluster.db.now)
      ensures old(closed) || ttl <= 0 ==>
        && error == Some(if old(closed) then Closed else NotAcquired)
        && mutexes == old(mutexes) && cluster.db == old(cluster.db)
      ensures !old(closed) && ttl > 0 ==>
        && |old(cluster.run)| <= i && Found(i, token, id, error.Some?)
        && (error.Some? ==> error == Some(NotAcquired))
      ensures Traffic(cluster.run, token) == Traffic(old(cluster.run), token)
    {
      i := 0;
      error := CheckClosed(id, ttl, tries, token);
      ghost var begun := cluster.run;
      if error.None? {
        Yield(Acquiring(token));
        i := |cluster.run|;
        ghost var before := cluster.run;
        var loaded := LoadOrStore(ttl, tries, id, token);
        assert cluster.run[..i] == before;
        BeganStays(begun, cluster.run, token);
        error := if loaded then Some(NotAcquired) else None;
      }
    }

    /** How an acquire ends. On success its mutex is in the map. After `sent` > 0 attempts that failed, the slot
        is free and the error is that of redsync; without an attempt the acquire was refused. Its section is
        counted from `began`. */
    ghost predicate Ended(
      before: seq<Net>, began: int, id: string, ttl: int, tries: nat, token: nat, weather: Weather, outcome: Outcome,
      sent: nat)
      reads this, cluster
    {
      && At(token, id, ttl, tries, if outcome.Success? then Acquired else Failed(outcome.error))
      && cluster.now.calls[token].began == began
      && sent <= tries
      && Sent(before, token, weather, if outcome.Success? && sent > 0 then 2 * sent - 1 else 2 * sent)
      && (sent > 0 ==> weather.GoesOn(sent - 1, tries))
      && match outcome
         case Success =>
           sent > 0 && token in cluster.now.held && id in mutexes && mutexes[id] == Mutex(prefix + id, token)
         case Failure(error) =>
           sent > 0 ==>
             && id !in mutexes && weather.Stop(sent, tries).Some? && Reported(weather.Stop(sent, tries).value, error)
    }

    /** The context's error comes first; a taken key and exhausted tries are the same to the caller. */
    ghost predicate Reported(r: Reason, error: LockError) {
      && (error == ContextDone <==> r.contextDone)
      && (error == NotAcquired <==> !r.contextDone && (r.raw == Taken || r.raw == TriesExhausted))
      && (error == Transport <==> !r.contextDone && r.raw == OtherError)
    }

    /** What follows the reservation. */
    method Contend(id: string, ttl: int, tries: nat, token: nat, weather: Weather)
      returns (outcome: Outcome, ghost sent: nat)
      requires Valid() && tries >= 1 && At(token, id, ttl, tries, Trying(tries))
      modifies cluster`db, cluster`run, cluster`now, cluster.members
      ensures Valid() && old(cluster.run) <= cluster.run
      ensures Ended(old(Traffic(cluster.run, token)), old(cluster.now.calls[token].began), id, ttl, tries, token,
                    weather, outcome, sent)
      ensures sent > 0
    {
      ghost var before := cluster.run;
      var failed;
      failed, sent := Redsync(id, ttl, tries, token, weather);
      outcome := Finish(ttl, tries, id, token, failed);
      BeganStays(before, cluster.run, token);
    }

    /** The beginning of an acquire stays what it was. */
    lemma {:induction false} BeganStays(before: seq<Step>, run: seq<Step>, c: nat)
      requires before <= run && c in Replay(cluster.start, before).calls
      ensures c in Replay(cluster.start, run).calls
      ensures Replay(cluster.start, run).calls[c].began == Replay(cluster.start, before).calls[c].began
      decreases |run|
    {
      if before == run {
        return;
      }
      var most := run[..|run| - 1];
      BeganStays(before, most, c);
      NextKeepsCall(Replay(cluster.start, most), run[|run| - 1], c);
    }

    lemma SamePast(a: seq<Step>, b: seq<Step>, i: nat)
      requires a <= b && i < |a|
      ensures i < |b| && a[i] == b[i] && a[..i] == b[..i]
    {
    }

    /** acquire: `token` is the identity of this call and the random value redsync draws for it. Whatever
        runs in between, the call ends as this acquire of a run of the protocol, with the outcome returned. It
        is refused, without a command sent, if the locker was closed, if the ttl is not positive, and
        otherwise exactly if LoadOrStore found the slot occupied. */
    method Acquire(id: string, ttl: int, tries: nat, token: nat, weather: Weather)
      returns (outcome: Outcome, ghost sent: nat, ghost i: nat)
      requires Valid() && tries >= 1 && token !in cluster.now.calls
      modifies cluster`db, cluster`run, cluster`now, cluster.members
      ensures Valid() && old(cluster.run) <= cluster.run
      ensures Ended(
        old(Traffic(cluster.run, token)), old(cluster.db.now), id, ttl, tries, token, weather, outcome, sent)
      ensures old(closed) || ttl <= 0 ==>
        && outcome == Failure(if old(closed) then Closed else NotAcquired) && sent == 0
        && mutexes == old(mutexes) && cluster.db == old(cluster.db)
      ensures !old(closed) && ttl > 0 ==>
        && |old(cluster.run)| <= i && Found(i, token, id, sent == 0)
        && (sent == 0 ==> outcome == Failure(NotAcquired))
    {
      var refused;
      refused, i := Enter(id, ttl, tries, token);
      if refused.Some? {
        return Failure(refused.value), 0, i;
      }
      ghost var before := cluster.run;
      outcome, sent := Contend(id, ttl, tries, token, weather);
      SamePast(before, cluster.run, i);
    }

    method TryLock(id: string, ttl: int, token: nat, weather: Weather)
      returns (outcome: Outcome, ghost sent: nat, ghost i: nat)
      requires Valid() && token !in cluster.now.calls
      modifies cluster`db, cluster`run, cluster`now, cluster.members
      ensures Valid() && old(cluster.run) <= cluster.run
      ensures Ended(
        old(Traffic(cluster.run, token)), old(cluster.db.now), id, ttl, 1, token, weather, outcome, sent)
      ensures old(closed) || ttl <= 0 ==>
        && outcome == Failure(if old(closed) then Closed else NotAcquired) && sent == 0
        && mutexes == old(mutexes) && cluster.db == old(cluster.db)
      ensures !old(closed) && ttl > 0 ==>
        && |old(cluster.run)| <= i && Found(i, token, id, sent == 0)
        && (sent == 0 ==> outcome == Failure(NotAcquired))
    {
      outcome, sent, i := Acquire(id, ttl, 1, token, weather);
    }

    method Lock(id: string, ttl: int, token: nat, weather: Weather)
      returns (outcome: Outcome, ghost sent: nat, ghost i: nat)
      requires Valid() && token !in cluster.now.calls
      modifies cluster`db, cluster`run, cluster`now, cluster.members
      ensures Valid() && old(cluster.run) <= cluster.run
      ensures Ended(
        old(Traffic(cluster.run, token)), old(cluster.db.now), id, ttl, defaultTries, token, weather, outcome, sent)
      ensures old(closed) || ttl <= 0 ==>
        && outcome == Failure(if old(closed) then Closed else NotAcquired) && sent == 0
        && mutexes == old(mutexes) && cluster.db == old(cluster.db)
      ensures !old(closed) && ttl > 0 ==>
        && |old(cluster.run)| <= i && Found(i, token, id, sent == 0)
        && (sent == 0 ==> outcome == Failure(NotAcquired))
    {
      outcome, sent, i := Acquire(id, ttl, defaultTries, token, weather);
    }

    // -------------------------------------------------------------- unlock

    ghost predicate UnlockAt(u: nat, id: string, pc: UnlockPc)
      reads this, cluster
    {
      u in cluster.now.unlocks && cluster.now.unlocks[u] == Unlocking(number, id, pc)
    }

    method LoadAndDelete(id: string, ghost u: nat) returns (mu: Option<Mutex>)
      requires Valid() && u !in cluster.now.unlocks
      modifies this`mutexes, cluster`run, cluster`now
      ensures Valid() && old(cluster.run) <= cluster.run
      ensures mutexes == old(mutexes) - {id}
      ensures mu == if id in old(mutexes) then Some(old(mutexes)[id]) else None
      ensures UnlockAt(u, id, if mu.None? || IsPlaceholder(mu.value) then Done(Failure(NotHeld)) else Remote(mu.value))
    {
      cluster.Log(LockProtocol.Unlock(u, number, id));
      mu := if id in mutexes then Some(mutexes[id]) else None;
      mutexes := mutexes - {id};
    }

    /** What an unlock that reached redsync reports, by what Redis holds when it gets there. */
    ghost predicate UnlockTold(db: Db<nat>, mu: Mutex, net: Net, taken: bool, outcome: Outcome) {
      if net != Answered then outcome == Failure(Transport)
      else if Look(db, mu.name).None? then outcome == Failure(Expired)
      else if Look(db, mu.name).value.value == mu.owner then outcome == Success
      else outcome == Failure(if taken then Transport else NotHeld)
    }

    /** redsync's UnlockContext and the mapping of its errors. */
    method UnlockContext(ghost id: string, ghost u: nat, mu: Mutex, net: Net, taken: bool) returns (outcome: Outcome)
      requires Valid() && UnlockAt(u, id, Remote(mu))
      modifies cluster`db, cluster`run, cluster`now
      ensures Valid() && cluster.run == old(cluster.run) + [UnlockRemote(u, net, taken)]
      ensures UnlockAt(u, id, Done(outcome))
      ensures UnlockTold(old(cluster.db), mu, net, taken, outcome)
      ensures cluster.db == if net.Unsent? then old(cluster.db) else CompareDelete(old(cluster.db), mu.name, mu.owner).0
    {
      cluster.Log(UnlockRemote(u, net, taken));
      outcome := Failure(Transport);
      if net != Unsent {
        var (db, reply) := CompareDelete(cluster.db, mu.name, mu.owner);
        cluster.db := db;
        if net == Answered {
          outcome := UnlockOutcome(reply, taken);
        }
      }
    }

    method Unlock(id: string, ghost u: nat, net: Net, taken: bool) returns (outcome: Outcome)
      requires Valid() && u !in cluster.now.unlocks
      modifies cluster`db, cluster`run, cluster`now, cluster.members
      ensures Valid() && old(cluster.run) <= cluster.run
      ensures UnlockAt(u, id, Done(outcome))
      ensures if id !in old(mutexes) || IsPlaceholder(old(mutexes)[id])
        then outcome == Failure(NotHeld) && mutexes == old(mutexes) - {id} && cluster.db == old(cluster.db)
        else
          && cluster.run != [] && cluster.run[|cluster.run| - 1] == UnlockRemote(u, net, taken)
          && UnlockTold(
               Replay(cluster.start, cluster.run[..|cluster.run| - 1]).db, old(mutexes)[id], net, taken, outcome)
    {
      var mu := LoadAndDelete(id, u);
      if mu.None? || IsPlaceholder(mu.value) {
        return Failure(NotHeld);
      }
      Yield(Releaser(u));
      ghost var past := cluster.run;
      outcome := UnlockContext(id, u, mu.value, net, taken);
      assert cluster.run[..|past|] == past;
    }

    // -------------------------------------------------------------- close

    ghost predicate CloseAt(k: nat, flight: set<nat>, pc: ClosePc)
      reads this, cluster
    {
      k in cluster.now.closes && cluster.now.closes[k] == Closing(number, flight, pc)
    }

    method CompareAndSwap(ghost k: nat) returns (won: bool)
      requires Valid() && k !in cluster.now.closes
      modifies this`closed, cluster`run, cluster`now
      ensures Valid() && cluster.run == old(cluster.run) + [CloseFlip(k, number)]
      ensures won == !old(closed) && closed
      ensures CloseAt(k, old(Flight(cluster.now, number)), if won then Flipped else Returned(false))
    {
      cluster.Log(CloseFlip(k, number));
      won := !closed;
      closed := true;
    }

    /** Range begins; the entries there now are visited unless they go away by themselves. */
    method Range(ghost k: nat, ghost flight: set<nat>) returns (todo: set<string>)
      requires Valid() && CloseAt(k, flight, Flipped)
      modifies cluster`run, cluster`now
      ensures Valid() && old(cluster.run) <= cluster.run
      ensures todo == mutexes.Keys && CloseAt(k, flight, Draining(todo))
    {
      cluster.Log(CloseRange(k));
      todo := mutexes.Keys;
    }

    method Drop(ghost k: nat, ghost flight: set<nat>, id: string, ghost todo: set<string>)
      requires Valid() && CloseAt(k, flight, Draining(todo))
      modifies this`mutexes, cluster`run, cluster`now
      ensures Valid() && old(cluster.run) <= cluster.run
      ensures mutexes == old(mutexes) - {id} && CloseAt(k, flight, Draining(todo - {id}))
    {
      cluster.Log(CloseDrop(k, id));
      mutexes := mutexes - {id};
    }

    method Return(ghost k: nat, ghost flight: set<nat>)
      requires Valid() && CloseAt(k, flight, Draining({}))
      modifies this`clientCloses, cluster`run, cluster`now
      ensures Valid() && old(cluster.run) <= cluster.run && CloseAt(k, flight, Returned(true))
      ensures clientCloses == old(clientCloses) + if closeClient then 1 else 0
    {
      cluster.Log(CloseReturn(k));
      if closeClient {
        clientCloses := clientCloses + 1;
      }
    }

    /** Close: the one call that flips the flag drops the entries it finds, one at a time, and closes an owned
        client. Entries left belong to acquires that were in flight when it flipped the flag. Any other call
        does nothing. */
    method Close(ghost k: nat)
      requires Valid() && k !in cluster.now.closes
      modifies cluster`db, cluster`run, cluster`now, cluster.members
      ensures Valid() && closed && old(cluster.run) <= cluster.run
      ensures CloseAt(k, old(Flight(cluster.now, number)), Returned(!old(closed)))
      ensures old(closed) ==>
        && cluster.run == old(cluster.run) + [CloseFlip(k, number)] && cluster.db == old(cluster.db)
        && mutexes == old(mutexes) && clientCloses == old(clientCloses)
      ensures !old(closed) ==>
        && clientCloses == (if closeClient then 1 else 0)
        && forall id :: id in mutexes ==>
             var c, before := mutexes[id].owner, old(cluster.now.calls);
             c in before && before[c].locker == number && !Back(before[c])
    {
      ghost var flight := Flight(cluster.now, number);
      var won := CompareAndSwap(k);
      if !won {
        return;
      }
      Yield(Closer(k));
      Drain(k, flight);
      Return(k, flight);
      AfterClose(k, flight);
    }

    method Drain(ghost k: nat, ghost flight: set<nat>)
      requires Valid() && CloseAt(k, flight, Flipped)
      modifies cluster`db, cluster`run, cluster`now, cluster.members
      ensures Valid() && old(cluster.run) <= cluster.run && CloseAt(k, flight, Draining({}))
    {
      var todo := Range(k, flight);
      while todo != {}
        invariant Valid() && old(cluster.run) <= cluster.run && CloseAt(k, flight, Draining(todo))
        decreases |todo|
      {
        Yield(Closer(k));
        var id :| id in todo;
        Drop(k, flight, id, todo);
        todo := todo - {id};
      }
    }

    lemma AfterClose(k: nat, flight: set<nat>)
      requires Valid() && CloseAt(k, flight, Returned(true))
      ensures closed && clientCloses == if closeClient then 1 else 0
      ensures forall id :: id in mutexes ==> mutexes[id].owner in flight
    {
      assert cluster.Mirrors(this);
      CloseInvReplay(cluster.start, cluster.run, k);
      ClientClosedAtMostOnce(cluster.start, cluster.run, number);
      assert k in Closers(cluster.now, number);
      forall id | id in mutexes ensures mutexes[id].owner in flight {
        assert SlotAt(cluster.now, number, id) == Some(mutexes[id]);
      }
    }
  }

  /** The theorems about runs hold of the objects: whatever these methods and their environment did to a
      cluster, two acquires of one key are never inside their sections at once. */
  lemma {:induction false} ObjectsExclude(cluster: Cluster, c1: nat, c2: nat)
    requires cluster.Valid()
    requires InSection(cluster.now, c1) && InSection(cluster.now, c2)
    requires cluster.now.calls[c1].key == cluster.now.calls[c2].key
    ensures c1 == c2
  {
    Exclusion(cluster.start, cluster.run, c1, c2);
  }
}
