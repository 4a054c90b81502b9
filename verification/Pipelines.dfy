/**
 No immortal key. Clients send pipelines whose commands run one at a time, interleaved with those of
 other clients; a connection may be cut with commands unsent. The writers of the cache create keys
 without an expiry and give them one later in the same pipeline.
 */
module Pipelines {
  import opened Wrappers
  import opened Redis
  import opened CacheOptions
  import opened CacheCommands
  import opened Hashes

  /** `cut` are the keys whose EXPIRE was lost with a connection. */
  datatype System = System(db: Db<CacheValue>, pending: map<nat, seq<Cmd>>, cut: set<string>)

  datatype Event =
    | Elapse(time: nat)
    | Submit(client: nat, cmds: seq<Cmd>)
    | Run(client: nat)
    | Cut(client: nat)

  predicate Expires(cmd: Cmd, key: string) {
    (cmd.CmdExpire? || cmd.CmdExpireNX?) && cmd.key == key
  }

  predicate MayCreate(cmd: Cmd) {
    cmd.CmdHSet? || cmd.CmdSAdd? || cmd.CmdIncr?
  }

  predicate Creates(cmd: Cmd, key: string) {
    MayCreate(cmd) && cmd.key == key
  }

  function ExpiryKeys(cmds: seq<Cmd>): set<string> {
    set i | 0 <= i < |cmds| && (cmds[i].CmdExpire? || cmds[i].CmdExpireNX?) :: cmds[i].key
  }

  function Next(s: System, e: Event): System {
    match e
    case Elapse(time) => s.(db := Tick(s.db, time))
    case Submit(c, cmds) =>
      if c in s.pending && s.pending[c] != [] then s else s.(pending := s.pending[c := cmds])
    case Run(c) =>
      if c !in s.pending || s.pending[c] == [] then s
      else s.(db := Exec(s.db, s.pending[c][0]), pending := s.pending[c := s.pending[c][1..]])
    case Cut(c) =>
      if c !in s.pending then s
      else s.(pending := s.pending[c := []], cut := s.cut + ExpiryKeys(s.pending[c]))
  }

  function Replay(s: System, run: seq<Event>): System
    decreases |run|
  {
    if run == [] then s else Next(Replay(s, run[..|run| - 1]), run[|run| - 1])
  }

  // ---------------------------------------------------------------- safe pipelines

  predicate ExpiresFrom(cmds: seq<Cmd>, from: nat, key: string) {
    exists i :: from <= i < |cmds| && Expires(cmds[i], key)
  }

  predicate SafeAt(cmds: seq<Cmd>, i: nat, key: string)
    requires i < |cmds|
  {
    && (Creates(cmds[i], key) ==> ExpiresFrom(cmds, i + 1, key))
    && (cmds[i].CmdSet? && cmds[i].key == key ==> cmds[i].ttl >= 1)
  }

  /** Every command that can create the key without an expiry is followed by one that sets it. */
  predicate SafeFor(cmds: seq<Cmd>, key: string) {
    forall i :: 0 <= i < |cmds| ==> SafeAt(cmds, i, key)
  }

  ghost predicate Safe(cmds: seq<Cmd>) {
    forall key :: SafeFor(cmds, key)
  }

  lemma SafeTail(cmds: seq<Cmd>, key: string)
    requires SafeFor(cmds, key) && cmds != []
    ensures SafeFor(cmds[1..], key)
  {
    forall i | 0 <= i < |cmds| - 1 ensures SafeAt(cmds[1..], i, key) {
      assert SafeAt(cmds, i + 1, key) && cmds[1..][i] == cmds[i + 1];
      if Creates(cmds[i + 1], key) {
        var j :| i + 2 <= j < |cmds| && Expires(cmds[j], key);
        assert Expires(cmds[1..][j - 1], key);
      }
    }
  }

  lemma SafeConcat(a: seq<Cmd>, b: seq<Cmd>, key: string)
    requires SafeFor(a, key) && SafeFor(b, key)
    ensures SafeFor(a + b, key)
  {
    forall i | 0 <= i < |a + b| ensures SafeAt(a + b, i, key) {
      if i < |a| {
        assert SafeAt(a, i, key);
        if Creates(a[i], key) {
          var j :| i + 1 <= j < |a| && Expires(a[j], key);
          assert Expires((a + b)[j], key);
        }
      } else {
        assert SafeAt(b, i - |a|, key);
        if Creates(b[i - |a|], key) {
          var j :| i - |a| + 1 <= j < |b| && Expires(b[j], key);
          assert Expires((a + b)[j + |a|], key);
        }
      }
    }
  }

  // ---------------------------------------------------------------- what one command does to immortality

  /** A command leaves a key immortal only if it was so before or the command created it. */
  lemma ExecPersistent(db: Db<CacheValue>, cmd: Cmd, key: string)
    requires cmd.CmdSet? && cmd.key == key ==> cmd.ttl >= 1
    requires Persistent(Exec(db, cmd), key)
    ensures Persistent(db, key) || Creates(cmd, key)
    ensures !Expires(cmd, key)
  {
  }

  // ---------------------------------------------------------------- the invariant

  /** Some client still has to send an expiry for the key. */
  ghost predicate ExpiryPending(s: System, key: string) {
    exists c :: c in s.pending && ExpiresFrom(s.pending[c], 0, key)
  }

  ghost predicate Inv(s: System, key: string) {
    && (forall c :: c in s.pending ==> SafeFor(s.pending[c], key))
    && (Persistent(s.db, key) ==> key in s.cut || ExpiryPending(s, key))
  }

  lemma PendingStays(s: System, e: Event, key: string)
    requires ExpiryPending(s, key)
    ensures ExpiryPending(Next(s, e), key) || key in Next(s, e).cut
      || (e.Run? && e.client in s.pending && s.pending[e.client] != [] && Expires(s.pending[e.client][0], key))
  {
    var c :| c in s.pending && ExpiresFrom(s.pending[c], 0, key);
    var i :| 0 <= i < |s.pending[c]| && Expires(s.pending[c][i], key);
    if e == Run(c) {
      if i > 0 {
        assert Expires(Next(s, e).pending[c][i - 1], key);
      }
    } else if e != Cut(c) {
      assert Next(s, e).pending[c] == s.pending[c];
    }
  }

  lemma InvNext(s: System, e: Event, key: string)
    requires Inv(s, key) && (e.Submit? ==> SafeFor(e.cmds, key))
    ensures Inv(Next(s, e), key)
  {
    var s' := Next(s, e);
    forall c | c in s'.pending ensures SafeFor(s'.pending[c], key) {
      if e == Run(c) && s.pending[c] != [] {
        SafeTail(s.pending[c], key);
      }
    }
    if Persistent(s'.db, key) {
      ImmortalNext(s, e, key);
    }
  }

  lemma ImmortalNext(s: System, e: Event, key: string)
    requires Inv(s, key) && Persistent(Next(s, e).db, key)
    ensures key in Next(s, e).cut || ExpiryPending(Next(s, e), key)
  {
    if e.Run? && e.client in s.pending && s.pending[e.client] != [] {
      var cmds := s.pending[e.client];
      assert SafeFor(cmds, key) && SafeAt(cmds, 0, key);
      ExecPersistent(s.db, cmds[0], key);
      if Creates(cmds[0], key) {
        var i :| 1 <= i < |cmds| && Expires(cmds[i], key);
        assert Expires(Next(s, e).pending[e.client][i - 1], key);
        return;
      }
    }
    assert Persistent(s.db, key);
    if key !in s.cut {
      PendingStays(s, e, key);
    }
  }

  /** Every pipeline sent in the run is safe for the key; what it does to other keys is open. */
  predicate SafeRun(run: seq<Event>, key: string) {
    forall i :: 0 <= i < |run| && run[i].Submit? ==> SafeFor(run[i].cmds, key)
  }

  lemma {:induction false} InvReplay(s: System, run: seq<Event>, key: string)
    requires Inv(s, key) && SafeRun(run, key)
    ensures Inv(Replay(s, run), key)
    decreases |run|
  {
    if run != [] {
      InvReplay(s, run[..|run| - 1], key);
      InvNext(Replay(s, run[..|run| - 1]), run[|run| - 1], key);
    }
  }

  // ---------------------------------------------------------------- the theorems

  predicate Quiescent(s: System) {
    forall c :: c in s.pending ==> s.pending[c] == []
  }

  /** After any interleaving of pipelines safe for a key, cut connections included and on any database in which
      that key was not immortal, a key without an expiry either has one pending in some client or lost it with
      a connection; at quiescence only the latter is left. */
  lemma {:induction false} NoImmortalKey(s: System, run: seq<Event>, key: string)
    requires s.pending == map[] && s.cut == {} && !Persistent(s.db, key) && SafeRun(run, key)
    requires Persistent(Replay(s, run).db, key)
    ensures key in Replay(s, run).cut || (ExpiryPending(Replay(s, run), key) && !Quiescent(Replay(s, run)))
  {
    InvReplay(s, run, key);
  }

  lemma {:induction false} LatestExpiry(items: map<string, Item<CacheValue>>, keys: set<string>) returns (latest: int)
    requires keys <= items.Keys
    ensures forall k :: k in keys && items[k].expiry.Some? ==> items[k].expiry.value <= latest
    decreases |keys|
  {
    latest := 0;
    if keys != {} {
      var k :| k in keys;
      var rest := LatestExpiry(items, keys - {k});
      latest := if items[k].expiry.Some? && items[k].expiry.value > rest then items[k].expiry.value else rest;
    }
  }

  /** So once every pipeline ran to its end, there is a time after which only keys are left that were immortal
      to begin with, that lost their expiry with a connection, or that other clients wrote unsafely. */
  lemma {:induction false} EveryKeyExpires(s: System, run: seq<Event>) returns (latest: int)
    requires s.pending == map[] && s.cut == {} && Quiescent(Replay(s, run))
    ensures forall time: nat, key ::
      && Replay(s, run).db.now + time >= latest
      && !Persistent(s.db, key) && SafeRun(run, key) && key !in Replay(s, run).cut
      ==> !Live(Tick(Replay(s, run).db, time), key)
  {
    var db := Replay(s, run).db;
    latest := LatestExpiry(db.items, db.items.Keys);
    if latest < db.now {
      latest := db.now;
    }
    forall time: nat, key |
      && db.now + time >= latest && !Persistent(s.db, key) && SafeRun(run, key) && key !in Replay(s, run).cut
      ensures !Live(Tick(db, time), key)
    {
      if Live(Tick(db, time), key) {
        assert Persistent(db, key);
        NoImmortalKey(s, run, key);
      }
    }
  }

  // ---------------------------------------------------------------- the writers are safe

  /** A command that may create its key, and then one that expires it. */
  lemma PairIsSafe(cmds: seq<Cmd>)
    requires |cmds| == 2 && MayCreate(cmds[0]) && Expires(cmds[1], cmds[0].key)
    ensures Safe(cmds)
  {
    forall key ensures SafeFor(cmds, key) {
      assert Creates(cmds[0], key) ==> Expires(cmds[1], key);
    }
  }

  lemma HSetIsSafe(w: HashWrite, ttl: int)
    ensures Safe(HSetCmds(w, ttl))
  {
    PairIsSafe(HSetCmds(w, ttl));
  }

  lemma {:induction false} HMSetIsSafe(writes: seq<HashWrite>, ttl: int)
    ensures Safe(HMSetCmds(writes, ttl))
    decreases |writes|
  {
    if writes != [] {
      var most, last := HMSetCmds(writes[..|writes| - 1], ttl), HSetCmds(writes[|writes| - 1], ttl);
      HMSetIsSafe(writes[..|writes| - 1], ttl);
      HSetIsSafe(writes[|writes| - 1], ttl);
      forall key ensures SafeFor(most + last, key) {
        assert SafeFor(most, key) && SafeFor(last, key);
        SafeConcat(most, last, key);
      }
    }
  }

  lemma SetMemberIsSafe(key: string, members: set<string>, ttl: int, draw: real)
    ensures Safe(SetMemberCmds(key, members, ttl, draw))
  {
    PairIsSafe(SetMemberCmds(key, members, ttl, draw));
  }

  lemma CountersAreSafe(key: string, ttl: int)
    ensures Safe(IncrementCmds(key, ttl)) && Safe(IncrementFixedCmds(key, ttl))
  {
    PairIsSafe(IncrementCmds(key, ttl));
    PairIsSafe(IncrementFixedCmds(key, ttl));
  }

  /** Set does not jitter, so its ttl from GetExpire is enough. */
  lemma SetIsSafe(key: string, bytes: string, c: Config)
    ensures Safe(SetCmds(key, bytes, GetExpire(c)))
  {
  }

  predicate Drawn(writes: seq<TextWrite>) {
    forall i :: 0 <= i < |writes| ==> Draw(writes[i].draw)
  }

  /** SetMultiple jitters, and SET with an expiration truncated to 0 stores the key for ever: for all draws
      its pipeline is safe if and only if the ttl is at least 2ns. */
  lemma SetMultipleIsSafe(ttl: int)
    requires ttl > 0
    ensures (forall writes: seq<TextWrite> {:trigger Drawn(writes)} ::
               Drawn(writes) ==> Safe(SetMultipleCmds(writes, ttl)))
      <==> ttl >= 2
  {
    JitterKeepsPositive(ttl);
    if ttl >= 2 {
      forall writes: seq<TextWrite> | Drawn(writes) ensures Safe(SetMultipleCmds(writes, ttl)) {
        var cmds := SetMultipleCmds(writes, ttl);
        forall key, i | 0 <= i < |cmds| ensures SafeAt(cmds, i, key) {
          assert Draw(writes[i].draw);
        }
      }
    } else {
      var u :| Draw(u) && ApplyJitter(ttl, u) < 1;
      var writes := [TextWrite("k", "v", u)];
      assert Drawn(writes) && !SafeAt(SetMultipleCmds(writes, ttl), 0, "k");
      assert !SafeFor(SetMultipleCmds(writes, ttl), "k");
    }
  }

  // ---------------------------------------------------------------- the boundary

  /** A ttl truncated to 0 makes SET store an immortal key, while EXPIRE with it deletes the key. */
  lemma ZeroTtl(db: Db<CacheValue>, key: string, bytes: string)
    ensures Persistent(Exec(db, CmdSet(key, bytes, 0)), key)
    ensures !Live(Exec(db, CmdExpire(key, 0)), key)
  {
  }

  /** A connection cut between HSET and EXPIRE leaves an immortal key. */
  lemma CutPipelineLeavesImmortalKey(s: System, w: HashWrite, ttl: int, c: nat, time: nat)
    requires c !in s.pending && Look(s.db, w.key).None?
    ensures var after := Next(Next(Next(s, Submit(c, HSetCmds(w, ttl))), Run(c)), Cut(c));
      && w.key in after.cut && Persistent(Tick(after.db, time), w.key)
  {
    var s2 := Next(Next(s, Submit(c, HSetCmds(w, ttl))), Run(c));
    assert s2.pending[c] == HSetCmds(w, ttl)[1..] == [CmdExpire(w.key, ApplyJitter(ttl, w.draw))];
    assert s2.pending[c][0].key in ExpiryKeys(s2.pending[c]);
  }

  /** What `own` commands of a hash write make of its key. */
  lemma {:induction false} OwnPersistent(db: Db<CacheValue>, w: HashWrite, ttl: int, own: nat)
    requires own <= 2
    ensures Persistent(ExecAll(db, HSetCmds(w, ttl)[..own]), w.key) <==>
      match own
      case 0 => Persistent(db, w.key)
      case 1 => Look(db, w.key).None? || Persistent(db, w.key)
      case _ => false
  {
    var cmds := HSetCmds(w, ttl);
    if own > 0 {
      ExecAllPrefix(db, cmds, 0);
      AfterHSet(ExecAll(db, cmds[..0]), w, ttl);
    }
    if own > 1 {
      ExecAllPrefix(db, cmds, 1);
      AfterExpire(ExecAll(db, cmds[..1]), w, ttl);
    }
  }

  lemma AfterHSet(db: Db<CacheValue>, w: HashWrite, ttl: int)
    ensures Persistent(Exec(db, HSetCmds(w, ttl)[0]), w.key) <==> Look(db, w.key).None? || Persistent(db, w.key)
  {
  }

  lemma AfterExpire(db: Db<CacheValue>, w: HashWrite, ttl: int)
    ensures !Persistent(Exec(db, HSetCmds(w, ttl)[1]), w.key)
  {
  }

  /** A cut connection, exactly: after a pipeline of hash writes to distinct keys, cut anywhere or not at all, a
      key of it is immortal if and only if just the HSET of its own write ran and the key was absent or
      immortal before, or none of it ran and the key was immortal. */
  lemma {:induction false} ImmortalAfterCut(
    db: Db<CacheValue>, writes: seq<HashWrite>, ttl: int, delivery: Delivery, i: nat)
    requires DistinctKeys(writes) && i < |writes|
    ensures var key := writes[i].key;
      Persistent(Piped(db, HMSetCmds(writes, ttl), delivery), key) <==>
        match Own(Ran(delivery, 2 * |writes|), i)
        case 0 => Persistent(db, key)
        case 1 => Look(db, key).None? || Persistent(db, key)
        case _ => false
  {
    HMSetLength(writes, ttl);
    var n := Ran(delivery, 2 * |writes|);
    OwnCommands(db, writes, ttl, i, n);
    OwnPersistent(db, writes[i], ttl, Own(n, i));
  }

  /** The same for HSet, whose pipeline is that of a single write. */
  lemma {:induction false} HSetImmortalAfterCut(db: Db<CacheValue>, w: HashWrite, ttl: int, delivery: Delivery)
    ensures Persistent(Piped(db, HSetCmds(w, ttl), delivery), w.key) <==>
      match Ran(delivery, 2)
      case 0 => Persistent(db, w.key)
      case 1 => Look(db, w.key).None? || Persistent(db, w.key)
      case _ => false
  {
    OwnPersistent(db, w, ttl, Ran(delivery, 2));
  }
}
