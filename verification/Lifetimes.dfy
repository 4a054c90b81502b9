/**
 What the writers leave in Redis, and until when: each key answers with what was written from the moment of
 the write until its ttl has passed, and not a moment longer; other keys are not touched.
 */
module Lifetimes {
  import opened Wrappers
  import opened Redis
  import opened CacheOptions
  import opened CacheCommands
  import opened Bulk
  import opened Hashes

  /** The key holds the value for the ttl from now on, and then nothing. */
  ghost predicate HoldsFor(db: Db<CacheValue>, key: string, value: CacheValue, ttl: int) {
    forall time: nat ::
      if time < ttl then Look(Tick(db, time), key).Some? && Look(Tick(db, time), key).value.value == value
      else Look(Tick(db, time), key).None?
  }

  lemma ItemHoldsFor(db: Db<CacheValue>, key: string, value: CacheValue, ttl: int)
    requires ttl >= 1 && Look(db, key) == Some(Item(value, Some(db.now + ttl)))
    ensures HoldsFor(db, key, value, ttl)
  {
  }

  lemma {:induction false} ExecOne(db: Db<CacheValue>, cmd: Cmd)
    ensures ExecAll(db, [cmd]) == Exec(db, cmd)
  {
    ExecAllExtends(db, [], cmd);
    assert [] + [cmd] == [cmd];
  }

  lemma {:induction false} ExecPair(db: Db<CacheValue>, cmds: seq<Cmd>)
    requires |cmds| == 2
    ensures ExecAll(db, cmds) == Exec(Exec(db, cmds[0]), cmds[1])
  {
    ExecAllPrefix(db, cmds, 0);
    ExecAllPrefix(db, cmds, 1);
    assert cmds[..0] == [] && cmds[..2] == cmds;
  }

  /** Set. */
  lemma {:induction false} SetLasts(db: Db<CacheValue>, key: string, bytes: string, ttl: int, other: string)
    requires ttl >= 1
    ensures HoldsFor(ExecAll(db, SetCmds(key, bytes, ttl)), key, Text(bytes), ttl)
    ensures other != key ==> Look(ExecAll(db, SetCmds(key, bytes, ttl)), other) == Look(db, other)
  {
    ExecOne(db, CmdSet(key, bytes, ttl));
    ItemHoldsFor(ExecAll(db, SetCmds(key, bytes, ttl)), key, Text(bytes), ttl);
  }

  /** SetMultiple: the last write of a key decides what it holds and, with the jitter drawn for that write,
      until when. */
  lemma {:induction false} SetMultipleLasts(db: Db<CacheValue>, writes: seq<TextWrite>, ttl: int, i: nat)
    requires i < |writes| && ApplyJitter(ttl, writes[i].draw) >= 1
    requires forall j :: i < j < |writes| ==> writes[j].key != writes[i].key
    ensures HoldsFor(
      ExecAll(db, SetMultipleCmds(writes, ttl)), writes[i].key, Text(writes[i].bytes), ApplyJitter(ttl, writes[i].draw))
  {
    SetItem(db, writes, ttl, i);
    ItemHoldsFor(ExecAll(db, SetMultipleCmds(writes, ttl)), writes[i].key, Text(writes[i].bytes),
      ApplyJitter(ttl, writes[i].draw));
  }

  lemma {:induction false} SetItem(db: Db<CacheValue>, writes: seq<TextWrite>, ttl: int, i: nat)
    requires i < |writes| && ApplyJitter(ttl, writes[i].draw) >= 1
    requires forall j :: i < j < |writes| ==> writes[j].key != writes[i].key
    ensures var after := ExecAll(db, SetMultipleCmds(writes, ttl));
      && after.now == db.now
      && Look(after, writes[i].key) ==
           Some(Item(Text(writes[i].bytes), Some(db.now + ApplyJitter(ttl, writes[i].draw))))
    decreases |writes|
  {
    var n := |writes| - 1;
    OneMoreSet(db, writes, ttl);
    SetsKeepTime(db, writes[..n], ttl);
    if i < n {
      SetItem(db, writes[..n], ttl, i);
    }
  }

  lemma {:induction false} SetsKeepTime(db: Db<CacheValue>, writes: seq<TextWrite>, ttl: int)
    ensures ExecAll(db, SetMultipleCmds(writes, ttl)).now == db.now
    decreases |writes|
  {
    if writes != [] {
      OneMoreSet(db, writes, ttl);
      SetsKeepTime(db, writes[..|writes| - 1], ttl);
    } else {
      assert SetMultipleCmds(writes, ttl) == [];
    }
  }

  /** SetMember: the set holds the members it had and the new ones. */
  lemma {:induction false} SetMemberLasts(
    db: Db<CacheValue>, key: string, members: set<string>, ttl: int, draw: real, other: string)
    requires ApplyJitter(ttl, draw) >= 1 && (Live(db, key) ==> Look(db, key).value.value.Members?)
    ensures var after := ExecAll(db, SetMemberCmds(key, members, ttl, draw));
      && HoldsFor(after, key, Members(MembersAt(db, key) + members), ApplyJitter(ttl, draw))
      && (other != key ==> Look(after, other) == Look(db, other))
  {
    ExecPair(db, SetMemberCmds(key, members, ttl, draw));
    assert {} + members == members;
    ItemHoldsFor(ExecAll(db, SetMemberCmds(key, members, ttl, draw)), key, Members(MembersAt(db, key) + members),
      ApplyJitter(ttl, draw));
  }

  function MembersAt(db: Db<CacheValue>, key: string): (members: set<string>)
    ensures Live(db, key) && Look(db, key).value.value.Members? ==> Look(db, key).value.value == Members(members)
    ensures !Live(db, key) ==> members == {}
  {
    if Live(db, key) && Look(db, key).value.value.Members? then Look(db, key).value.value.members else {}
  }

  /** HSet and HMSetPipelined: the hash holds the fields it had with the new ones laid over them. */
  lemma {:induction false} HMSetLasts(db: Db<CacheValue>, writes: seq<HashWrite>, ttl: int, i: nat)
    requires DistinctKeys(writes) && i < |writes| && ApplyJitter(ttl, writes[i].draw) >= 1
    requires HashOrAbsent(db, writes[i].key)
    ensures HoldsFor(ExecAll(db, HMSetCmds(writes, ttl)), writes[i].key,
      Hash(HashAt(db, writes[i].key) + writes[i].fields), ApplyJitter(ttl, writes[i].draw))
  {
    HMSetEffect(db, writes, ttl, i);
    ItemHoldsFor(ExecAll(db, HMSetCmds(writes, ttl)), writes[i].key,
      Hash(HashAt(db, writes[i].key) + writes[i].fields), ApplyJitter(ttl, writes[i].draw));
  }

  lemma {:induction false} HSetLasts(db: Db<CacheValue>, w: HashWrite, ttl: int, other: string)
    requires ApplyJitter(ttl, w.draw) >= 1 && HashOrAbsent(db, w.key)
    ensures HoldsFor(
      ExecAll(db, HSetCmds(w, ttl)), w.key, Hash(HashAt(db, w.key) + w.fields), ApplyJitter(ttl, w.draw))
    ensures other != w.key ==> Look(ExecAll(db, HSetCmds(w, ttl)), other) == Look(db, other)
  {
    HSetEffect(db, w, ttl);
    HSetKeepsTime(db, w, ttl);
    ExecPair(db, HSetCmds(w, ttl));
    ItemHoldsFor(
      ExecAll(db, HSetCmds(w, ttl)), w.key, Hash(HashAt(db, w.key) + w.fields), ApplyJitter(ttl, w.draw));
    if other != w.key {
      ExecUntouched(db, HSetCmds(w, ttl)[0], other);
      ExecUntouched(Exec(db, HSetCmds(w, ttl)[0]), HSetCmds(w, ttl)[1], other);
    }
  }
}
