/** The Redis commands the cache sends, and the pipelines its writers build from them. */
module CacheCommands {
  import opened Wrappers
  import opened Redis
  import opened CacheOptions

  datatype CacheValue =
    | Text(bytes: string)
    | Counter(count: int)
    | Hash(fields: map<string, string>)
    | Members(members: set<string>)

  datatype Cmd =
    | CmdSet(key: string, bytes: string, ttl: int)
    | CmdHSet(key: string, fields: map<string, string>)
    | CmdSAdd(key: string, members: set<string>)
    | CmdIncr(key: string)
    | CmdExpire(key: string, ttl: int)
    | CmdExpireNX(key: string, ttl: int)
    | CmdDel(keys: set<string>)

  /** A command on a key of another type is an error that changes nothing. */
  function Exec(db: Db<CacheValue>, cmd: Cmd): Db<CacheValue> {
    match cmd
    case CmdSet(key, bytes, ttl) => Redis.Set(db, key, Text(bytes), ttl)
    case CmdHSet(key, fields) =>
      var was := Look(db, key);
      if was.None? then Update(db, key, Hash(fields))
      else if was.value.value.Hash? then Update(db, key, Hash(was.value.value.fields + fields))
      else db
    case CmdSAdd(key, members) =>
      var was := Look(db, key);
      if was.None? then Update(db, key, Members(members))
      else if was.value.value.Members? then Update(db, key, Members(was.value.value.members + members))
      else db
    case CmdIncr(key) =>
      var was := Look(db, key);
      if was.None? then Update(db, key, Counter(1))
      else if was.value.value.Counter? then Update(db, key, Counter(was.value.value.count + 1))
      else db
    case CmdExpire(key, ttl) => Redis.Expire(db, key, ttl)
    case CmdExpireNX(key, ttl) => Redis.ExpireNX(db, key, ttl)
    case CmdDel(keys) => Remove(db, keys)
  }

  function ExecAll(db: Db<CacheValue>, cmds: seq<Cmd>): Db<CacheValue>
    decreases |cmds|
  {
    if cmds == [] then db else Exec(ExecAll(db, cmds[..|cmds| - 1]), cmds[|cmds| - 1])
  }

  /** The reply is an error because the key holds another type. */
  predicate Rejected(db: Db<CacheValue>, cmd: Cmd) {
    match cmd
    case CmdHSet(key, _) => Live(db, key) && !Look(db, key).value.value.Hash?
    case CmdSAdd(key, _) => Live(db, key) && !Look(db, key).value.value.Members?
    case CmdIncr(key) => Live(db, key) && !Look(db, key).value.value.Counter?
    case _ => false
  }

  predicate AnyRejected(db: Db<CacheValue>, cmds: seq<Cmd>)
    decreases |cmds|
  {
    cmds != [] && (AnyRejected(db, cmds[..|cmds| - 1]) || Rejected(ExecAll(db, cmds[..|cmds| - 1]), cmds[|cmds| - 1]))
  }

  lemma {:induction false} ExecAllExtends(db: Db<CacheValue>, cmds: seq<Cmd>, cmd: Cmd)
    ensures ExecAll(db, cmds + [cmd]) == Exec(ExecAll(db, cmds), cmd)
    ensures AnyRejected(db, cmds + [cmd]) <==> AnyRejected(db, cmds) || Rejected(ExecAll(db, cmds), cmd)
  {
    assert (cmds + [cmd])[..|cmds|] == cmds;
  }

  lemma {:induction false} ExecAllPrefix(db: Db<CacheValue>, cmds: seq<Cmd>, n: nat)
    requires n < |cmds|
    ensures ExecAll(db, cmds[..n + 1]) == Exec(ExecAll(db, cmds[..n]), cmds[n])
  {
    assert cmds[..n + 1] == cmds[..n] + [cmds[n]];
    ExecAllExtends(db, cmds[..n], cmds[n]);
  }

  lemma {:induction false} ExecAllConcat(db: Db<CacheValue>, a: seq<Cmd>, b: seq<Cmd>)
    ensures ExecAll(db, a + b) == ExecAll(ExecAll(db, a), b)
    decreases |b|
  {
    if b == [] {
      assert a + b == a;
    } else {
      assert (a + b)[..|a + b| - 1] == a + b[..|b| - 1];
      ExecAllConcat(db, a, b[..|b| - 1]);
    }
  }

  lemma {:induction false} AnyRejectedConcat(db: Db<CacheValue>, a: seq<Cmd>, b: seq<Cmd>)
    ensures AnyRejected(db, a + b) <==> AnyRejected(db, a) || AnyRejected(ExecAll(db, a), b)
    decreases |b|
  {
    if b == [] {
      assert a + b == a;
    } else {
      assert (a + b)[..|a + b| - 1] == a + b[..|b| - 1];
      AnyRejectedConcat(db, a, b[..|b| - 1]);
      ExecAllConcat(db, a, b[..|b| - 1]);
    }
  }

  /** What a command does to a key depends on that key and the clock alone. */
  lemma ExecIsLocal(a: Db<CacheValue>, b: Db<CacheValue>, cmd: Cmd, key: string)
    requires a.now == b.now && Look(a, key) == Look(b, key)
    ensures Exec(a, cmd).now == Exec(b, cmd).now == a.now && Look(Exec(a, cmd), key) == Look(Exec(b, cmd), key)
  {
  }

  predicate Touches(cmd: Cmd, key: string) {
    if cmd.CmdDel? then key in cmd.keys else cmd.key == key
  }

  lemma ExecUntouched(db: Db<CacheValue>, cmd: Cmd, key: string)
    requires !Touches(cmd, key)
    ensures Exec(db, cmd).now == db.now && Look(Exec(db, cmd), key) == Look(db, key)
  {
  }

  /** How a pipeline travels: to its end, or cut after some of its commands ran. */
  datatype Delivery = Delivered | Broken(sent: nat)

  /** How many of its commands run. */
  function Ran(delivery: Delivery, length: nat): (n: nat)
    ensures n <= length
  {
    if delivery.Broken? && delivery.sent < length then delivery.sent else length
  }

  /** What a pipeline leaves behind. */
  function Piped(db: Db<CacheValue>, cmds: seq<Cmd>, delivery: Delivery): Db<CacheValue> {
    ExecAll(db, cmds[..Ran(delivery, |cmds|)])
  }

  /** A pipeline that arrives runs as a whole; of a cut one the first commands run, as many as were sent. */
  lemma {:induction false} PipedMeans(db: Db<CacheValue>, cmds: seq<Cmd>, delivery: Delivery)
    ensures delivery.Delivered? ==> Piped(db, cmds, delivery) == ExecAll(db, cmds)
    ensures delivery.Broken? && delivery.sent < |cmds| ==>
      Piped(db, cmds, delivery) == ExecAll(db, cmds[..delivery.sent])
    ensures delivery.Broken? && delivery.sent >= |cmds| ==> Piped(db, cmds, delivery) == ExecAll(db, cmds)
  {
    assert cmds[..|cmds|] == cmds;
  }

  // ---------------------------------------------------------------- what the writers send

  /** A hash key and the marshalled fields to put there, with the draw for its jitter. */
  datatype HashWrite = HashWrite(key: string, fields: map<string, string>, draw: real)

  /** A string key and the bytes to put there, with the draw for its jitter. */
  datatype TextWrite = TextWrite(key: string, bytes: string, draw: real)

  function SetCmds(key: string, bytes: string, ttl: int): seq<Cmd> {
    [CmdSet(key, bytes, ttl)]
  }

  function SetMultipleCmds(writes: seq<TextWrite>, ttl: int): (cmds: seq<Cmd>)
    ensures |cmds| == |writes|
    ensures forall i :: 0 <= i < |writes| ==>
      cmds[i] == CmdSet(writes[i].key, writes[i].bytes, ApplyJitter(ttl, writes[i].draw))
  {
    seq(|writes|, i requires 0 <= i < |writes| =>
      CmdSet(writes[i].key, writes[i].bytes, ApplyJitter(ttl, writes[i].draw)))
  }

  function SetMemberCmds(key: string, members: set<string>, ttl: int, draw: real): seq<Cmd> {
    [CmdSAdd(key, members), CmdExpire(key, ApplyJitter(ttl, draw))]
  }

  function HSetCmds(w: HashWrite, ttl: int): seq<Cmd> {
    [CmdHSet(w.key, w.fields), CmdExpire(w.key, ApplyJitter(ttl, w.draw))]
  }

  function HMSetCmds(writes: seq<HashWrite>, ttl: int): seq<Cmd>
    decreases |writes|
  {
    if writes == [] then [] else HMSetCmds(writes[..|writes| - 1], ttl) + HSetCmds(writes[|writes| - 1], ttl)
  }

  function IncrementCmds(key: string, ttl: int): seq<Cmd> {
    [CmdIncr(key), CmdExpire(key, ttl)]
  }

  function IncrementFixedCmds(key: string, ttl: int): seq<Cmd> {
    [CmdIncr(key), CmdExpireNX(key, ttl)]
  }
}
