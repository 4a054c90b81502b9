/**
 Claim-once: any number of stores share one Redis and claim keys with SET NX PX. A run is any sequence
 of claims and clock steps; a claim may fail to reach Redis, or reach it and lose its reply.
 */
module Idempotency {
  import opened Wrappers
  import opened Redis

  datatype Event = Elapse(time: nat) | Claim(key: string, ttl: int, net: Net)

  function Next(db: Db<string>, e: Event): Db<string> {
    match e
    case Elapse(time) => Tick(db, time)
    case Claim(key, ttl, net) => if net.Unsent? then db else SetNX(db, key, "1", ttl).0
  }

  function Replay(db: Db<string>, run: seq<Event>): Db<string>
    decreases |run|
  {
    if run == [] then db else Next(Replay(db, run[..|run| - 1]), run[|run| - 1])
  }

  /** The database event i of the run acts on, and the clock then. */
  function Before(db: Db<string>, run: seq<Event>, i: nat): Db<string>
    requires i <= |run|
  {
    Replay(db, run[..i])
  }

  /** Event i sets the key, whether or not its sender learns of it. */
  predicate Sets(db: Db<string>, run: seq<Event>, i: nat, key: string) {
    && i < |run| && run[i].Claim? && run[i].key == key && !run[i].net.Unsent?
    && Look(Before(db, run, i), key).None?
  }

  /** Event i reports a won claim. */
  predicate Wins(db: Db<string>, run: seq<Event>, i: nat, key: string) {
    Sets(db, run, i, key) && run[i].net.Answered?
  }

  predicate TtlsAtLeast(run: seq<Event>, key: string, bound: int) {
    forall i :: 0 <= i < |run| && run[i].Claim? && run[i].key == key ==> run[i].ttl >= bound
  }

  /** Wins on the key at clock readings in lo..hi. */
  function CountWins(db: Db<string>, run: seq<Event>, key: string, lo: int, hi: int): nat
    decreases |run|
  {
    if run == [] then 0 else
    CountWins(db, run[..|run| - 1], key, lo, hi)
    + if Wins(db, run, |run| - 1, key) && lo <= Before(db, run, |run| - 1).now <= hi then 1 else 0
  }

  // ---------------------------------------------------------------- claim once

  lemma {:induction false} PrefixReplay(db: Db<string>, run: seq<Event>, i: nat, j: nat)
    requires i <= j <= |run|
    ensures Before(db, run, j) == Replay(Before(db, run, i), run[i..j])
    decreases j
  {
    if i == j {
      assert run[i..j] == [];
    } else {
      PrefixReplay(db, run, i, j - 1);
      assert run[..j][..j - 1] == run[..j - 1] && run[i..j][..j - 1 - i] == run[i..j - 1];
    }
  }

  /** A key that is set keeps its item until its expiry: no claim can replace it before. */
  lemma {:induction false} SetKeyStays(db: Db<string>, run: seq<Event>, key: string, until: int)
    requires key in db.items && db.items[key].expiry == Some(until)
    ensures db.now <= Replay(db, run).now
    ensures Replay(db, run).now < until ==> key in Replay(db, run).items && Replay(db, run).items[key] == db.items[key]
    decreases |run|
  {
    if run != [] {
      SetKeyStays(db, run[..|run| - 1], key, until);
    }
  }

  /** Two events that set one key are at least the earlier one's ttl apart. */
  lemma {:induction false} SetsApart(db: Db<string>, run: seq<Event>, key: string, i: nat, j: nat)
    requires Sets(db, run, i, key) && Sets(db, run, j, key) && i < j
    ensures Before(db, run, j).now >= Before(db, run, i).now + run[i].ttl
  {
    var after := Before(db, run, i + 1);
    assert run[..i + 1][..i] == run[..i];
    PrefixReplay(db, run, i + 1, j);
    SetKeyStays(after, run[i + 1..j], key, after.now + run[i].ttl);
  }

  /** Over any run of any number of stores, successive wins on a key are at least the earlier winner's ttl
      apart; a claim that was applied but whose reply was lost keeps others out just as long. */
  lemma {:induction false} WinsApart(db: Db<string>, run: seq<Event>, key: string, i: nat, j: nat)
    requires Sets(db, run, i, key) && Wins(db, run, j, key) && i < j
    ensures Before(db, run, j).now >= Before(db, run, i).now + run[i].ttl
  {
    SetsApart(db, run, key, i, j);
  }

  /** What a claim finds is the work of an earlier one that has not expired yet. */
  lemma {:induction false} LiveHasSetter(db: Db<string>, run: seq<Event>, key: string) returns (j: nat)
    requires Look(db, key).None?
    ensures Look(Replay(db, run), key).Some? ==>
      && j < |run| && Sets(db, run, j, key)
      && Look(Replay(db, run), key).value.expiry == Some(Before(db, run, j).now + run[j].ttl)
    decreases |run|
  {
    j := 0;
    if run != [] {
      var n := |run| - 1;
      j := LiveHasSetter(db, run[..n], key);
      if Sets(db, run, n, key) {
        j := n;
      } else if Look(Replay(db, run), key).Some? {
        LooksBack(Replay(db, run[..n]), run[n], key);
        assert run[..n][..j] == run[..j];
      }
    }
  }

  lemma LooksBack(db: Db<string>, e: Event, key: string)
    requires Look(Next(db, e), key).Some?
    requires !(e.Claim? && e.key == key && !e.net.Unsent? && Look(db, key).None?)
    ensures Look(db, key) == Look(Next(db, e), key)
  {
  }

  /** An answered claim of a key wins if and only if the ttl of every earlier claim that set the key has
      passed: no claim is refused for longer than that. */
  lemma {:induction false} ClaimWins(db: Db<string>, run: seq<Event>, i: nat)
    requires i < |run| && run[i].Claim? && run[i].net.Answered? && Look(db, run[i].key).None?
    ensures Wins(db, run, i, run[i].key) <==>
      forall j :: 0 <= j < i && Sets(db, run, j, run[i].key) ==>
        Before(db, run, j).now + run[j].ttl <= Before(db, run, i).now
  {
    var key := run[i].key;
    if Wins(db, run, i, key) {
      forall j | 0 <= j < i && Sets(db, run, j, key)
        ensures Before(db, run, j).now + run[j].ttl <= Before(db, run, i).now
      {
        SetsApart(db, run, key, j, i);
      }
    } else {
      var j := LiveHasSetter(db, run[..i], key);
      assert run[..i][..j] == run[..j];
    }
  }

  lemma {:induction false} CountWinsUpTo(db: Db<string>, run: seq<Event>, key: string, lo: int, hi: int, bound: int)
    returns (last: nat)
    requires bound >= 1 && TtlsAtLeast(run, key, bound)
    ensures CountWins(db, run, key, lo, hi) > 0 ==>
      && last < |run| && Wins(db, run, last, key) && lo <= Before(db, run, last).now <= hi
      && (CountWins(db, run, key, lo, hi) - 1) * bound <= Before(db, run, last).now - lo
    decreases |run|
  {
    last := 0;
    if run != [] {
      var most := run[..|run| - 1];
      var earlier := CountWinsUpTo(db, most, key, lo, hi, bound);
      last := earlier;
      var n := CountWins(db, most, key, lo, hi);
      if n > 0 {
        assert most[..earlier] == run[..earlier];
      }
      if Wins(db, run, |run| - 1, key) && lo <= Before(db, run, |run| - 1).now <= hi {
        last := |run| - 1;
        if n > 0 {
          WinsApart(db, run, key, earlier, last);
          assert n * bound == (n - 1) * bound + bound;
        }
      }
    }
  }

  ghost predicate WinAt(db: Db<string>, run: seq<Event>, key: string, lo: int, hi: int, i: nat) {
    i < |run| && Wins(db, run, i, key) && lo <= Before(db, run, i).now <= hi
  }

  /** The wins on the key at clock readings in lo..hi, by their position in the run. */
  ghost function WinsIn(db: Db<string>, run: seq<Event>, key: string, lo: int, hi: int): set<nat> {
    set i: nat | i < |run| && WinAt(db, run, key, lo, hi, i)
  }

  lemma {:induction false} WinAtPrefix(db: Db<string>, run: seq<Event>, n: nat, key: string, lo: int, hi: int, i: nat)
    requires i < n <= |run|
    ensures WinAt(db, run[..n], key, lo, hi, i) == WinAt(db, run, key, lo, hi, i)
  {
    assert run[..n][..i] == run[..i];
  }

  lemma {:induction false} OneMoreWin(db: Db<string>, run: seq<Event>, key: string, lo: int, hi: int)
    requires run != []
    ensures var n := |run| - 1;
      WinsIn(db, run, key, lo, hi) ==
        WinsIn(db, run[..n], key, lo, hi) + if WinAt(db, run, key, lo, hi, n) then {n} else {}
  {
    forall i: nat | i < |run| - 1 { WinAtPrefix(db, run, |run| - 1, key, lo, hi, i); }
  }

  /** CountWins counts them. */
  lemma {:induction false} CountWinsCounts(db: Db<string>, run: seq<Event>, key: string, lo: int, hi: int)
    ensures CountWins(db, run, key, lo, hi) == |WinsIn(db, run, key, lo, hi)|
    decreases |run|
  {
    if run == [] {
      assert WinsIn(db, run, key, lo, hi) == {};
    } else {
      CountWinsCounts(db, run[..|run| - 1], key, lo, hi);
      OneMoreWin(db, run, key, lo, hi);
    }
  }

  /** With every ttl on a key at least T, a span of D contains at most floor(D/T) + 1 wins on it. */
  lemma {:induction false} AtMostOneWinPerTtl(
    db: Db<string>, run: seq<Event>, key: string, start: int, span: nat, bound: int)
    requires bound >= 1 && TtlsAtLeast(run, key, bound)
    ensures |WinsIn(db, run, key, start, start + span)| <= span / bound + 1
  {
    CountWinsCounts(db, run, key, start, start + span);
    var last := CountWinsUpTo(db, run, key, start, start + span, bound);
    var n := CountWins(db, run, key, start, start + span);
    if n > 0 {
      DivideBound(n - 1, bound, span);
    }
  }

  lemma DivideBound(n: int, bound: int, span: int)
    requires bound >= 1 && n * bound <= span
    ensures n <= span / bound
  {
    var q := span / bound;
    assert q * bound + bound > span;
    assert (q + 1 - n) * bound == q * bound + bound - n * bound > 0;
  }

  /** A claim of one key never decides a claim of another. */
  lemma OtherKeysUntouched(db: Db<string>, e: Event, key: string)
    requires e.Claim? && e.key != key
    ensures Look(Next(db, e), key) == Look(db, key)
  {
  }

  // ---------------------------------------------------------------- the key layout

  function Key(prefix: string, topic: string, messageID: string): string {
    prefix + topic + ":" + messageID
  }

  /** The longer topic swallows the separator and the beginning of the other's message ID. */
  predicate Shifted(topic1: string, id1: string, topic2: string, id2: string) {
    && |topic1| < |topic2| && topic2[..|topic1| + 1] == topic1 + ":"
    && id1 == topic2[|topic1| + 1..] + ":" + id2
  }

  /** Exactly when two messages share a key. */
  lemma KeyCollisions(prefix: string, topic1: string, id1: string, topic2: string, id2: string)
    ensures Key(prefix, topic1, id1) == Key(prefix, topic2, id2) <==>
      || (topic1 == topic2 && id1 == id2)
      || Shifted(topic1, id1, topic2, id2) || Shifted(topic2, id2, topic1, id1)
  {
    var k1, k2 := topic1 + ":" + id1, topic2 + ":" + id2;
    assert Key(prefix, topic1, id1) == prefix + k1 && Key(prefix, topic2, id2) == prefix + k2;
    assert prefix + k1 == prefix + k2 <==> k1 == k2 by {
      assert (prefix + k1)[|prefix|..] == k1 && (prefix + k2)[|prefix|..] == k2;
    }
    if |topic1| <= |topic2| {
      Layout(topic1, id1, topic2, id2);
    } else {
      Layout(topic2, id2, topic1, id1);
    }
  }

  lemma Layout(topic1: string, id1: string, topic2: string, id2: string)
    requires |topic1| <= |topic2|
    ensures topic1 + ":" + id1 == topic2 + ":" + id2 <==>
      (topic1 == topic2 && id1 == id2) || Shifted(topic1, id1, topic2, id2)
  {
    var k1, k2, n := topic1 + ":" + id1, topic2 + ":" + id2, |topic1|;
    if k1 == k2 {
      assert topic1 == k2[..n] == topic2[..n] && id1 == k2[n + 1..];
      if n < |topic2| {
        assert topic1 + ":" == k1[..n + 1] == k2[..n + 1] == topic2[..n + 1];
        assert id1 == topic2[n + 1..] + ":" + id2;
      } else {
        assert id2 == k2[n + 1..];
      }
    }
    if Shifted(topic1, id1, topic2, id2) {
      var rest := topic2[n + 1..];
      assert topic2 == topic1 + ":" + rest;
      assert k2 == topic1 + ":" + (rest + ":" + id2) == k1;
    }
  }

  /** Every key of a store begins with its prefix. */
  lemma KeyHasPrefix(prefix: string, topic: string, id: string)
    ensures prefix <= Key(prefix, topic, id)
  {
    assert Key(prefix, topic, id) == prefix + (topic + ":" + id);
  }

  lemma LongerPrefix(prefix: string, rest: string, topic: string, id: string)
    ensures Key(prefix + rest, topic, id) == Key(prefix, rest + topic, id)
  {
    assert prefix + rest + topic + ":" + id == prefix + (rest + topic) + ":" + id;
  }

  lemma TwoPrefixes(a: string, b: string, key: string)
    requires a <= key && b <= key && |a| <= |b|
    ensures a <= b
  {
    assert a == key[..|a|] && b == key[..|b|] && key[..|b|][..|a|] == key[..|a|];
  }

  /** Messages of two stores never share a key unless one prefix begins with the other. */
  lemma StoresApart(prefix1: string, topic1: string, id1: string, prefix2: string, topic2: string, id2: string)
    requires !(prefix1 <= prefix2) && !(prefix2 <= prefix1)
    ensures Key(prefix1, topic1, id1) != Key(prefix2, topic2, id2)
  {
    KeyHasPrefix(prefix1, topic1, id1);
    KeyHasPrefix(prefix2, topic2, id2);
    if Key(prefix1, topic1, id1) == Key(prefix2, topic2, id2) {
      if |prefix1| <= |prefix2| {
        TwoPrefixes(prefix1, prefix2, Key(prefix1, topic1, id1));
      } else {
        TwoPrefixes(prefix2, prefix1, Key(prefix1, topic1, id1));
      }
    }
  }

  /** If one does, exactly when: the rest of the longer prefix counts as a part of the topic. */
  lemma StoresCollide(prefix: string, rest: string, topic1: string, id1: string, topic2: string, id2: string)
    ensures Key(prefix, topic1, id1) == Key(prefix + rest, topic2, id2) <==>
      || (topic1 == rest + topic2 && id1 == id2)
      || Shifted(topic1, id1, rest + topic2, id2) || Shifted(rest + topic2, id2, topic1, id1)
  {
    LongerPrefix(prefix, rest, topic2, id2);
    KeyCollisions(prefix, topic1, id1, rest + topic2, id2);
  }

  /** One message has a key of its own in every store with a prefix of its own. */
  lemma SameMessageTwoStores(prefix1: string, prefix2: string, topic: string, id: string)
    ensures Key(prefix1, topic, id) == Key(prefix2, topic, id) <==> prefix1 == prefix2
  {
    var tail := topic + ":" + id;
    assert Key(prefix1, topic, id) == prefix1 + tail && Key(prefix2, topic, id) == prefix2 + tail;
    assert (prefix1 + tail)[..|prefix1|] == prefix1 && (prefix2 + tail)[..|prefix2|] == prefix2;
  }

  /** The topic continues with the colon. */
  predicate Continues(topic1: string, topic2: string) {
    topic1 + ":" <= topic2
  }

  lemma ContinuesAt(topic1: string, topic2: string)
    ensures Continues(topic1, topic2) <==> |topic1| < |topic2| && topic2[..|topic1| + 1] == topic1 + ":"
  {
    assert Continues(topic1, topic2) ==> topic2[..|topic1| + 1] == topic1 + ":";
  }

  ghost predicate NeverCollide(prefix: string, topic1: string, topic2: string) {
    forall id1, id2 :: Key(prefix, topic1, id1) != Key(prefix, topic2, id2)
  }

  /** Two topics never collide, on any message IDs, if and only if neither continues with the colon where the
      other ends. */
  lemma TopicsCollide(prefix: string, topic1: string, topic2: string)
    requires topic1 != topic2
    ensures NeverCollide(prefix, topic1, topic2) <==> !Continues(topic1, topic2) && !Continues(topic2, topic1)
  {
    if Continues(topic1, topic2) {
      Collide(prefix, topic1, topic2, "");
      assert !NeverCollide(prefix, topic1, topic2);
    } else if Continues(topic2, topic1) {
      Collide(prefix, topic2, topic1, "");
      assert !NeverCollide(prefix, topic1, topic2);
    } else {
      ContinuesAt(topic1, topic2);
      ContinuesAt(topic2, topic1);
      forall id1, id2 ensures Key(prefix, topic1, id1) != Key(prefix, topic2, id2) {
        KeyCollisions(prefix, topic1, id1, topic2, id2);
      }
    }
  }

  /** For every message of the longer topic there is one of the shorter topic with the same key. */
  lemma Collide(prefix: string, topic1: string, topic2: string, id2: string)
    requires Continues(topic1, topic2)
    ensures Key(prefix, topic1, topic2[|topic1| + 1..] + ":" + id2) == Key(prefix, topic2, id2)
  {
    var rest := topic2[|topic1| + 1..];
    assert topic2 == topic1 + ":" + rest;
    assert topic1 + ":" + (rest + ":" + id2) == topic2 + ":" + id2;
  }

  /** A colliding pair: order "1" of topic "paid:eu", and message "eu:1" of topic "paid". */
  lemma CollidingPair(prefix: string)
    ensures Key(prefix, "paid", "eu:1") == Key(prefix, "paid:eu", "1")
  {
    Collide(prefix, "paid", "paid:eu", "1");
  }

  /** Topics without a colon never collide, and neither do two topics of one message ID. */
  lemma DistinctMessagesHaveDistinctKeys(prefix: string, topic1: string, id1: string, topic2: string, id2: string)
    requires (topic1, id1) != (topic2, id2)
    requires (':' !in topic1 && ':' !in topic2) || id1 == id2
    ensures Key(prefix, topic1, id1) != Key(prefix, topic2, id2)
  {
    KeyCollisions(prefix, topic1, id1, topic2, id2);
    if |topic1| < |topic2| && topic2[..|topic1| + 1] == topic1 + ":" {
      SwallowsColon(topic1, topic2);
    }
    if |topic2| < |topic1| && topic1[..|topic2| + 1] == topic2 + ":" {
      SwallowsColon(topic2, topic1);
    }
  }

  lemma SwallowsColon(topic1: string, topic2: string)
    requires |topic1| < |topic2| && topic2[..|topic1| + 1] == topic1 + ":"
    ensures ':' in topic2
  {
    assert topic2[|topic1|] == topic2[..|topic1| + 1][|topic1|];
  }

  // ---------------------------------------------------------------- the store

  datatype ClaimError = ClosedStore | TtlNotPositive | Transport

  /** The Redis all stores share and the run performed on it. */
  class Server {
    var db: Db<string>
    ghost const start: Db<string>
    ghost var run: seq<Event>

    ghost predicate Valid()
      reads this
    {
      db == Replay(start, run) && forall i :: 0 <= i < |run| && run[i].Claim? ==> run[i].ttl >= 1
    }

    constructor (db: Db<string>)
      ensures Valid() && start == db && run == []
    {
      this.db := db;
      start := db;
      run := [];
    }
  }

  class Store {
    const server: Server
    const prefix: string
    const closeClient: bool
    var closed: bool
    var clientCloses: nat

    ghost predicate Valid()
      reads this, server
    {
      server.Valid() && clientCloses == if closed && closeClient then 1 else 0
    }

    constructor (server: Server, prefix: string, closeClient: bool)
      requires server.Valid()
      ensures Valid() && this.server == server && this.prefix == prefix && !closed
    {
      this.server, this.prefix, this.closeClient := server, prefix, closeClient;
      closed, clientCloses := false, 0;
    }

    /** Any number of claims by other callers and stores, the clock, and a Close of this store. */
    method Interfere()
      requires Valid()
      modifies this, server
      ensures Valid() && old(server.run) <= server.run && (old(closed) ==> closed)
    {
    }

    /** A claim is reported exactly if its own SET NX, the last event of the run so far, was answered and found
        the key free, which it then holds for the ttl; an error never reports one. No other key changes. */
    method TryClaim(topic: string, messageID: string, ttl: int, net: Net)
      returns (claimed: bool, error: Option<ClaimError>)
      requires Valid()
      modifies this, server
      ensures Valid() && old(server.run) <= server.run
      ensures old(closed) ==> !claimed && error == Some(ClosedStore) && server.run == old(server.run)
      ensures !old(closed) && ttl <= 0 ==> !claimed && error == Some(TtlNotPositive) && server.run == old(server.run)
      ensures !old(closed) && ttl > 0 ==>
        && |server.run| > |old(server.run)|
        && var last := |server.run| - 1;
        && server.run[last] == Claim(Key(prefix, topic, messageID), ttl, net)
        && var key, past := Key(prefix, topic, messageID), Replay(server.start, server.run[..last]);
        && (claimed <==> net.Answered? && Look(past, key).None?)
        && (claimed <==> Wins(server.start, server.run, last, key))
        && error == (if net.Answered? then None else Some(Transport))
        && Look(server.db, key) == (if !net.Unsent? && Look(past, key).None? then Some(Item("1", Some(past.now + ttl)))
                                    else Look(past, key))
        && forall other :: other != key ==> Look(server.db, other) == Look(past, other)
      ensures error.Some? ==> !claimed
    {
      if closed {
        return false, Some(ClosedStore);
      }
      if ttl <= 0 {
        return false, Some(TtlNotPositive);
      }
      Interfere();
      var key := Key(prefix, topic, messageID);
      ghost var before := server.run;
      server.run := server.run + [Claim(key, ttl, net)];
      assert server.run[..|before|] == before;
      claimed, error := false, Some(Transport);
      if net != Unsent {
        var (db, applied) := SetNX(server.db, key, "1", ttl);
        server.db := db;
        if net == Answered {
          claimed, error := applied, None;
        }
      }
    }

    method Close()
      requires Valid()
      modifies this
      ensures Valid() && closed
      ensures old(closed) ==> clientCloses == old(clientCloses)
    {
      if closed {
        return;
      }
      closed := true;
      if closeClient {
        clientCloses := clientCloses + 1;
      }
    }
  }
}
