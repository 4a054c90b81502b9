/**
 What the counters of the cache count. A timed run is a sequence of calls on one key, each with its
 clock reading and ttl; INCR and EXPIRE run in one transaction.
 */
module Counters {
  import opened Wrappers
  import opened Redis
  import opened CacheOptions
  import opened CacheCommands

  datatype Call = Call(at: int, ttl: int)

  /** INCR and EXPIRE in one transaction; the reply of INCR is an error on a key of another type. */
  function Increment(db: Db<CacheValue>, key: string, ttl: int): (Db<CacheValue>, Option<int>) {
    (ExecAll(db, IncrementCmds(key, ttl)), IncrReply(db, key))
  }

  function IncrementFixed(db: Db<CacheValue>, key: string, ttl: int): (Db<CacheValue>, Option<int>) {
    (ExecAll(db, IncrementFixedCmds(key, ttl)), IncrReply(db, key))
  }

  function IncrReply(db: Db<CacheValue>, key: string): Option<int> {
    var was := Look(db, key);
    if was.None? then Some(1)
    else if was.value.value.Counter? then Some(was.value.value.count + 1)
    else None
  }

  predicate Timed(db: Db<CacheValue>, calls: seq<Call>) {
    && (forall i :: 0 <= i < |calls| ==> calls[i].ttl >= 1 && db.now <= calls[i].at)
    && (forall i, j :: 0 <= i <= j < |calls| ==> calls[i].at <= calls[j].at)
  }

  function At(db: Db<CacheValue>, time: int): Db<CacheValue> {
    db.(now := time)
  }

  function FixedRun(db: Db<CacheValue>, key: string, calls: seq<Call>): Db<CacheValue>
    decreases |calls|
  {
    if calls == [] then db else
    var last := calls[|calls| - 1];
    IncrementFixed(At(FixedRun(db, key, calls[..|calls| - 1]), last.at), key, last.ttl).0
  }

  /** What call i returns. */
  function FixedReply(db: Db<CacheValue>, key: string, calls: seq<Call>, i: nat): Option<int>
    requires i < |calls|
  {
    IncrementFixed(FixedBefore(db, key, calls, i), key, calls[i].ttl).1
  }

  function SlidingRun(db: Db<CacheValue>, key: string, calls: seq<Call>): Db<CacheValue>
    decreases |calls|
  {
    if calls == [] then db else
    var last := calls[|calls| - 1];
    Increment(At(SlidingRun(db, key, calls[..|calls| - 1]), last.at), key, last.ttl).0
  }

  function SlidingReply(db: Db<CacheValue>, key: string, calls: seq<Call>, i: nat): Option<int>
    requires i < |calls|
  {
    Increment(At(SlidingRun(db, key, calls[..i]), calls[i].at), key, calls[i].ttl).1
  }

  // ---------------------------------------------------------------- windows, without Redis

  /** The call that opened the window of call i: windows stay open for the ttl of the call that opened them. */
  function WindowStart(calls: seq<Call>, i: nat): (s: nat)
    requires i < |calls|
    ensures s <= i
  {
    if i == 0 then 0 else
    var s := WindowStart(calls, i - 1);
    if calls[i].at < calls[s].at + calls[s].ttl then s else i
  }

  // ---------------------------------------------------------------- the counter counts the window

  /** The key holds the rank of call i in its window, and the window ends when its first call says. */
  ghost predicate InWindow(db: Db<CacheValue>, key: string, calls: seq<Call>, i: nat)
    requires i < |calls|
  {
    var s := WindowStart(calls, i);
    && db.now == calls[i].at && key in db.items
    && db.items[key] == Item(Counter(i - s + 1), Some(calls[s].at + calls[s].ttl))
  }

  /** The database at call i. */
  function FixedBefore(db: Db<CacheValue>, key: string, calls: seq<Call>, i: nat): Db<CacheValue>
    requires i < |calls|
  {
    At(FixedRun(db, key, calls[..i]), calls[i].at)
  }

  lemma {:induction false} FixedRunStep(db: Db<CacheValue>, key: string, calls: seq<Call>, i: nat)
    requires i < |calls|
    ensures FixedRun(db, key, calls[..i + 1]) == IncrementFixed(FixedBefore(db, key, calls, i), key, calls[i].ttl).0
  {
    assert calls[..i + 1][..i] == calls[..i];
  }

  lemma {:induction false} FixedState(db: Db<CacheValue>, key: string, calls: seq<Call>, i: nat)
    requires Look(db, key).None? && Timed(db, calls) && i < |calls|
    ensures InWindow(FixedRun(db, key, calls[..i + 1]), key, calls, i)
  {
    FixedRunStep(db, key, calls, i);
    if i > 0 {
      FixedState(db, key, calls, i - 1);
      NextCallState(FixedBefore(db, key, calls, i), key, calls, i);
    } else {
      assert calls[..0] == [];
      FixedStep(FixedBefore(db, key, calls, 0), key, calls[0].ttl);
    }
  }

  /** A call continues the window of the one before it or opens a window of its own. */
  lemma {:induction false} NextCallState(before: Db<CacheValue>, key: string, calls: seq<Call>, i: nat)
    requires 0 < i < |calls| && calls[i].ttl >= 1
    requires before.now == calls[i].at && InWindow(At(before, calls[i - 1].at), key, calls, i - 1)
    ensures InWindow(IncrementFixed(before, key, calls[i].ttl).0, key, calls, i)
  {
    FixedStep(before, key, calls[i].ttl);
  }

  lemma FixedStep(db: Db<CacheValue>, key: string, ttl: int)
    requires ttl >= 1
    ensures var after := IncrementFixed(db, key, ttl).0;
      match Look(db, key)
      case None => after == Put(db, key, Item(Counter(1), Some(db.now + ttl)))
      case Some(item) =>
        item.value.Counter? && item.expiry.Some? ==>
          after == Put(db, key, item.(value := Counter(item.value.count + 1)))
  {
    var cmds := IncrementFixedCmds(key, ttl);
    ExecTwo(db, cmds);
  }

  lemma {:induction false} ExecTwo(db: Db<CacheValue>, cmds: seq<Cmd>)
    requires |cmds| == 2
    ensures ExecAll(db, cmds) == Exec(Exec(db, cmds[0]), cmds[1])
  {
    assert cmds[..1][..0] == [] && cmds[..1][0] == cmds[0];
    assert ExecAll(db, cmds[..1]) == Exec(ExecAll(db, cmds[..1][..0]), cmds[0]);
  }

  /** IncrementFixed returns the rank of the call in its window. */
  lemma {:induction false} FixedReplyIsRank(db: Db<CacheValue>, key: string, calls: seq<Call>, i: nat)
    requires Look(db, key).None? && Timed(db, calls) && i < |calls|
    ensures FixedReply(db, key, calls, i) == Some(i - WindowStart(calls, i) + 1)
  {
    ReplyBefore(db, key, calls, i);
  }

  lemma {:induction false} ReplyBefore(db: Db<CacheValue>, key: string, calls: seq<Call>, i: nat)
    requires Look(db, key).None? && Timed(db, calls) && i < |calls|
    ensures IncrReply(FixedBefore(db, key, calls, i), key) == Some(i - WindowStart(calls, i) + 1)
  {
    if i > 0 {
      FixedState(db, key, calls, i - 1);
      RankFromState(FixedBefore(db, key, calls, i), key, calls, i);
    } else {
      assert calls[..0] == [];
    }
  }

  lemma {:induction false} RankFromState(before: Db<CacheValue>, key: string, calls: seq<Call>, i: nat)
    requires 0 < i < |calls| && before.now == calls[i].at && InWindow(At(before, calls[i - 1].at), key, calls, i - 1)
    ensures IncrReply(before, key) == Some(i - WindowStart(calls, i) + 1)
  {
  }

  // ---------------------------------------------------------------- the rate limit

  lemma {:induction false} WindowStartMonotone(calls: seq<Call>, i: nat, j: nat)
    requires i <= j < |calls|
    ensures WindowStart(calls, i) <= WindowStart(calls, j)
    decreases j
  {
    if i < j {
      WindowStartMonotone(calls, i, j - 1);
    }
  }

  /** Between the opening of its window and call i, every call is in that window. */
  lemma {:induction false} SameWindow(calls: seq<Call>, i: nat, k: nat)
    requires i < |calls| && WindowStart(calls, i) <= k <= i
    ensures WindowStart(calls, k) == WindowStart(calls, i)
    decreases i
  {
    if k < i {
      SameWindow(calls, i - 1, k);
    }
  }

  predicate ConstantTtl(calls: seq<Call>, ttl: int) {
    forall i :: 0 <= i < |calls| ==> calls[i].ttl == ttl
  }

  predicate Ordered(calls: seq<Call>) {
    forall i, j :: 0 <= i <= j < |calls| ==> calls[i].at <= calls[j].at
  }

  lemma {:induction false} OpensLate(calls: seq<Call>, b: nat)
    requires 0 < b < |calls| && WindowStart(calls, b) == b
    ensures calls[b].at >= calls[WindowStart(calls, b - 1)].at + calls[WindowStart(calls, b - 1)].ttl
  {
  }

  lemma InOrder(calls: seq<Call>, i: nat, j: nat)
    requires Ordered(calls) && i <= j < |calls|
    ensures calls[i].at <= calls[j].at
  {
  }

  /** Windows open at least ttl apart. */
  lemma {:induction false} WindowsApart(calls: seq<Call>, ttl: int, a: nat, b: nat)
    requires ConstantTtl(calls, ttl) && Ordered(calls)
    requires a < b < |calls| && WindowStart(calls, a) == a && WindowStart(calls, b) == b
    ensures calls[b].at >= calls[a].at + ttl
  {
    WindowStartMonotone(calls, a, b - 1);
    OpensLate(calls, b);
    InOrder(calls, a, WindowStart(calls, b - 1));
  }

  /** The calls in lo..hi that "admit when the returned count is at most L" lets through. */
  function Admitted(calls: seq<Call>, limit: nat, lo: nat, hi: nat): nat
    requires lo <= hi <= |calls|
    decreases hi
  {
    if lo == hi then 0 else
    Admitted(calls, limit, lo, hi - 1) + if hi - 1 - WindowStart(calls, hi - 1) + 1 <= limit then 1 else 0
  }

  lemma {:induction false} AdmittedSplit(calls: seq<Call>, limit: nat, lo: nat, mid: nat, hi: nat)
    requires lo <= mid <= hi <= |calls|
    ensures Admitted(calls, limit, lo, hi) == Admitted(calls, limit, lo, mid) + Admitted(calls, limit, mid, hi)
    decreases hi
  {
    if mid < hi {
      AdmittedSplit(calls, limit, lo, mid, hi - 1);
    }
  }

  /** A stretch of calls of one window that begins `skipped` calls into it. */
  lemma {:induction false} AdmittedInWindow(calls: seq<Call>, limit: nat, s: nat, lo: nat, hi: nat)
    requires s <= lo <= hi <= |calls|
    requires forall k :: lo <= k < hi ==> WindowStart(calls, k) == s
    ensures Admitted(calls, limit, lo, hi) <= hi - lo
    ensures Admitted(calls, limit, lo, hi) <= if limit > lo - s then limit - (lo - s) else 0
    decreases hi
  {
    if lo < hi {
      AdmittedInWindow(calls, limit, s, lo, hi - 1);
    }
  }

  /** Calls less than a ttl apart lie in at most two windows, and if in two, the first of them did not open
      the first window. */
  lemma {:induction false} TwoWindows(calls: seq<Call>, ttl: int, i: nat, j: nat, k: nat)
    requires ConstantTtl(calls, ttl) && Ordered(calls) && ttl >= 1
    requires i <= k <= j < |calls| && calls[j].at < calls[i].at + ttl
    ensures WindowStart(calls, k) == WindowStart(calls, i) || WindowStart(calls, k) == WindowStart(calls, j)
    ensures WindowStart(calls, i) != WindowStart(calls, j) ==> WindowStart(calls, i) < i < WindowStart(calls, j)
  {
    var si, sk, sj := WindowStart(calls, i), WindowStart(calls, k), WindowStart(calls, j);
    WindowStartMonotone(calls, i, k);
    WindowStartMonotone(calls, k, j);
    SameWindow(calls, i, si);
    SameWindow(calls, k, sk);
    SameWindow(calls, j, sj);
    if si != sj && sj <= i {
      SameWindow(calls, j, i);
    }
    if si == i && si != sj {
      WindowsApart(calls, ttl, si, sj);
    }
    if sk != si && sk != sj {
      WindowsApart(calls, ttl, sk, sj);
      if sk <= i {
        SameWindow(calls, k, i);
      }
    }
  }

  lemma {:induction false} RankLimit(calls: seq<Call>, ttl: int, limit: nat, i: nat, j: nat)
    requires ConstantTtl(calls, ttl) && Ordered(calls) && ttl >= 1
    requires i <= j < |calls| && calls[j].at < calls[i].at + ttl
    ensures Admitted(calls, limit, i, j + 1) <= if limit == 0 then 0 else 2 * limit - 1
  {
    var si, sj := WindowStart(calls, i), WindowStart(calls, j);
    TwoWindows(calls, ttl, i, j, i);
    if si == sj {
      forall k | i <= k < j + 1 ensures WindowStart(calls, k) == si { TwoWindows(calls, ttl, i, j, k); }
      AdmittedInWindow(calls, limit, si, i, j + 1);
    } else {
      forall k | i <= k < sj ensures WindowStart(calls, k) == si { TwoWindows(calls, ttl, i, j, k); }
      forall k | sj <= k < j + 1 ensures WindowStart(calls, k) == sj { SameWindow(calls, j, k); }
      AdmittedSplit(calls, limit, i, sj, j + 1);
      AdmittedInWindow(calls, limit, si, i, sj);
      AdmittedInWindow(calls, limit, sj, sj, j + 1);
    }
  }

  /** The reply to call i is at most the limit. */
  predicate LetsThrough(db: Db<CacheValue>, key: string, calls: seq<Call>, limit: nat, i: nat)
    requires i < |calls|
  {
    var reply := FixedReply(db, key, calls, i);
    reply.Some? && reply.value <= limit
  }

  function Verdicts(db: Db<CacheValue>, key: string, calls: seq<Call>, limit: nat): (v: seq<bool>)
    ensures |v| == |calls| && forall i :: 0 <= i < |v| ==> v[i] == LetsThrough(db, key, calls, limit, i)
  {
    seq(|calls|, i requires 0 <= i < |calls| => LetsThrough(db, key, calls, limit, i))
  }

  function CountTrue(v: seq<bool>, lo: nat, hi: nat): nat
    requires lo <= hi <= |v|
    decreases hi
  {
    if lo == hi then 0 else CountTrue(v, lo, hi - 1) + if v[hi - 1] then 1 else 0
  }

  /** How many of the calls lo..hi are let through. */
  function AdmittedReplies(db: Db<CacheValue>, key: string, calls: seq<Call>, limit: nat, lo: nat, hi: nat): nat
    requires lo <= hi <= |calls|
  {
    CountTrue(Verdicts(db, key, calls, limit), lo, hi)
  }

  lemma {:induction false} LetThroughByRank(db: Db<CacheValue>, key: string, calls: seq<Call>, limit: nat, i: nat)
    requires Look(db, key).None? && Timed(db, calls) && i < |calls|
    ensures LetsThrough(db, key, calls, limit, i) <==> i - WindowStart(calls, i) + 1 <= limit
  {
    FixedReplyIsRank(db, key, calls, i);
  }

  lemma {:induction false} CountRanks(calls: seq<Call>, limit: nat, v: seq<bool>, lo: nat, hi: nat)
    requires lo <= hi <= |calls| == |v|
    requires forall i :: 0 <= i < |v| ==> v[i] == (i - WindowStart(calls, i) + 1 <= limit)
    ensures CountTrue(v, lo, hi) == Admitted(calls, limit, lo, hi)
    decreases hi
  {
    if lo < hi {
      CountRanks(calls, limit, v, lo, hi - 1);
    }
  }

  lemma {:induction false} RepliesAreRanks(
    db: Db<CacheValue>, key: string, calls: seq<Call>, limit: nat, lo: nat, hi: nat)
    requires Look(db, key).None? && Timed(db, calls) && lo <= hi <= |calls|
    ensures AdmittedReplies(db, key, calls, limit, lo, hi) == Admitted(calls, limit, lo, hi)
  {
    var v := Verdicts(db, key, calls, limit);
    forall i | 0 <= i < |v| ensures v[i] == (i - WindowStart(calls, i) + 1 <= limit) {
      LetThroughByRank(db, key, calls, limit, i);
    }
    CountRanks(calls, limit, v, lo, hi);
  }

  /** The rate limit: with a constant ttl and "admit when the returned count is at most L", the calls of any
      run of IncrementFixed within less than one ttl of each other are admitted at most 2L - 1 times, one less
      than two full windows. */
  lemma {:induction false} RateLimit(
    db: Db<CacheValue>, key: string, calls: seq<Call>, ttl: int, limit: nat, i: nat, j: nat)
    requires Look(db, key).None? && Timed(db, calls) && ConstantTtl(calls, ttl)
    requires i <= j < |calls| && calls[j].at < calls[i].at + ttl
    ensures AdmittedReplies(db, key, calls, limit, i, j + 1) <= if limit == 0 then 0 else 2 * limit - 1
  {
    assert calls[i].ttl == ttl;
    RepliesAreRanks(db, key, calls, limit, i, j + 1);
    RankLimit(calls, ttl, limit, i, j);
  }

  /** A run that opens a window, uses up its other limit - 1 admissions just before it ends, and then those of
      the next window. */
  function Burst(now: int, ttl: int, limit: nat): (calls: seq<Call>)
    ensures |calls| == 2 * limit
    ensures forall k :: 0 <= k < |calls| ==> calls[k] == BurstCall(now, ttl, limit, k)
  {
    seq(2 * limit, k requires 0 <= k < 2 * limit => BurstCall(now, ttl, limit, k))
  }

  function BurstCall(now: int, ttl: int, limit: nat, k: nat): Call {
    Call(if k == 0 then now else if k < limit then now + ttl - 1 else now + ttl, ttl)
  }

  lemma {:induction false} BurstWindows(now: int, ttl: int, limit: nat, k: nat)
    requires ttl >= 2 && k < 2 * limit
    ensures WindowStart(Burst(now, ttl, limit), k) == if k < limit then 0 else limit
  {
    if k > 0 {
      BurstWindows(now, ttl, limit, k - 1);
    }
  }

  lemma {:induction false} BurstAdmitted(now: int, ttl: int, limit: nat, hi: nat)
    requires ttl >= 2 && 1 <= hi <= 2 * limit
    ensures Admitted(Burst(now, ttl, limit), limit, 1, hi) == hi - 1
  {
    if hi > 1 {
      BurstAdmitted(now, ttl, limit, hi - 1);
      BurstWindows(now, ttl, limit, hi - 1);
    }
  }

  /** The bound is reached, for every limit and every ttl of at least 2ns, on any database without the key: the
      calls of the burst but the first are less than one ttl apart, and all 2L - 1 are admitted. */
  lemma {:induction false} RateLimitIsTight(db: Db<CacheValue>, key: string, ttl: int, limit: nat)
    requires Look(db, key).None? && ttl >= 2 && limit >= 1
    ensures var calls := Burst(db.now, ttl, limit);
      && Timed(db, calls) && ConstantTtl(calls, ttl) && calls[2 * limit - 1].at < calls[1].at + ttl
      && AdmittedReplies(db, key, calls, limit, 1, 2 * limit) == 2 * limit - 1
  {
    var calls := Burst(db.now, ttl, limit);
    RepliesAreRanks(db, key, calls, limit, 1, 2 * limit);
    BurstAdmitted(db.now, ttl, limit, 2 * limit);
  }

  // ---------------------------------------------------------------- the sliding counter

  /** Call k came before the ttl of the call before it had passed. */
  predicate Chained(calls: seq<Call>, k: nat)
    requires 0 < k < |calls|
  {
    calls[k].at < calls[k - 1].at + calls[k - 1].ttl
  }

  /** The last n of the calls up to i are chained, and no more than that. */
  predicate LongestChain(calls: seq<Call>, i: nat, n: int)
    requires i < |calls|
  {
    && 1 <= n <= i + 1
    && (forall k :: i - n + 1 < k <= i ==> Chained(calls, k))
    && (n <= i ==> !Chained(calls, i - n + 1))
  }

  lemma SlidingStep(db: Db<CacheValue>, key: string, ttl: int)
    requires ttl >= 1
    ensures var after := Increment(db, key, ttl).0;
      match Look(db, key)
      case None => after == Put(db, key, Item(Counter(1), Some(db.now + ttl)))
      case Some(item) =>
        item.value.Counter? ==> after == Put(db, key, Item(Counter(item.value.count + 1), Some(db.now + ttl)))
  {
    ExecTwo(db, IncrementCmds(key, ttl));
  }

  ghost predicate SlidingItem(db: Db<CacheValue>, key: string, calls: seq<Call>, n: int) {
    && calls != [] && db.now == calls[|calls| - 1].at && key in db.items
    && db.items[key] == Item(Counter(n), Some(calls[|calls| - 1].at + calls[|calls| - 1].ttl))
    && LongestChain(calls, |calls| - 1, n)
  }

  lemma {:induction false} SlidingState(db: Db<CacheValue>, key: string, calls: seq<Call>) returns (n: int)
    requires Look(db, key).None? && Timed(db, calls) && calls != []
    ensures SlidingItem(SlidingRun(db, key, calls), key, calls, n)
    decreases |calls|
  {
    var m := |calls| - 1;
    var last := calls[m];
    var before := At(SlidingRun(db, key, calls[..m]), last.at);
    SlidingStep(before, key, last.ttl);
    n := 1;
    if m > 0 {
      assert Timed(db, calls[..m]);
      var earlier := SlidingState(db, key, calls[..m]);
      if Chained(calls, m) {
        n := earlier + 1;
        ChainGrows(calls, m, earlier);
      }
    }
  }

  lemma ChainGrows(calls: seq<Call>, m: nat, n: int)
    requires 0 < m < |calls| && Chained(calls, m) && LongestChain(calls[..m], m - 1, n)
    ensures LongestChain(calls, m, n + 1)
  {
    forall k | m - n < k <= m ensures Chained(calls, k) {
      if k < m {
        assert Chained(calls[..m], k);
      }
    }
    if n + 1 <= m {
      assert !Chained(calls[..m], m - n);
    }
  }

  /** Increment returns the length of the longest suffix of calls in which each gap is shorter than the ttl
      of the call before it. */
  lemma {:induction false} SlidingReplyIsChain(db: Db<CacheValue>, key: string, calls: seq<Call>, i: nat)
    requires Look(db, key).None? && Timed(db, calls) && i < |calls|
    ensures SlidingReply(db, key, calls, i).Some? && LongestChain(calls, i, SlidingReply(db, key, calls, i).value)
  {
    var before := At(SlidingRun(db, key, calls[..i]), calls[i].at);
    assert SlidingReply(db, key, calls, i) == IncrReply(before, key);
    if i == 0 {
      assert calls[..0] == [];
    } else {
      assert Timed(db, calls[..i]);
      var n := SlidingState(db, key, calls[..i]);
      if Chained(calls, i) {
        ChainGrows(calls, i, n);
      }
    }
  }

  /** Calls on one key do not see calls on another. */
  lemma CountersAreIndependent(db: Db<CacheValue>, key: string, other: string, ttl: int)
    requires key != other
    ensures Look(IncrementFixed(db, other, ttl).0, key) == Look(db, key)
    ensures Look(Increment(db, other, ttl).0, key) == Look(db, key)
  {
    ExecTwo(db, IncrementFixedCmds(other, ttl));
    ExecTwo(db, IncrementCmds(other, ttl));
  }
}
