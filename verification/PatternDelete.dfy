/**
 Deleting by pattern while others write: SCAN pages are collected until the cursor comes back to 0, then
 the collected keys are deleted in batches. Between any two commands other clients may do anything.

 What is assumed of SCAN: its keys match, an iteration ends, and when it ends every matching key that was
 there at every moment since it began has been returned at least once. Keys may come twice.
 */
module PatternDelete {
  import opened Wrappers
  import opened Redis
  import opened CacheCommands

  const DELETE_KEY_BATCH: nat := 100

  type Pattern = string -> bool

  /** The key was there at every moment from..to of the history. */
  ghost predicate Throughout(history: seq<Db<CacheValue>>, from: nat, to: nat, key: string) {
    to < |history| && forall i :: from <= i <= to ==> Live(history[i], key)
  }

  function KeySet(keys: seq<string>): set<string> {
    set k | k in keys
  }

  /** Consecutive pieces of at most n. */
  function Batches(keys: seq<string>, n: nat): (b: seq<seq<string>>)
    requires n >= 1
    ensures forall i :: 0 <= i < |b| ==> 1 <= |b[i]| <= n
    decreases |keys|
  {
    if keys == [] then []
    else if |keys| <= n then [keys]
    else [keys[..n]] + Batches(keys[n..], n)
  }

  function Flatten(b: seq<seq<string>>): seq<string>
    decreases |b|
  {
    if b == [] then [] else b[0] + Flatten(b[1..])
  }

  /** The batches cover the list, in order, and all but the last are full. */
  lemma {:induction false} BatchesCover(keys: seq<string>, n: nat)
    requires n >= 1
    ensures Flatten(Batches(keys, n)) == keys
    ensures forall i :: 0 <= i < |Batches(keys, n)| - 1 ==> |Batches(keys, n)[i]| == n
    decreases |keys|
  {
    if |keys| > n {
      BatchesCover(keys[n..], n);
      assert Batches(keys, n)[1..] == Batches(keys[n..], n);
    } else if keys != [] {
      assert Batches(keys, n)[1..] == [] && Flatten([]) == [];
    }
  }

  /** Where the batch that begins at i ends. */
  function End(keys: seq<string>, size: nat, i: nat): nat {
    if i + size > |keys| then |keys| else i + size
  }

  lemma {:induction false} FirstBatch(keys: seq<string>, n: nat, i: nat)
    requires n >= 1 && i < |keys|
    ensures var end := End(keys, n, i);
      Batches(keys[i..], n) == [keys[i..end]] + Batches(keys[end..], n)
  {
    if i + n < |keys| {
      assert keys[i..][..n] == keys[i..i + n] && keys[i..][n..] == keys[i + n..];
    } else {
      assert keys[i..] == keys[i..|keys|] && keys[|keys|..] == [];
    }
  }

  lemma {:induction false} EveryKeyInABatch(keys: seq<string>, n: nat, key: string) returns (i: nat)
    requires n >= 1 && key in keys
    ensures i < |Batches(keys, n)| && key in Batches(keys, n)[i]
    decreases |keys|
  {
    i := 0;
    if |keys| > n && key !in keys[..n] {
      assert keys == keys[..n] + keys[n..];
      i := EveryKeyInABatch(keys[n..], n, key);
      i := i + 1;
    }
  }

  // ---------------------------------------------------------------- a server others use too

  /** One DEL of ours: the moment of the history at which it took effect, and its keys. */
  datatype Deletion = Deletion(moment: nat, keys: seq<string>)

  function KeysOf(deletions: seq<Deletion>): (keys: seq<seq<string>>)
    ensures |keys| == |deletions|
    decreases |deletions|
  {
    if deletions == [] then [] else KeysOf(deletions[..|deletions| - 1]) + [deletions[|deletions| - 1].keys]
  }

  lemma {:induction false} KeysOfExtends(deletions: seq<Deletion>, d: Deletion)
    ensures KeysOf(deletions + [d]) == KeysOf(deletions) + [d.keys]
  {
    assert (deletions + [d])[..|deletions|] == deletions;
  }

  lemma {:induction false} KeysOfAt(deletions: seq<Deletion>, i: nat)
    requires i < |deletions|
    ensures KeysOf(deletions)[i] == deletions[i].keys
    decreases |deletions|
  {
    if i < |deletions| - 1 {
      KeysOfAt(deletions[..|deletions| - 1], i);
    }
  }

  /** The deletions are those before and one per batch, each after the given moment. */
  ghost predicate Deleted(deletions: seq<Deletion>, before: seq<Deletion>, batches: seq<seq<string>>, after: nat) {
    before <= deletions && KeysOf(deletions[|before|..]) == batches && After(deletions, |before|, after)
  }

  lemma TailExtends(deletions: seq<Deletion>, n: nat, d: Deletion)
    requires n <= |deletions|
    ensures (deletions + [d])[n..] == deletions[n..] + [d]
  {
  }

  ghost predicate After(deletions: seq<Deletion>, from: nat, moment: nat) {
    forall i :: from <= i < |deletions| ==> deletions[i].moment > moment
  }

  lemma AfterExtends(deletions: seq<Deletion>, from: nat, moment: nat, d: Deletion)
    requires After(deletions, from, moment) && d.moment > moment
    ensures After(deletions + [d], from, moment)
  {
  }

  lemma {:induction false} OneMoreDeletion(
    deletions: seq<Deletion>, before: seq<Deletion>, batches: seq<seq<string>>, after: nat, d: Deletion)
    requires Deleted(deletions, before, batches, after) && d.moment > after
    ensures Deleted(deletions + [d], before, batches + [d.keys], after)
  {
    TailExtends(deletions, |before|, d);
    KeysOfExtends(deletions[|before|..], d);
    AfterExtends(deletions, |before|, after, d);
  }

  class Server {
    var db: Db<CacheValue>
    ghost var history: seq<Db<CacheValue>>
    ghost var deletions: seq<Deletion>
    /** The SCAN iteration in progress: its first moment, what it returned, and how long it can still take. */
    ghost var scanStart: nat
    ghost var returned: set<string>
    ghost var pagesLeft: nat

    /** The history ends in the present, and each of our DELs removed exactly its keys. */
    ghost predicate Valid()
      reads this
    {
      && history != [] && history[|history| - 1] == db && scanStart < |history|
      && forall i :: 0 <= i < |deletions| ==>
           && 0 < deletions[i].moment < |history|
           && history[deletions[i].moment] == Remove(history[deletions[i].moment - 1], KeySet(deletions[i].keys))
    }

    constructor (db: Db<CacheValue>)
      ensures Valid() && deletions == []
    {
      this.db := db;
      history := [db];
      deletions := [];
      scanStart := 0;
      returned := {};
      pagesLeft := 0;
    }

    /** Other clients write, delete and let time pass. */
    method Interfere()
      requires Valid()
      modifies this`db, this`history
      ensures Valid() && old(history) <= history
    {
    }

    /** SCAN cursor MATCH pattern; cursor 0 begins an iteration and the answer 0 ends it. */
    method Scan(cursor: nat, matches: Pattern, failed: bool) returns (page: seq<string>, next: nat)
      requires Valid()
      modifies this`scanStart, this`returned, this`pagesLeft
      ensures Valid()
      ensures scanStart == if cursor == 0 then |history| - 1 else old(scanStart)
      ensures returned == (if cursor == 0 then {} else old(returned)) + KeySet(page)
      ensures forall k :: k in page ==> matches(k)
      ensures cursor != 0 && next != 0 ==> pagesLeft < old(pagesLeft)
      ensures !failed && next == 0 ==>
        forall k :: matches(k) && Throughout(history, scanStart, |history| - 1, k) ==> k in returned
    {
      next := 0;
      page := Listing(matches);
      if cursor == 0 {
        scanStart := |history| - 1;
        returned := {};
      }
      returned := returned + KeySet(page);
    }

    /** DEL keys. A failed one may have been applied. */
    method Del(keys: seq<string>, net: Net) returns (failed: bool)
      requires Valid()
      modifies this`db, this`history, this`deletions
      ensures Valid() && old(history) <= history && failed == !net.Answered?
      ensures if net.Unsent? then deletions == old(deletions) && history == old(history)
              else Applied(old(deletions), old(history), keys)
    {
      failed := net != Answered;
      if net != Unsent {
        db := Remove(db, KeySet(keys));
        history := history + [db];
        deletions := deletions + [Deletion(|history| - 1, keys)];
      }
    }

    ghost predicate Applied(before: seq<Deletion>, past: seq<Db<CacheValue>>, keys: seq<string>)
      reads this
    {
      deletions == before + [Deletion(|past|, keys)] && |history| == |past| + 1
    }

    /** Some reply SCAN may give: every stored key that matches. */
    method Listing(matches: Pattern) returns (page: seq<string>)
      ensures forall k :: k in page <==> k in db.items && matches(k)
    {
      page := [];
      var todo := db.items.Keys;
      while todo != {}
        invariant todo <= db.items.Keys
        invariant forall k :: k in page <==> k in db.items && k !in todo && matches(k)
        decreases |todo|
      {
        var k :| k in todo;
        if matches(k) {
          page := page + [k];
        }
        todo := todo - {k};
      }
    }
  }

  /** The scanning loop: it asks for pages until one fails or is the last. On success the keys all match and
      include every matching key that was there at every moment from..to. */
  method ScanAll(server: Server, matches: Pattern, fails: nat -> bool)
    returns (keys: seq<string>, failed: bool, ghost pages: nat, ghost from: nat, ghost to: nat)
    requires server.Valid()
    modifies server
    ensures server.Valid() && old(server.history) <= server.history && server.deletions == old(server.deletions)
    ensures forall k :: k in keys ==> matches(k)
    ensures |old(server.history)| - 1 <= from <= to == |server.history| - 1
    ensures pages >= 1 && failed == fails(pages - 1) && forall i :: 0 <= i < pages - 1 ==> !fails(i)
    ensures !failed ==> forall k :: matches(k) && Throughout(server.history, from, to, k) ==> k in keys
  {
    keys := [];
    pages := 0;
    var cursor: nat := 0;
    var n: nat := 0;
    while true
      invariant server.Valid() && old(server.history) <= server.history && server.deletions == old(server.deletions)
      invariant n == 0 <==> cursor == 0
      invariant forall k :: k in keys ==> matches(k)
      invariant n == 0 ==> keys == []
      invariant n > 0 ==> server.returned == KeySet(keys) && |old(server.history)| - 1 <= server.scanStart
      invariant forall i :: 0 <= i < n ==> !fails(i)
      decreases n == 0, server.pagesLeft
    {
      server.Interfere();
      ghost var before := keys;
      var error := fails(n);
      var page, next := server.Scan(cursor, matches, error);
      from, to := server.scanStart, |server.history| - 1;
      n := n + 1;
      if error {
        return keys, true, n, from, to;
      }
      keys := keys + page;
      assert KeySet(keys) == KeySet(before) + KeySet(page);
      cursor := next;
      if cursor == 0 {
        return keys, false, n, from, to;
      }
    }
  }

  /** Others run, then one DEL; it took effect unless it never reached Redis. */
  method DeleteBatch(
    server: Server, batch: seq<string>, net: Net,
    ghost before: seq<Deletion>, ghost done: seq<seq<string>>, ghost more: seq<seq<string>>, ghost after: nat)
    returns (failed: bool)
    requires server.Valid() && Deleted(server.deletions, before, done, after) && after < |server.history|
      && more == done + [batch]
    modifies server`db, server`history, server`deletions
    ensures server.Valid() && old(server.history) <= server.history
    ensures Deleted(server.deletions, before, if net.Unsent? then done else more, after)
    ensures failed == !net.Answered?
  {
    server.Interfere();
    ghost var deletions := server.deletions;
    failed := server.Del(batch, net);
    if net != Unsent {
      OneMoreDeletion(deletions, before, done, after, server.deletions[|deletions|]);
    }
  }

  lemma Advance(done: seq<seq<string>>, batch: seq<string>, rest: seq<seq<string>>)
    ensures done + ([batch] + rest) == (done + [batch]) + rest
    ensures done <= done + ([batch] + rest) && done + [batch] <= done + ([batch] + rest)
  {
  }

  /** The batches deleted when the first `sent` were sent and only the last of them may have failed. */
  ghost predicate Cut(batches: seq<seq<string>>, net: nat -> Net, failed: bool, sent: nat, done: seq<seq<string>>) {
    && sent <= |batches|
    && if failed
       then
         && sent > 0 && !net(sent - 1).Answered? && (forall i :: 0 <= i < sent - 1 ==> net(i).Answered?)
         && done == batches[..if net(sent - 1).Lost? then sent else sent - 1]
       else sent == |batches| && (forall i :: 0 <= i < sent ==> net(i).Answered?) && done == batches
  }

  /** Before the key at i: these batches were sent and answered, and the others are those of the keys left. */
  ghost predicate SoFar(keys: seq<string>, size: nat, net: nat -> Net, i: nat, done: seq<seq<string>>)
    requires size >= 1
  {
    && i <= |keys| && Batches(keys, size) == done + Batches(keys[i..], size)
    && forall k :: 0 <= k < |done| ==> net(k).Answered?
  }

  /** One more batch: answered, it counts as sent; otherwise this is where the loop stops. */
  lemma {:induction false} BatchOver(
    keys: seq<string>, size: nat, net: nat -> Net, i: nat, end: nat, done: seq<seq<string>>, more: seq<seq<string>>)
    requires size >= 1 && i < |keys| && end == End(keys, size, i) && more == done + [keys[i..end]]
    requires SoFar(keys, size, net, i, done)
    ensures if net(|done|).Answered? then SoFar(keys, size, net, end, more)
            else Cut(Batches(keys, size), net, true, |done| + 1, if net(|done|).Unsent? then done else more)
  {
    FirstBatch(keys, size, i);
    Advance(done, keys[i..end], Batches(keys[end..], size));
  }

  lemma {:induction false} BatchesOver(keys: seq<string>, size: nat, net: nat -> Net, done: seq<seq<string>>)
    requires size >= 1 && SoFar(keys, size, net, |keys|, done)
    ensures Cut(Batches(keys, size), net, false, |done|, done)
  {
    assert keys[|keys|..] == [] && done + [] == done;
  }

  /** The deleting loop, batch by batch until one fails: exactly the batches before it are applied, and that
      one too if only its reply was lost. */
  method DeleteAll(server: Server, keys: seq<string>, size: nat, net: nat -> Net)
    returns (failed: bool, ghost sent: nat, ghost done: seq<seq<string>>)
    requires server.Valid() && size >= 1
    modifies server`db, server`history, server`deletions
    ensures server.Valid() && old(server.history) <= server.history
    ensures Deleted(server.deletions, old(server.deletions), done, |old(server.history)| - 1)
    ensures Cut(Batches(keys, size), net, failed, sent, done)
  {
    ghost var before, after := server.deletions, |server.history| - 1;
    done := [];
    assert keys[0..] == keys && [] + Batches(keys, size) == Batches(keys, size);
    var i, n: nat := 0, 0;
    while i < |keys|
      invariant server.Valid() && old(server.history) <= server.history && after < |server.history|
      invariant SoFar(keys, size, net, i, done) && n == |done|
      invariant Deleted(server.deletions, before, done, after)
      decreases |keys| - i
    {
      var end := i + size;
      if end > |keys| {
        end := |keys|;
      }
      var batch := keys[i..end];
      ghost var more := done + [batch];
      BatchOver(keys, size, net, i, end, done, more);
      var error := DeleteBatch(server, batch, net(n), before, done, more, after);
      if error {
        return true, n + 1, if net(n).Unsent? then done else more;
      }
      done := more;
      i, n := end, n + 1;
    }
    BatchesOver(keys, size, net, done);
    failed, sent := false, n;
  }

  /** What one of our deletions does: it removes its keys at its moment and leaves the others alone. */
  lemma DeletionEffect(server: Server, i: nat, key: string)
    requires server.Valid() && i < |server.deletions|
    ensures var d := server.deletions[i];
      && 0 < d.moment < |server.history|
      && if key in d.keys then !Live(server.history[d.moment], key)
         else Look(server.history[d.moment], key) == Look(server.history[d.moment - 1], key)
  {
  }

  /** One of our deletions from the first-th on deleted the key after the moment. */
  ghost predicate Caught(server: Server, first: nat, after: nat, key: string)
    requires server.Valid()
    reads server
  {
    exists i :: first <= i < |server.deletions| && key in server.deletions[i].keys
      && server.deletions[i].moment > after && !Live(server.history[server.deletions[i].moment], key)
  }

  /** Every matching key that was there at every moment from..to was deleted later. */
  ghost predicate AllCaught(server: Server, first: nat, matches: Pattern, from: nat, to: nat)
    requires server.Valid()
    reads server
  {
    forall key :: matches(key) && Throughout(server.history, from, to, key) ==> Caught(server, first, to, key)
  }

  /** Our deletions from the first-th on left every key that does not match as it was. */
  ghost predicate Spared(server: Server, first: nat, matches: Pattern)
    requires server.Valid()
    reads server
  {
    forall i, key :: first <= i < |server.deletions| && !matches(key) ==>
      var m := server.deletions[i].moment; Look(server.history[m], key) == Look(server.history[m - 1], key)
  }

  /** What a call did: the pages asked for, the keys collected, the batches sent, those of them deleted, and
      the moments between which it scanned. */
  datatype Trace = Trace(
    scanFailed: bool, pages: nat, keys: seq<string>, sent: nat, done: seq<seq<string>>, from: nat, to: nat)

  /** The second half: the keys collected between the two moments are deleted. */
  method DeleteCollected(
    server: Server, matches: Pattern, keys: seq<string>, net: nat -> Net, ghost from: nat, ghost to: nat)
    returns (failed: bool, ghost sent: nat, ghost done: seq<seq<string>>)
    requires server.Valid() && from <= to == |server.history| - 1
    requires forall k :: k in keys ==> matches(k)
    requires forall k :: matches(k) && Throughout(server.history, from, to, k) ==> k in keys
    modifies server`db, server`history, server`deletions
    ensures server.Valid() && old(server.history) <= server.history
    ensures Deleted(server.deletions, old(server.deletions), done, to)
    ensures Cut(Batches(keys, DELETE_KEY_BATCH), net, failed, sent, done)
    ensures Spared(server, |old(server.deletions)|, matches)
    ensures !failed ==> AllCaught(server, |old(server.deletions)|, matches, from, to)
  {
    ghost var before, scanned := server.deletions, server.history;
    failed, sent, done := DeleteAll(server, keys, DELETE_KEY_BATCH, net);
    assert server.history[..|scanned|] == scanned;
    OnlyMatching(server, matches, before, keys, done, to);
    if !failed {
      AllMatching(server, matches, before, keys, from, to, |scanned|);
    }
  }

  /** DeleteWithPattern, with anybody running in between. Our deletions touch matching keys only. On success
      every matching key that was there throughout the scan was deleted by one of them, after the scan. A scan
      error deletes nothing; an error of a DEL leaves a prefix of the batches applied. */
  method DeleteWithPattern(server: Server, matches: Pattern, fails: nat -> bool, net: nat -> Net)
    returns (failed: bool, ghost t: Trace)
    requires server.Valid()
    modifies server
    ensures server.Valid() && old(server.history) <= server.history
    ensures |old(server.history)| - 1 <= t.from <= t.to < |server.history|
    ensures t.pages >= 1 && t.scanFailed == fails(t.pages - 1) && forall i :: 0 <= i < t.pages - 1 ==> !fails(i)
    ensures t.scanFailed ==> failed && server.deletions == old(server.deletions)
    ensures !t.scanFailed ==>
      && Deleted(server.deletions, old(server.deletions), t.done, t.to)
      && Cut(Batches(t.keys, 100), net, failed, t.sent, t.done)
      && (forall k :: k in t.keys ==> matches(k))
    ensures Spared(server, |old(server.deletions)|, matches)
    ensures !failed ==> AllCaught(server, |old(server.deletions)|, matches, t.from, t.to)
  {
    var keys, error;
    ghost var pages, from, to;
    keys, error, pages, from, to := ScanAll(server, matches, fails);
    if error {
      return true, Trace(true, pages, keys, 0, [], from, to);
    }
    ghost var sent, done;
    failed, sent, done := DeleteCollected(server, matches, keys, net, from, to);
    t := Trace(false, pages, keys, sent, done, from, to);
  }

  /** The deletions of these batches touch no other key. */
  lemma OnlyMatching(
    server: Server, matches: Pattern, before: seq<Deletion>, keys: seq<string>, done: seq<seq<string>>, to: nat)
    requires server.Valid() && Deleted(server.deletions, before, done, to) && done <= Batches(keys, DELETE_KEY_BATCH)
    requires forall k :: k in keys ==> matches(k)
    ensures Spared(server, |before|, matches)
  {
    forall i, key | |before| <= i < |server.deletions| && !matches(key)
      ensures var m := server.deletions[i].moment; Look(server.history[m], key) == Look(server.history[m - 1], key)
    {
      var b := i - |before|;
      KeysOfAt(server.deletions[|before|..], b);
      BatchesMatch(keys, DELETE_KEY_BATCH, b, key);
      DeletionEffect(server, i, key);
    }
  }

  /** The deletions of all batches get every key that was there throughout the scan. */
  lemma AllMatching(
    server: Server, matches: Pattern, before: seq<Deletion>, keys: seq<string>, from: nat, to: nat, scanned: nat)
    requires server.Valid() && Deleted(server.deletions, before, Batches(keys, DELETE_KEY_BATCH), to)
    requires from <= to < scanned <= |server.history|
    requires forall k :: matches(k) && Throughout(server.history[..scanned], from, to, k) ==> k in keys
    ensures AllCaught(server, |before|, matches, from, to)
  {
    forall key | matches(key) && Throughout(server.history, from, to, key) ensures Caught(server, |before|, to, key) {
      assert Throughout(server.history[..scanned], from, to, key);
      var b := EveryKeyInABatch(keys, DELETE_KEY_BATCH, key);
      KeysOfAt(server.deletions[|before|..], b);
      DeletionEffect(server, |before| + b, key);
    }
  }

  lemma {:induction false} BatchesMatch(keys: seq<string>, n: nat, i: nat, key: string)
    requires n >= 1 && i < |Batches(keys, n)| && key !in keys
    ensures key !in Batches(keys, n)[i]
    decreases |keys|
  {
    if |keys| > n && i > 0 {
      BatchesMatch(keys[n..], n, i - 1, key);
    }
  }
}
