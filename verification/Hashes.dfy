/** Hashes: what the pipelined writers leave in a hash, and the sorted order in which HGetAll reads it. */
module Hashes {
  import opened Wrappers
  import opened Redis
  import opened CacheOptions
  import opened CacheCommands
  import opened Bulk

  // ---------------------------------------------------------------- marshalled fields

  /** The hash written for a list of fields; nothing if any value fails to marshal. */
  function Fields<V>(encode: Encoder<V>, data: seq<DataSet<V>>): Option<map<string, string>>
    decreases |data|
  {
    if data == [] then Some(map[]) else
    var most := Fields(encode, data[..|data| - 1]);
    var bytes := encode(data[|data| - 1].value);
    if most.None? || bytes.None? then None else Some(most.value[data[|data| - 1].key := bytes.value])
  }

  /** Each field holds its last value, and there are no other fields. */
  lemma {:induction false} LastFieldWins<V>(encode: Encoder<V>, data: seq<DataSet<V>>, key: string)
    ensures Fields(encode, data).Some? <==> forall i :: 0 <= i < |data| ==> encode(data[i].value).Some?
    ensures Fields(encode, data).Some? ==>
      match LastFor(data, key)
      case None => key !in Fields(encode, data).value
      case Some(v) => key in Fields(encode, data).value && encode(v) == Some(Fields(encode, data).value[key])
    decreases |data|
  {
    if data != [] {
      var most := data[..|data| - 1];
      LastFieldWins(encode, most, key);
      assert forall i :: 0 <= i < |most| ==> most[i] == data[i];
    }
  }

  lemma {:induction false} FailedFieldFails<V>(encode: Encoder<V>, data: seq<DataSet<V>>, n: nat)
    requires n < |data| && encode(data[n].value).None?
    ensures Fields(encode, data).None?
    decreases |data|
  {
    if n < |data| - 1 {
      FailedFieldFails(encode, data[..|data| - 1], n);
    }
  }

  // ---------------------------------------------------------------- what a hash key holds

  /** The fields of a key that is a hash or absent. */
  function HashAt(db: Db<CacheValue>, key: string): map<string, string> {
    match Look(db, key)
    case None => map[]
    case Some(item) => if item.value.Hash? then item.value.fields else map[]
  }

  predicate HashOrAbsent(db: Db<CacheValue>, key: string) {
    Look(db, key).Some? ==> Look(db, key).value.value.Hash?
  }

  predicate DistinctKeys(writes: seq<HashWrite>) {
    forall i, j :: 0 <= i < j < |writes| ==> writes[i].key != writes[j].key
  }

  /** The item a hash write leaves in its key: the fields overlaid on those of a hash, or a value of another
      type as it was, with a new ttl; nothing if jitter truncated the ttl to 0. */
  function HSetItem(db: Db<CacheValue>, w: HashWrite, ttl: int): Option<Item<CacheValue>> {
    var value := if HashOrAbsent(db, w.key) then Hash(HashAt(db, w.key) + w.fields) else Look(db, w.key).value.value;
    if ApplyJitter(ttl, w.draw) >= 1 then Some(Item(value, Some(db.now + ApplyJitter(ttl, w.draw)))) else None
  }

  lemma {:induction false} HSetEffect(db: Db<CacheValue>, w: HashWrite, ttl: int)
    ensures Look(ExecAll(db, HSetCmds(w, ttl)), w.key) == HSetItem(db, w, ttl)
  {
    var cmds := HSetCmds(w, ttl);
    assert cmds[..1][..0] == [];
    assert ExecAll(db, cmds[..1]) == Exec(ExecAll(db, cmds[..1][..0]), cmds[0]);
    assert map[] + w.fields == w.fields;
  }

  lemma {:induction false} HSetKeepsTime(db: Db<CacheValue>, w: HashWrite, ttl: int)
    ensures ExecAll(db, HSetCmds(w, ttl)).now == db.now
  {
    ExecAllExtends(db, [], HSetCmds(w, ttl)[0]);
    ExecAllExtends(db, [HSetCmds(w, ttl)[0]], HSetCmds(w, ttl)[1]);
    assert [] + [HSetCmds(w, ttl)[0]] == [HSetCmds(w, ttl)[0]];
    assert [HSetCmds(w, ttl)[0]] + [HSetCmds(w, ttl)[1]] == HSetCmds(w, ttl);
  }

  lemma {:induction false} HMSetLength(writes: seq<HashWrite>, ttl: int)
    ensures |HMSetCmds(writes, ttl)| == 2 * |writes|
    decreases |writes|
  {
    if writes != [] {
      HMSetLength(writes[..|writes| - 1], ttl);
    }
  }

  /** The pipeline of hash writes, command by command. */
  lemma {:induction false} HMSetAt(writes: seq<HashWrite>, ttl: int, k: nat)
    requires k < |writes|
    ensures |HMSetCmds(writes, ttl)| == 2 * |writes|
    ensures HMSetCmds(writes, ttl)[2 * k] == HSetCmds(writes[k], ttl)[0]
    ensures HMSetCmds(writes, ttl)[2 * k + 1] == HSetCmds(writes[k], ttl)[1]
    decreases |writes|
  {
    var most := writes[..|writes| - 1];
    HMSetLength(most, ttl);
    if k < |most| {
      HMSetAt(most, ttl, k);
    }
  }

  lemma {:induction false} CommandAt(writes: seq<HashWrite>, ttl: int, n: nat)
    requires n < 2 * |writes|
    ensures n < |HMSetCmds(writes, ttl)| == 2 * |writes|
    ensures HMSetCmds(writes, ttl)[n] == HSetCmds(writes[n / 2], ttl)[n % 2]
  {
    HMSetAt(writes, ttl, n / 2);
    assert n == 2 * (n / 2) || n == 2 * (n / 2) + 1;
  }

  /** How many of the first n commands of the pipeline belong to its i-th write. */
  function Own(n: nat, i: nat): (own: nat)
    ensures own <= 2
  {
    if n <= 2 * i then 0 else if n == 2 * i + 1 then 1 else 2
  }

  ghost predicate SameKey(a: Db<CacheValue>, b: Db<CacheValue>, key: string) {
    a.now == b.now && Look(a, key) == Look(b, key)
  }

  /** A pipeline of writes to distinct keys does to each key, at every moment, what its own write has done by
      then, wherever in the pipeline it stands. */
  lemma {:induction false} OwnCommands(db: Db<CacheValue>, writes: seq<HashWrite>, ttl: int, i: nat, n: nat)
    requires DistinctKeys(writes) && i < |writes| && n <= |HMSetCmds(writes, ttl)|
    ensures SameKey(
      ExecAll(db, HMSetCmds(writes, ttl)[..n]), ExecAll(db, HSetCmds(writes[i], ttl)[..Own(n, i)]), writes[i].key)
    decreases n
  {
    var cmds := HMSetCmds(writes, ttl);
    if n > 0 {
      OwnCommands(db, writes, ttl, i, n - 1);
      ExecAllPrefix(db, cmds, n - 1);
      HMSetLength(writes, ttl);
      CommandAt(writes, ttl, n - 1);
      OneCommand(ExecAll(db, cmds[..n - 1]), db, writes, ttl, i, n - 1);
    }
  }

  lemma {:induction false} OneCommand(
    a: Db<CacheValue>, db: Db<CacheValue>, writes: seq<HashWrite>, ttl: int, i: nat, n: nat)
    requires DistinctKeys(writes) && i < |writes| && n < |HMSetCmds(writes, ttl)| == 2 * |writes|
    requires HMSetCmds(writes, ttl)[n] == HSetCmds(writes[n / 2], ttl)[n % 2]
    requires SameKey(a, ExecAll(db, HSetCmds(writes[i], ttl)[..Own(n, i)]), writes[i].key)
    ensures SameKey(
      Exec(a, HMSetCmds(writes, ttl)[n]), ExecAll(db, HSetCmds(writes[i], ttl)[..Own(n + 1, i)]), writes[i].key)
  {
    var own := HSetCmds(writes[i], ttl);
    if n / 2 == i {
      assert own[..Own(n + 1, i)] == own[..Own(n, i)] + [own[n % 2]];
      ExecAllExtends(db, own[..Own(n, i)], own[n % 2]);
      ExecIsLocal(a, ExecAll(db, own[..Own(n, i)]), own[n % 2], writes[i].key);
    } else {
      assert Own(n + 1, i) == Own(n, i);
      ExecUntouched(a, HMSetCmds(writes, ttl)[n], writes[i].key);
    }
  }

  /** So after the whole pipeline each key holds what its own write alone leaves in it. */
  lemma {:induction false} HMSetEffect(db: Db<CacheValue>, writes: seq<HashWrite>, ttl: int, i: nat)
    requires DistinctKeys(writes) && i < |writes|
    ensures ExecAll(db, HMSetCmds(writes, ttl)).now == db.now
    ensures Look(ExecAll(db, HMSetCmds(writes, ttl)), writes[i].key) == HSetItem(db, writes[i], ttl)
  {
    var cmds := HMSetCmds(writes, ttl);
    HMSetAt(writes, ttl, i);
    OwnCommands(db, writes, ttl, i, |cmds|);
    assert cmds[..|cmds|] == cmds && HSetCmds(writes[i], ttl)[..2] == HSetCmds(writes[i], ttl);
    HSetEffect(db, writes[i], ttl);
    HSetKeepsTime(db, writes[i], ttl);
  }

  /** A key not written is untouched. */
  lemma {:induction false} HMSetOthers(db: Db<CacheValue>, writes: seq<HashWrite>, ttl: int, key: string)
    requires forall i :: 0 <= i < |writes| ==> writes[i].key != key
    ensures SameKey(ExecAll(db, HMSetCmds(writes, ttl)), db, key)
    decreases |writes|
  {
    if writes != [] {
      var most, last := HMSetCmds(writes[..|writes| - 1], ttl), HSetCmds(writes[|writes| - 1], ttl);
      HMSetOthers(db, writes[..|writes| - 1], ttl, key);
      assert most + last == (most + [last[0]]) + [last[1]];
      ExecAllExtends(db, most + [last[0]], last[1]);
      ExecAllExtends(db, most, last[0]);
      ExecUntouched(ExecAll(db, most), last[0], key);
      ExecUntouched(Exec(ExecAll(db, most), last[0]), last[1], key);
    }
  }

  /** The iteration order of the map of writes does not matter, to any key. */
  lemma {:induction false} HMSetAnyOrder(
    db: Db<CacheValue>, a: seq<HashWrite>, b: seq<HashWrite>, ttl: int, key: string)
    requires DistinctKeys(a) && DistinctKeys(b) && forall w :: w in a <==> w in b
    ensures Look(ExecAll(db, HMSetCmds(a, ttl)), key) == Look(ExecAll(db, HMSetCmds(b, ttl)), key)
  {
    if i :| 0 <= i < |a| && a[i].key == key {
      assert a[i] in b;
      var j :| 0 <= j < |b| && b[j] == a[i];
      HMSetEffect(db, a, ttl, i);
      HMSetEffect(db, b, ttl, j);
    } else {
      forall j | 0 <= j < |b| ensures b[j].key != key { assert b[j] in a; }
      HMSetOthers(db, a, ttl, key);
      HMSetOthers(db, b, ttl, key);
    }
  }

  // ---------------------------------------------------------------- reads

  datatype FieldReply = Hit(bytes: string) | Miss | WrongKind

  function HGetReply(db: Db<CacheValue>, key: string, field: string): FieldReply {
    match Look(db, key)
    case None => Miss
    case Some(item) =>
      if !item.value.Hash? then WrongKind
      else if field in item.value.fields then Hit(item.value.fields[field]) else Miss
  }

  /** The error Exec reports for a pipeline of HGETs: that of the first reply which is not a hit. */
  function FirstFailure(replies: seq<FieldReply>): (r: Option<FieldReply>)
    ensures r.Some? ==> r.value in replies && !r.value.Hit?
    ensures r.None? ==> forall i :: 0 <= i < |replies| ==> replies[i].Hit?
    decreases |replies|
  {
    if replies == [] then None
    else if !replies[0].Hit? then Some(replies[0])
    else FirstFailure(replies[1..])
  }

  /** Exec fails with a wrong type if and only if one comes before every miss. */
  lemma {:induction false} WrongKindFirst(replies: seq<FieldReply>)
    ensures FirstFailure(replies) == Some(WrongKind) <==>
      exists i :: 0 <= i < |replies| && replies[i] == WrongKind && forall j :: 0 <= j < i ==> replies[j].Hit?
    decreases |replies|
  {
    if replies != [] && replies[0].Hit? {
      WrongKindFirst(replies[1..]);
      if i :| 0 <= i < |replies| && replies[i] == WrongKind && forall j :: 0 <= j < i ==> replies[j].Hit? {
        assert replies[1..][i - 1] == WrongKind;
      }
      var rest := replies[1..];
      if i :| 0 <= i < |rest| && rest[i] == WrongKind && forall j :: 0 <= j < i ==> rest[j].Hit? {
        assert replies[i + 1] == WrongKind;
        forall j | 0 <= j < i + 1 ensures replies[j].Hit? { assert j > 0 ==> replies[j] == replies[1..][j - 1]; }
      }
    }
  }

  lemma {:induction false} FirstFailureExtends(replies: seq<FieldReply>, last: FieldReply)
    ensures FirstFailure(replies + [last])
         == if FirstFailure(replies).Some? then FirstFailure(replies) else if last.Hit? then None else Some(last)
    decreases |replies|
  {
    if replies != [] {
      assert (replies + [last])[1..] == replies[1..] + [last];
      FirstFailureExtends(replies[1..], last);
    }
  }

  /** Each element of the set once. */
  ghost predicate Enumerates(order: seq<string>, keys: set<string>) {
    && (forall i, j :: 0 <= i < j < |order| ==> order[i] != order[j])
    && (forall key :: key in order <==> key in keys)
  }

  function Replies(db: Db<CacheValue>, requests: map<string, string>, order: seq<string>): seq<FieldReply>
    requires forall key :: key in order ==> key in requests
  {
    seq(|order|, i requires 0 <= i < |order| => HGetReply(db, order[i], requests[order[i]]))
  }

  lemma OneMoreReply(db: Db<CacheValue>, requests: map<string, string>, order: seq<string>, key: string)
    requires key in requests && forall k :: k in order ==> k in requests
    ensures Replies(db, requests, order + [key]) == Replies(db, requests, order) + [HGetReply(db, key, requests[key])]
  {
  }

  /** The pair asked for is there. */
  predicate Present(db: Db<CacheValue>, requests: map<string, string>, key: string)
    requires key in requests
  {
    requests[key] in HashAt(db, key)
  }

  lemma HGetMeans(db: Db<CacheValue>, requests: map<string, string>, key: string)
    requires key in requests
    ensures HGetReply(db, key, requests[key]).Hit? <==> Present(db, requests, key)
    ensures Present(db, requests, key) ==> HGetReply(db, key, requests[key]) == Hit(HashAt(db, key)[requests[key]])
    ensures HGetReply(db, key, requests[key]) == WrongKind <==> !HashOrAbsent(db, key)
  {
  }

  /** The i-th HGET is the first that is no hit, and its key is not a hash. */
  ghost predicate FailsAt(db: Db<CacheValue>, requests: map<string, string>, order: seq<string>, i: nat)
    requires forall key :: key in order ==> key in requests
  {
    i < |order| && !HashOrAbsent(db, order[i]) && forall j :: 0 <= j < i ==> Present(db, requests, order[j])
  }

  lemma {:induction false} FailsFirst(db: Db<CacheValue>, requests: map<string, string>, order: seq<string>)
    requires forall key :: key in order ==> key in requests
    ensures FirstFailure(Replies(db, requests, order)) == Some(WrongKind) <==>
      exists i: nat :: FailsAt(db, requests, order, i)
  {
    var replies := Replies(db, requests, order);
    WrongKindFirst(replies);
    forall i | 0 <= i < |order|
      ensures replies[i].Hit? <==> Present(db, requests, order[i])
      ensures replies[i] == WrongKind <==> !HashOrAbsent(db, order[i])
    {
      assert order[i] in order;
      HGetMeans(db, requests, order[i]);
    }
    if i :| 0 <= i < |replies| && replies[i] == WrongKind && forall j :: 0 <= j < i ==> replies[j].Hit? {
      assert FailsAt(db, requests, order, i);
    }
  }

  /** Any non-hit among the replies can come first. */
  lemma {:induction false} CanComeFirst(db: Db<CacheValue>, requests: map<string, string>, key: string)
    returns (order: seq<string>)
    requires key in requests && !HGetReply(db, key, requests[key]).Hit?
    ensures Enumerates(order, requests.Keys)
    ensures FirstFailure(Replies(db, requests, order)) == Some(HGetReply(db, key, requests[key]))
  {
    var rest := SomeOrder(requests.Keys - {key});
    order := [key] + rest;
    assert Replies(db, requests, order)[0] == HGetReply(db, key, requests[key]);
  }

  lemma {:induction false} SomeOrder(keys: set<string>) returns (order: seq<string>)
    ensures Enumerates(order, keys)
    decreases |keys|
  {
    order := [];
    if keys != {} {
      var key :| key in keys;
      var rest := SomeOrder(keys - {key});
      order := [key] + rest;
    }
  }

  ghost predicate Asks(db: Db<CacheValue>, requests: map<string, string>, reply: FieldReply) {
    exists key :: key in requests && HGetReply(db, key, requests[key]) == reply
  }

  ghost predicate Fails(db: Db<CacheValue>, requests: map<string, string>, order: seq<string>) {
    && Enumerates(order, requests.Keys)
    && FirstFailure(Replies(db, requests, order)) == Some(WrongKind)
  }

  lemma {:induction false} FailingOrder(db: Db<CacheValue>, requests: map<string, string>, order: seq<string>)
    requires Enumerates(order, requests.Keys)
    ensures Fails(db, requests, order) ==> Asks(db, requests, WrongKind)
    ensures Asks(db, requests, WrongKind) && !Asks(db, requests, Miss) ==> Fails(db, requests, order)
  {
    var replies := Replies(db, requests, order);
    forall i | 0 <= i < |replies| ensures Asks(db, requests, replies[i]) {
      assert order[i] in order;
    }
    if Asks(db, requests, WrongKind) {
      var key :| key in requests && HGetReply(db, key, requests[key]) == WrongKind;
      var i :| 0 <= i < |order| && order[i] == key;
      assert replies[i] == WrongKind;
    }
  }

  /** HMGetPipelined sends its HGETs in the order of a map. Some order of the requests makes it fail if and only
      if a key is not a hash; every order does if and only if moreover nothing is missing, since a miss that
      comes first hides the failure. */
  lemma {:induction false} HMGetOrderMatters(db: Db<CacheValue>, requests: map<string, string>)
    ensures (exists order :: Fails(db, requests, order)) <==> Asks(db, requests, WrongKind)
    ensures (forall order :: Enumerates(order, requests.Keys) ==> Fails(db, requests, order))
      <==> Asks(db, requests, WrongKind) && !Asks(db, requests, Miss)
  {
    forall order | Enumerates(order, requests.Keys)
      ensures Fails(db, requests, order) ==> Asks(db, requests, WrongKind)
      ensures Asks(db, requests, WrongKind) && !Asks(db, requests, Miss) ==> Fails(db, requests, order)
    {
      FailingOrder(db, requests, order);
    }
    var some := SomeOrder(requests.Keys);
    if Asks(db, requests, WrongKind) {
      var key :| key in requests && HGetReply(db, key, requests[key]) == WrongKind;
      var order := CanComeFirst(db, requests, key);
      assert Fails(db, requests, order);
    }
    if Asks(db, requests, Miss) {
      var key :| key in requests && HGetReply(db, key, requests[key]) == Miss;
      var order := CanComeFirst(db, requests, key);
      assert !Fails(db, requests, order);
    }
  }

  /** Two orders of one request on one database, one of which fails. */
  lemma {:induction false} TwoOrders()
    ensures var db := Db(0, map["text" := Item(Text("v"), None)]);
      var requests := map["text" := "f", "none" := "f"];
      && Fails(db, requests, ["text", "none"])
      && Enumerates(["none", "text"], requests.Keys) && !Fails(db, requests, ["none", "text"])
  {
    var db := Db(0, map["text" := Item(Text("v"), None)]);
    var requests := map["text" := "f", "none" := "f"];
    assert Replies(db, requests, ["text", "none"])[0] == WrongKind;
    assert Replies(db, requests, ["none", "text"])[0] == Miss;
  }

  /** The reply for a hash read in this order of its fields. */
  function FieldsReply(fields: map<string, string>, order: seq<string>): (values: seq<Raw>)
    requires forall f :: f in order ==> f in fields
    ensures |values| == |order| && forall i :: 0 <= i < |order| ==> values[i] == Bytes(fields[order[i]])
  {
    seq(|order|, i requires 0 <= i < |order| => Bytes(fields[order[i]]))
  }

  /** After a hash write to the key has taken effect, a written field reads back as its last value and the
      others read as before. */
  lemma {:induction false} FieldRead<V(!new)>(
    db: Db<CacheValue>, after: Db<CacheValue>, encode: Encoder<V>, decode: Decoder<V>, key: string,
    data: seq<DataSet<V>>, ttl: int, draw: real, field: string)
    requires Codec(encode, decode) && ApplyJitter(ttl, draw) >= 1 && Fields(encode, data).Some?
    requires after.now == db.now
      && Look(after, key) == HSetItem(db, HashWrite(key, Fields(encode, data).value, draw), ttl)
    ensures match LastFor(data, field)
      case None => HGetReply(after, key, field) == HGetReply(db, key, field)
      case Some(v) =>
        if HashOrAbsent(db, key)
        then HGetReply(after, key, field).Hit? && decode(HGetReply(after, key, field).bytes) == Some(v)
        else HGetReply(after, key, field).WrongKind?
  {
    LastFieldWins(encode, data, field);
  }

  /** HGet after HSet; a key of another type keeps it. */
  lemma {:induction false} HSetRoundTrip<V(!new)>(
    db: Db<CacheValue>, encode: Encoder<V>, decode: Decoder<V>, key: string, data: seq<DataSet<V>>, ttl: int,
    draw: real, field: string)
    requires Codec(encode, decode) && ApplyJitter(ttl, draw) >= 1 && Fields(encode, data).Some?
    ensures var w := HashWrite(key, Fields(encode, data).value, draw);
      var reply := HGetReply(ExecAll(db, HSetCmds(w, ttl)), key, field);
      match LastFor(data, field)
      case None => reply == HGetReply(db, key, field)
      case Some(v) => if HashOrAbsent(db, key) then reply.Hit? && decode(reply.bytes) == Some(v) else reply.WrongKind?
  {
    var w := HashWrite(key, Fields(encode, data).value, draw);
    HSetEffect(db, w, ttl);
    HSetKeepsTime(db, w, ttl);
    FieldRead(db, ExecAll(db, HSetCmds(w, ttl)), encode, decode, key, data, ttl, draw, field);
  }

  // ---------------------------------------------------------------- sorted fields

  /** Byte order on strings. */
  predicate Less(a: string, b: string)
    decreases |a|
  {
    b != "" && (a == "" || a[0] < b[0] || (a[0] == b[0] && Less(a[1..], b[1..])))
  }

  lemma {:induction false} LessTransitive(a: string, b: string, c: string)
    requires Less(a, b) && Less(b, c)
    ensures Less(a, c)
    decreases |a|
  {
    if a != "" && a[0] == b[0] == c[0] {
      LessTransitive(a[1..], b[1..], c[1..]);
    }
  }

  lemma {:induction false} LessTotal(a: string, b: string)
    ensures (Less(a, b) && !Less(b, a) && a != b) || (Less(b, a) && !Less(a, b) && a != b) || (a == b && !Less(a, b))
    decreases |a|
  {
    if a != "" && b != "" && a[0] == b[0] {
      LessTotal(a[1..], b[1..]);
      assert a == [a[0]] + a[1..] && b == [b[0]] + b[1..];
    }
  }

  /** The first position where the strings differ, and there a has the smaller character. */
  predicate LessAt(a: string, b: string, i: nat) {
    i < |a| && i < |b| && (forall j :: 0 <= j < i ==> a[j] == b[j]) && a[i] < b[i]
  }

  predicate Begins(a: string, b: string) {
    |a| < |b| && forall j :: 0 <= j < |a| ==> a[j] == b[j]
  }

  /** What byte order is: at the first position where they differ the smaller character decides, and a proper
      beginning comes before its continuations. */
  lemma {:induction false} LessMeans(a: string, b: string)
    ensures Less(a, b) <==> Begins(a, b) || exists i: nat :: LessAt(a, b, i)
    decreases |a|
  {
    if a != "" && b != "" && a[0] == b[0] {
      LessMeans(a[1..], b[1..]);
      OneMoreChar(a, b);
    } else if a != "" && b != "" {
      assert a[0] < b[0] ==> LessAt(a, b, 0);
    }
  }

  lemma OneMoreChar(a: string, b: string)
    requires a != "" && b != "" && a[0] == b[0]
    ensures Begins(a, b) <==> Begins(a[1..], b[1..])
    ensures (exists i: nat :: LessAt(a, b, i)) <==> exists i: nat :: LessAt(a[1..], b[1..], i)
  {
    if i: nat :| LessAt(a, b, i) {
      LessAtShifts(a, b, i - 1);
    }
    if i: nat :| LessAt(a[1..], b[1..], i) {
      LessAtShifts(a, b, i);
    }
    if Begins(a[1..], b[1..]) {
      forall j | 0 <= j < |a| ensures a[j] == b[j] { assert j > 0 ==> a[1..][j - 1] == b[1..][j - 1]; }
    }
  }

  lemma LessAtShifts(a: string, b: string, i: nat)
    requires a != "" && b != "" && a[0] == b[0]
    ensures LessAt(a, b, i + 1) <==> LessAt(a[1..], b[1..], i)
  {
    if LessAt(a[1..], b[1..], i) {
      forall j | 0 <= j < i + 1 ensures a[j] == b[j] { assert j > 0 ==> a[1..][j - 1] == b[1..][j - 1]; }
    }
  }

  predicate Increasing(s: seq<string>) {
    forall i, j :: 0 <= i < j < |s| ==> Less(s[i], s[j])
  }

  function Insert(x: string, s: seq<string>): (r: seq<string>)
    requires Increasing(s) && x !in s
    ensures Increasing(r) && forall y :: y in r <==> y == x || y in s
    decreases |s|
  {
    if s == [] then [x]
    else
      LessTotal(x, s[0]);
      if Less(x, s[0]) then
        assert forall j :: 0 <= j < |s| ==> Less(x, s[j]) by {
          forall j | 0 < j < |s| ensures Less(x, s[j]) { LessTransitive(x, s[0], s[j]); }
        }
        assert forall y :: y in [x] + s <==> y == x || y in s;
        [x] + s
      else
        assert s == [s[0]] + s[1..];
        var rest := Insert(x, s[1..]);
        assert forall j :: 0 <= j < |rest| ==> Less(s[0], rest[j]) by {
          forall j | 0 <= j < |rest| ensures Less(s[0], rest[j]) { assert rest[j] in rest; }
        }
        [s[0]] + rest
  }

  /** sort.Strings on distinct strings. */
  function SortStrings(s: seq<string>): (r: seq<string>)
    requires forall i, j :: 0 <= i < j < |s| ==> s[i] != s[j]
    ensures Increasing(r) && forall y :: y in r <==> y in s
    decreases |s|
  {
    if s == [] then [] else
    var most := SortStrings(s[..|s| - 1]);
    assert s == s[..|s| - 1] + [s[|s| - 1]];
    Insert(s[|s| - 1], most)
  }

  /** There is only one increasing order of a set of strings. */
  lemma {:induction false} IncreasingIsUnique(a: seq<string>, b: seq<string>)
    requires Increasing(a) && Increasing(b) && forall y :: y in a <==> y in b
    ensures a == b
    decreases |a|
  {
    assert b != [] ==> b[0] in b;
    if a != [] {
      assert a[0] in b && b != [] && b[0] in a;
      FirstIsLeast(a, b[0]);
      FirstIsLeast(b, a[0]);
      LessTotal(a[0], b[0]);
      assert a == [a[0]] + a[1..] && b == [b[0]] + b[1..];
      forall y ensures y in a[1..] <==> y in b[1..] {
        FirstOnlyOnce(a, y);
        FirstOnlyOnce(b, y);
      }
      IncreasingIsUnique(a[1..], b[1..]);
    }
  }

  lemma FirstIsLeast(a: seq<string>, x: string)
    requires Increasing(a) && x in a
    ensures x == a[0] || Less(a[0], x)
  {
  }

  lemma FirstOnlyOnce(a: seq<string>, y: string)
    requires Increasing(a) && a != []
    ensures y in a[1..] <==> y in a && y != a[0]
  {
    LessTotal(y, y);
    assert a == [a[0]] + a[1..];
  }

  /** Reading the whole hash after `data` was laid over the fields that were there: the fields are those
      written or there before, a written one decodes to its last value and another one to what its old bytes
      decode to; the read succeeds if and only if those old bytes decode. */
  ghost predicate ReadsOverlay<V>(
    was: map<string, string>, now: map<string, string>, decode: Decoder<V>, data: seq<DataSet<V>>,
    order: seq<string>)
  {
    && (forall f :: f in order <==> f in now) && (forall f :: f in now <==> LastFor(data, f).Some? || f in was)
    && var reply := DecodeAll(decode, FieldsReply(now, order));
       && (reply.Ok? <==> forall f :: f in was && LastFor(data, f).None? ==> decode(was[f]).Some?)
       && (reply.Ok? ==> forall i :: 0 <= i < |order| ==>
             reply.value[i] == if LastFor(data, order[i]).Some? then LastFor(data, order[i])
               else decode(was[order[i]]))
  }

  lemma {:induction false} HashRead<V(!new)>(
    db: Db<CacheValue>, after: Db<CacheValue>, encode: Encoder<V>, decode: Decoder<V>, key: string,
    data: seq<DataSet<V>>, ttl: int, draw: real, order: seq<string>)
    requires Codec(encode, decode) && ApplyJitter(ttl, draw) >= 1 && Fields(encode, data).Some? && HashOrAbsent(db, key)
    requires after.now == db.now
      && Look(after, key) == HSetItem(db, HashWrite(key, Fields(encode, data).value, draw), ttl)
    requires forall f :: f in order <==> f in HashAt(after, key)
    ensures ReadsOverlay(HashAt(db, key), HashAt(after, key), decode, data, order)
  {
    var fields, before, now := Fields(encode, data).value, HashAt(db, key), HashAt(after, key);
    assert now == before + fields;
    forall f ensures f in now <==> LastFor(data, f).Some? || f in before { LastFieldWins(encode, data, f); }
    forall i | 0 <= i < |order| ensures OverlaidAt(before, now, decode, data, order[i]) {
      assert order[i] in order;
      LastFieldWins(encode, data, order[i]);
    }
    forall f | f in before && LastFor(data, f).None? ensures f in order && now[f] == before[f] {
      LastFieldWins(encode, data, f);
    }
    OverlayDecodes(before, now, decode, data, order);
  }

  /** One field of the hash. */
  ghost predicate OverlaidAt<V>(
    was: map<string, string>, now: map<string, string>, decode: Decoder<V>, data: seq<DataSet<V>>, f: string)
  {
    && f in now
    && if LastFor(data, f).Some? then decode(now[f]) == LastFor(data, f) else f in was && now[f] == was[f]
  }

  lemma {:induction false} OverlayDecodes<V>(
    was: map<string, string>, now: map<string, string>, decode: Decoder<V>, data: seq<DataSet<V>>,
    order: seq<string>)
    requires forall f :: f in order <==> f in now
    requires forall i :: 0 <= i < |order| ==> OverlaidAt(was, now, decode, data, order[i])
    requires forall f :: f in was && LastFor(data, f).None? ==> f in order && now[f] == was[f]
    requires forall f :: f in now ==> LastFor(data, f).Some? || f in was
    ensures var reply := DecodeAll(decode, FieldsReply(now, order));
       && (reply.Ok? <==> forall f :: f in was && LastFor(data, f).None? ==> decode(was[f]).Some?)
       && (reply.Ok? ==> forall i :: 0 <= i < |order| ==>
             reply.value[i] == if LastFor(data, order[i]).Some? then LastFor(data, order[i])
               else decode(was[order[i]]))
  {
    var raw := FieldsReply(now, order);
    var reply := DecodeAll(decode, raw);
    forall i | 0 <= i < |order|
      ensures raw[i] == Bytes(now[order[i]]) && OverlaidAt(was, now, decode, data, order[i])
    {
      assert order[i] in order;
    }
    if reply.Ok? {
      forall f | f in was && LastFor(data, f).None? ensures decode(was[f]).Some? {
        var i :| 0 <= i < |order| && order[i] == f;
        assert DecodeOne(decode, raw[i]) == Ok(reply.value[i]);
      }
      forall i | 0 <= i < |order|
        ensures reply.value[i] == if LastFor(data, order[i]).Some? then LastFor(data, order[i])
          else decode(was[order[i]])
      {
        assert DecodeOne(decode, raw[i]) == Ok(reply.value[i]);
      }
    } else {
      var i :| 0 <= i < |raw| && DecodeOne(decode, raw[i]) == Err(reply.error);
      assert OverlaidAt(was, now, decode, data, order[i]);
    }
  }

  /** HGetAll after HSet, on a key that is absent or holds a hash already. */
  lemma {:induction false} HSetThenHGetAll<V(!new)>(
    db: Db<CacheValue>, encode: Encoder<V>, decode: Decoder<V>, key: string, data: seq<DataSet<V>>, ttl: int,
    draw: real, order: seq<string>)
    requires Codec(encode, decode) && HashOrAbsent(db, key) && ApplyJitter(ttl, draw) >= 1 && Fields(encode, data).Some?
    requires var after := ExecAll(db, HSetCmds(HashWrite(key, Fields(encode, data).value, draw), ttl));
      forall f :: f in order <==> f in HashAt(after, key)
    ensures var after := ExecAll(db, HSetCmds(HashWrite(key, Fields(encode, data).value, draw), ttl));
      ReadsOverlay(HashAt(db, key), HashAt(after, key), decode, data, order)
  {
    var w := HashWrite(key, Fields(encode, data).value, draw);
    HSetEffect(db, w, ttl);
    HSetKeepsTime(db, w, ttl);
    HashRead(db, ExecAll(db, HSetCmds(w, ttl)), encode, decode, key, data, ttl, draw, order);
  }
}
