/**
 The cache as the Go object it is: methods that build pipelines in loops and send them to Redis. The
 random draws and the outcomes of the network are parameters. Concurrent clients are the subject of modules
 Pipelines and PatternDelete; here a pipeline runs by itself.
 */
module CacheClient {
  import opened Wrappers
  import opened Redis
  import opened CacheOptions
  import opened CacheCommands
  import opened Counters
  import opened Bulk
  import opened Hashes

  /** The error of a pipeline: an empty one is not sent, and one wrong type among the replies is an error
      although all other commands ran. */
  function PipeError(db: Db<CacheValue>, cmds: seq<Cmd>, delivery: Delivery): Option<CacheError> {
    if cmds == [] then None
    else if delivery.Broken? then Some(Transport)
    else if AnyRejected(db, cmds) then Some(WrongType)
    else None
  }

  /** A transaction is applied as a whole or not at all, whether or not the reply arrives. */
  function Transacted(db: Db<CacheValue>, cmds: seq<Cmd>, net: Net): Db<CacheValue> {
    if net.Unsent? then db else ExecAll(db, cmds)
  }

  function TransactionError(db: Db<CacheValue>, cmds: seq<Cmd>, net: Net): Option<CacheError> {
    if !net.Answered? then Some(Transport) else if AnyRejected(db, cmds) then Some(WrongType) else None
  }

  class Server {
    var db: Db<CacheValue>

    constructor (db: Db<CacheValue>)
      ensures this.db == db
    {
      this.db := db;
    }

    method Pipelined(cmds: seq<Cmd>, delivery: Delivery) returns (error: Option<CacheError>)
      modifies this
      ensures db == Piped(old(db), cmds, delivery) && error == PipeError(old(db), cmds, delivery)
    {
      if |cmds| == 0 {
        return None;
      }
      ghost var start := db;
      var rejected := false;
      for i := 0 to Ran(delivery, |cmds|)
        invariant db == ExecAll(start, cmds[..i]) && (rejected <==> AnyRejected(start, cmds[..i]))
      {
        assert cmds[..i + 1] == cmds[..i] + [cmds[i]];
        ExecAllExtends(start, cmds[..i], cmds[i]);
        rejected := rejected || Rejected(db, cmds[i]);
        db := Exec(db, cmds[i]);
      }
      assert cmds[..|cmds|] == cmds;
      error := if delivery.Broken? then Some(Transport) else if rejected then Some(WrongType) else None;
    }

    /** TxPipelined and single commands. */
    method Transaction(cmds: seq<Cmd>, net: Net) returns (error: Option<CacheError>)
      modifies this
      ensures db == Transacted(old(db), cmds, net) && error == TransactionError(old(db), cmds, net)
    {
      error := if net != Answered then Some(Transport) else if AnyRejected(db, cmds) then Some(WrongType) else None;
      if net != Unsent {
        db := ExecAll(db, cmds);
      }
    }
  }

  /** The pipeline writes each key with a field list, once, and no other. */
  ghost predicate WritesOf<V>(
    encode: Encoder<V>, writes: map<string, seq<DataSet<V>>>, draw: string -> real, keys: set<string>,
    order: seq<HashWrite>)
  {
    && DistinctKeys(order)
    && (forall i :: 0 <= i < |order| ==>
          && order[i].key in keys && order[i].key in writes && writes[order[i].key] != []
          && Fields(encode, writes[order[i].key]) == Some(order[i].fields) && order[i].draw == draw(order[i].key))
    && (forall key :: key in keys && key in writes && writes[key] != [] ==>
          exists i :: 0 <= i < |order| && order[i].key == key)
  }

  lemma OneMoreWrite<V>(
    encode: Encoder<V>, writes: map<string, seq<DataSet<V>>>, draw: string -> real, keys: set<string>,
    pipe: seq<HashWrite>, w: HashWrite)
    requires WritesOf(encode, writes, draw, keys, pipe) && w.key !in keys && w.key in writes && writes[w.key] != []
    requires Fields(encode, writes[w.key]) == Some(w.fields) && w.draw == draw(w.key)
    ensures WritesOf(encode, writes, draw, keys + {w.key}, pipe + [w])
  {
    assert (pipe + [w])[|pipe|].key == w.key;
    forall k | k in keys && k in writes && writes[k] != []
      ensures exists i :: 0 <= i < |pipe + [w]| && (pipe + [w])[i].key == k
    {
      var i :| 0 <= i < |pipe| && pipe[i].key == k;
      assert (pipe + [w])[i].key == k;
    }
  }

  class Client<V(!new)> {
    const server: Server
    const options: Options
    const encoders: Serialize -> Encoder<V>
    const decoders: Serialize -> Decoder<V>

    constructor (server: Server, options: Options, encoders: Serialize -> Encoder<V>, decoders: Serialize -> Decoder<V>)
      ensures this.server == server && this.options == options
      ensures this.encoders == encoders && this.decoders == decoders
    {
      this.server, this.options, this.encoders, this.decoders := server, options, encoders, decoders;
    }

    /** Marshal and Unmarshal of the serializer that a call with these options uses. */
    function Encode(settings: seq<Option<Setting>>): (encode: Encoder<V>)
      reads options
      ensures encode == encoders(AllApplied(options.Value(), settings).serialize)
    {
      encoders(AllApplied(options.Value(), settings).serialize)
    }

    function Decode(settings: seq<Option<Setting>>): (decode: Decoder<V>)
      reads options
      ensures decode == decoders(AllApplied(options.Value(), settings).serialize)
    {
      decoders(AllApplied(options.Value(), settings).serialize)
    }

    /** The ttl a call with these options works with. */
    function Ttl(settings: seq<Option<Setting>>): (ttl: int)
      reads options
      ensures ttl >= 1
      ensures var opt := AllApplied(options.Value(), settings); opt.expire >= 1 ==> ttl == opt.expire
    {
      GetExpire(AllApplied(options.Value(), settings))
    }

    method Configure(settings: seq<Option<Setting>>) returns (ttl: int, encode: Encoder<V>, decode: Decoder<V>)
      ensures ttl == Ttl(settings) && encode == Encode(settings) && decode == Decode(settings)
    {
      var opt := ApplyOptions(options, settings);
      ttl, encode, decode := GetExpire(opt.Value()), encoders(opt.serialize), decoders(opt.serialize);
    }

    // -------------------------------------------------------------- strings

    method Set(key: string, value: Payload<V>, settings: seq<Option<Setting>>, net: Net)
      returns (error: Option<CacheError>)
      modifies server
      ensures match Marshal(Encode(settings), value)
        case None => error == Some(MarshalFailed) && server.db == old(server.db)
        case Some(bytes) =>
          && error == (if net.Answered? then None else Some(Transport))
          && server.db == if net.Unsent? then old(server.db)
                          else ExecAll(old(server.db), SetCmds(key, bytes, Ttl(settings)))
    {
      var ttl, encode, _ := Configure(settings);
      var bytes := Marshal(encode, value);
      if bytes.None? {
        return Some(MarshalFailed);
      }
      SetsAreAccepted(server.db, SetCmds(key, bytes.value, ttl));
      error := server.Transaction(SetCmds(key, bytes.value, ttl), net);
    }

    /** SetMultiple: nothing is sent if any value fails to marshal; otherwise each key is written with a
        jittered ttl of its own, drawn for its position. */
    method SetMultiple(
      data: seq<DataSet<Payload<V>>>, settings: seq<Option<Setting>>, draw: nat -> real, delivery: Delivery)
      returns (error: Option<CacheError>, ghost writes: seq<TextWrite>)
      modifies server
      ensures error == Some(MarshalFailed) <==>
        exists i :: 0 <= i < |data| && Marshal(Encode(settings), data[i].value).None?
      ensures error == Some(MarshalFailed) ==> server.db == old(server.db)
      ensures error != Some(MarshalFailed) ==>
        && Marshalled(Encode(settings), data, writes) && (forall i :: 0 <= i < |writes| ==> writes[i].draw == draw(i))
        && error == (if data == [] || delivery.Delivered? then None else Some(Transport))
        && server.db == Piped(old(server.db), SetMultipleCmds(writes, Ttl(settings)), delivery)
    {
      writes := [];
      if |data| == 0 {
        assert SetMultipleCmds([], Ttl(settings)) == [];
        return None, [];
      }
      var ttl, encode, _ := Configure(settings);
      var pipe: seq<TextWrite> := [];
      for i := 0 to |data|
        invariant |pipe| == i && forall k :: 0 <= k < i ==> pipe[k].draw == draw(k)
        invariant forall k :: 0 <= k < i ==>
          pipe[k].key == data[k].key && Marshal(encode, data[k].value) == Some(pipe[k].bytes)
      {
        var bytes := Marshal(encode, data[i].value);
        if bytes.None? {
          return Some(MarshalFailed), [];
        }
        pipe := pipe + [TextWrite(data[i].key, bytes.value, draw(i))];
      }
      writes := pipe;
      SetsAreAccepted(server.db, SetMultipleCmds(pipe, ttl));
      error := server.Pipelined(SetMultipleCmds(pipe, ttl), delivery);
    }

    /** MGet: an empty request changes nothing and does not ask; otherwise the destination gets one element
        per key, or keeps what it had on any error. */
    method MGet(keys: seq<string>, zero: V, dest: Dest<V>, settings: seq<Option<Setting>>, answered: bool)
      returns (error: Option<CacheError>)
      modifies dest.Objects()
      ensures var values := MGetReply(server.db, keys);
        && (error == None <==> keys == [] || (answered && !dest.Bad? && AllReadable(Decode(settings), values)))
        && (error == Some(Transport) <==> keys != [] && !answered)
        && (keys != [] && answered && dest.Bad? ==> error == Some(InvalidDestination))
        && (keys != [] && answered && !dest.Bad? && error.Some? ==>
              FirstUnreadable(Decode(settings), values, error.value))
        && (keys != [] && error == None ==> Filled(dest, zero, Decode(settings), values))
      ensures error.Some? || keys == [] ==>
        && (dest.Values? ==> dest.values.elems == old(dest.values.elems))
        && (dest.Pointers? ==> dest.pointers.elems == old(dest.pointers.elems))
    {
      if |keys| == 0 {
        return None;
      }
      if !answered {
        return Some(Transport);
      }
      var _, _, decode := Configure(settings);
      error := DecodeAlignedBulk(MGetReply(server.db, keys), decode, zero, dest);
    }

    // -------------------------------------------------------------- hashes

    method MarshalFields(encode: Encoder<V>, data: seq<DataSet<V>>) returns (r: Option<map<string, string>>)
      ensures r == Fields(encode, data)
    {
      var hashData: map<string, string> := map[];
      for i := 0 to |data|
        invariant Fields(encode, data[..i]) == Some(hashData)
      {
        assert data[..i + 1][..i] == data[..i];
        var bytes := encode(data[i].value);
        if bytes.None? {
          FailedFieldFails(encode, data, i);
          return None;
        }
        hashData := hashData[data[i].key := bytes.value];
      }
      assert data[..|data|] == data;
      r := Some(hashData);
    }

    method HSet(key: string, data: seq<DataSet<V>>, settings: seq<Option<Setting>>, draw: real, delivery: Delivery)
      returns (error: Option<CacheError>)
      modifies server
      ensures data == [] ==> error == None && server.db == old(server.db)
      ensures data != [] ==> match Fields(Encode(settings), data)
        case None => error == Some(MarshalFailed) && server.db == old(server.db)
        case Some(fields) =>
          var cmds := HSetCmds(HashWrite(key, fields, draw), Ttl(settings));
          && error == (if delivery.Broken? then Some(Transport)
                       else if HashOrAbsent(old(server.db), key) then None
                       else Some(WrongType))
          && server.db == Piped(old(server.db), cmds, delivery)
    {
      if |data| == 0 {
        return None;
      }
      var ttl, encode, _ := Configure(settings);
      var hashData := MarshalFields(encode, data);
      if hashData.None? {
        return Some(MarshalFailed);
      }
      HSetIsRejected(server.db, HashWrite(key, hashData.value, draw), ttl);
      error := server.Pipelined(HSetCmds(HashWrite(key, hashData.value, draw), ttl), delivery);
    }

    /** One key of the map of writes: a key without fields is skipped. */
    method WriteKey(
      encode: Encoder<V>, writes: map<string, seq<DataSet<V>>>, draw: string -> real, ghost done: set<string>,
      key: string, pipe: seq<HashWrite>)
      returns (more: Option<seq<HashWrite>>)
      requires key in writes && key !in done && WritesOf(encode, writes, draw, done, pipe)
      ensures more.None? <==> Fields(encode, writes[key]).None?
      ensures more.Some? ==> WritesOf(encode, writes, draw, done + {key}, more.value)
    {
      if |writes[key]| == 0 {
        return Some(pipe);
      }
      var hashData := MarshalFields(encode, writes[key]);
      if hashData.None? {
        return None;
      }
      OneMoreWrite(encode, writes, draw, done, pipe, HashWrite(key, hashData.value, draw(key)));
      more := Some(pipe + [HashWrite(key, hashData.value, draw(key))]);
    }

    /** The loop over the map of writes, in any order. */
    method HashWrites(encode: Encoder<V>, writes: map<string, seq<DataSet<V>>>, draw: string -> real)
      returns (pipe: Option<seq<HashWrite>>)
      ensures pipe.None? <==> exists key :: key in writes && Fields(encode, writes[key]).None?
      ensures pipe.Some? ==> WritesOf(encode, writes, draw, writes.Keys, pipe.value)
    {
      pipe := Some([]);
      var todo := writes.Keys;
      while todo != {}
        invariant todo <= writes.Keys && pipe.Some? && WritesOf(encode, writes, draw, writes.Keys - todo, pipe.value)
        invariant forall key :: key in writes && key !in todo ==> Fields(encode, writes[key]).Some?
        decreases |todo|
      {
        var key :| key in todo;
        assert writes.Keys - (todo - {key}) == writes.Keys - todo + {key};
        pipe := WriteKey(encode, writes, draw, writes.Keys - todo, key, pipe.value);
        if pipe.None? {
          return None;
        }
        todo := todo - {key};
      }
    }

    /** HMSetPipelined: nothing is sent if any value fails to marshal. */
    method HMSetPipelined(
      writes: map<string, seq<DataSet<V>>>, settings: seq<Option<Setting>>, draw: string -> real, delivery: Delivery)
      returns (error: Option<CacheError>, ghost order: seq<HashWrite>)
      modifies server
      ensures error == Some(MarshalFailed) <==>
        exists key :: key in writes && Fields(Encode(settings), writes[key]).None?
      ensures error == Some(MarshalFailed) ==> server.db == old(server.db)
      ensures error != Some(MarshalFailed) ==>
        && WritesOf(Encode(settings), writes, draw, writes.Keys, order)
        && server.db == Piped(old(server.db), HMSetCmds(order, Ttl(settings)), delivery)
        && error == (if order == [] then None
                     else if delivery.Broken? then Some(Transport)
                     else if exists i :: 0 <= i < |order| && !HashOrAbsent(old(server.db), order[i].key)
                       then Some(WrongType)
                     else None)
    {
      order := [];
      if |writes| == 0 {
        return None, [];
      }
      var ttl, encode, _ := Configure(settings);
      var pipe := HashWrites(encode, writes, draw);
      if pipe.None? {
        return Some(MarshalFailed), [];
      }
      order := pipe.value;
      HMSetIsRejected(server.db, order, ttl);
      HMSetIsEmpty(order, ttl);
      error := server.Pipelined(HMSetCmds(pipe.value, ttl), delivery);
    }

    method SortedFields(data: map<string, string>) returns (fields: seq<string>)
      ensures Increasing(fields) && forall f :: f in fields <==> f in data
    {
      fields := [];
      var todo := data.Keys;
      while todo != {}
        invariant todo <= data.Keys
        invariant forall f :: f in fields <==> f in data.Keys - todo
        invariant forall i, j :: 0 <= i < j < |fields| ==> fields[i] != fields[j]
        decreases |todo|
      {
        var k :| k in todo;
        assert k !in fields;
        fields := fields + [k];
        todo := todo - {k};
      }
      fields := SortStrings(fields);
    }

    method InOrder(data: map<string, string>, fields: seq<string>) returns (allData: seq<Raw>)
      requires forall f :: f in fields ==> f in data
      ensures allData == FieldsReply(data, fields)
    {
      allData := [];
      for i := 0 to |fields|
        invariant allData == FieldsReply(data, fields)[..i]
      {
        assert fields[i] in fields;
        allData := allData + [Bytes(data[fields[i]])];
      }
    }

    /** The fields of a hash, decoded in increasing order. */
    method DecodeFields(data: map<string, string>, zero: V, dest: Dest<V>, settings: seq<Option<Setting>>)
      returns (error: Option<CacheError>, ghost order: seq<string>)
      modifies dest.Objects()
      ensures Increasing(order) && (forall f :: f in order <==> f in data)
      ensures var values := FieldsReply(data, order);
        && (error == None <==> !dest.Bad? && AllReadable(Decode(settings), values))
        && (dest.Bad? ==> error == Some(InvalidDestination))
        && (!dest.Bad? && error.Some? ==> FirstUnreadable(Decode(settings), values, error.value))
        && (error == None ==> Filled(dest, zero, Decode(settings), values))
      ensures error.Some? && dest.Values? ==> dest.values.elems == old(dest.values.elems)
      ensures error.Some? && dest.Pointers? ==> dest.pointers.elems == old(dest.pointers.elems)
    {
      var fields := SortedFields(data);
      order := fields;
      var allData := InOrder(data, fields);
      var _, _, decode := Configure(settings);
      error := DecodeAlignedBulk(allData, decode, zero, dest);
    }

    /** HGetAll: the fields are collected in any order, sorted, and decoded in that order. */
    method HGetAll(key: string, zero: V, dest: Dest<V>, settings: seq<Option<Setting>>, answered: bool)
      returns (error: Option<CacheError>, ghost order: seq<string>)
      modifies dest.Objects()
      ensures var fields := HashAt(server.db, key);
        && Increasing(order) && (forall f :: f in order ==> f in fields)
        && if !answered then error == Some(Transport)
           else if !HashOrAbsent(server.db, key) then error == Some(WrongType)
           else if fields == map[] then error == Some(NotFound)
           else
             var values := FieldsReply(fields, order);
             && (forall f :: f in fields ==> f in order)
             && (error == None <==> !dest.Bad? && AllReadable(Decode(settings), values))
             && (dest.Bad? ==> error == Some(InvalidDestination))
             && (!dest.Bad? && error.Some? ==> FirstUnreadable(Decode(settings), values, error.value))
             && (error == None ==> Filled(dest, zero, Decode(settings), values))
      ensures error.Some? && dest.Values? ==> dest.values.elems == old(dest.values.elems)
      ensures error.Some? && dest.Pointers? ==> dest.pointers.elems == old(dest.pointers.elems)
    {
      order := [];
      if !answered {
        return Some(Transport), [];
      }
      if !HashOrAbsent(server.db, key) {
        return Some(WrongType), [];
      }
      var data := HashAt(server.db, key);
      if |data| == 0 {
        return Some(NotFound), [];
      }
      error, order := DecodeFields(data, zero, dest, settings);
    }

    /** The HGETs of a request, in the order of the map, and the error Exec reports for their replies. */
    method Exec(requests: map<string, string>) returns (entries: seq<string>, execError: Option<FieldReply>)
      ensures Enumerates(entries, requests.Keys)
      ensures execError == FirstFailure(Replies(server.db, requests, entries))
    {
      entries, execError := [], None;
      var todo := requests.Keys;
      while todo != {}
        invariant todo <= requests.Keys && Enumerates(entries, requests.Keys - todo)
        invariant execError == FirstFailure(Replies(server.db, requests, entries))
        decreases |todo|
      {
        var key :| key in todo;
        var reply := HGetReply(server.db, key, requests[key]);
        FirstFailureExtends(Replies(server.db, requests, entries), reply);
        OneMoreReply(server.db, requests, entries, key);
        entries := entries + [key];
        if execError == None && !reply.Hit? {
          execError := Some(reply);
        }
        todo := todo - {key};
      }
    }

    /** The replies that can be read as bytes. */
    method Hits(requests: map<string, string>, entries: seq<string>) returns (result: map<string, string>)
      requires Enumerates(entries, requests.Keys)
      ensures forall key :: key in result <==> key in requests && Present(server.db, requests, key)
      ensures forall key :: key in result ==>
        Present(server.db, requests, key) && result[key] == HashAt(server.db, key)[requests[key]]
    {
      result := map[];
      for i := 0 to |entries|
        invariant forall key :: key in result ==>
          key in requests && Present(server.db, requests, key) && result[key] == HashAt(server.db, key)[requests[key]]
        invariant forall j :: 0 <= j < i ==> entries[j] in requests
        invariant forall j :: 0 <= j < i && Present(server.db, requests, entries[j]) ==> entries[j] in result
      {
        assert entries[i] in entries;
        HGetMeans(server.db, requests, entries[i]);
        var reply := HGetReply(server.db, entries[i], requests[entries[i]]);
        if reply.Hit? {
          result := result[entries[i] := reply.bytes];
        }
      }
    }

    /** HMGetPipelined asks for the keys in some order, each once. Exec reports the first error among the
        replies, and a miss is one; so a key of another type goes unnoticed when a miss comes before it. */
    method HMGetPipelined(requests: map<string, string>, answered: bool)
      returns (error: Option<CacheError>, result: map<string, string>, ghost order: seq<string>)
      ensures requests != map[] && answered ==> Enumerates(order, requests.Keys)
      ensures requests == map[] ==> error == None && result == map[]
      ensures requests != map[] && !answered ==> error == Some(Transport)
      ensures requests != map[] && answered ==> error == None || error == Some(WrongType)
      ensures requests != map[] && answered ==>
        (error == Some(WrongType) <==>
           exists i: nat :: FailsAt(server.db, requests, order, i))
      ensures error.Some? ==> result == map[]
      ensures error == None && requests != map[] ==>
        && (forall key :: key in result <==> key in requests && Present(server.db, requests, key))
        && (forall key :: key in result ==>
              Present(server.db, requests, key) && result[key] == HashAt(server.db, key)[requests[key]])
    {
      if |requests| == 0 {
        return None, map[], [];
      }
      if !answered {
        return Some(Transport), map[], [];
      }
      var entries, execError := Exec(requests);
      order := entries;
      FailsFirst(server.db, requests, order);
      if execError == Some(WrongKind) {
        return Some(WrongType), map[], order;
      }
      result := Hits(requests, entries);
      error := None;
    }

    // -------------------------------------------------------------- sets and counters

    method SetMember(key: string, data: seq<string>, settings: seq<Option<Setting>>, draw: real, net: Net)
      returns (error: Option<CacheError>)
      modifies server
      ensures data == [] ==> error == None && server.db == old(server.db)
      ensures data != [] ==>
        var cmds := SetMemberCmds(key, (set m | m in data), Ttl(settings), draw);
        && server.db == (if net.Unsent? then old(server.db) else ExecAll(old(server.db), cmds))
        && error == if !net.Answered? then Some(Transport)
                    else if Live(old(server.db), key) && !Look(old(server.db), key).value.value.Members?
                    then Some(WrongType)
                    else None
    {
      var ttl, _, _ := Configure(settings);
      if |data| == 0 {
        return None;
      }
      var members: set<string> := {};
      for i := 0 to |data|
        invariant members == set m | m in data[..i]
      {
        assert data[..i + 1] == data[..i] + [data[i]];
        members := members + {data[i]};
      }
      assert data[..|data|] == data;
      FirstIsRejected(server.db, SetMemberCmds(key, members, ttl, draw));
      error := server.Transaction(SetMemberCmds(key, members, ttl, draw), net);
    }

    method Increment(key: string, settings: seq<Option<Setting>>, net: Net)
      returns (count: int, error: Option<CacheError>)
      modifies server
      ensures var (after, reply) := Counters.Increment(old(server.db), key, Ttl(settings));
        && server.db == (if net.Unsent? then old(server.db) else after)
        && error == (if !net.Answered? then Some(Transport)
                     else if Live(old(server.db), key) && !Look(old(server.db), key).value.value.Counter?
                     then Some(WrongType)
                     else None)
        && (error == None ==> reply == Some(count)) && (error.Some? ==> count == 0)
    {
      var ttl, _, _ := Configure(settings);
      var reply := IncrReply(server.db, key);
      CounterIsRejected(server.db, key, ttl);
      error := server.Transaction(IncrementCmds(key, ttl), net);
      count := if error == None then reply.value else 0;
    }

    method IncrementFixed(key: string, settings: seq<Option<Setting>>, net: Net)
      returns (count: int, error: Option<CacheError>)
      modifies server
      ensures var (after, reply) := Counters.IncrementFixed(old(server.db), key, Ttl(settings));
        && server.db == (if net.Unsent? then old(server.db) else after)
        && error == (if !net.Answered? then Some(Transport)
                     else if Live(old(server.db), key) && !Look(old(server.db), key).value.value.Counter?
                     then Some(WrongType)
                     else None)
        && (error == None ==> reply == Some(count)) && (error.Some? ==> count == 0)
    {
      var ttl, _, _ := Configure(settings);
      var reply := IncrReply(server.db, key);
      CounterIsRejected(server.db, key, ttl);
      error := server.Transaction(IncrementFixedCmds(key, ttl), net);
      count := if error == None then reply.value else 0;
    }
  }

  // ---------------------------------------------------------------- which pipelines are rejected

  lemma {:induction false} SetsAreAccepted(db: Db<CacheValue>, cmds: seq<Cmd>)
    requires forall i :: 0 <= i < |cmds| ==> cmds[i].CmdSet?
    ensures !AnyRejected(db, cmds)
    decreases |cmds|
  {
    if cmds != [] {
      SetsAreAccepted(db, cmds[..|cmds| - 1]);
    }
  }

  lemma {:induction false} FirstIsRejected(db: Db<CacheValue>, cmds: seq<Cmd>)
    requires |cmds| == 2 && (cmds[1].CmdExpire? || cmds[1].CmdExpireNX?)
    ensures AnyRejected(db, cmds) <==> Rejected(db, cmds[0])
  {
    assert cmds[..1][..0] == [] && cmds[..1][0] == cmds[0];
    assert !AnyRejected(db, cmds[..1][..0]) && ExecAll(db, cmds[..1][..0]) == db;
  }

  /** A hash write fails if and only if the key holds something that is not a hash. */
  lemma {:induction false} HSetIsRejected(db: Db<CacheValue>, w: HashWrite, ttl: int)
    ensures AnyRejected(db, HSetCmds(w, ttl)) <==> !HashOrAbsent(db, w.key)
  {
    FirstIsRejected(db, HSetCmds(w, ttl));
  }

  /** A pipeline of hash writes fails if and only if one of the keys held something else before it. */
  lemma {:induction false} HMSetIsRejected(db: Db<CacheValue>, writes: seq<HashWrite>, ttl: int)
    requires DistinctKeys(writes)
    ensures AnyRejected(db, HMSetCmds(writes, ttl)) <==>
      exists i :: 0 <= i < |writes| && !HashOrAbsent(db, writes[i].key)
    decreases |writes|
  {
    if writes != [] {
      var most, last := writes[..|writes| - 1], writes[|writes| - 1];
      HMSetIsRejected(db, most, ttl);
      AnyRejectedConcat(db, HMSetCmds(most, ttl), HSetCmds(last, ttl));
      HMSetOthers(db, most, ttl, last.key);
      HSetIsRejected(ExecAll(db, HMSetCmds(most, ttl)), last, ttl);
      assert forall i :: 0 <= i < |most| ==> most[i] == writes[i];
    }
  }

  lemma {:induction false} HMSetIsEmpty(writes: seq<HashWrite>, ttl: int)
    ensures HMSetCmds(writes, ttl) == [] <==> writes == []
  {
  }

  lemma {:induction false} CounterIsRejected(db: Db<CacheValue>, key: string, ttl: int)
    ensures AnyRejected(db, IncrementCmds(key, ttl)) <==> IncrReply(db, key).None?
    ensures AnyRejected(db, IncrementFixedCmds(key, ttl)) <==> IncrReply(db, key).None?
  {
    FirstIsRejected(db, IncrementCmds(key, ttl));
    FirstIsRejected(db, IncrementFixedCmds(key, ttl));
  }

  // ---------------------------------------------------------------- writers and readers with the same preset

  /** With the high-traffic preset on both sides MGet gives back what SetMultiple wrote, whatever the defaults
      of the two caches are: the preset fixes the serializer. */
  lemma {:induction false} HighTrafficRoundTrip<V(!new)>(
    db: Db<CacheValue>, encoders: Serialize -> Encoder<V>, decoders: Serialize -> Decoder<V>,
    writer: Config, reader: Config, writeTtl: int, readTtl: int, u1: real, u2: real,
    data: seq<DataSet<Payload<V>>>, writes: seq<TextWrite>, keys: seq<string>)
    requires forall s :: Codec(encoders(s), decoders(s))
    requires Marshalled(encoders(AllApplied(writer, HighTrafficOpts(writeTtl, u1)).serialize), data, writes)
    requires forall i :: 0 <= i < |keys| ==> WrittenOrAbsent(db, data, keys[i])
    ensures var ttl := GetExpire(AllApplied(writer, HighTrafficOpts(writeTtl, u1)));
      var decode := decoders(AllApplied(reader, HighTrafficOpts(readTtl, u2)).serialize);
      var reply := DecodeAll(decode, MGetReply(ExecAll(db, SetMultipleCmds(writes, ttl)), keys));
      && reply.Ok?
      && forall i :: 0 <= i < |keys| ==>
           match LastFor(data, keys[i])
           case Some(p) => p.Object? && reply.value[i] == Some(p.value)
           case None => reply.value[i] == None
  {
    HighTrafficConfig(writer, writeTtl, u1);
    HighTrafficConfig(reader, readTtl, u2);
    var ttl := GetExpire(AllApplied(writer, HighTrafficOpts(writeTtl, u1)));
    SetMultipleRoundTrip(db, encoders(MessagePack), decoders(MessagePack), data, writes, ttl, keys);
  }

  // ---------------------------------------------------------------- hash pipelines and their readers

  /** The position of a key in the pipeline, if the pipeline writes it. */
  lemma {:induction false} WriteOf<V>(
    encode: Encoder<V>, writes: map<string, seq<DataSet<V>>>, draw: string -> real, order: seq<HashWrite>, key: string)
    returns (i: nat)
    requires WritesOf(encode, writes, draw, writes.Keys, order)
    ensures key in writes && writes[key] != [] ==>
      && i < |order| && order[i].key == key
      && Fields(encode, writes[key]) == Some(order[i].fields) && order[i].draw == draw(key)
    ensures key !in writes || writes[key] == [] ==> forall k :: 0 <= k < |order| ==> order[k].key != key
  {
    i := 0;
    if key in writes && writes[key] != [] {
      i :| 0 <= i < |order| && order[i].key == key;
    }
  }

  /** What HMSetPipelined is asked to write to the key. */
  function DataFor<V>(writes: map<string, seq<DataSet<V>>>, key: string): seq<DataSet<V>> {
    if key in writes then writes[key] else []
  }

  /** HMSetPipelined, then HMGetPipelined: every pair asked for is answered with the last value written to it,
      and a pair not written as before. A key that held another type keeps it. */
  lemma {:induction false} HMSetThenHMGet<V(!new)>(
    db: Db<CacheValue>, encode: Encoder<V>, decode: Decoder<V>, writes: map<string, seq<DataSet<V>>>,
    draw: string -> real, order: seq<HashWrite>, ttl: int, key: string, field: string)
    requires Codec(encode, decode) && WritesOf(encode, writes, draw, writes.Keys, order)
    requires ApplyJitter(ttl, draw(key)) >= 1
    ensures var reply := HGetReply(ExecAll(db, HMSetCmds(order, ttl)), key, field);
      match LastFor(DataFor(writes, key), field)
      case None => reply == HGetReply(db, key, field)
      case Some(v) => if HashOrAbsent(db, key) then reply.Hit? && decode(reply.bytes) == Some(v) else reply.WrongKind?
  {
    var i := WriteOf(encode, writes, draw, order, key);
    if key in writes && writes[key] != [] {
      HMSetEffect(db, order, ttl, i);
      FieldRead(db, ExecAll(db, HMSetCmds(order, ttl)), encode, decode, key, writes[key], ttl, draw(key), field);
    } else {
      HMSetOthers(db, order, ttl, key);
    }
  }

  /** HMSetPipelined, then HGetAll: the same reading as after one HSet, for every key of the map. */
  lemma {:induction false} HMSetThenHGetAll<V(!new)>(
    db: Db<CacheValue>, encode: Encoder<V>, decode: Decoder<V>, writes: map<string, seq<DataSet<V>>>,
    draw: string -> real, order: seq<HashWrite>, ttl: int, key: string, fields: seq<string>)
    requires Codec(encode, decode) && WritesOf(encode, writes, draw, writes.Keys, order)
    requires key in writes && writes[key] != [] && HashOrAbsent(db, key) && ApplyJitter(ttl, draw(key)) >= 1
    requires var after := ExecAll(db, HMSetCmds(order, ttl));
      forall f :: f in fields <==> f in HashAt(after, key)
    ensures ReadsOverlay(HashAt(db, key), HashAt(ExecAll(db, HMSetCmds(order, ttl)), key), decode, writes[key], fields)
  {
    var i := WriteOf(encode, writes, draw, order, key);
    HMSetEffect(db, order, ttl, i);
    HashRead(db, ExecAll(db, HMSetCmds(order, ttl)), encode, decode, key, writes[key], ttl, draw(key), fields);
  }
}
