/**
 Aligned bulk replies: MGET answers one value or nil per key, and the destination gets one element per
 answer. The serializer is an abstract pair of functions.
 */
module Bulk {
  import opened Wrappers
  import opened Redis
  import opened CacheOptions
  import opened CacheCommands

  /** One element of a bulk reply; Odd is a type that is neither string nor bytes. */
  datatype Raw = Nil | Bytes(bytes: string) | Odd

  datatype CacheError =
    | NotFound | InvalidDestination | UnexpectedType | Malformed | MarshalFailed | WrongType | Transport

  type Decoder<!V> = string -> Option<V>
  type Encoder<!V> = V -> Option<string>

  /** What the serializer promises: decoding undoes encoding. */
  ghost predicate Codec<V(!new)>(encode: Encoder<V>, decode: Decoder<V>) {
    forall v :: encode(v).Some? ==> decode(encode(v).value) == Some(v)
  }

  function DecodeOne<V>(decode: Decoder<V>, raw: Raw): Result<Option<V>, CacheError> {
    match raw
    case Nil => Ok(None)
    case Odd => Err(UnexpectedType)
    case Bytes(bytes) => var v := decode(bytes); if v.Some? then Ok(v) else Err(Malformed)
  }

  /** All elements, or the error of the first that fails. */
  function DecodeAll<V>(decode: Decoder<V>, values: seq<Raw>): (r: Result<seq<Option<V>>, CacheError>)
    ensures r.Ok? ==> |r.value| == |values|
    ensures r.Ok? ==> forall i :: 0 <= i < |values| ==> DecodeOne(decode, values[i]) == Ok(r.value[i])
    ensures r.Err? ==> exists i :: 0 <= i < |values| && DecodeOne(decode, values[i]) == Err(r.error)
    decreases |values|
  {
    if values == [] then Ok([]) else
    var most := DecodeAll(decode, values[..|values| - 1]);
    if most.Err? then most else
    var last := DecodeOne(decode, values[|values| - 1]);
    if last.Err? then Err(last.error) else Ok(most.value + [last.value])
  }

  lemma {:induction false} DecodeAllFails<V>(decode: Decoder<V>, values: seq<Raw>, n: nat)
    requires n <= |values| && DecodeAll(decode, values[..n]).Err?
    ensures DecodeAll(decode, values) == DecodeAll(decode, values[..n])
    decreases |values|
  {
    if n == |values| {
      assert values[..n] == values;
    } else {
      var most := values[..|values| - 1];
      assert most[..n] == values[..n];
      DecodeAllFails(decode, most, n);
    }
  }

  /** A miss, or bytes that decode. */
  predicate Readable<V>(decode: Decoder<V>, raw: Raw) {
    raw.Nil? || (raw.Bytes? && decode(raw.bytes).Some?)
  }

  ghost predicate UnreadableAt<V>(decode: Decoder<V>, values: seq<Raw>, i: nat, error: CacheError) {
    && i < |values| && !Readable(decode, values[i]) && (forall j :: 0 <= j < i ==> Readable(decode, values[j]))
    && error == if values[i].Odd? then UnexpectedType else Malformed
  }

  /** The error names the first element that cannot be read: malformed bytes, or a type that is no string. */
  ghost predicate FirstUnreadable<V>(decode: Decoder<V>, values: seq<Raw>, error: CacheError) {
    exists i: nat :: UnreadableAt(decode, values, i, error)
  }

  ghost predicate AllReadable<V>(decode: Decoder<V>, values: seq<Raw>) {
    forall i :: 0 <= i < |values| ==> Readable(decode, values[i])
  }

  /** Reading a bulk reply succeeds if and only if every element is a miss or decodes; a miss is no error. */
  lemma {:induction false} DecodeAllMeans<V>(decode: Decoder<V>, values: seq<Raw>)
    ensures var r := DecodeAll(decode, values);
      && (r.Ok? <==> AllReadable(decode, values))
      && (r.Ok? ==> forall i :: 0 <= i < |values| ==>
            r.value[i] == if values[i].Nil? then None else decode(values[i].bytes))
      && (r.Err? ==> FirstUnreadable(decode, values, r.error))
    decreases |values|
  {
    if values != [] {
      var most := values[..|values| - 1];
      DecodeAllMeans(decode, most);
      if DecodeAll(decode, most).Err? {
        var i: nat :| UnreadableAt(decode, most, i, DecodeAll(decode, most).error);
        assert UnreadableAt(decode, values, i, DecodeAll(decode, most).error);
      } else {
        LastIsRead(decode, values);
      }
    }
  }

  lemma {:induction false} LastIsRead<V>(decode: Decoder<V>, values: seq<Raw>)
    requires values != [] && DecodeAll(decode, values[..|values| - 1]).Ok?
    requires AllReadable(decode, values[..|values| - 1])
    ensures var r := DecodeAll(decode, values); var last := values[|values| - 1];
      && (r.Ok? <==> Readable(decode, last)) && (r.Ok? <==> AllReadable(decode, values))
      && (r.Ok? ==> r.value == DecodeAll(decode, values[..|values| - 1]).value
                      + [if last.Nil? then None else decode(last.bytes)])
      && (r.Err? ==> FirstUnreadable(decode, values, r.error))
  {
    var most := values[..|values| - 1];
    assert forall i :: 0 <= i < |most| ==> Readable(decode, most[i]) && most[i] == values[i];
    if DecodeAll(decode, values).Err? {
      assert UnreadableAt(decode, values, |values| - 1, DecodeAll(decode, values).error);
    }
  }

  // ---------------------------------------------------------------- destinations

  class Cell<V> {
    var value: V

    constructor (v: V)
      ensures value == v
    {
      value := v;
    }
  }

  /** A variable of type []T. */
  class ValueSlice<V> {
    var elems: seq<V>

    constructor ()
    {
      elems := [];
    }
  }

  /** A variable of type []*T. */
  class PointerSlice<V> {
    var elems: seq<Cell?<V>>

    constructor ()
    {
      elems := [];
    }
  }

  /** What dest points to; Bad is anything that is not a non-nil pointer to []T or []*T. */
  datatype Dest<V> = Bad | Values(values: ValueSlice<V>) | Pointers(pointers: PointerSlice<V>)
  {
    ghost function Objects(): set<object> {
      match this
      case Bad => {}
      case Values(v) => {v}
      case Pointers(p) => {p}
    }
  }

  function OrZero<V>(v: Option<V>, zero: V): V {
    if v.Some? then v.value else zero
  }

  /** Element i of a []*T is nil for a miss and otherwise a cell with the decoded value, none shared. */
  ghost predicate Points<V>(cells: seq<Cell?<V>>, values: seq<Option<V>>)
    reads set c: Cell<V> | c in cells
  {
    && |cells| == |values|
    && (forall i {:trigger cells[i]} :: 0 <= i < |cells| ==>
          if values[i].None? then cells[i] == null else cells[i] != null && cells[i].value == values[i].value)
    && (forall i, j :: 0 <= i < j < |cells| && cells[i] != null ==> cells[i] != cells[j])
  }

  method DecodeValues<V>(values: seq<Raw>, decode: Decoder<V>, zero: V, dest: ValueSlice<V>)
    returns (error: Option<CacheError>)
    modifies dest
    ensures match DecodeAll(decode, values)
      case Ok(r) =>
        && error == None && |dest.elems| == |values|
        && forall i :: 0 <= i < |values| ==> dest.elems[i] == OrZero(r[i], zero)
      case Err(e) => error == Some(e) && dest.elems == old(dest.elems)
  {
    var out := [];
    for i := 0 to |values|
      invariant |out| == i && dest.elems == old(dest.elems)
      invariant DecodeAll(decode, values[..i]).Ok?
      invariant forall k :: 0 <= k < i ==> out[k] == OrZero(DecodeAll(decode, values[..i]).value[k], zero)
    {
      assert values[..i + 1][..i] == values[..i];
      match DecodeOne(decode, values[i])
      case Err(e) =>
        DecodeAllFails(decode, values, i + 1);
        return Some(e);
      case Ok(v) => out := out + [OrZero(v, zero)];
    }
    assert values[..|values|] == values;
    dest.elems := out;
    error := None;
  }

  method DecodePointers<V>(values: seq<Raw>, decode: Decoder<V>, dest: PointerSlice<V>)
    returns (error: Option<CacheError>)
    modifies dest
    ensures match DecodeAll(decode, values)
      case Ok(r) =>
        error == None && Points(dest.elems, r) && forall c :: c in dest.elems && c != null ==> fresh(c)
      case Err(e) => error == Some(e) && dest.elems == old(dest.elems)
  {
    var out: seq<Cell?<V>> := [];
    for i := 0 to |values|
      invariant |out| == i && dest.elems == old(dest.elems)
      invariant DecodeAll(decode, values[..i]).Ok?
      invariant Points(out, DecodeAll(decode, values[..i]).value)
      invariant forall c :: c in out && c != null ==> fresh(c)
    {
      assert values[..i + 1][..i] == values[..i];
      match DecodeOne(decode, values[i])
      case Err(e) =>
        DecodeAllFails(decode, values, i + 1);
        return Some(e);
      case Ok(v) =>
        if v.None? {
          out := out + [null];
        } else {
          var cell := new Cell<V>(v.value);
          out := out + [cell];
        }
    }
    assert values[..|values|] == values;
    dest.elems := out;
    error := None;
  }

  /** The destination holds exactly the decoded reply. */
  ghost predicate Holds<V>(dest: Dest<V>, zero: V, values: seq<Option<V>>)
    reads dest.Objects(), if dest.Pointers? then set c: Cell<V> | c in dest.pointers.elems else {}
  {
    match dest
    case Bad => false
    case Values(v) => |v.elems| == |values| && forall i :: 0 <= i < |values| ==> v.elems[i] == OrZero(values[i], zero)
    case Pointers(p) => Points(p.elems, values)
  }

  /** The destination has one element per value of the reply: zero or nil for a miss, otherwise the decoding of
      its bytes, behind pointers that are all different. */
  ghost predicate Filled<V>(dest: Dest<V>, zero: V, decode: Decoder<V>, values: seq<Raw>)
    reads dest.Objects(), if dest.Pointers? then set c: Cell<V> | c in dest.pointers.elems else {}
  {
    match dest
    case Bad => false
    case Values(v) =>
      && |v.elems| == |values|
      && forall i :: 0 <= i < |values| ==>
           Readable(decode, values[i]) && v.elems[i] == if values[i].Nil? then zero else decode(values[i].bytes).value
    case Pointers(p) =>
      && |p.elems| == |values|
      && (forall i {:trigger p.elems[i]} :: 0 <= i < |values| ==>
            && Readable(decode, values[i])
            && if values[i].Nil? then p.elems[i] == null
               else p.elems[i] != null && p.elems[i].value == decode(values[i].bytes).value)
      && (forall i, j :: 0 <= i < j < |values| && p.elems[i] != null ==> p.elems[i] != p.elems[j])
  }

  /** decodeAlignedBulk: on success one element per value, each the decoding of its value; on any error the
      destination is as it was. */
  method DecodeAlignedBulk<V>(values: seq<Raw>, decode: Decoder<V>, zero: V, dest: Dest<V>)
    returns (error: Option<CacheError>)
    modifies dest.Objects()
    ensures error == if dest.Bad? then Some(InvalidDestination)
                     else if DecodeAll(decode, values).Err? then Some(DecodeAll(decode, values).error) else None
    ensures error == None <==> !dest.Bad? && AllReadable(decode, values)
    ensures error.Some? && !dest.Bad? ==> FirstUnreadable(decode, values, error.value)
    ensures error == None ==> Filled(dest, zero, decode, values)
    ensures error == None ==> Holds(dest, zero, DecodeAll(decode, values).value)
    ensures error == None && dest.Pointers? ==> forall c :: c in dest.pointers.elems && c != null ==> fresh(c)
    ensures error.Some? && dest.Values? ==> dest.values.elems == old(dest.values.elems)
    ensures error.Some? && dest.Pointers? ==> dest.pointers.elems == old(dest.pointers.elems)
  {
    DecodeAllMeans(decode, values);
    match dest
    case Bad => error := Some(InvalidDestination);
    case Values(v) => error := DecodeValues(values, decode, zero, v);
    case Pointers(p) => error := DecodePointers(values, decode, p);
  }

  // ---------------------------------------------------------------- MGET after the writers

  function Decimal(n: int): string
    decreases n < 0, if n < 0 then -n else n
  {
    if n < 0 then "-" + Decimal(-n)
    else if n < 10 then ["0123456789"[n]]
    else Decimal(n / 10) + ["0123456789"[n % 10]]
  }

  /** MGET answers nil for a key that is absent or holds no string. */
  function MGetOne(db: Db<CacheValue>, key: string): Raw {
    match Look(db, key)
    case None => Nil
    case Some(item) =>
      match item.value
      case Text(bytes) => Bytes(bytes)
      case Counter(n) => Bytes(Decimal(n))
      case _ => Nil
  }

  /** The number that a string of digits, or minus and digits, denotes. */
  function Number(s: string): int
    decreases |s|
  {
    if s == "" then 0
    else if s[0] == '-' then -Number(s[1..])
    else 10 * Number(s[..|s| - 1]) + (s[|s| - 1] as int - '0' as int)
  }

  lemma {:induction false} DigitsOnly(n: int)
    requires n >= 0
    ensures Decimal(n) != "" && Decimal(n)[0] != '-' && (Decimal(n)[0] == '0' ==> n == 0)
    decreases n
  {
    if n >= 10 {
      DigitsOnly(n / 10);
    }
  }

  lemma {:induction false} NaturalReadsBack(n: nat)
    ensures Number(Decimal(n)) == n
    decreases n
  {
    LastDigit(n % 10);
    if n >= 10 {
      NaturalReadsBack(n / 10);
      DigitsOnly(n / 10);
      MoreDigits(n);
      OneMoreDigit(Decimal(n / 10), ["0123456789"[n % 10]]);
    }
  }

  lemma {:induction false} MoreDigits(n: nat)
    requires n >= 10
    ensures Decimal(n) == Decimal(n / 10) + ["0123456789"[n % 10]] && n == 10 * (n / 10) + n % 10
  {
  }

  /** A counter reads as its own decimal number, without leading zeros. */
  lemma {:induction false} DecimalReadsBack(n: int)
    ensures Number(Decimal(n)) == n
  {
    if n < 0 {
      NaturalReadsBack(-n);
      MinusSign(n);
      Negative(Decimal(-n));
    } else {
      NaturalReadsBack(n);
    }
  }

  lemma {:induction false} MinusSign(n: int)
    requires n < 0
    ensures Decimal(n) == "-" + Decimal(-n)
  {
  }

  lemma {:induction false} Negative(s: string)
    ensures Number("-" + s) == -Number(s)
  {
    assert ("-" + s)[1..] == s;
  }

  lemma LastDigit(d: int)
    requires 0 <= d < 10
    ensures "0123456789"[d] as int - '0' as int == d && "0123456789"[d] != '-' && Number(["0123456789"[d]]) == d
  {
    assert ["0123456789"[d]][..0] == "";
  }

  lemma {:induction false} OneMoreDigit(s: string, d: string)
    requires s != "" && s[0] != '-' && |d| == 1
    ensures Number(s + d) == 10 * Number(s) + (d[0] as int - '0' as int)
  {
    assert (s + d)[..|s + d| - 1] == s;
  }

  function MGetReply(db: Db<CacheValue>, keys: seq<string>): (values: seq<Raw>)
    ensures |values| == |keys| && forall i :: 0 <= i < |keys| ==> values[i] == MGetOne(db, keys[i])
  {
    seq(|keys|, i requires 0 <= i < |keys| => MGetOne(db, keys[i]))
  }

  /** MGET answers every key asked for, in order: nil exactly for a key that is absent or is no string, the bytes
      of a string, and the digits of a counter. */
  lemma MGetMeans(db: Db<CacheValue>, keys: seq<string>, i: nat)
    requires i < |keys|
    ensures |MGetReply(db, keys)| == |keys|
    ensures var raw := MGetReply(db, keys)[i];
      && (raw == Nil <==> !Live(db, keys[i])
                          || Look(db, keys[i]).value.value.Hash? || Look(db, keys[i]).value.value.Members?)
      && (raw != Nil ==> raw.Bytes?)
      && (forall bytes :: Live(db, keys[i]) && Look(db, keys[i]).value.value == Text(bytes) ==> raw == Bytes(bytes))
      && (forall n :: Live(db, keys[i]) && Look(db, keys[i]).value.value == Counter(n) ==>
            raw.Bytes? && Number(raw.bytes) == n)
  {
    if Live(db, keys[i]) && Look(db, keys[i]).value.value.Counter? {
      DecimalReadsBack(Look(db, keys[i]).value.value.count);
    }
  }

  /** A value for Set or SetMultiple: strings and byte slices are stored raw, everything else marshalled. */
  datatype Payload<V> = Verbatim(bytes: string) | Object(value: V)

  datatype DataSet<V> = DataSet(key: string, value: V)

  function Marshal<V>(encode: Encoder<V>, p: Payload<V>): Option<string> {
    match p
    case Verbatim(bytes) => Some(bytes)
    case Object(v) => encode(v)
  }

  /** Element i gives the key this value, and no later one gives it another. */
  ghost predicate LastAt<V>(data: seq<DataSet<V>>, key: string, value: V, i: nat) {
    i < |data| && data[i] == DataSet(key, value) && forall j :: i < j < |data| ==> data[j].key != key
  }

  /** The last value given for the key, if any. */
  function LastFor<V>(data: seq<DataSet<V>>, key: string): (r: Option<V>)
    ensures r.Some? ==> exists i: nat :: LastAt(data, key, r.value, i)
    ensures r.None? ==> forall i :: 0 <= i < |data| ==> data[i].key != key
    decreases |data|
  {
    if data == [] then None
    else if data[|data| - 1].key == key then
      assert LastAt(data, key, data[|data| - 1].value, |data| - 1);
      Some(data[|data| - 1].value)
    else
      var most := LastFor(data[..|data| - 1], key);
      assert most.Some? ==> exists i: nat :: LastAt(data, key, most.value, i) by {
        if most.Some? {
          var i: nat :| LastAt(data[..|data| - 1], key, most.value, i);
          assert LastAt(data, key, most.value, i);
        }
      }
      most
  }

  /** The writes are the marshalled data, in order. */
  ghost predicate Marshalled<V>(encode: Encoder<V>, data: seq<DataSet<Payload<V>>>, writes: seq<TextWrite>) {
    && |writes| == |data|
    && forall i :: 0 <= i < |data| ==>
         writes[i].key == data[i].key && Marshal(encode, data[i].value) == Some(writes[i].bytes)
  }

  /** After SetMultiple a key answers the bytes of the last value written to it, any other key what it did. */
  lemma {:induction false} SetMultipleThenGet<V>(
    db: Db<CacheValue>, encode: Encoder<V>, data: seq<DataSet<Payload<V>>>, writes: seq<TextWrite>, ttl: int,
    key: string)
    requires Marshalled(encode, data, writes)
    ensures MGetOne(ExecAll(db, SetMultipleCmds(writes, ttl)), key) ==
      match LastFor(data, key)
      case None => MGetOne(db, key)
      case Some(p) => if Marshal(encode, p).Some? then Bytes(Marshal(encode, p).value) else Odd
    decreases |data|
  {
    if data != [] {
      var n := |data| - 1;
      OneMoreSet(db, writes, ttl);
      SetThenGet(ExecAll(db, SetMultipleCmds(writes[..n], ttl)), writes[n], ApplyJitter(ttl, writes[n].draw), key);
      SetMultipleThenGet(db, encode, data[..n], writes[..n], ttl, key);
    }
  }

  lemma {:induction false} OneMoreSet(db: Db<CacheValue>, writes: seq<TextWrite>, ttl: int)
    requires writes != []
    ensures var n := |writes| - 1;
      ExecAll(db, SetMultipleCmds(writes, ttl)) == Exec(
        ExecAll(db, SetMultipleCmds(writes[..n], ttl)),
        CmdSet(writes[n].key, writes[n].bytes, ApplyJitter(ttl, writes[n].draw)))
  {
    var cmds, n := SetMultipleCmds(writes, ttl), |writes| - 1;
    assert cmds[..n] == SetMultipleCmds(writes[..n], ttl);
  }

  lemma SetThenGet(db: Db<CacheValue>, w: TextWrite, ttl: int, key: string)
    ensures MGetOne(Exec(db, CmdSet(w.key, w.bytes, ttl)), key) ==
      if key == w.key then Bytes(w.bytes) else MGetOne(db, key)
  {
  }

  /** MGET after SetMultiple, for keys written as objects or absent before and not written: the last value
      written per key, or a miss, in request order. */
  lemma {:induction false} SetMultipleRoundTrip<V(!new)>(
    db: Db<CacheValue>, encode: Encoder<V>, decode: Decoder<V>,
    data: seq<DataSet<Payload<V>>>, writes: seq<TextWrite>, ttl: int, keys: seq<string>)
    requires Codec(encode, decode) && Marshalled(encode, data, writes)
    requires forall i :: 0 <= i < |keys| ==> WrittenOrAbsent(db, data, keys[i])
    ensures var reply := DecodeAll(decode, MGetReply(ExecAll(db, SetMultipleCmds(writes, ttl)), keys));
      && reply.Ok?
      && forall i :: 0 <= i < |keys| ==>
           match LastFor(data, keys[i])
           case Some(p) => p.Object? && reply.value[i] == Some(p.value)
           case None => reply.value[i] == None
  {
    var values := MGetReply(ExecAll(db, SetMultipleCmds(writes, ttl)), keys);
    forall i | 0 <= i < |keys|
      ensures Readable(decode, values[i])
      ensures match LastFor(data, keys[i])
        case Some(p) => p.Object? && values[i].Bytes? && decode(values[i].bytes) == Some(p.value)
        case None => values[i] == Nil
    {
      assert WrittenOrAbsent(db, data, keys[i]);
      SetMultipleThenGet(db, encode, data, writes, ttl, keys[i]);
      if LastFor(data, keys[i]).Some? {
        var j: nat :| LastAt(data, keys[i], LastFor(data, keys[i]).value, j);
      }
    }
    DecodeAllMeans(decode, values);
  }

  /** The key's last value is an object, or it is not written and there was nothing. */
  predicate WrittenOrAbsent<V>(db: Db<CacheValue>, data: seq<DataSet<Payload<V>>>, key: string) {
    match LastFor(data, key)
    case Some(p) => p.Object?
    case None => !Live(db, key)
  }

  /** The same for one Set; a string or byte slice comes back as its own bytes, undecoded. */
  lemma {:induction false} SetRoundTrip<V(!new)>(
    db: Db<CacheValue>, encode: Encoder<V>, decode: Decoder<V>, key: string, p: Payload<V>, ttl: int)
    requires Codec(encode, decode) && Marshal(encode, p).Some?
    ensures var reply := MGetOne(ExecAll(db, SetCmds(key, Marshal(encode, p).value, ttl)), key);
      match p
      case Verbatim(bytes) => reply == Bytes(bytes)
      case Object(v) => DecodeOne(decode, reply) == Ok(Some(v))
  {
    var cmds := SetCmds(key, Marshal(encode, p).value, ttl);
    assert cmds[..0] == [];
    assert ExecAll(db, cmds) == Exec(ExecAll(db, cmds[..0]), cmds[0]);
  }
}
