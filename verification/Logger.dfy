/**
 The logger around the masking: With* methods return new loggers, log calls write the source into the
 logger they are called on. The masking methods fill fresh maps and slices in range loops, the maps in
 any order; no method writes to a map or slice of the caller's.
 */
module Logger {
  import opened Wrappers
  import opened Masking
  import opened GoValues

  type Entry = map<string, Value>

  /** One call on a logger. Log carries the source of the call site. */
  datatype Op =
    | WithContext(requestID: string, correlationID: string)
    | WithStack(stack: Option<seq<Frame>>)
    | WithParam(key: string, value: Value)
    | WithParams(params: map<string, Value>)
    | SkipSource
    | Log(source: string)

  datatype State = State(entry: Entry, skipSource: bool)

  /** Keys the package itself writes, without masking. */
  const RAW_KEYS: set<string> := {"service", "request_id", "correlation_id", "stack", "source"}

  /** The keys of a marshalled stack frame. */
  const FRAME_KEYS: set<string> := {"source", "line", "func"}

  /** What MarshalStack returns: nil for an error that carries no stack. */
  function StackValue(stack: Option<seq<Frame>>): Value {
    if stack.Some? then Frames(stack.value) else Opaque(0)
  }

  function Put(entry: Entry, key: string, text: string): Entry {
    if text == "" then entry else entry[key := Text(text)]
  }

  lemma PutAdds(entry: Entry, key: string, text: string)
    ensures Put(entry, key, text) == entry + (if text == "" then map[] else map[key := Text(text)])
  {
    assert entry + map[] == entry;
  }

  function Next(fold: Fold, fields: seq<string>, s: State, op: Op): State {
    match op
    case WithContext(r, c) => s.(entry := Put(Put(s.entry, "request_id", r), "correlation_id", c))
    case WithStack(stack) => s.(entry := s.entry["stack" := StackValue(stack)])
    case WithParam(key, value) => s.(entry := s.entry[key := MaskValue(fold, fields, key, value)])
    case WithParams(params) => s.(entry := s.entry + MaskParams(fold, fields, params))
    case SkipSource => s.(skipSource := true)
    case Log(source) => if s.skipSource then s else s.(entry := s.entry["source" := Text(source)])
  }

  function Run(fold: Fold, fields: seq<string>, s: State, ops: seq<Op>): State
    decreases |ops|
  {
    if ops == [] then s else Next(fold, fields, Run(fold, fields, s, ops[..|ops| - 1]), ops[|ops| - 1])
  }

  function Start(service: string): State {
    State(map["service" := Text(service)], false)
  }

  // ---------------------------------------------------------------- no chain of calls leaks

  /** A sensitive key holds the redaction mark, another one a value without a sensitive key in clear. */
  predicate RedactedAt(fold: Fold, fields: seq<string>, key: string, v: Value) {
    if Sensitive(fold, fields, key) then v == REDACTED else Clean(fold, fields, v)
  }

  /** Everything is redacted, except that the keys the package writes may hold a clean value in clear. */
  ghost predicate Redacted(fold: Fold, fields: seq<string>, entry: Entry) {
    forall k :: k in entry ==>
      RedactedAt(fold, fields, k, entry[k]) || (k in RAW_KEYS && Clean(fold, fields, entry[k]))
  }

  lemma {:induction false} MaskedEntry(fold: Fold, fields: seq<string>, key: string, v: Value)
    ensures RedactedAt(fold, fields, key, MaskValue(fold, fields, key, v))
  {
    MaskIsCompleteAndKeepsShape(fold, fields, v);
  }

  lemma {:induction false} NextRedacted(fold: Fold, fields: seq<string>, s: State, op: Op)
    requires Redacted(fold, fields, s.entry)
    ensures Redacted(fold, fields, Next(fold, fields, s, op).entry)
  {
    match op
    case WithParam(key, value) => MaskedEntry(fold, fields, key, value);
    case WithParams(params) =>
      forall k | k in params { MaskedEntry(fold, fields, k, params[k]); }
    case _ =>
  }

  /** Along any chain of calls on a new logger, whatever is logged is redacted, except under the five keys
      the package writes itself. */
  lemma {:induction false} ChainsAreRedacted(fold: Fold, fields: seq<string>, service: string, ops: seq<Op>)
    ensures Redacted(fold, fields, Run(fold, fields, Start(service), ops).entry)
    decreases |ops|
  {
    if ops != [] {
      ChainsAreRedacted(fold, fields, service, ops[..|ops| - 1]);
      NextRedacted(fold, fields, Run(fold, fields, Start(service), ops[..|ops| - 1]), ops[|ops| - 1]);
    }
  }

  /** The frames of a stack name a redacted field. */
  predicate FrameLeaks(fold: Fold, fields: seq<string>, v: Value) {
    v.Frames? && v.frames != [] && exists key :: key in FRAME_KEYS && Sensitive(fold, fields, key)
  }

  /** A sensitive key is in clear: at the top of the entry, in a map or slice that masking looks into, or in a
      frame of the stack. */
  ghost predicate Leaks(fold: Fold, fields: seq<string>, entry: Entry) {
    exists k :: k in entry && (!RedactedAt(fold, fields, k, entry[k]) || FrameLeaks(fold, fields, entry[k]))
  }

  /** A chain of one call, or of none for the service name, that writes this key in clear. */
  lemma {:induction false} RawKeyLeaks(fold: Fold, fields: seq<string>, key: string) returns (ops: seq<Op>)
    requires key in RAW_KEYS + FRAME_KEYS && Sensitive(fold, fields, key)
    ensures Leaks(fold, fields, Run(fold, fields, Start("x"), ops).entry)
  {
    ops :=
      match key
      case "service" => []
      case "request_id" => [Op.WithContext("x", "")]
      case "correlation_id" => [Op.WithContext("", "x")]
      case "source" => [Op.Log("x")]
      case _ => [Op.WithStack(Some([Frame("x", "x", "x")]))];
    assert ops != [] ==> Run(fold, fields, Start("x"), ops[..|ops| - 1]) == Start("x");
    var entry := Run(fold, fields, Start("x"), ops).entry;
    if key in {"line", "func"} {
      assert FrameLeaks(fold, fields, entry["stack"]);
    } else {
      assert key in entry && entry[key] != REDACTED;
    }
  }

  ghost predicate Tight(fold: Fold, fields: seq<string>, service: string, ops: seq<Op>) {
    !Leaks(fold, fields, Run(fold, fields, Start(service), ops).entry)
  }

  /** Those five are not, and neither are the keys inside a stack: every chain of calls on every logger keeps
      the redacted fields redacted if and only if none of the keys the package writes is among them. */
  lemma {:induction false} RawKeysAreNotRedacted(fold: Fold, fields: seq<string>)
    ensures (forall service, ops :: Tight(fold, fields, service, ops))
      <==> (forall key :: key in RAW_KEYS + FRAME_KEYS ==> !Sensitive(fold, fields, key))
  {
    if key :| key in RAW_KEYS + FRAME_KEYS && Sensitive(fold, fields, key) {
      var ops := RawKeyLeaks(fold, fields, key);
      assert !Tight(fold, fields, "x", ops);
    } else {
      forall service, ops ensures Tight(fold, fields, service, ops) {
        ChainsAreRedacted(fold, fields, service, ops);
      }
    }
  }

  predicate NoSourceParam(ops: seq<Op>) {
    forall i :: 0 <= i < |ops| ==>
      (ops[i].WithParam? ==> ops[i].key != "source") && (ops[i].WithParams? ==> "source" !in ops[i].params)
  }

  /** SkipSource stops the logger from adding a source but keeps one that is there: what a chain logs after
      it has a source if and only if the logger it was called on had logged before. */
  lemma {:induction false} SkipKeepsOldSource(fold: Fold, fields: seq<string>, s: State, ops: seq<Op>)
    requires NoSourceParam(ops)
    ensures var skipped := Next(fold, fields, s, SkipSource);
      var after := Run(fold, fields, skipped, ops);
      && after.skipSource
      && ("source" in after.entry <==> "source" in s.entry)
      && ("source" in s.entry ==> after.entry["source"] == s.entry["source"])
    decreases |ops|
  {
    if ops != [] {
      var most := ops[..|ops| - 1];
      assert NoSourceParam(most);
      SkipKeepsOldSource(fold, fields, s, most);
      assert ops[|ops| - 1].WithParams? ==> "source" !in MaskParams(fold, fields, ops[|ops| - 1].params);
    }
  }

  // ---------------------------------------------------------------- the Go object

  class Log {
    const fold: Fold
    const redactedFields: seq<string>
    const skipSource: bool
    var entry: map<string, Ref>
    /** The trees the entry holds, and the objects they are in. */
    ghost var values: Entry
    ghost var objs: set<object>

    ghost predicate Valid()
      reads this, objs
    {
      this !in objs && HoldsAll(entry, values, objs)
    }

    ghost function Value(): State
      reads this
    {
      State(values, skipSource)
    }

    constructor New(fold: Fold, service: string, options: seq<seq<string>>)
      ensures Valid() && Value() == Start(service) && this.fold == fold && objs == {}
      ensures values == map["service" := Text(service)] && !skipSource
      ensures redactedFields == if |options| > 0 then options[0] else []
    {
      this.fold := fold;
      redactedFields := if |options| > 0 then options[0] else [];
      skipSource := false;
      entry, values, objs := map["service" := Str(service)], map["service" := Text(service)], {};
    }

    constructor Derive(l: Log, entry: map<string, Ref>, skipSource: bool, ghost values: Entry, ghost objs: set<object>)
      requires HoldsAll(entry, values, objs)
      ensures Valid() && Value() == State(values, skipSource) && this.objs == objs
      ensures fold == l.fold && redactedFields == l.redactedFields
    {
      this.fold, this.redactedFields := l.fold, l.redactedFields;
      this.entry, this.skipSource := entry, skipSource;
      this.values, this.objs := values, objs;
    }

    ghost predicate Derived(l: Log, op: Op)
      reads this, l
    {
      && l.fold == fold && l.redactedFields == redactedFields
      && l.Value() == Next(fold, redactedFields, Value(), op)
    }

    method WithContext(requestID: string, correlationID: string) returns (l: Log)
      requires Valid()
      ensures fresh(l) && l.Valid() && l.objs == objs && Derived(l, Op.WithContext(requestID, correlationID))
      ensures l.skipSource == skipSource
      ensures l.values == values
        + (if requestID == "" then map[] else map["request_id" := Text(requestID)])
        + (if correlationID == "" then map[] else map["correlation_id" := Text(correlationID)])
    {
      PutAdds(values, "request_id", requestID);
      PutAdds(Put(values, "request_id", requestID), "correlation_id", correlationID);
      var e := entry;
      if requestID != "" {
        e := e["request_id" := Str(requestID)];
      }
      if correlationID != "" {
        e := e["correlation_id" := Str(correlationID)];
      }
      l := new Log.Derive(this, e, skipSource,
        Put(Put(values, "request_id", requestID), "correlation_id", correlationID), objs);
    }

    /** The stack is not masked: its frames are no container the masking recognises. */
    method WithStack(stack: Option<seq<Frame>>) returns (l: Log)
      requires Valid()
      ensures fresh(l) && l.Valid() && l.objs == objs && Derived(l, Op.WithStack(stack))
      ensures l.skipSource == skipSource
      ensures l.values == values["stack" := if stack.Some? then Frames(stack.value) else Opaque(0)]
    {
      var r := if stack.Some? then FramesRef(stack.value) else Other(0);
      l := new Log.Derive(this, entry["stack" := r], skipSource, values["stack" := StackValue(stack)], objs);
    }

    /** The new logger holds a masked copy; only without redacted fields does it hold the caller's objects. */
    method WithParam(key: string, value: Ref, ghost v: Value, ghost owned: set<object>)
      returns (l: Log, ghost made: set<object>)
      requires Valid() && Holds(value, v, owned) && WellTyped(v)
      ensures fresh(made) && fresh(l) && l.Valid() && Derived(l, Op.WithParam(key, v))
      ensures l.objs == objs + if |redactedFields| == 0 then owned else made
      ensures l.skipSource == skipSource
      ensures key in l.values && l.values == values[key := l.values[key]]
      ensures Shown(fold, redactedFields, key, v, l.values[key])
    {
      MaskByFolding(fold, redactedFields, key, v);
      var redacted;
      redacted, made := MaskValue(key, value, v, owned);
      ghost var masked := Masking.MaskValue(fold, redactedFields, key, v);
      ghost var more := if |redactedFields| == 0 then owned else made;
      HoldsOneMore(entry, values, objs, key, redacted, masked, more);
      l := new Log.Derive(this, entry[key := redacted], skipSource, values[key := masked], objs + more);
    }

    method WithParams(params: GoMap, ghost vs: map<string, Value>, ghost owned: set<object>)
      returns (l: Log, ghost made: set<object>)
      requires Valid() && Holds(ParamsRef(params), ParamsMap(vs), owned) && WellTyped(ParamsMap(vs))
      ensures fresh(made) && fresh(l) && l.Valid() && Derived(l, Op.WithParams(vs))
      ensures l.objs == objs + if |redactedFields| == 0 then owned else made
      ensures l.skipSource == skipSource && l.values.Keys == values.Keys + vs.Keys
      ensures forall k :: k in vs ==> Shown(fold, redactedFields, k, vs[k], l.values[k])
      ensures forall k :: k in values && k !in vs ==> l.values[k] == values[k]
    {
      ParamsShown(vs);
      var redacted;
      redacted, made := MaskParams(params, vs, ParamsMap(vs), owned);
      ghost var masked := Masking.MaskParams(fold, redactedFields, vs);
      ghost var more := if |redactedFields| == 0 then owned else made;
      HoldsEachIn(entry, values, objs, objs + more);
      HoldsEachIn(redacted.entries, masked, more, objs + more);
      l := new Log.Derive(this, entry + redacted.entries, skipSource, values + masked, objs + more);
    }

    lemma ParamsShown(vs: map<string, Value>)
      ensures var masked := Masking.MaskParams(fold, redactedFields, vs);
        masked.Keys == vs.Keys && forall k :: k in vs ==> Shown(fold, redactedFields, k, vs[k], masked[k])
    {
      forall k | k in vs
        ensures Shown(fold, redactedFields, k, vs[k], Masking.MaskParams(fold, redactedFields, vs)[k])
      {
        MaskByFolding(fold, redactedFields, k, vs[k]);
      }
    }

    method SkipSource() returns (l: Log)
      requires Valid()
      ensures fresh(l) && l.Valid() && l.objs == objs && Derived(l, Op.SkipSource)
      ensures l.skipSource && l.values == values
    {
      l := new Log.Derive(this, entry, true, values, objs);
    }

    /** appendSource, then the write: the entry that goes out. */
    method Write(source: string) returns (out: map<string, Ref>)
      requires Valid()
      modifies this
      ensures Valid() && objs == old(objs)
      ensures Value() == Next(fold, redactedFields, old(Value()), Op.Log(source)) && out == entry
      ensures values == if skipSource then old(values) else old(values)["source" := Text(source)]
    {
      if !skipSource {
        entry, values := entry["source" := Str(source)], values["source" := Text(source)];
      }
      out := entry;
    }

    // -------------------------------------------------------------- masking

    /** With redacted fields the result is a fresh object, and so is every map and slice reachable from it
        that masking looks into; without any it is the caller's own. */
    method MaskParams(params: GoMap, ghost vs: map<string, Value>, ghost whole: Value, ghost objs: set<object>)
      returns (r: GoMap, ghost made: set<object>)
      requires whole == ParamsMap(vs) && Holds(ParamsRef(params), whole, objs) && WellTyped(whole)
      ensures fresh(made)
      ensures if |redactedFields| == 0 then r == params
              else Holds(ParamsRef(r), ParamsMap(Masking.MaskParams(fold, redactedFields, vs)), made)
      decreases whole, 0
    {
      made := {};
      if |redactedFields| == 0 {
        return params, made;
      }
      r, made := MaskEntries(params, vs, whole, objs);
    }

    method MaskEntries(m: GoMap, ghost vs: map<string, Value>, ghost whole: Value, ghost objs: set<object>)
      returns (r: GoMap, ghost made: set<object>)
      requires whole == ParamsMap(vs) || whole == AnyMap(vs)
      requires m in objs && HoldsAll(m.entries, vs, objs) && WellTyped(whole) && redactedFields != []
      ensures fresh(made) && r in made
      ensures HoldsAll(r.entries, Masking.MaskParams(fold, redactedFields, vs), made)
      decreases whole, 0, 2
    {
      r := new GoMap();
      ghost var inner;
      inner := Fill(r, m.entries, vs, whole, objs);
      made := inner + {r};
      AllMasked(r.entries, vs, inner, made);
    }

    /** The range loop over a map, in any order. */
    method Fill(
      r: GoMap, entries: map<string, Ref>, ghost vs: map<string, Value>, ghost whole: Value, ghost objs: set<object>)
      returns (ghost inner: set<object>)
      requires whole == ParamsMap(vs) || whole == AnyMap(vs)
      requires HoldsAll(entries, vs, objs) && WellTyped(whole) && redactedFields != []
      requires r.entries == map[] && r !in objs
      modifies r
      ensures fresh(inner) && HoldsEach(r.entries, Masking.MaskParams(fold, redactedFields, vs), inner)
      ensures forall k :: k in vs ==> k in r.entries
      decreases whole, 0, 1
    {
      ghost var masked := Masking.MaskParams(fold, redactedFields, vs);
      inner := {};
      var todo := entries.Keys;
      while todo != {}
        invariant fresh(inner) && HoldsEach(r.entries, masked, inner)
        invariant forall k :: k in todo ==> k in vs
        invariant forall k :: k in vs ==> k in todo || k in r.entries
        decreases |todo|
      {
        var key :| key in todo;
        ghost var more;
        more := MaskEntry(r, key, entries[key], vs, whole, objs, masked, inner);
        inner := inner + more;
        todo := todo - {key};
      }
    }

    lemma AllMasked(entries: map<string, Ref>, vs: map<string, Value>, inner: set<object>, made: set<object>)
      requires HoldsEach(entries, Masking.MaskParams(fold, redactedFields, vs), inner) && inner <= made
      requires forall k :: k in vs ==> k in entries
      ensures HoldsAll(entries, Masking.MaskParams(fold, redactedFields, vs), made)
    {
      HoldsEachIn(entries, Masking.MaskParams(fold, redactedFields, vs), inner, made);
    }

    /** One entry of the range loop. */
    method MaskEntry(
      r: GoMap, key: string, value: Ref, ghost vs: map<string, Value>, ghost whole: Value, ghost objs: set<object>,
      ghost masked: map<string, Value>, ghost inner: set<object>)
      returns (ghost more: set<object>)
      requires whole == ParamsMap(vs) || whole == AnyMap(vs)
      requires key in vs && Holds(value, vs[key], objs) && WellTyped(whole) && redactedFields != []
      requires masked == Masking.MaskParams(fold, redactedFields, vs)
      requires r !in inner && r !in objs && HoldsEach(r.entries, masked, inner)
      modifies r
      ensures fresh(more) && HoldsEach(r.entries, masked, inner + more)
      ensures key in r.entries && forall k :: k in old(r.entries) ==> k in r.entries
      decreases whole, 0, 0
    {
      var item;
      item, more := MaskValue(key, value, vs[key], objs);
      HoldsOneMore(r.entries, masked, inner, key, item, masked[key], more);
      assert masked[key := masked[key]] == masked;
      r.entries := r.entries[key := item];
    }

    method MaskValue(key: string, value: Ref, ghost v: Value, ghost objs: set<object>)
      returns (r: Ref, ghost made: set<object>)
      requires Holds(value, v, objs) && WellTyped(v)
      ensures fresh(made)
      ensures if |redactedFields| == 0 then r == value
              else Holds(r, Masking.MaskValue(fold, redactedFields, key, v), made)
      ensures (exists i :: 0 <= i < |redactedFields| && Folded(fold, redactedFields[i]) == Folded(fold, key)) ==>
        r == Str("[REDACTED]")
      decreases v, 2
    {
      SensitiveByFolding(fold, redactedFields, key);
      made := {};
      if |redactedFields| == 0 {
        return value, made;
      }
      for i := 0 to |redactedFields|
        invariant forall j :: 0 <= j < i ==> !EqualFold(fold, key, redactedFields[j])
      {
        if EqualFold(fold, key, redactedFields[i]) {
          return Str("[REDACTED]"), made;
        }
      }
      r, made := MaskRecursive(value, v, objs);
    }

    method MaskRecursive(value: Ref, ghost v: Value, ghost objs: set<object>)
      returns (r: Ref, ghost made: set<object>)
      requires Holds(value, v, objs) && WellTyped(v)
      ensures fresh(made)
      ensures if |redactedFields| == 0 then r == value
              else Holds(r, Masking.MaskRecursive(fold, redactedFields, v), made)
      decreases v, 1
    {
      made := {};
      if |redactedFields| == 0 {
        return value, made;
      }
      match value
      case MapRef(m) =>
        var redacted;
        redacted, made := MaskEntries(m, v.entries, v, objs);
        r := MapRef(redacted);
      case ParamsRef(m) =>
        var redacted;
        redacted, made := MaskParams(m, v.entries, v, objs);
        r := ParamsRef(redacted);
      case SliceRef(items) =>
        var redacted;
        redacted, made := MaskItems(items, v, objs);
        r := SliceRef(redacted);
      case MapsRef(maps) =>
        var redacted;
        redacted, made := MaskMaps(maps, v, objs);
        r := MapsRef(redacted);
      case _ => r := value;
    }

    method MaskItems(items: array<Ref>, ghost v: Value, ghost objs: set<object>)
      returns (r: array<Ref>, ghost made: set<object>)
      requires v.AnySlice? && Holds(SliceRef(items), v, objs) && WellTyped(v) && redactedFields != []
      ensures fresh(made) && Holds(SliceRef(r), Masking.MaskRecursive(fold, redactedFields, v), made)
      decreases v, 0
    {
      ghost var masked := Masking.MaskRecursive(fold, redactedFields, v).items;
      ghost var inner: set<object> := {};
      r := new Ref[items.Length](_ => Str(""));
      for i := 0 to items.Length
        invariant fresh(r) && fresh(inner) && r !in inner
        invariant HoldsItems(r[..i], masked, inner)
      {
        var item, more := MaskRecursive(items[i], v.items[i], objs);
        HoldsOneMoreItem(r[..i], masked, inner, item, more);
        inner := inner + more;
        r[i] := item;
        assert r[..i + 1] == r[..i] + [item];
      }
      made := inner + {r};
      HoldsItemsIn(r[..items.Length], masked, inner, made);
    }

    /** The type assertion on the masked elements never fails. */
    method MaskMaps(maps: array<GoMap?>, ghost v: Value, ghost objs: set<object>)
      returns (r: array<GoMap?>, ghost made: set<object>)
      requires v.MapSlice? && Holds(MapsRef(maps), v, objs) && WellTyped(v) && redactedFields != []
      ensures fresh(made) && Holds(MapsRef(r), Masking.MaskRecursive(fold, redactedFields, v), made)
      decreases v, 0
    {
      ghost var masked := Masking.MaskRecursive(fold, redactedFields, v).items;
      ghost var inner: set<object> := {};
      r := new GoMap?[maps.Length](_ => null);
      for i := 0 to maps.Length
        invariant fresh(r) && fresh(inner) && r !in inner
        invariant HoldsMaps(r[..i], masked, inner)
      {
        var item, more := MaskRecursive(MapRef(maps[i]), v.items[i], objs);
        assert item.MapRef?;
        HoldsOneMoreMap(r[..i], masked, inner, item.m, more);
        inner := inner + more;
        r[i] := item.m;
        assert r[..i + 1] == r[..i] + [item.m];
      }
      made := inner + {r};
      HoldsItemsIn(AsRefs(r[..maps.Length]), masked, inner, made);
    }
  }
}
