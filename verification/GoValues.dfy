/**
 Log parameters as Go has them: maps and slices are objects on the heap that several values can share, and
 the value a parameter stands for is the tree they hold at the moment.
 */
module GoValues {
  import opened Masking

  class GoMap {
    var entries: map<string, Ref>

    constructor ()
      ensures entries == map[]
    {
      entries := map[];
    }
  }

  /** A value of type any. A map[string]any and a Params are the same object of two types. */
  datatype Ref =
    | Str(text: string)
    | Other(id: int)
    | FramesRef(frames: seq<Frame>)
    | MapRef(m: GoMap)
    | ParamsRef(m: GoMap)
    | SliceRef(items: array<Ref>)
    | MapsRef(maps: array<GoMap?>)

  /** The reference holds this tree, in these objects. */
  ghost predicate Holds(r: Ref, v: Value, objs: set<object>)
    reads objs
    decreases v
  {
    match v
    case Text(text) => r == Str(text)
    case Opaque(id) => r == Other(id)
    case Frames(frames) => r == FramesRef(frames)
    case AnyMap(entries) =>
      && r.MapRef? && r.m in objs && r.m.entries.Keys == entries.Keys
      && forall k :: k in entries ==> Holds(r.m.entries[k], entries[k], objs)
    case ParamsMap(entries) =>
      && r.ParamsRef? && r.m in objs && r.m.entries.Keys == entries.Keys
      && forall k :: k in entries ==> Holds(r.m.entries[k], entries[k], objs)
    case AnySlice(items) =>
      && r.SliceRef? && r.items in objs && r.items.Length == |items|
      && forall i :: 0 <= i < |items| ==> Holds(r.items[i], items[i], objs)
    case MapSlice(items) =>
      && r.MapsRef? && r.maps in objs && r.maps.Length == |items|
      && forall i :: 0 <= i < |items| ==> r.maps[i] != null && Holds(MapRef(r.maps[i]), items[i], objs)
  }

  /** The entries hold the trees of their keys. */
  ghost predicate HoldsEach(entries: map<string, Ref>, values: map<string, Value>, objs: set<object>)
    reads objs
  {
    forall k :: k in entries ==> k in values && Holds(entries[k], values[k], objs)
  }

  ghost predicate HoldsAll(entries: map<string, Ref>, values: map<string, Value>, objs: set<object>)
    reads objs
  {
    entries.Keys == values.Keys && HoldsEach(entries, values, objs)
  }

  lemma {:induction false} HoldsIn(r: Ref, v: Value, objs: set<object>, more: set<object>)
    requires Holds(r, v, objs) && objs <= more
    ensures Holds(r, v, more)
    decreases v
  {
    match v
    case AnyMap(entries) => forall k | k in entries { HoldsIn(r.m.entries[k], entries[k], objs, more); }
    case ParamsMap(entries) => forall k | k in entries { HoldsIn(r.m.entries[k], entries[k], objs, more); }
    case AnySlice(items) => forall i | 0 <= i < |items| { HoldsIn(r.items[i], items[i], objs, more); }
    case MapSlice(items) => forall i | 0 <= i < |items| { HoldsIn(MapRef(r.maps[i]), items[i], objs, more); }
    case _ =>
  }

  lemma HoldsEachIn(entries: map<string, Ref>, values: map<string, Value>, objs: set<object>, more: set<object>)
    requires HoldsEach(entries, values, objs) && objs <= more
    ensures HoldsEach(entries, values, more)
  {
    forall k | k in entries { HoldsIn(entries[k], values[k], objs, more); }
  }

  /** One more entry, in objects of its own. */
  lemma HoldsOneMore(
    entries: map<string, Ref>, values: map<string, Value>, objs: set<object>, key: string, r: Ref, v: Value,
    more: set<object>)
    requires HoldsEach(entries, values, objs) && Holds(r, v, more)
    ensures HoldsEach(entries[key := r], values[key := v], objs + more)
  {
    HoldsEachIn(entries, values, objs, objs + more);
    HoldsIn(r, v, more, objs + more);
  }

  /** The first elements of a slice hold the first of these trees. */
  ghost predicate HoldsItems(items: seq<Ref>, values: seq<Value>, objs: set<object>)
    reads objs
  {
    |items| <= |values| && forall i :: 0 <= i < |items| ==> Holds(items[i], values[i], objs)
  }

  lemma HoldsOneMoreItem(items: seq<Ref>, values: seq<Value>, objs: set<object>, r: Ref, more: set<object>)
    requires HoldsItems(items, values, objs) && |items| < |values| && Holds(r, values[|items|], more)
    ensures HoldsItems(items + [r], values, objs + more)
  {
    forall i | 0 <= i < |items| { HoldsIn(items[i], values[i], objs, objs + more); }
    HoldsIn(r, values[|items|], more, objs + more);
  }

  function AsRefs(maps: seq<GoMap?>): (refs: seq<Ref>)
    requires forall i :: 0 <= i < |maps| ==> maps[i] != null
    ensures |refs| == |maps| && forall i :: 0 <= i < |maps| ==> refs[i] == MapRef(maps[i])
  {
    seq(|maps|, i requires 0 <= i < |maps| => MapRef(maps[i]))
  }

  ghost predicate HoldsMaps(maps: seq<GoMap?>, values: seq<Value>, objs: set<object>)
    reads objs
  {
    (forall i :: 0 <= i < |maps| ==> maps[i] != null) && HoldsItems(AsRefs(maps), values, objs)
  }

  lemma HoldsOneMoreMap(maps: seq<GoMap?>, values: seq<Value>, objs: set<object>, m: GoMap, more: set<object>)
    requires HoldsMaps(maps, values, objs) && |maps| < |values| && Holds(MapRef(m), values[|maps|], more)
    ensures HoldsMaps(maps + [m], values, objs + more)
  {
    HoldsOneMoreItem(AsRefs(maps), values, objs, MapRef(m), more);
    assert AsRefs(maps + [m]) == AsRefs(maps) + [MapRef(m)];
  }

  lemma HoldsItemsIn(items: seq<Ref>, values: seq<Value>, objs: set<object>, more: set<object>)
    requires HoldsItems(items, values, objs) && objs <= more
    ensures HoldsItems(items, values, more)
  {
    forall i | 0 <= i < |items| { HoldsIn(items[i], values[i], objs, more); }
  }
}
