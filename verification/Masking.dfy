/**
 Masking of log parameters. Values are finite trees; case folding is an arbitrary function on characters
 (two strings are EqualFold when they have the same length and fold to the same characters).
 */
module Masking {

  /** One frame of a marshalled stack, a map[string]string with these three keys. */
  datatype Frame = Frame(source: string, line: string, func: string)

  /** The values a log parameter can hold. Text, Opaque and Frames are everything the type switch does not
      recognise: strings, numbers, structs, nil, the frames of a stack, and containers of other types. */
  datatype Value =
    | Text(text: string)
    | Opaque(id: int)
    | Frames(frames: seq<Frame>)                // []map[string]string
    | AnyMap(entries: map<string, Value>)       // map[string]any
    | ParamsMap(entries: map<string, Value>)    // Params
    | AnySlice(items: seq<Value>)               // []any
    | MapSlice(items: seq<Value>)               // []map[string]any

  const REDACTED: Value := Text("[REDACTED]")

  type Fold = char -> char

  predicate EqualFold(fold: Fold, a: string, b: string) {
    |a| == |b| && forall i :: 0 <= i < |a| ==> fold(a[i]) == fold(b[i])
  }

  predicate Sensitive(fold: Fold, fields: seq<string>, key: string) {
    exists i :: 0 <= i < |fields| && EqualFold(fold, key, fields[i])
  }

  /** What a Go value can be: the elements of a []map[string]any are maps. */
  predicate WellTyped(v: Value)
    decreases v
  {
    match v
    case AnyMap(entries) => forall k :: k in entries ==> WellTyped(entries[k])
    case ParamsMap(entries) => forall k :: k in entries ==> WellTyped(entries[k])
    case AnySlice(items) => forall i :: 0 <= i < |items| ==> WellTyped(items[i])
    case MapSlice(items) => forall i :: 0 <= i < |items| ==> items[i].AnyMap? && WellTyped(items[i])
    case _ => true
  }

  // ---------------------------------------------------------------- the functions

  function MaskValue(fold: Fold, fields: seq<string>, key: string, v: Value): Value
    decreases v, 1
  {
    if |fields| == 0 then v
    else if Sensitive(fold, fields, key) then REDACTED
    else MaskRecursive(fold, fields, v)
  }

  function MaskRecursive(fold: Fold, fields: seq<string>, v: Value): Value
    decreases v, 0
  {
    if |fields| == 0 then v else
    match v
    case AnyMap(entries) => AnyMap(map k | k in entries :: MaskValue(fold, fields, k, entries[k]))
    case ParamsMap(entries) => ParamsMap(map k | k in entries :: MaskValue(fold, fields, k, entries[k]))
    case AnySlice(items) => AnySlice(seq(|items|, i requires 0 <= i < |items| => MaskRecursive(fold, fields, items[i])))
    case MapSlice(items) => MapSlice(seq(|items|, i requires 0 <= i < |items| => MaskRecursive(fold, fields, items[i])))
    case _ => v
  }

  function MaskParams(fold: Fold, fields: seq<string>, params: map<string, Value>): map<string, Value> {
    if |fields| == 0 then params
    else map k | k in params :: MaskValue(fold, fields, k, params[k])
  }

  /** The parameters of a log entry are masked like a Params value. */
  lemma MaskParamsIsMask(fold: Fold, fields: seq<string>, params: map<string, Value>)
    ensures MaskRecursive(fold, fields, ParamsMap(params)) == ParamsMap(MaskParams(fold, fields, params))
  {
  }

  // ---------------------------------------------------------------- case folding

  /** The string with every character folded. */
  function Folded(fold: Fold, s: string): (f: string)
    ensures |f| == |s| && forall i :: 0 <= i < |s| ==> f[i] == fold(s[i])
  {
    seq(|s|, i requires 0 <= i < |s| => fold(s[i]))
  }

  /** The value of a key: redacted if the key folds to what a field folds to, otherwise masked inside. */
  ghost predicate Shown(fold: Fold, fields: seq<string>, key: string, v: Value, r: Value) {
    if exists i :: 0 <= i < |fields| && Folded(fold, fields[i]) == Folded(fold, key)
    then r == Text("[REDACTED]")
    else r == MaskRecursive(fold, fields, v)
  }

  lemma SameFolded(fold: Fold, a: string, b: string)
    ensures EqualFold(fold, a, b) <==> Folded(fold, a) == Folded(fold, b)
  {
    if Folded(fold, a) == Folded(fold, b) {
      assert |a| == |Folded(fold, a)| == |b|;
      forall i | 0 <= i < |a| ensures fold(a[i]) == fold(b[i]) {
        assert Folded(fold, a)[i] == Folded(fold, b)[i];
      }
    }
  }

  lemma SensitiveByFolding(fold: Fold, fields: seq<string>, key: string)
    ensures Sensitive(fold, fields, key) <==>
      exists i :: 0 <= i < |fields| && Folded(fold, fields[i]) == Folded(fold, key)
  {
    forall i | 0 <= i < |fields|
      ensures EqualFold(fold, key, fields[i]) <==> Folded(fold, fields[i]) == Folded(fold, key)
    {
      SameFolded(fold, key, fields[i]);
    }
  }

  /** Masking looks at a key only through its folding, and at nothing else. */
  lemma MaskByFolding(fold: Fold, fields: seq<string>, key: string, v: Value)
    ensures Shown(fold, fields, key, v, MaskValue(fold, fields, key, v))
  {
    SensitiveByFolding(fold, fields, key);
  }

  /** Writing a key in another case never changes what becomes of its value. */
  lemma CaseIsIgnored(fold: Fold, fields: seq<string>, a: string, b: string, v: Value)
    requires |a| == |b| && forall i :: 0 <= i < |a| ==> fold(a[i]) == fold(b[i])
    ensures MaskValue(fold, fields, a, v) == MaskValue(fold, fields, b, v)
  {
    assert Folded(fold, a) == Folded(fold, b);
    MaskByFolding(fold, fields, a, v);
    MaskByFolding(fold, fields, b, v);
  }

  /** The redaction of a field named in lower case reaches a key in mixed case. */
  lemma PasswordInAnyCase(v: Value)
    ensures MaskValue((c: char) => if 'A' <= c <= 'Z' then c + 32 as char else c, ["password"], "Password", v)
         == Text("[REDACTED]")
  {
    var lower := (c: char) => if 'A' <= c <= 'Z' then c + 32 as char else c;
    assert Folded(lower, "Password") == "password" == Folded(lower, "password");
    assert ["password"][0] == "password";
    MaskByFolding(lower, ["password"], "Password", v);
  }

  // ---------------------------------------------------------------- masking laws

  lemma SensitiveUnion(fold: Fold, a: seq<string>, b: seq<string>, key: string)
    ensures Sensitive(fold, a + b, key) <==> Sensitive(fold, a, key) || Sensitive(fold, b, key)
  {
    forall i | 0 <= i < |a| && EqualFold(fold, key, a[i]) ensures Sensitive(fold, a + b, key) {
      assert (a + b)[i] == a[i];
    }
    forall i | 0 <= i < |b| && EqualFold(fold, key, b[i]) ensures Sensitive(fold, a + b, key) {
      assert (a + b)[|a| + i] == b[i];
    }
  }

  lemma {:induction false} MaskValueTwice(fold: Fold, a: seq<string>, b: seq<string>, key: string, v: Value)
    ensures MaskValue(fold, a, key, MaskValue(fold, b, key, v)) == MaskValue(fold, a + b, key, v)
    decreases v, 1
  {
    SensitiveUnion(fold, a, b, key);
    MaskTwice(fold, a, b, v);
    if a == [] {
      assert a + b == b;
    } else if b == [] {
      assert a + b == a;
    }
  }

  /** Masking with one list and then another is masking once with both. */
  lemma {:induction false} MaskTwice(fold: Fold, a: seq<string>, b: seq<string>, v: Value)
    ensures MaskRecursive(fold, a, MaskRecursive(fold, b, v)) == MaskRecursive(fold, a + b, v)
    decreases v, 0
  {
    if a == [] {
      assert a + b == b;
    } else if b == [] {
      assert a + b == a;
    } else {
      match v
      case AnyMap(entries) => EntriesTwice(fold, a, b, v, entries);
      case ParamsMap(entries) => EntriesTwice(fold, a, b, v, entries);
      case AnySlice(items) => ItemsTwice(fold, a, b, v, items);
      case MapSlice(items) => ItemsTwice(fold, a, b, v, items);
      case _ =>
    }
  }

  lemma {:induction false} EntriesTwice(
    fold: Fold, a: seq<string>, b: seq<string>, v: Value, entries: map<string, Value>)
    requires a != [] && b != [] && (v == AnyMap(entries) || v == ParamsMap(entries))
    ensures MaskRecursive(fold, a, MaskRecursive(fold, b, v)) == MaskRecursive(fold, a + b, v)
    decreases v, 0, 0
  {
    forall k | k in entries
      ensures MaskValue(fold, a, k, MaskValue(fold, b, k, entries[k])) == MaskValue(fold, a + b, k, entries[k])
    {
      MaskValueTwice(fold, a, b, k, entries[k]);
    }
  }

  lemma {:induction false} ItemsTwice(fold: Fold, a: seq<string>, b: seq<string>, v: Value, items: seq<Value>)
    requires a != [] && b != [] && (v == AnySlice(items) || v == MapSlice(items))
    ensures MaskRecursive(fold, a, MaskRecursive(fold, b, v)) == MaskRecursive(fold, a + b, v)
    decreases v, 0, 0
  {
    forall i | 0 <= i < |items|
      ensures MaskRecursive(fold, a, MaskRecursive(fold, b, items[i])) == MaskRecursive(fold, a + b, items[i])
    {
      MaskTwice(fold, a, b, items[i]);
    }
  }

  predicate SameClasses(fold: Fold, a: seq<string>, b: seq<string>, key: string) {
    Sensitive(fold, a, key) <==> Sensitive(fold, b, key)
  }

  lemma FieldsAreSensitive(fold: Fold, fields: seq<string>)
    ensures fields != [] ==> Sensitive(fold, fields, fields[0])
  {
    assert fields != [] ==> EqualFold(fold, fields[0], fields[0]);
  }

  lemma {:induction false} SameClassesSameMask(fold: Fold, a: seq<string>, b: seq<string>, v: Value)
    requires forall key :: SameClasses(fold, a, b, key)
    ensures MaskRecursive(fold, a, v) == MaskRecursive(fold, b, v)
    decreases v
  {
    if a == [] || b == [] {
      FieldsAreSensitive(fold, a);
      FieldsAreSensitive(fold, b);
      assert (a != [] ==> SameClasses(fold, a, b, a[0])) && (b != [] ==> SameClasses(fold, a, b, b[0]));
      return;
    }
    match v
    case AnyMap(entries) =>
      forall k | k in entries ensures MaskValue(fold, a, k, entries[k]) == MaskValue(fold, b, k, entries[k]) {
        assert SameClasses(fold, a, b, k);
        SameClassesSameMask(fold, a, b, entries[k]);
      }
    case ParamsMap(entries) =>
      forall k | k in entries ensures MaskValue(fold, a, k, entries[k]) == MaskValue(fold, b, k, entries[k]) {
        assert SameClasses(fold, a, b, k);
        SameClassesSameMask(fold, a, b, entries[k]);
      }
    case AnySlice(items) =>
      forall i | 0 <= i < |items| ensures MaskRecursive(fold, a, items[i]) == MaskRecursive(fold, b, items[i]) {
        SameClassesSameMask(fold, a, b, items[i]);
      }
    case MapSlice(items) =>
      forall i | 0 <= i < |items| ensures MaskRecursive(fold, a, items[i]) == MaskRecursive(fold, b, items[i]) {
        SameClassesSameMask(fold, a, b, items[i]);
      }
    case _ =>
  }

  /** Two field lists mask alike if and only if they name the same keys up to case folding. */
  lemma {:induction false} MaskDependsOnClasses(fold: Fold, a: seq<string>, b: seq<string>)
    ensures (forall v :: MaskRecursive(fold, a, v) == MaskRecursive(fold, b, v))
      <==> (forall key :: SameClasses(fold, a, b, key))
  {
    if forall key :: SameClasses(fold, a, b, key) {
      forall v ensures MaskRecursive(fold, a, v) == MaskRecursive(fold, b, v) { SameClassesSameMask(fold, a, b, v); }
    } else {
      var key :| !SameClasses(fold, a, b, key);
      var v := AnyMap(map[key := Opaque(0)]);
      OneKey(fold, a, key);
      OneKey(fold, b, key);
      assert MaskRecursive(fold, a, v).entries[key] != MaskRecursive(fold, b, v).entries[key];
    }
  }

  lemma {:induction false} OneKey(fold: Fold, fields: seq<string>, key: string)
    ensures MaskRecursive(fold, fields, AnyMap(map[key := Opaque(0)])) ==
      AnyMap(map[key := if Sensitive(fold, fields, key) then REDACTED else Opaque(0)])
  {
  }

  /** So the order of two maskings does not matter, and masking again changes nothing. */
  lemma {:induction false} MaskCommutes(fold: Fold, a: seq<string>, b: seq<string>, v: Value)
    ensures MaskRecursive(fold, a, MaskRecursive(fold, b, v)) == MaskRecursive(fold, b, MaskRecursive(fold, a, v))
    ensures MaskRecursive(fold, a, MaskRecursive(fold, a, v)) == MaskRecursive(fold, a, v)
  {
    MaskTwice(fold, a, b, v);
    MaskTwice(fold, b, a, v);
    MaskTwice(fold, a, a, v);
    forall key ensures SameClasses(fold, a + b, b + a, key) && SameClasses(fold, a + a, a, key) {
      SensitiveUnion(fold, a, b, key);
      SensitiveUnion(fold, b, a, key);
      SensitiveUnion(fold, a, a, key);
    }
    SameClassesSameMask(fold, a + b, b + a, v);
    SameClassesSameMask(fold, a + a, a, v);
  }

  // ---------------------------------------------------------------- completeness and shape

  /** No sensitive key reachable through the four containers holds anything but the redaction mark. */
  predicate Clean(fold: Fold, fields: seq<string>, v: Value)
    decreases v
  {
    match v
    case AnyMap(entries) =>
      forall k :: k in entries ==>
        if Sensitive(fold, fields, k) then entries[k] == REDACTED else Clean(fold, fields, entries[k])
    case ParamsMap(entries) =>
      forall k :: k in entries ==>
        if Sensitive(fold, fields, k) then entries[k] == REDACTED else Clean(fold, fields, entries[k])
    case AnySlice(items) => forall i :: 0 <= i < |items| ==> Clean(fold, fields, items[i])
    case MapSlice(items) => forall i :: 0 <= i < |items| ==> Clean(fold, fields, items[i])
    case _ => true
  }

  /** Kinds, keys, lengths and everything outside sensitive keys agree. */
  predicate SameShape(fold: Fold, fields: seq<string>, v: Value, r: Value)
    decreases v
  {
    match v
    case AnyMap(entries) =>
      && r.AnyMap? && r.entries.Keys == entries.Keys
      && forall k :: k in entries && !Sensitive(fold, fields, k) ==> SameShape(fold, fields, entries[k], r.entries[k])
    case ParamsMap(entries) =>
      && r.ParamsMap? && r.entries.Keys == entries.Keys
      && forall k :: k in entries && !Sensitive(fold, fields, k) ==> SameShape(fold, fields, entries[k], r.entries[k])
    case AnySlice(items) =>
      && r.AnySlice? && |r.items| == |items|
      && forall i :: 0 <= i < |items| ==> SameShape(fold, fields, items[i], r.items[i])
    case MapSlice(items) =>
      && r.MapSlice? && |r.items| == |items|
      && forall i :: 0 <= i < |items| ==> SameShape(fold, fields, items[i], r.items[i])
    case _ => r == v
  }

  /** Masking is complete and changes nothing else. */
  lemma {:induction false} MaskIsCompleteAndKeepsShape(fold: Fold, fields: seq<string>, v: Value)
    ensures Clean(fold, fields, MaskRecursive(fold, fields, v))
    ensures SameShape(fold, fields, v, MaskRecursive(fold, fields, v))
    decreases v
  {
    match v
    case AnyMap(entries) =>
      forall k | k in entries { MaskIsCompleteAndKeepsShape(fold, fields, entries[k]); }
    case ParamsMap(entries) =>
      forall k | k in entries { MaskIsCompleteAndKeepsShape(fold, fields, entries[k]); }
    case AnySlice(items) =>
      forall i | 0 <= i < |items| { MaskIsCompleteAndKeepsShape(fold, fields, items[i]); }
    case MapSlice(items) =>
      forall i | 0 <= i < |items| { MaskIsCompleteAndKeepsShape(fold, fields, items[i]); }
    case _ =>
  }

  /** And these two requirements leave no other result. */
  lemma {:induction false} MaskIsTheOnlyOne(fold: Fold, fields: seq<string>, v: Value, r: Value)
    requires Clean(fold, fields, r) && SameShape(fold, fields, v, r)
    ensures r == MaskRecursive(fold, fields, v)
    decreases v
  {
    match v
    case AnyMap(entries) =>
      forall k | k in entries ensures r.entries[k] == MaskValue(fold, fields, k, entries[k]) {
        if !Sensitive(fold, fields, k) {
          MaskIsTheOnlyOne(fold, fields, entries[k], r.entries[k]);
        }
      }
      assert |fields| == 0 ==> r.entries == entries;
    case ParamsMap(entries) =>
      forall k | k in entries ensures r.entries[k] == MaskValue(fold, fields, k, entries[k]) {
        if !Sensitive(fold, fields, k) {
          MaskIsTheOnlyOne(fold, fields, entries[k], r.entries[k]);
        }
      }
      assert |fields| == 0 ==> r.entries == entries;
    case AnySlice(items) =>
      forall i | 0 <= i < |items| { MaskIsTheOnlyOne(fold, fields, items[i], r.items[i]); }
      assert |fields| == 0 ==> r.items == items;
    case MapSlice(items) =>
      forall i | 0 <= i < |items| { MaskIsTheOnlyOne(fold, fields, items[i], r.items[i]); }
      assert |fields| == 0 ==> r.items == items;
    case _ =>
  }

  /** Masking is exactly: redact every reachable sensitive key, keep everything else. */
  lemma {:induction false} MaskCharacterised(fold: Fold, fields: seq<string>, v: Value, r: Value)
    ensures r == MaskRecursive(fold, fields, v) <==> Clean(fold, fields, r) && SameShape(fold, fields, v, r)
  {
    MaskIsCompleteAndKeepsShape(fold, fields, v);
    if Clean(fold, fields, r) && SameShape(fold, fields, v, r) {
      MaskIsTheOnlyOne(fold, fields, v, r);
    }
  }

  /** The type assertion on the elements of a slice of maps never fails: a masked map is a map. */
  lemma {:induction false} MaskKeepsTypes(fold: Fold, fields: seq<string>, v: Value)
    requires WellTyped(v)
    ensures WellTyped(MaskRecursive(fold, fields, v))
    ensures v.AnyMap? ==> MaskRecursive(fold, fields, v).AnyMap?
    ensures v.MapSlice? ==> forall i :: 0 <= i < |v.items| ==> MaskRecursive(fold, fields, v.items[i]).AnyMap?
    decreases v
  {
    match v
    case AnyMap(entries) => forall k | k in entries { MaskKeepsTypes(fold, fields, entries[k]); }
    case ParamsMap(entries) => forall k | k in entries { MaskKeepsTypes(fold, fields, entries[k]); }
    case AnySlice(items) => forall i | 0 <= i < |items| { MaskKeepsTypes(fold, fields, items[i]); }
    case MapSlice(items) => forall i | 0 <= i < |items| { MaskKeepsTypes(fold, fields, items[i]); }
    case _ =>
  }
}
