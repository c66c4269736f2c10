/**
 * Configuration values as JavaScript holds them, and the two object utilities that turn a
 * nested theme section into a flat lookup table: `flattenObject`, which joins nested keys
 * with a separator, and `invertObject`, which swaps keys and (stringified) values.
 */
module JsObjects {
  import opened Wrappers
  import opened JsStrings
  import opened OrderedMap

  /**
   * A configuration value: a string, another primitive (a number or a boolean, by the text
   * its `toString` gives), `null` or `undefined`, or an object. An object lists its own
   * keys in iteration order; an array is an object flagged `isArray` whose keys are its
   * indices.
   */
  datatype JsValue = Str(s: string) | Prim(text: string) | Null | Obj(entries: Dict<JsValue>, isArray: bool)

  /** JavaScript truthiness. */
  predicate Truthy(v: JsValue) {
    match v
    case Str(s) => s != ""
    case Prim(t) => t != "0" && t != "-0" && t != "NaN" && t != "false"
    case Null => false
    case Obj(_, _) => true
  }

  /**
   * `String(v)` for a value that is not `null`: an array joins its elements' texts with
   * `,` (a `null` element gives the empty text), any other object is `[object Object]`.
   */
  function TextOf(v: JsValue): string
    decreases v
  {
    match v
    case Str(s) => s
    case Prim(t) => t
    case Null => ""
    case Obj(e, isArray) =>
      if isArray then Join(seq(|e|, i requires 0 <= i < |e| => TextOf(e[i].1)), ",")
      else "[object Object]"
  }

  /** `v.toString()`: `None` where it throws, on `null` and `undefined`. */
  function ToText(v: JsValue): (r: Option<string>)
    ensures r.None? <==> v.Null?
    ensures r.Some? ==> r.value == TextOf(v)
  {
    if v.Null? then None else Some(TextOf(v))
  }

  // ---------------------------------------------------------------------------------------
  // flattenObject

  /** The default separator of `flattenObject`. */
  const DefaultSeparator := "-"

  /** Every key of `d` with `prefix` in front of it. */
  function Prefixed(prefix: string, d: Dict<JsValue>): (r: Dict<JsValue>)
    ensures |r| == |d|
    ensures forall i | 0 <= i < |d| :: r[i] == (prefix + d[i].0, d[i].1)
  {
    seq(|d|, i requires 0 <= i < |d| => (prefix + d[i].0, d[i].1))
  }

  /**
   * The writes `flattenObject(object, separator)` performs, in order: a leaf (a value that
   * is not an object, `null` included) is written under its own key; an object is
   * flattened first and each of its flat keys is written behind the key and the separator.
   */
  function FlatWrites(obj: JsValue, n: nat, separator: string): Dict<JsValue>
    requires obj.Obj? && n <= |obj.entries|
    decreases obj, 0, n
  {
    if n == 0 then [] else FlatWrites(obj, n - 1, separator) + EntryWrites(obj, n - 1, separator)
  }

  /** The writes of the `i`-th entry: a leaf under its key, or a nested object's flat keys behind it. */
  function EntryWrites(obj: JsValue, i: nat, separator: string): Dict<JsValue>
    requires obj.Obj? && i < |obj.entries|
    decreases obj, 0, i
  {
    var (prop, value) := obj.entries[i];
    if value.Obj? then Prefixed(prop + separator, Flatten(value, separator)) else [(prop, value)]
  }

  /** `flattenObject(object, separator)`: the flat object the writes build, a later write to a key winning. */
  function Flatten(obj: JsValue, separator: string): Dict<JsValue>
    requires obj.Obj?
    decreases obj, 1
  {
    PutAll([], FlatWrites(obj, |obj.entries|, separator))
  }

  /** The flat writes of the first `n` entries depend on nothing else. */
  lemma {:induction false} FlatWritesPrefix(a: JsValue, b: JsValue, n: nat, separator: string)
    requires a.Obj? && b.Obj? && n <= |a.entries| && n <= |b.entries|
    requires a.entries[..n] == b.entries[..n]
    ensures FlatWrites(a, n, separator) == FlatWrites(b, n, separator)
  {
    if n > 0 {
      assert a.entries[n - 1] == a.entries[..n][n - 1];
      assert b.entries[n - 1] == b.entries[..n][n - 1];
      assert a.entries[..n - 1] == a.entries[..n][..n - 1];
      assert b.entries[..n - 1] == b.entries[..n][..n - 1];
      FlatWritesPrefix(a, b, n - 1, separator);
    }
  }

  /** A run of writes followed by one more. */
  lemma PutAllSnoc<V>(d: Dict<V>, writes: Dict<V>, k: string, v: V)
    ensures PutAll(d, writes + [(k, v)]) == Put(PutAll(d, writes), k, v)
  {
    assert (writes + [(k, v)])[..|writes|] == writes;
  }

  /**
   * `flattenObject`: a `for…in` over the own keys, copying leaves and recursing into
   * objects.
   */
  method FlattenObject(obj: JsValue, separator: string) returns (flatObject: Dict<JsValue>)
    requires obj.Obj?
    ensures flatObject == Flatten(obj, separator)
    decreases obj
  {
    flatObject := [];
    for i := 0 to |obj.entries|
      invariant flatObject == PutAll([], FlatWrites(obj, i, separator))
    {
      var (prop, value) := obj.entries[i];
      ghost var before := FlatWrites(obj, i, separator);
      if value.Obj? {
        var nestedFlatObject := FlattenObject(value, separator);
        flatObject := WriteNested(flatObject, before, prop + separator, nestedFlatObject);
      } else {
        PutAllSnoc([], before, prop, value);
        flatObject := Put(flatObject, prop, value);
      }
      assert FlatWrites(obj, i + 1, separator)
             == before + if value.Obj? then Prefixed(prop + separator, Flatten(value, separator)) else [(prop, value)];
    }
  }

  /** The inner loop of `flattenObject`: each flat key of a nested object, written behind `prefix`. */
  method WriteNested(flatObject: Dict<JsValue>, ghost before: Dict<JsValue>, prefix: string, nested: Dict<JsValue>)
    returns (r: Dict<JsValue>)
    requires flatObject == PutAll([], before)
    ensures r == PutAll([], before + Prefixed(prefix, nested))
  {
    r := flatObject;
    assert before + Prefixed(prefix, nested[..0]) == before;
    for j := 0 to |nested|
      invariant r == PutAll([], before + Prefixed(prefix, nested[..j]))
    {
      var (nestedProp, nestedValue) := nested[j];
      PrefixedSnoc(before, prefix, nested, j);
      PutAllSnoc([], before + Prefixed(prefix, nested[..j]), prefix + nestedProp, nestedValue);
      r := Put(r, prefix + nestedProp, nestedValue);
    }
    assert nested[..|nested|] == nested;
  }

  /** One more prefixed entry. */
  lemma PrefixedSnoc(before: Dict<JsValue>, prefix: string, d: Dict<JsValue>, j: nat)
    requires j < |d|
    ensures (before + Prefixed(prefix, d[..j])) + [(prefix + d[j].0, d[j].1)] == before + Prefixed(prefix, d[..j + 1])
  {
    assert Prefixed(prefix, d[..j + 1]) == Prefixed(prefix, d[..j]) + [(prefix + d[j].0, d[j].1)];
  }

  /** Every value of a flat object is a leaf: a primitive, `null` or `undefined`, never an object. */
  lemma {:induction false} FlattenLeaves(obj: JsValue, separator: string)
    requires obj.Obj?
    ensures forall i | 0 <= i < |Flatten(obj, separator)| :: !Flatten(obj, separator)[i].1.Obj?
    decreases obj, 1
  {
    FlatWritesLeaves(obj, |obj.entries|, separator);
    PutAllValues([], FlatWrites(obj, |obj.entries|, separator), (v: JsValue) => !v.Obj?);
  }

  lemma {:induction false} FlatWritesLeaves(obj: JsValue, n: nat, separator: string)
    requires obj.Obj? && n <= |obj.entries|
    ensures forall i | 0 <= i < |FlatWrites(obj, n, separator)| :: !FlatWrites(obj, n, separator)[i].1.Obj?
    decreases obj, 0, n
  {
    if n > 0 {
      FlatWritesLeaves(obj, n - 1, separator);
      EntryLeaves(obj, n - 1, separator);
      LeavesAppend(FlatWrites(obj, n - 1, separator), EntryWrites(obj, n - 1, separator));
    }
  }

  lemma {:induction false} EntryLeaves(obj: JsValue, i: nat, separator: string)
    requires obj.Obj? && i < |obj.entries|
    ensures forall k | 0 <= k < |EntryWrites(obj, i, separator)| :: !EntryWrites(obj, i, separator)[k].1.Obj?
    decreases obj, 0, i
  {
    var value := obj.entries[i].1;
    if value.Obj? {
      FlattenLeaves(value, separator);
    }
  }

  lemma LeavesAppend(a: Dict<JsValue>, b: Dict<JsValue>)
    requires forall k | 0 <= k < |a| :: !a[k].1.Obj?
    requires forall k | 0 <= k < |b| :: !b[k].1.Obj?
    ensures forall k | 0 <= k < |a + b| :: !(a + b)[k].1.Obj?
  {
  }

  /** Where a flat key comes from: a leaf stored under it, or a flat key of a nested object behind its key. */
  predicate Origin(obj: JsValue, i: nat, key: string, separator: string)
    requires obj.Obj? && i < |obj.entries|
  {
    var (prop, value) := obj.entries[i];
    if value.Obj? then
      |prop + separator| <= |key| && key[..|prop + separator|] == prop + separator
      && key[|prop + separator|..] in Keys(Flatten(value, separator))
    else key == prop
  }

  /**
   * The keys of a flat object are exactly the keys of its leaves and the separator-joined
   * keys of its nested objects' flat keys; an empty nested object contributes none.
   */
  lemma FlattenKeys(obj: JsValue, key: string, separator: string)
    requires obj.Obj?
    ensures key in Keys(Flatten(obj, separator))
            <==> exists i | 0 <= i < |obj.entries| :: Origin(obj, i, key, separator)
  {
    PutAllKeys([], FlatWrites(obj, |obj.entries|, separator), key);
    FlatWritesKeys(obj, |obj.entries|, key, separator);
  }

  lemma {:induction false} FlatWritesKeys(obj: JsValue, n: nat, key: string, separator: string)
    requires obj.Obj? && n <= |obj.entries|
    ensures key in Keys(FlatWrites(obj, n, separator)) <==> exists i | 0 <= i < n :: Origin(obj, i, key, separator)
  {
    if n > 0 {
      var before := FlatWrites(obj, n - 1, separator);
      var entry := EntryWrites(obj, n - 1, separator);
      assert FlatWrites(obj, n, separator) == before + entry;
      FlatWritesKeys(obj, n - 1, key, separator);
      KeysAppend(before, entry);
      assert key in Keys(before + entry) <==> key in Keys(before) || key in Keys(entry);
      EntryKeys(obj, n - 1, key, separator);
      OriginsSplit(obj, n, key, separator);
    }
  }

  /** An origin among the first `n` entries is one among the first `n - 1`, or entry `n - 1`. */
  lemma OriginsSplit(obj: JsValue, n: nat, key: string, separator: string)
    requires obj.Obj? && 0 < n <= |obj.entries|
    ensures (exists i | 0 <= i < n :: Origin(obj, i, key, separator))
            <==> (exists i | 0 <= i < n - 1 :: Origin(obj, i, key, separator)) || Origin(obj, n - 1, key, separator)
  {
    if exists i | 0 <= i < n :: Origin(obj, i, key, separator) {
      var i :| 0 <= i < n && Origin(obj, i, key, separator);
      if i < n - 1 {
        assert 0 <= i < n - 1 && Origin(obj, i, key, separator);
      }
    }
  }

  /** The keys one entry writes are the keys it is the origin of. */
  lemma EntryKeys(obj: JsValue, i: nat, key: string, separator: string)
    requires obj.Obj? && i < |obj.entries|
    ensures key in Keys(EntryWrites(obj, i, separator)) <==> Origin(obj, i, key, separator)
  {
    var (prop, value) := obj.entries[i];
    if value.Obj? {
      PrefixedKeys(prop + separator, Flatten(value, separator), key);
    }
  }

  /** The keys of a prefixed dictionary are the prefixed keys. */
  lemma PrefixedKeys(prefix: string, d: Dict<JsValue>, key: string)
    ensures key in Keys(Prefixed(prefix, d))
            <==> |prefix| <= |key| && key[..|prefix|] == prefix && key[|prefix|..] in Keys(d)
  {
    var p := Prefixed(prefix, d);
    if key in Keys(p) {
      var i :| 0 <= i < |p| && Keys(p)[i] == key;
      assert key == prefix + d[i].0;
      assert key[|prefix|..] == Keys(d)[i];
    }
    if |prefix| <= |key| && key[..|prefix|] == prefix && key[|prefix|..] in Keys(d) {
      var i :| 0 <= i < |d| && Keys(d)[i] == key[|prefix|..];
      assert Keys(p)[i] == prefix + d[i].0 == key;
    }
  }

  /** A flat key holds the value of the last write to it. */
  lemma FlattenLastWins(obj: JsValue, key: string, separator: string)
    requires obj.Obj?
    ensures Get(Flatten(obj, separator), key) == LastWrite(FlatWrites(obj, |obj.entries|, separator), key)
  {
    var writes := FlatWrites(obj, |obj.entries|, separator);
    GetPutAll([], writes, key);
  }

  /** A one-key object holding a leaf flattens to itself. */
  lemma SingleLeaf(key: string, x: JsValue, isArray: bool, separator: string)
    requires !x.Obj?
    ensures Flatten(Obj([(key, x)], isArray), separator) == [(key, x)]
  {
    assert FlatWrites(Obj([(key, x)], isArray), 1, separator) == [(key, x)];
    PutAllSnoc([], [], key, x);
  }

  /**
   * A key spelled with the separator collides with the same path through a nested object,
   * and whichever comes later in the object wins: `{a: {b: x}, 'a-b': y}` flattens to
   * `{'a-b': y}`.
   */
  lemma NestedThenSpelled(x: JsValue, y: JsValue)
    requires !x.Obj? && !y.Obj?
    ensures Flatten(Obj([("a", Obj([("b", x)], false)), ("a-b", y)], false), DefaultSeparator) == [("a-b", y)]
  {
    SingleLeaf("b", x, false, "-");
    assert Prefixed("a" + "-", [("b", x)]) == [("a-b", x)] by {
      assert "a" + "-" + "b" == "a-b";
    }
    var first := Obj([("a", Obj([("b", x)], false)), ("a-b", y)], false);
    assert FlatWrites(first, 1, "-") == [("a-b", x)];
    assert FlatWrites(first, 2, "-") == [("a-b", x)] + [("a-b", y)];
    PutAllSnoc([], [], "a-b", x);
    PutAllSnoc([], [("a-b", x)], "a-b", y);
  }

  /** In the other order the nested path wins: `{'a-b': y, a: {b: x}}` flattens to `{'a-b': x}`. */
  lemma SpelledThenNested(x: JsValue, y: JsValue)
    requires !x.Obj? && !y.Obj?
    ensures Flatten(Obj([("a-b", y), ("a", Obj([("b", x)], false))], false), DefaultSeparator) == [("a-b", x)]
  {
    SingleLeaf("b", x, false, "-");
    assert Prefixed("a" + "-", [("b", x)]) == [("a-b", x)] by {
      assert "a" + "-" + "b" == "a-b";
    }
    var second := Obj([("a-b", y), ("a", Obj([("b", x)], false))], false);
    assert FlatWrites(second, 1, "-") == [("a-b", y)];
    assert FlatWrites(second, 2, "-") == [("a-b", y)] + [("a-b", x)];
    PutAllSnoc([], [], "a-b", y);
    PutAllSnoc([], [("a-b", y)], "a-b", x);
  }

  /** A nested object without keys contributes nothing, wherever it stands. */
  lemma EmptyNestedAddsNothing(before: Dict<JsValue>, prop: string, isArray: bool, after: Dict<JsValue>,
                               asArray: bool, separator: string)
    ensures Flatten(Obj(before + [(prop, Obj([], isArray))] + after, asArray), separator)
            == Flatten(Obj(before + after, asArray), separator)
  {
    var a := Obj(before + [(prop, Obj([], isArray))] + after, asArray);
    var b := Obj(before + after, asArray);
    assert Flatten(Obj([], isArray), separator) == [];
    EmptyNestedWrites(a, b, |before|, |after|, separator);
  }

  lemma {:induction false} EmptyNestedWrites(a: JsValue, b: JsValue, m: nat, k: nat, separator: string)
    requires a.Obj? && b.Obj? && |a.entries| == |b.entries| + 1 && m + k <= |b.entries|
    requires a.entries[..m] == b.entries[..m]
    requires a.entries[m].1.Obj? && a.entries[m].1.entries == []
    requires forall j | m <= j < m + k :: a.entries[j + 1] == b.entries[j]
    ensures FlatWrites(a, m + 1 + k, separator) == FlatWrites(b, m + k, separator)
  {
    if k == 0 {
      FlatWritesPrefix(a, b, m, separator);
      assert Flatten(a.entries[m].1, separator) == [];
      assert FlatWrites(a, m + 1, separator) == FlatWrites(a, m, separator) + Prefixed(a.entries[m].0 + separator, []);
    } else {
      EmptyNestedWrites(a, b, m, k - 1, separator);
      assert a.entries[m + k] == b.entries[m + k - 1];
    }
  }

  // ---------------------------------------------------------------------------------------
  // invertObject

  /** The writes `invertObject` performs: each value's text, mapped back to its key; `None` when a value is `null`. */
  function InvertWrites(obj: Dict<JsValue>): (r: Option<Dict<string>>)
    ensures r.None? <==> exists i | 0 <= i < |obj| :: obj[i].1.Null?
    ensures r.Some? ==> |r.value| == |obj|
                        && forall i | 0 <= i < |obj| :: r.value[i] == (TextOf(obj[i].1), obj[i].0)
    decreases |obj|
  {
    if obj == [] then Some([])
    else
      var n := |obj| - 1;
      var (key, value) := obj[n];
      match InvertWrites(obj[..n])
      case None => None
      case Some(writes) =>
        if value.Null? then None else Some(writes + [(TextOf(value), key)])
  }

  /** `invertObject(object)`: text of each value to its key, a later key winning; `None` where it throws. */
  function Invert(obj: Dict<JsValue>): Option<Dict<string>> {
    match InvertWrites(obj)
    case None => None
    case Some(writes) => Some(PutAll([], writes))
  }

  /** `invertObject`: one write `result[String(value)] = key` per key, in order. */
  method InvertObject(obj: Dict<JsValue>) returns (result: Option<Dict<string>>)
    ensures result == Invert(obj)
  {
    var inverted: Dict<string> := [];
    for i := 0 to |obj|
      invariant InvertWrites(obj[..i]).Some?
      invariant inverted == PutAll([], InvertWrites(obj[..i]).value)
    {
      var (key, value) := obj[i];
      assert obj[..i + 1][..i] == obj[..i];
      var text := ToText(value);
      if text.None? {
        assert obj[..i + 1][i].1.Null?;
        assert InvertWrites(obj[..i + 1]).None?;
        NullInPrefix(obj, i + 1);
        return None;
      }
      PutAllSnoc([], InvertWrites(obj[..i]).value, text.value, key);
      inverted := Put(inverted, text.value, key);
    }
    assert obj[..|obj|] == obj;
    result := Some(inverted);
  }

  /** A `null` among the first values makes the whole inversion throw. */
  lemma NullInPrefix(obj: Dict<JsValue>, n: nat)
    requires n <= |obj| && InvertWrites(obj[..n]).None?
    ensures InvertWrites(obj).None?
  {
    var i :| 0 <= i < n && obj[..n][i].1.Null?;
    assert obj[i].1.Null?;
  }

  /** Every value's text is a key of the inverted object, and every inverted value is an original key. */
  lemma InvertCovers(obj: Dict<JsValue>)
    requires Invert(obj).Some?
    ensures forall i | 0 <= i < |obj| :: TextOf(obj[i].1) in Keys(Invert(obj).value)
    ensures forall i | 0 <= i < |Invert(obj).value| :: Invert(obj).value[i].1 in Keys(obj)
  {
    var writes := InvertWrites(obj).value;
    forall i | 0 <= i < |obj|
      ensures TextOf(obj[i].1) in Keys(Invert(obj).value)
    {
      assert Keys(writes)[i] == TextOf(obj[i].1);
      PutAllKeys([], writes, TextOf(obj[i].1));
    }
    forall i | 0 <= i < |writes|
      ensures writes[i].1 in Keys(obj)
    {
      assert Keys(obj)[i] == obj[i].0;
    }
    PutAllValues([], writes, (k: string) => k in Keys(obj));
  }

  /** A text that several values share maps to the key written last. */
  lemma InvertLastWins(obj: Dict<JsValue>, text: string)
    requires Invert(obj).Some?
    ensures Get(Invert(obj).value, text) == LastWrite(InvertWrites(obj).value, text)
  {
    GetPutAll([], InvertWrites(obj).value, text);
  }

  /** The texts of an object's values, in order. */
  function Texts(obj: Dict<JsValue>): (ts: seq<string>)
    ensures |ts| == |obj| && forall i | 0 <= i < |obj| :: ts[i] == TextOf(obj[i].1)
  {
    seq(|obj|, i requires 0 <= i < |obj| => TextOf(obj[i].1))
  }

  /**
   * The inverted object has one entry per distinct value text: never more entries than
   * the object, and exactly as many when no two values print the same.
   */
  lemma InvertSize(obj: Dict<JsValue>)
    requires Invert(obj).Some?
    ensures |Invert(obj).value| == |KeySet(Texts(obj))| <= |obj|
    ensures |Invert(obj).value| == |obj| <==> Distinct(Texts(obj))
  {
    var writes := InvertWrites(obj).value;
    assert Keys(writes) == Texts(obj);
    PutAllSize(writes);
    DistinctCount(Texts(obj));
  }

  /** Strings as configuration values. */
  function AsValues(d: Dict<string>): (r: Dict<JsValue>)
    ensures |r| == |d| && forall i | 0 <= i < |d| :: r[i] == (d[i].0, Str(d[i].1))
  {
    seq(|d|, i requires 0 <= i < |d| => (d[i].0, Str(d[i].1)))
  }

  /** When no two values print the same, inverting writes every text once, in order. */
  lemma InvertDistinct(obj: Dict<JsValue>)
    requires InvertWrites(obj).Some? && Distinct(Texts(obj))
    ensures Invert(obj) == InvertWrites(obj)
  {
    var writes := InvertWrites(obj).value;
    assert Keys(writes) == Texts(obj);
    PutAllFresh([], writes);
    assert [] + writes == writes;
  }

  /** Keys and values swapped. */
  function Swapped(d: Dict<string>): (r: Dict<string>)
    ensures |r| == |d| && forall i | 0 <= i < |d| :: r[i] == (d[i].1, d[i].0)
  {
    seq(|d|, i requires 0 <= i < |d| => (d[i].1, d[i].0))
  }

  /** Inverting strings that are all distinct swaps keys and values, in order. */
  lemma InvertStrings(obj: Dict<string>)
    requires Distinct(Texts(AsValues(obj)))
    ensures Invert(AsValues(obj)) == Some(Swapped(obj))
  {
    var values := AsValues(obj);
    assert InvertWrites(values).Some?;
    InvertDistinct(values);
    assert InvertWrites(values).value == Swapped(obj);
  }

  /** The swapped object prints its keys, and swapping twice gives the object back. */
  lemma SwappedFacts(obj: Dict<string>)
    ensures Texts(AsValues(Swapped(obj))) == Keys(obj)
    ensures Swapped(Swapped(obj)) == obj
  {
  }

  /** Inverting an object of distinct strings, and inverting back, gives the object again. */
  lemma InvertTwice(obj: Dict<string>)
    requires Wf(obj) && Distinct(Texts(AsValues(obj)))
    ensures Invert(AsValues(obj)).Some?
    ensures Invert(AsValues(Invert(AsValues(obj)).value)) == Some(obj)
  {
    InvertStrings(obj);
    SwappedFacts(obj);
    InvertStrings(Swapped(obj));
  }
}
