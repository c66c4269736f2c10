/**
 * The shorthand reducer: a list of Tailwind classes is split into classes that belong to
 * one of the fixed families (margin, padding, scroll margin and padding, rounded corners,
 * borders, scale, inset) and classes that do not. Family values are routed into the leaf
 * arrays of a fixed tree, and the tree is then resolved bottom-up: a value climbs to a
 * parent key only when every child holds it, and leftovers are emitted under the prefix
 * of the child that holds them.
 */
module TailwindClassesReduction {
  import opened Wrappers
  import opened JsStrings
  import opened OrderedMap

  /**
   * The family tree. A `Group` is a nested object whose keys are class prefixes; a `Slot`
   * is one of its leaf arrays, identified by the index of that array in the manager's
   * `leaves`. The same prefix may occur at two places (`rounded-tr` under `rounded-t` and
   * under `rounded-r`); those are two distinct slots.
   */
  datatype Shape = Slot(id: nat) | Group(children: seq<(string, Shape)>)

  /** A two-level family: `key` over `xKey` (`lKey`, `rKey`) and `yKey` (`tKey`, `bKey`). */
  function Quad(xKey: string, lKey: string, rKey: string, yKey: string, tKey: string, bKey: string, base: nat): Shape {
    Group([(xKey, Group([(lKey, Slot(base)), (rKey, Slot(base + 1))])),
           (yKey, Group([(tKey, Slot(base + 2)), (bKey, Slot(base + 3))]))])
  }

  /** The reducer's fixed tree of families (the manager's `map`), in the order the source declares them. */
  const Families: seq<(string, Shape)> := [
    ("m", Quad("mx", "ml", "mr", "my", "mt", "mb", 0)),
    ("p", Quad("px", "pl", "pr", "py", "pt", "pb", 4)),
    ("scroll-m", Quad("scroll-mx", "scroll-ml", "scroll-mr", "scroll-my", "scroll-mt", "scroll-mb", 8)),
    ("scroll-p", Quad("scroll-px", "scroll-pl", "scroll-pr", "scroll-py", "scroll-pt", "scroll-pb", 12)),
    ("rounded", Group([
      ("rounded-t", Group([("rounded-tl", Slot(16)), ("rounded-tr", Slot(17))])),
      ("rounded-r", Group([("rounded-tr", Slot(18)), ("rounded-br", Slot(19))])),
      ("rounded-b", Group([("rounded-bl", Slot(20)), ("rounded-br", Slot(21))])),
      ("rounded-l", Group([("rounded-tl", Slot(22)), ("rounded-bl", Slot(23))]))])),
    ("border", Quad("border-x", "border-l", "border-r", "border-y", "border-t", "border-b", 24)),
    ("scale", Group([("scale-x", Slot(28)), ("scale-y", Slot(29))])),
    ("inset", Quad("inset-x", "left", "right", "inset-y", "top", "bottom", 30))
  ]

  /** Number of leaf arrays in `Families`. */
  const SlotCount: nat := 34

  /** The contents of leaf array `id` (no array is empty-handed: an unknown slot reads as `[]`). */
  function Values(leaves: seq<seq<string>>, id: nat): seq<string> {
    if id < |leaves| then leaves[id] else []
  }

  // ---------------------------------------------------------------------------------------
  // Classes: parsing and rendering

  /** `s.startsWith('-')` */
  predicate LeadingDash(s: string) {
    |s| > 0 && s[0] == '-'
  }

  datatype ParsedClass = ParsedClass(value: Option<string>, classPrefix: string)

  /**
   * `parseTailwindClass`: a leading `-` is removed and remembered, the rest is split at its
   * last `-`; the sign is carried back into the value. Without a `-` there is no value.
   */
  function ParseTailwindClass(className: string): ParsedClass {
    var isNegative := LeadingDash(className);
    var body := if isNegative then className[1..] else className;
    var lastDash := LastIndexOf(body, '-');
    if lastDash == -1 then ParsedClass(None, body)
    else
      var absolute := body[lastDash + 1..];
      ParsedClass(Some(if isNegative then "-" + absolute else absolute), body[..lastDash])
  }

  /** `toTailwindClass`: a leading `-` of the value moves in front of the prefix. */
  function ToTailwindClass(classPrefix: string, value: string): string {
    if LeadingDash(value) then "-" + classPrefix + "-" + value[1..]
    else classPrefix + "-" + value
  }

  /** Rendering a parsed class gives back the class itself. */
  lemma RenderParsed(className: string)
    requires ParseTailwindClass(className).value.Some?
    ensures var p := ParseTailwindClass(className);
            ToTailwindClass(p.classPrefix, p.value.value) == className
  {
    var isNegative := LeadingDash(className);
    var body := if isNegative then className[1..] else className;
    var lastDash := LastIndexOf(body, '-');
    var absolute := body[lastDash + 1..];
    var prefix := body[..lastDash];
    assert body == prefix + "-" + absolute;
    assert !LeadingDash(absolute) by {
      if absolute != [] { assert absolute[0] == body[lastDash + 1]; }
    }
    if isNegative {
      RenderSigned(prefix, absolute);
      assert className == "-" + body;
    }
  }

  lemma RenderSigned(prefix: string, absolute: string)
    ensures ToTailwindClass(prefix, "-" + absolute) == "-" + (prefix + "-" + absolute)
  {
    assert ("-" + absolute)[1..] == absolute;
  }

  /**
   * Parsing a rendered class gives back the prefix and the value, provided the prefix is
   * non-empty without a leading `-` and the unsigned value has no `-` of its own.
   */
  lemma ParseRendered(classPrefix: string, value: string)
    requires classPrefix != "" && classPrefix[0] != '-'
    requires '-' !in (if LeadingDash(value) then value[1..] else value)
    ensures ParseTailwindClass(ToTailwindClass(classPrefix, value)) == ParsedClass(Some(value), classPrefix)
  {
    if LeadingDash(value) {
      ParseRenderedSigned(classPrefix, value);
    } else {
      ParseRenderedUnsigned(classPrefix, value);
    }
  }

  lemma ParseRenderedSigned(classPrefix: string, value: string)
    requires classPrefix != "" && LeadingDash(value) && '-' !in value[1..]
    ensures ParseTailwindClass(ToTailwindClass(classPrefix, value)) == ParsedClass(Some(value), classPrefix)
  {
    var absolute := value[1..];
    var body := classPrefix + "-" + absolute;
    LastDashBeforeValue(classPrefix, absolute);
    assert ToTailwindClass(classPrefix, value) == "-" + body;
    ParseNegative(body, |classPrefix|);
    assert body[..|classPrefix|] == classPrefix && body[|classPrefix| + 1..] == absolute;
    assert value == "-" + absolute;
  }

  /** A class with a leading `-` splits its body at the body's last `-` and keeps the sign in the value. */
  lemma ParseNegative(body: string, i: nat)
    requires i < |body| && LastIndexOf(body, '-') == i
    ensures ParseTailwindClass("-" + body) == ParsedClass(Some("-" + body[i + 1..]), body[..i])
  {
    assert ("-" + body)[1..] == body;
  }

  lemma ParseRenderedUnsigned(classPrefix: string, value: string)
    requires classPrefix != "" && classPrefix[0] != '-' && !LeadingDash(value) && '-' !in value
    ensures ParseTailwindClass(ToTailwindClass(classPrefix, value)) == ParsedClass(Some(value), classPrefix)
  {
    var body := classPrefix + "-" + value;
    LastDashBeforeValue(classPrefix, value);
    assert body[..|classPrefix|] == classPrefix && body[|classPrefix| + 1..] == value;
    var c := ToTailwindClass(classPrefix, value);
    assert c == body;
    assert !LeadingDash(c) by { assert c[0] == classPrefix[0]; }
  }

  lemma LastDashBeforeValue(classPrefix: string, absolute: string)
    requires '-' !in absolute
    ensures LastIndexOf(classPrefix + "-" + absolute, '-') == |classPrefix|
  {
    ValueAfterDash(classPrefix, absolute);
    LastIndexOfAt(classPrefix + "-" + absolute, '-', |classPrefix|);
  }

  lemma ValueAfterDash(classPrefix: string, absolute: string)
    requires '-' !in absolute
    ensures var body := classPrefix + "-" + absolute;
            body[|classPrefix|] == '-' && forall k | |classPrefix| < k < |body| :: body[k] != '-'
  {
    var body := classPrefix + "-" + absolute;
    forall k | |classPrefix| < k < |body|
      ensures body[k] != '-'
    {
      assert body[k] == absolute[k - |classPrefix| - 1];
    }
  }

  /**
   * The sign stays in the value: `-mt-12` and `mt-12` share the prefix and differ in the
   * value (`-12` against `12`), so they are never merged with each other.
   */
  lemma SignKeptInValue(body: string)
    requires !LeadingDash(body) && '-' in body
    ensures var pos := ParseTailwindClass(body);
            var neg := ParseTailwindClass("-" + body);
            pos.value.Some? && neg.value.Some? && neg.classPrefix == pos.classPrefix
            && neg.value.value == "-" + pos.value.value && neg.value != pos.value
  {
    assert ("-" + body)[1..] == body;
    assert LeadingDash("-" + body);
    var v := ParseTailwindClass(body).value.value;
    assert ("-" + v)[0] == '-';
  }

  // ---------------------------------------------------------------------------------------
  // Routing a value into the tree

  /**
   * The slots `recursiveSetValue(key, value, g)` pushes into, searching the children of
   * `g` from index `i`: depth first, first match wins. A match on a leaf array targets that
   * array; a match on a nested object targets everything `recursiveSetValueToAllKeys`
   * reaches. `None` means that `key` was not found.
   */
  function SetTargets(key: string, g: Shape, i: nat): Option<seq<nat>>
    decreases g, 0, if g.Group? && i < |g.children| then |g.children| - i else 0
  {
    if !g.Group? || i >= |g.children| then None
    else
      var k := g.children[i].0;
      var child := g.children[i].1;
      if k == key then
        Some(if child.Slot? then [child.id] else AllKeysTargets(child, |child.children|))
      else if child.Group? && SetTargets(key, child, 0).Some? then SetTargets(key, child, 0)
      else SetTargets(key, g, i + 1)
  }

  /** The slots `recursiveSetValueToAllKeys` reaches through the first `n` keys of `g`. */
  function AllKeysTargets(g: Shape, n: nat): seq<nat>
    requires g.Group? && n <= |g.children|
    decreases g, 1, n
  {
    if n == 0 then []
    else AllKeysTargets(g, n - 1) + SetTargets(g.children[n - 1].0, g, 0).GetOr([])
  }

  /** Every key that occurs in `g` below child `i`, at any depth. */
  function LabelsFrom(g: Shape, i: nat): set<string>
    decreases g, if g.Group? && i < |g.children| then |g.children| - i else 0
  {
    if !g.Group? || i >= |g.children| then {}
    else {g.children[i].0} + LabelsFrom(g.children[i].1, 0) + LabelsFrom(g, i + 1)
  }

  /** A key is found exactly when it occurs somewhere in the tree. */
  lemma {:induction false} SetTargetsFindsIff(key: string, g: Shape, i: nat)
    ensures SetTargets(key, g, i).Some? <==> key in LabelsFrom(g, i)
    decreases g, if g.Group? && i < |g.children| then |g.children| - i else 0
  {
    if g.Group? && i < |g.children| {
      var child := g.children[i].1;
      SetTargetsFindsIff(key, child, 0);
      SetTargetsFindsIff(key, g, i + 1);
    }
  }

  /** `leaves[id].push(value)` */
  function PushAt(leaves: seq<seq<string>>, id: nat, value: string): (r: seq<seq<string>>)
    ensures |r| == |leaves|
  {
    if id < |leaves| then leaves[id := leaves[id] + [value]] else leaves
  }

  /** Pushing `value` into each target slot in turn. */
  function PushAll(leaves: seq<seq<string>>, ids: seq<nat>, value: string): (r: seq<seq<string>>)
    ensures |r| == |leaves|
  {
    if ids == [] then leaves
    else PushAt(PushAll(leaves, ids[..|ids| - 1], value), ids[|ids| - 1], value)
  }

  lemma {:induction false} PushAllAppend(leaves: seq<seq<string>>, a: seq<nat>, b: seq<nat>, value: string)
    ensures PushAll(leaves, a + b, value) == PushAll(PushAll(leaves, a, value), b, value)
    decreases |b|
  {
    if b == [] {
      assert a + b == a;
    } else {
      assert (a + b)[..|a + b| - 1] == a + b[..|b| - 1];
      PushAllAppend(leaves, a, b[..|b| - 1], value);
    }
  }

  // ---------------------------------------------------------------------------------------
  // Appending classes

  /** The manager's state: `resolvedClasses` and the contents of the leaf arrays. */
  datatype Reduction = Reduction(resolved: seq<string>, leaves: seq<seq<string>>)

  function InitialReduction(): (r: Reduction)
    ensures r.resolved == [] && |r.leaves| == SlotCount
    ensures forall id | 0 <= id < SlotCount :: r.leaves[id] == []
  {
    Reduction([], seq(SlotCount, _ => []))
  }

  /** A class is routed into the tree when it has a non-empty value and its prefix is found. */
  predicate Routed(families: seq<(string, Shape)>, className: string) {
    var p := ParseTailwindClass(className);
    p.value.Some? && p.value.value != "" && SetTargets(p.classPrefix, Group(families), 0).Some?
  }

  /** `appendClassName`: a routed class fills its target arrays, any other class is kept as is. */
  function Append(families: seq<(string, Shape)>, s: Reduction, className: string): (r: Reduction)
    ensures |r.leaves| == |s.leaves|
    ensures Routed(families, className) ==> r.resolved == s.resolved
    ensures !Routed(families, className) ==> r == s.(resolved := s.resolved + [className])
  {
    var p := ParseTailwindClass(className);
    if p.value.None? || p.value.value == "" then s.(resolved := s.resolved + [className])
    else match SetTargets(p.classPrefix, Group(families), 0)
      case None => s.(resolved := s.resolved + [className])
      case Some(ids) => s.(leaves := PushAll(s.leaves, ids, p.value.value))
  }

  function AppendAll(families: seq<(string, Shape)>, s: Reduction, classNames: seq<string>): (r: Reduction)
    ensures |r.leaves| == |s.leaves|
  {
    if classNames == [] then s
    else Append(families, AppendAll(families, s, classNames[..|classNames| - 1]), classNames[|classNames| - 1])
  }

  /** Reference definition of the classes that pass through: the unrouted ones, in order. */
  function Unrouted(families: seq<(string, Shape)>, classNames: seq<string>): seq<string> {
    if classNames == [] then []
    else
      var last := classNames[|classNames| - 1];
      Unrouted(families, classNames[..|classNames| - 1]) + (if Routed(families, last) then [] else [last])
  }

  /**
   * After appending any classes, `resolvedClasses` holds exactly the classes that are not
   * routed into the tree, unchanged and in their original order.
   */
  lemma {:induction false} PassThroughInOrder(families: seq<(string, Shape)>, s: Reduction, classNames: seq<string>)
    ensures AppendAll(families, s, classNames).resolved == s.resolved + Unrouted(families, classNames)
    decreases |classNames|
  {
    if classNames != [] {
      var init := classNames[..|classNames| - 1];
      var last := classNames[|classNames| - 1];
      PassThroughInOrder(families, s, init);
      AppendAssoc(s.resolved, Unrouted(families, init), if Routed(families, last) then [] else [last]);
    }
  }

  // ---------------------------------------------------------------------------------------
  // Resolving the tree

  /** `new Map(values.map(value => [value, prefix]))`: a repeated value keeps its first position. */
  function FromValues(values: seq<string>, prefix: string): (r: Dict<string>)
    ensures Wf(r)
    ensures forall v :: v in Keys(r) <==> v in values
    ensures forall i | 0 <= i < |r| :: r[i].1 == prefix
  {
    if values == [] then []
    else
      var init := FromValues(values[..|values| - 1], prefix);
      PutWf(init, values[|values| - 1], prefix);
      PutKeys(init, values[|values| - 1], prefix);
      PutValues(init, values[|values| - 1], prefix, prefix);
      assert forall v :: v in values <==> v in values[..|values| - 1] || v == values[|values| - 1] by {
        assert values == values[..|values| - 1] + [values[|values| - 1]];
      }
      Put(init, values[|values| - 1], prefix)
  }

  /** When every value of a dictionary is `p` and `p` is written, every value is still `p`. */
  lemma {:induction false} PutValues(d: Dict<string>, k: string, v: string, p: string)
    requires forall i | 0 <= i < |d| :: d[i].1 == p
    requires v == p
    ensures forall i | 0 <= i < |Put(d, k, v)| :: Put(d, k, v)[i].1 == p
  {
    if d != [] && d[0].0 != k {
      PutValues(d[1..], k, v, p);
    }
  }

  /** The `forEach` that sets every value of a child's common map to the child's own key. */
  function Relabel(d: Dict<string>, prefix: string): (r: Dict<string>)
    ensures |r| == |d| && Keys(r) == Keys(d)
    ensures forall i | 0 <= i < |r| :: r[i] == (d[i].0, prefix)
  {
    seq(|d|, i requires 0 <= i < |d| => (d[i].0, prefix))
  }

  /** A JavaScript truthiness test on an optional string: present and non-empty. */
  predicate Truthy(o: Option<string>) {
    o.Some? && o.value != ""
  }

  /**
   * The entries of the common map that survive the first `forEach` of
   * `intersectCommonValues`: those whose value the new map also holds, each relabelled with
   * the new map's prefix.
   */
  function Keep(common: Dict<string>, valuesMap: Dict<string>): Dict<string> {
    if common == [] then []
    else
      var rest := Keep(common[1..], valuesMap);
      var q := Get(valuesMap, common[0].0);
      if Truthy(q) then [(common[0].0, q.value)] + rest else rest
  }

  /** The classes the first `forEach` emits: common entries the new map lacks, under their old prefix. */
  function Dropped(common: Dict<string>, valuesMap: Dict<string>): seq<string> {
    if common == [] then []
    else
      var rest := Dropped(common[1..], valuesMap);
      if Truthy(Get(valuesMap, common[0].0)) then rest
      else [ToTailwindClass(common[0].1, common[0].0)] + rest
  }

  /** The classes the second `forEach` emits: entries of the new map the common map no longer has. */
  function NotKept(valuesMap: Dict<string>, kept: Dict<string>): seq<string> {
    if valuesMap == [] then []
    else
      var rest := NotKept(valuesMap[1..], kept);
      if valuesMap[0].0 in Keys(kept) then rest
      else [ToTailwindClass(valuesMap[0].1, valuesMap[0].0)] + rest
  }

  /** `intersectCommonValues`: the new common map and the classes it emits, in emission order. */
  function Intersect(common: Option<Dict<string>>, valuesMap: Dict<string>): (Dict<string>, seq<string>) {
    match common
    case None => (valuesMap, [])
    case Some(c) =>
      var kept := Keep(c, valuesMap);
      (kept, Dropped(c, valuesMap) + NotKept(valuesMap, kept))
  }

  /** The state of `recursiveResolveClasses` after some children: the common map so far and the classes emitted. */
  datatype Step = Step(common: Option<Dict<string>>, emitted: seq<string>)

  /**
   * The map child `i` of `g` contributes, and the classes resolving that child emits first:
   * a leaf array becomes a map from each value to the child's key; a nested object is
   * resolved and its common map relabelled with the child's key.
   */
  function ChildValuesMap(g: Shape, leaves: seq<seq<string>>, i: nat): (Dict<string>, seq<string>)
    requires g.Group? && i < |g.children|
    decreases g, 0, i, 0
  {
    var key := g.children[i].0;
    var child := g.children[i].1;
    if child.Slot? then (FromValues(Values(leaves, child.id), key), [])
    else
      var inner := Resolve(child, leaves);
      (Relabel(inner.0, key), inner.1)
  }

  /** `recursiveResolveClasses(g)` after its first `n` children. */
  function ResolveChildren(g: Shape, leaves: seq<seq<string>>, n: nat): Step
    requires g.Group? && n <= |g.children|
    decreases g, 0, n, 1
  {
    if n == 0 then Step(None, [])
    else
      var prev := ResolveChildren(g, leaves, n - 1);
      var child := ChildValuesMap(g, leaves, n - 1);
      var (common, emitted) := Intersect(prev.common, child.0);
      Step(Some(common), prev.emitted + child.1 + emitted)
  }

  /**
   * `recursiveResolveClasses(g)`: the values every child of `g` shares, keyed to the prefix
   * of the child that was intersected last, and the classes emitted on the way. A leaf
   * array has no object-valued keys and yields an empty map.
   */
  function Resolve(g: Shape, leaves: seq<seq<string>>): (Dict<string>, seq<string>)
    decreases g, 1, 0, 0
  {
    if g.Slot? then ([], [])
    else
      var s := ResolveChildren(g, leaves, |g.children|);
      (s.common.GetOr([]), s.emitted)
  }

  /** Each common value of a family rendered under the family key. */
  function RenderAll(key: string, common: Dict<string>): (r: seq<string>)
    ensures |r| == |common|
    ensures forall i | 0 <= i < |common| :: r[i] == ToTailwindClass(key, common[i].0)
  {
    seq(|common|, i requires 0 <= i < |common| => ToTailwindClass(key, common[i].0))
  }

  /** What `reduce` appends for one family: its leftovers, then its shorthands. */
  function FamilyOutput(key: string, g: Shape, leaves: seq<seq<string>>): seq<string> {
    var r := Resolve(g, leaves);
    r.1 + RenderAll(key, r.0)
  }

  /** What `reduce` appends for the first `n` families, in family order. */
  function FamiliesOutput(families: seq<(string, Shape)>, leaves: seq<seq<string>>, n: nat): seq<string>
    requires n <= |families|
  {
    if n == 0 then []
    else FamiliesOutput(families, leaves, n - 1) + FamilyOutput(families[n - 1].0, families[n - 1].1, leaves)
  }

  /** `reduceTailwindClasses(classNames)` for a given family tree. */
  function ReducedWith(families: seq<(string, Shape)>, classNames: seq<string>): seq<string> {
    var s := AppendAll(families, InitialReduction(), classNames);
    s.resolved + FamiliesOutput(families, s.leaves, |families|)
  }

  /** `reduceTailwindClasses(classNames)` over the fixed family tree. */
  function Reduced(classNames: seq<string>): seq<string> {
    ReducedWith(Families, classNames)
  }

  // ---------------------------------------------------------------------------------------
  // Facts about one intersection

  lemma {:induction false} KeepAppend(a: Dict<string>, b: Dict<string>, m: Dict<string>)
    ensures Keep(a + b, m) == Keep(a, m) + Keep(b, m)
    decreases |a|
  {
    if a == [] {
      assert a + b == b;
    } else {
      assert (a + b)[1..] == a[1..] + b;
      KeepAppend(a[1..], b, m);
    }
  }

  lemma {:induction false} DroppedAppend(a: Dict<string>, b: Dict<string>, m: Dict<string>)
    ensures Dropped(a + b, m) == Dropped(a, m) + Dropped(b, m)
    decreases |a|
  {
    if a == [] {
      assert a + b == b;
    } else {
      assert (a + b)[1..] == a[1..] + b;
      DroppedAppend(a[1..], b, m);
    }
  }

  lemma {:induction false} NotKeptAppend(a: Dict<string>, b: Dict<string>, kept: Dict<string>)
    ensures NotKept(a + b, kept) == NotKept(a, kept) + NotKept(b, kept)
    decreases |a|
  {
    if a == [] {
      assert a + b == b;
    } else {
      assert (a + b)[1..] == a[1..] + b;
      NotKeptAppend(a[1..], b, kept);
    }
  }

  /** A value survives an intersection exactly when both maps hold it. */
  lemma {:induction false} KeepKeys(c: Dict<string>, m: Dict<string>, v: string)
    ensures v in Keys(Keep(c, m)) <==> v in Keys(c) && Truthy(Get(m, v))
  {
    if c != [] {
      KeepKeys(c[1..], m, v);
    }
  }

  /** A surviving value carries the prefix the new map gives it. */
  lemma {:induction false} KeepGet(c: Dict<string>, m: Dict<string>, v: string)
    requires v in Keys(Keep(c, m))
    ensures Get(Keep(c, m), v) == Get(m, v)
  {
    if c != [] {
      if c[0].0 != v || !Truthy(Get(m, c[0].0)) {
        KeepGet(c[1..], m, v);
      }
    }
  }

  lemma KeepWf(c: Dict<string>, m: Dict<string>)
    requires Wf(c)
    ensures Wf(Keep(c, m))
  {
    var k := Keep(c, m);
    forall i, j | 0 <= i < j < |k|
      ensures k[i].0 != k[j].0
    {
      KeepOrder(c, m, i, j);
    }
  }

  /** Two entries of `Keep(c, m)` come from two distinct entries of `c`. */
  lemma {:induction false} KeepOrder(c: Dict<string>, m: Dict<string>, i: nat, j: nat)
    requires Wf(c) && i < j < |Keep(c, m)|
    ensures Keep(c, m)[i].0 != Keep(c, m)[j].0
  {
    var rest := Keep(c[1..], m);
    assert Wf(c[1..]) by { assert Keys(c[1..]) == Keys(c)[1..]; }
    if Truthy(Get(m, c[0].0)) {
      if i == 0 {
        KeepKeys(c[1..], m, c[0].0);
        assert Keys(rest)[j - 1] == rest[j - 1].0;
        assert Keys(c)[0] == c[0].0;
      } else {
        KeepOrder(c[1..], m, i - 1, j - 1);
      }
    } else {
      KeepOrder(c[1..], m, i, j);
    }
  }

  lemma RelabelWf(d: Dict<string>, prefix: string)
    requires Wf(d)
    ensures Wf(Relabel(d, prefix))
  {
  }

  /** `intersectCommonValues` keeps the common map free of repeated values. */
  lemma IntersectWf(common: Option<Dict<string>>, valuesMap: Dict<string>)
    requires Wf(valuesMap) && (common.Some? ==> Wf(common.value))
    ensures Wf(Intersect(common, valuesMap).0)
  {
    if common.Some? {
      KeepWf(common.value, valuesMap);
    }
  }

  // ---------------------------------------------------------------------------------------
  // The manager

  /** `TailwindClassesReductionManager`: the classes resolved so far and the leaf arrays of the family tree. */
  class TailwindClassesReductionManager {
    var resolvedClasses: seq<string>
    var leaves: seq<seq<string>>
    /** The family tree whose leaf arrays `leaves` holds. */
    const families: seq<(string, Shape)>

    function State(): Reduction
      reads this
    {
      Reduction(resolvedClasses, leaves)
    }

    constructor()
      ensures State() == InitialReduction() && families == Families
    {
      resolvedClasses := [];
      leaves := seq(SlotCount, _ => []);
      families := Families;
    }

    /** `appendClassName` */
    method AppendClassName(className: string)
      modifies this
      ensures State() == Append(families, old(State()), className)
    {
      var parsed := ParseTailwindClass(className);
      var isSet := false;
      if parsed.value.Some? && parsed.value.value != "" {
        isSet := RecursiveSetValue(parsed.classPrefix, parsed.value.value, Group(families));
      }
      if !isSet {
        resolvedClasses := resolvedClasses + [className];
      }
    }

    /** `recursiveSetValue`: depth-first search for `key`, pushing `value` where it is first found. */
    method RecursiveSetValue(key: string, value: string, g: Shape) returns (isSet: bool)
      modifies this
      ensures resolvedClasses == old(resolvedClasses)
      ensures isSet == SetTargets(key, g, 0).Some?
      ensures leaves == PushAll(old(leaves), SetTargets(key, g, 0).GetOr([]), value)
      decreases g, 0
    {
      if g.Slot? {
        return false;
      }
      var i := 0;
      while i < |g.children|
        invariant 0 <= i <= |g.children|
        invariant resolvedClasses == old(resolvedClasses) && leaves == old(leaves)
        invariant SetTargets(key, g, i) == SetTargets(key, g, 0)
      {
        var objectKey := g.children[i].0;
        var objectValue := g.children[i].1;
        if objectKey == key {
          if objectValue.Group? {
            RecursiveSetValueToAllKeys(value, objectValue);
          } else {
            leaves := PushAt(leaves, objectValue.id, value);
            assert [objectValue.id][..0] == [];
          }
          return true;
        }
        if objectValue.Group? {
          isSet := RecursiveSetValue(key, value, objectValue);
          if isSet {
            return true;
          }
        }
        i := i + 1;
      }
      return false;
    }

    /** `recursiveSetValueToAllKeys`: every key of `g` is looked up again inside `g`. */
    method RecursiveSetValueToAllKeys(value: string, g: Shape)
      requires g.Group?
      modifies this
      ensures resolvedClasses == old(resolvedClasses)
      ensures leaves == PushAll(old(leaves), AllKeysTargets(g, |g.children|), value)
      decreases g, 1
    {
      var j := 0;
      while j < |g.children|
        invariant 0 <= j <= |g.children|
        invariant resolvedClasses == old(resolvedClasses)
        invariant leaves == PushAll(old(leaves), AllKeysTargets(g, j), value)
      {
        ghost var before := leaves;
        var _ := RecursiveSetValue(g.children[j].0, value, g);
        PushAllAppend(old(leaves), AllKeysTargets(g, j), SetTargets(g.children[j].0, g, 0).GetOr([]), value);
        j := j + 1;
      }
    }

    /** The `new Map(...)` built from one leaf array. */
    static method NewValuesMap(values: seq<string>, prefix: string) returns (m: Dict<string>)
      ensures m == FromValues(values, prefix)
    {
      m := [];
      for j := 0 to |values|
        invariant m == FromValues(values[..j], prefix)
      {
        assert values[..j + 1][..j] == values[..j];
        m := Put(m, values[j], prefix);
      }
      assert values[..|values|] == values;
    }

    /** The `forEach` that relabels a child's common map with the child's own key. */
    static method SetAllPrefixes(valuesMap: Dict<string>, prefix: string) returns (m: Dict<string>)
      requires Wf(valuesMap)
      ensures m == Relabel(valuesMap, prefix)
    {
      m := valuesMap;
      for j := 0 to |valuesMap|
        invariant m == Relabel(valuesMap[..j], prefix) + valuesMap[j..]
      {
        RelabelStep(valuesMap, prefix, j);
        m := Put(m, valuesMap[j].0, prefix);
      }
      assert valuesMap[..|valuesMap|] == valuesMap;
    }

    /** `recursiveResolveClasses(g, this.resolvedClasses)` */
    method RecursiveResolveClasses(g: Shape) returns (common: Dict<string>)
      modifies this
      ensures leaves == old(leaves)
      ensures common == Resolve(g, leaves).0
      ensures resolvedClasses == old(resolvedClasses) + Resolve(g, leaves).1
      ensures Wf(common)
      decreases g, 1
    {
      if g.Slot? {
        return [];
      }
      var commonValuesMap: Option<Dict<string>> := None;
      for i := 0 to |g.children|
        invariant leaves == old(leaves)
        invariant commonValuesMap == ResolveChildren(g, leaves, i).common
        invariant resolvedClasses == old(resolvedClasses) + ResolveChildren(g, leaves, i).emitted
        invariant commonValuesMap.Some? ==> Wf(commonValuesMap.value)
      {
        var valuesMap := ChildMap(g, i);
        IntersectWf(commonValuesMap, valuesMap);
        var r := IntersectCommonValues(commonValuesMap, valuesMap);
        commonValuesMap := Some(r);
        ResolveChildrenStep(g, leaves, i, old(resolvedClasses));
      }
      common := if commonValuesMap.Some? then commonValuesMap.value else [];
    }

    /** The values map of child `i` of `g`: a nested object resolved and relabelled, or a leaf array's values. */
    method ChildMap(g: Shape, i: nat) returns (valuesMap: Dict<string>)
      requires g.Group? && i < |g.children|
      modifies this
      ensures leaves == old(leaves)
      ensures valuesMap == ChildValuesMap(g, leaves, i).0 && Wf(valuesMap)
      ensures resolvedClasses == old(resolvedClasses) + ChildValuesMap(g, leaves, i).1
      decreases g, 0
    {
      var currentClassPrefix := g.children[i].0;
      var objectValue := g.children[i].1;
      if objectValue.Group? {
        valuesMap := RecursiveResolveClasses(objectValue);
        RelabelWf(valuesMap, currentClassPrefix);
        valuesMap := SetAllPrefixes(valuesMap, currentClassPrefix);
      } else {
        valuesMap := NewValuesMap(Values(leaves, objectValue.id), currentClassPrefix);
      }
    }

    /** One more child: its classes and the intersection's are emitted after the earlier ones. */
    static lemma ResolveChildrenStep(g: Shape, leaves: seq<seq<string>>, i: nat, base: seq<string>)
      requires g.Group? && i < |g.children|
      ensures var prev := ResolveChildren(g, leaves, i);
              var child := ChildValuesMap(g, leaves, i);
              ResolveChildren(g, leaves, i + 1).common == Some(Intersect(prev.common, child.0).0)
              && base + ResolveChildren(g, leaves, i + 1).emitted
                 == base + prev.emitted + child.1 + Intersect(prev.common, child.0).1
    {
      var prev := ResolveChildren(g, leaves, i);
      var child := ChildValuesMap(g, leaves, i);
      var x := Intersect(prev.common, child.0).1;
      AppendAssoc(base, prev.emitted, child.1);
      AppendAssoc(base + prev.emitted, child.1, x);
      AppendAssoc(base, prev.emitted + child.1, x);
    }

    /** `reduce`: each family's leftovers and shorthands are appended, family by family. */
    method Reduce() returns (r: seq<string>)
      modifies this
      ensures leaves == old(leaves)
      ensures r == resolvedClasses == old(resolvedClasses) + FamiliesOutput(families, leaves, |families|)
    {
      for i := 0 to |families|
        invariant leaves == old(leaves)
        invariant resolvedClasses == old(resolvedClasses) + FamiliesOutput(families, leaves, i)
      {
        var mapKey := families[i].0;
        var family := families[i].1;
        ResolveFamily(mapKey, family);
        AppendAssoc(old(resolvedClasses), FamiliesOutput(families, leaves, i), FamilyOutput(mapKey, family, leaves));
      }
      r := resolvedClasses;
    }

    /** The body of the family loop of `reduce`: resolve one family, then render its common values. */
    method ResolveFamily(mapKey: string, family: Shape)
      modifies this
      ensures leaves == old(leaves)
      ensures resolvedClasses == old(resolvedClasses) + FamilyOutput(mapKey, family, leaves)
    {
      var common := RecursiveResolveClasses(family);
      AppendShorthands(mapKey, common);
      AppendAssoc(old(resolvedClasses), Resolve(family, leaves).1, RenderAll(mapKey, common));
    }

    /** The `forEach` of `reduce` that renders each common value under the family key. */
    method AppendShorthands(mapKey: string, common: Dict<string>)
      modifies this
      ensures leaves == old(leaves)
      ensures resolvedClasses == old(resolvedClasses) + RenderAll(mapKey, common)
    {
      for j := 0 to |common|
        invariant leaves == old(leaves)
        invariant resolvedClasses == old(resolvedClasses) + RenderAll(mapKey, common)[..j]
      {
        assert RenderAll(mapKey, common)[..j + 1] == RenderAll(mapKey, common)[..j] + [ToTailwindClass(mapKey, common[j].0)];
        resolvedClasses := resolvedClasses + [ToTailwindClass(mapKey, common[j].0)];
      }
      assert RenderAll(mapKey, common)[..|common|] == RenderAll(mapKey, common);
    }

    /** `intersectCommonValues` */
    method IntersectCommonValues(common: Option<Dict<string>>, valuesMap: Dict<string>) returns (r: Dict<string>)
      requires Wf(valuesMap) && (common.Some? ==> Wf(common.value))
      modifies this
      ensures leaves == old(leaves)
      ensures r == Intersect(common, valuesMap).0
      ensures resolvedClasses == old(resolvedClasses) + Intersect(common, valuesMap).1
    {
      if common.None? {
        return valuesMap;
      }
      r := DropMissingValues(common.value, valuesMap);
      AddValuesMissingFromCommon(common.value, valuesMap);
    }

    /** The first `forEach` of `intersectCommonValues`: relabel shared values, drop and emit the others. */
    method DropMissingValues(c: Dict<string>, valuesMap: Dict<string>) returns (r: Dict<string>)
      requires Wf(c)
      modifies this
      ensures leaves == old(leaves)
      ensures r == Keep(c, valuesMap)
      ensures resolvedClasses == old(resolvedClasses) + Dropped(c, valuesMap)
    {
      r := c;
      for i := 0 to |c|
        invariant leaves == old(leaves)
        invariant r == Keep(c[..i], valuesMap) + c[i..]
        invariant resolvedClasses == old(resolvedClasses) + Dropped(c[..i], valuesMap)
      {
        var commonValue := c[i].0;
        var commonClassPrefix := c[i].1;
        var classPrefix := Get(valuesMap, commonValue);
        IntersectStep(c, valuesMap, i);
        if Truthy(classPrefix) {
          r := Put(r, commonValue, classPrefix.value);
        } else {
          r := Delete(r, commonValue);
          resolvedClasses := resolvedClasses + [ToTailwindClass(commonClassPrefix, commonValue)];
        }
      }
      assert c[..|c|] == c;
    }

    /**
     * The second `forEach` of `intersectCommonValues`, run on the common map `Keep(c, valuesMap)`
     * the first one left: shared values are set again to the prefix they already carry, the
     * rest are emitted under the new map's prefix.
     */
    method AddValuesMissingFromCommon(c: Dict<string>, valuesMap: Dict<string>)
      requires Wf(valuesMap)
      modifies this
      ensures leaves == old(leaves)
      ensures resolvedClasses == old(resolvedClasses) + NotKept(valuesMap, Keep(c, valuesMap))
    {
      var kept := Keep(c, valuesMap);
      var r := kept;
      for j := 0 to |valuesMap|
        invariant leaves == old(leaves) && r == kept
        invariant resolvedClasses == old(resolvedClasses) + NotKept(valuesMap[..j], kept)
      {
        var value := valuesMap[j].0;
        var classPrefix := valuesMap[j].1;
        assert valuesMap[..j + 1] == valuesMap[..j] + [valuesMap[j]];
        NotKeptAppend(valuesMap[..j], [valuesMap[j]], kept);
        if value in Keys(r) {
          KeepGet(c, valuesMap, value);
          GetMember(valuesMap, j);
          PutSame(r, value);
          r := Put(r, value, classPrefix);
        } else {
          resolvedClasses := resolvedClasses + [ToTailwindClass(classPrefix, value)];
        }
      }
      assert valuesMap[..|valuesMap|] == valuesMap;
    }
  }

  /** One step of the first `forEach` of `intersectCommonValues`, as a `set` or a `delete` in place. */
  lemma IntersectStep(c: Dict<string>, m: Dict<string>, i: nat)
    requires Wf(c) && i < |c|
    ensures var r := Keep(c[..i], m) + c[i..];
            var q := Get(m, c[i].0);
            && (Truthy(q) ==> Put(r, c[i].0, q.value) == Keep(c[..i + 1], m) + c[i + 1..])
            && (!Truthy(q) ==> Delete(r, c[i].0) == Keep(c[..i + 1], m) + c[i + 1..])
            && Dropped(c[..i + 1], m) == Dropped(c[..i], m) + (if Truthy(q) then [] else [ToTailwindClass(c[i].1, c[i].0)])
  {
    var v := c[i].0;
    var q := Get(m, v);
    var kept := Keep(c[..i], m);
    var r := kept + c[i..];
    assert c[..i + 1] == c[..i] + [c[i]];
    KeepAppend(c[..i], [c[i]], m);
    DroppedAppend(c[..i], [c[i]], m);
    assert Keep([c[i]], m) == (if Truthy(q) then [(v, q.value)] else []);
    assert Dropped([c[i]], m) == (if Truthy(q) then [] else [ToTailwindClass(c[i].1, v)]);
    UniqueInStep(c, m, i);
    if Truthy(q) {
      SetInPlace(kept, c[i], c[i + 1..], q.value);
    } else {
      DeleteInPlace(r, |kept|);
      assert r[..|kept|] + r[|kept| + 1..] == kept + c[i + 1..];
    }
  }

  lemma SetInPlace(a: Dict<string>, e: (string, string), b: Dict<string>, x: string)
    requires forall j | 0 <= j < |a| :: a[j].0 != e.0
    ensures Put(a + [e] + b, e.0, x) == a + [(e.0, x)] + b
  {
    assert e.0 !in Keys(a);
    assert a + [e] + b == a + ([e] + b);
    PutAfter(a, [e] + b, e.0, x);
    assert ([e] + b)[1..] == b;
    assert a + ([(e.0, x)] + b) == a + [(e.0, x)] + b;
  }


  /** In the map being intersected, the entry visited at step `i` is the only one with its value. */
  lemma UniqueInStep(c: Dict<string>, m: Dict<string>, i: nat)
    requires Wf(c) && i < |c|
    ensures var kept := Keep(c[..i], m);
            var r := kept + c[i..];
            && r[|kept|] == c[i]
            && r == kept + [c[i]] + c[i + 1..]
            && (forall j | 0 <= j < |kept| :: kept[j].0 != c[i].0)
            && forall j | 0 <= j < |r| && j != |kept| :: r[j].0 != c[i].0
  {
    var v := c[i].0;
    var kept := Keep(c[..i], m);
    var r := kept + c[i..];
    assert c[i..] == [c[i]] + c[i + 1..];
    forall j | 0 <= j < |r| && j != |kept|
      ensures r[j].0 != v
    {
      if j < |kept| {
        assert r[j] == kept[j];
        assert Keys(kept)[j] == kept[j].0;
        KeepKeys(c[..i], m, kept[j].0);
        assert Keys(c[..i]) == Keys(c)[..i];
        assert Keys(c)[i] == v;
      } else {
        var x := j - |kept| + i;
        assert r[j] == c[x];
        assert Keys(c)[x] == c[x].0 && Keys(c)[i] == v;
      }
    }
    forall j | 0 <= j < |kept|
      ensures kept[j].0 != v
    {
      assert r[j] == kept[j];
    }
  }

  /** One step of the relabelling `forEach`, as a `set` in place. */
  lemma RelabelStep(d: Dict<string>, prefix: string, j: nat)
    requires Wf(d) && j < |d|
    ensures Put(Relabel(d[..j], prefix) + d[j..], d[j].0, prefix) == Relabel(d[..j + 1], prefix) + d[j + 1..]
  {
    var a := Relabel(d[..j], prefix);
    forall i | 0 <= i < |a|
      ensures a[i].0 != d[j].0
    {
      assert a[i].0 == d[i].0 == Keys(d)[i];
      assert Keys(d)[j] == d[j].0;
    }
    assert d[j..] == [d[j]] + d[j + 1..];
    assert a + d[j..] == a + [d[j]] + d[j + 1..];
    SetInPlace(a, d[j], d[j + 1..], prefix);
    assert Relabel(d[..j + 1], prefix) == a + [(d[j].0, prefix)];
  }

  /** `reduceTailwindClasses`: every class is appended to a fresh manager, which is then reduced. */
  method ReduceTailwindClasses(classNames: seq<string>) returns (r: seq<string>)
    ensures r == Reduced(classNames)
  {
    var manager := new TailwindClassesReductionManager();
    for i := 0 to |classNames|
      invariant manager.State() == AppendAll(manager.families, InitialReduction(), classNames[..i])
    {
      assert classNames[..i + 1][..i] == classNames[..i];
      manager.AppendClassName(classNames[i]);
    }
    assert classNames[..|classNames|] == classNames;
    r := manager.Reduce();
  }

  lemma AppendAssoc<T>(a: seq<T>, b: seq<T>, c: seq<T>)
    ensures a + b + c == a + (b + c)
  {
  }
}
