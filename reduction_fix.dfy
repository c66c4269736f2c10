/**
 * Resolving an object with more than two keys can lose classes. A value that every child
 * so far has shared carries only the prefix of the child intersected last; when a later
 * child lacks it, the value is emitted under that one prefix, and the earlier children
 * that held it are no longer covered. Only the `rounded` family has four keys:
 * `rounded-t-2 rounded-r-2` resolves to `rounded-r-2` and the top-left corner is lost.
 *
 * This module exhibits that input against the model of the code as written, and gives a
 * corrected resolution (a dropped value is emitted under the key of every child that
 * held it) for which no leaf value is lost.
 */
module TailwindClassesReductionFix {
  import opened Wrappers
  import opened JsStrings
  import opened OrderedMap
  import opened TailwindClassesReduction
  import opened TailwindClassesReductionProperties

  // ---------------------------------------------------------------------------------------
  // Coverage: which classes give a value to a leaf array

  /** Slot `id` lies below `g` (or is `g`). */
  predicate Below(g: Shape, id: nat)
    decreases g
  {
    if g.Slot? then g.id == id
    else exists i | 0 <= i < |g.children| :: Below(g.children[i].1, id)
  }

  /** `p` is a key on a way from `g` (exclusive) down to slot `id`. */
  predicate PathLabel(g: Shape, id: nat, p: string)
    decreases g
  {
    g.Group?
    && exists i | 0 <= i < |g.children| ::
         Below(g.children[i].1, id) && (p == g.children[i].0 || PathLabel(g.children[i].1, id, p))
  }

  /** `out` gives value `v` to slot `id` of `g` through a key on its way down. */
  ghost predicate Covered(out: seq<string>, g: Shape, id: nat, v: string) {
    exists p | PathLabel(g, id, p) :: ToTailwindClass(p, v) in out
  }

  // ---------------------------------------------------------------------------------------
  // The code as written loses a corner

  /** The `rounded` family of the reducer's tree. */
  const Rounded: Shape := Group([
    ("rounded-t", Group([("rounded-tl", Slot(16)), ("rounded-tr", Slot(17))])),
    ("rounded-r", Group([("rounded-tr", Slot(18)), ("rounded-br", Slot(19))])),
    ("rounded-b", Group([("rounded-bl", Slot(20)), ("rounded-br", Slot(21))])),
    ("rounded-l", Group([("rounded-tl", Slot(22)), ("rounded-bl", Slot(23))]))])

  /** The leaf arrays after `rounded-t-2 rounded-r-2`: the top two and the right two corners hold `2`. */
  function TopAndRightLeaves(): seq<seq<string>> {
    seq(SlotCount, id => if 16 <= id <= 19 then ["2"] else [])
  }

  /** An object of two leaf arrays that both hold exactly `v` resolves to `v`, keyed to the second. */
  lemma PairShared(a: string, b: string, x: nat, y: nat, leaves: seq<seq<string>>, v: string)
    requires b != "" && Values(leaves, x) == [v] && Values(leaves, y) == [v]
    ensures Resolve(Group([(a, Slot(x)), (b, Slot(y))]), leaves) == ([(v, b)], [])
  {
    var g := Group([(a, Slot(x)), (b, Slot(y))]);
    assert FromValues([v], a) == [(v, a)] by { assert [v][..0] == []; }
    assert FromValues([v], b) == [(v, b)] by { assert [v][..0] == []; }
    assert ChildValuesMap(g, leaves, 0).0 == [(v, a)];
    assert ChildValuesMap(g, leaves, 1).0 == [(v, b)];
    assert ResolveChildren(g, leaves, 1) == Step(Some([(v, a)]), []);
    assert Get([(v, b)], v) == Some(b);
    assert Keep([(v, a)], [(v, b)]) == [(v, b)];
    assert Dropped([(v, a)], [(v, b)]) == [];
    assert NotKept([(v, b)], [(v, b)]) == [];
    assert ResolveChildren(g, leaves, 2) == Step(Some([(v, b)]), []);
  }

  /** An object of two empty leaf arrays resolves to nothing. */
  lemma PairEmpty(a: string, b: string, x: nat, y: nat, leaves: seq<seq<string>>)
    requires Values(leaves, x) == [] && Values(leaves, y) == []
    ensures Resolve(Group([(a, Slot(x)), (b, Slot(y))]), leaves) == ([], [])
  {
    var g := Group([(a, Slot(x)), (b, Slot(y))]);
    assert ChildValuesMap(g, leaves, 0).0 == [];
    assert ChildValuesMap(g, leaves, 1).0 == [];
    assert ResolveChildren(g, leaves, 1) == Step(Some([]), []);
    assert ResolveChildren(g, leaves, 2) == Step(Some([]), []);
  }

  /**
   * As written: after `rounded-t-2 rounded-r-2` the `rounded` family yields `rounded-r-2`
   * alone, and nothing gives `2` to the top-left corner (slot 16, below `rounded-t`).
   */
  lemma RoundedCornerLost()
    ensures FamilyOutput("rounded", Rounded, TopAndRightLeaves()) == ["rounded-r-2"]
    ensures Below(Rounded, 16) && "2" in Values(TopAndRightLeaves(), 16)
    ensures !Covered(FamilyOutput("rounded", Rounded, TopAndRightLeaves()), Rounded, 16, "2")
    ensures ToTailwindClass("rounded", "2") !in FamilyOutput("rounded", Rounded, TopAndRightLeaves())
  {
    assert ToTailwindClass("rounded", "2") == "rounded-2";
    var g := Rounded;
    RoundedResolve();
    var out := FamilyOutput("rounded", g, TopAndRightLeaves());
    assert out == ["rounded-r-2"];
    assert Below(g.children[0].1, 16) by { assert g.children[0].1.children[0].1 == Slot(16); }
    forall p | PathLabel(g, 16, p)
      ensures ToTailwindClass(p, "2") !in out
    {
      RoundedPathTo16(p);
      assert ToTailwindClass(p, "2") == p + "-2";
      assert (p + "-2")[8] != "rounded-r-2"[8];
    }
  }

  lemma RoundedResolve()
    ensures Resolve(Rounded, TopAndRightLeaves()) == ([], ["rounded-r-2"])
  {
    var leaves := TopAndRightLeaves();
    var g := Rounded;
    RoundedChildren();
    RoundedTopAndRight();
    assert ToTailwindClass("rounded-r", "2") == "rounded-r-2";
    assert Dropped([("2", "rounded-r")], []) == ["rounded-r-2"];
    assert ResolveChildren(g, leaves, 3) == Step(Some([]), ["rounded-r-2"]);
    assert ResolveChildren(g, leaves, 4) == Step(Some([]), ["rounded-r-2"]);
  }

  /** After the top and the right side, `2` is common, keyed to `rounded-r`. */
  lemma RoundedTopAndRight()
    ensures ResolveChildren(Rounded, TopAndRightLeaves(), 2) == Step(Some([("2", "rounded-r")]), [])
  {
    var leaves := TopAndRightLeaves();
    var g := Rounded;
    RoundedChildren();
    assert ResolveChildren(g, leaves, 1) == Step(Some([("2", "rounded-t")]), []);
    assert Get([("2", "rounded-r")], "2") == Some("rounded-r");
    assert Keep([("2", "rounded-t")], [("2", "rounded-r")]) == [("2", "rounded-r")];
    assert Dropped([("2", "rounded-t")], [("2", "rounded-r")]) == [];
    assert NotKept([("2", "rounded-r")], [("2", "rounded-r")]) == [];
  }

  /** What each side of `rounded` contributes after `rounded-t-2 rounded-r-2`. */
  lemma RoundedChildren()
    ensures ChildValuesMap(Rounded, TopAndRightLeaves(), 0) == ([("2", "rounded-t")], [])
    ensures ChildValuesMap(Rounded, TopAndRightLeaves(), 1) == ([("2", "rounded-r")], [])
    ensures ChildValuesMap(Rounded, TopAndRightLeaves(), 2) == ([], [])
    ensures ChildValuesMap(Rounded, TopAndRightLeaves(), 3) == ([], [])
  {
    var leaves := TopAndRightLeaves();
    PairShared("rounded-tl", "rounded-tr", 16, 17, leaves, "2");
    PairShared("rounded-tr", "rounded-br", 18, 19, leaves, "2");
    PairEmpty("rounded-bl", "rounded-br", 20, 21, leaves);
    PairEmpty("rounded-tl", "rounded-bl", 22, 23, leaves);
    assert Relabel([("2", "rounded-tr")], "rounded-t") == [("2", "rounded-t")];
    assert Relabel([("2", "rounded-br")], "rounded-r") == [("2", "rounded-r")];
  }

  /** The keys on the way down to the top-left corner below `rounded-t`. */
  lemma RoundedPathTo16(p: string)
    requires PathLabel(Rounded, 16, p)
    ensures p == "rounded-t" || p == "rounded-tl"
  {
    var i :| 0 <= i < 4 && Below(Rounded.children[i].1, 16)
                 && (p == Rounded.children[i].0 || PathLabel(Rounded.children[i].1, 16, p));
    var c := Rounded.children[i].1;
    var j :| 0 <= j < |c.children| && Below(c.children[j].1, 16);
    assert i == 0 && j == 0;
    if p != Rounded.children[i].0 {
      var k :| 0 <= k < 2 && Below(c.children[k].1, 16) && (p == c.children[k].0 || PathLabel(c.children[k].1, 16, p));
    }
  }

  // ---------------------------------------------------------------------------------------
  // Corrected resolution

  /** `v` rendered under each of `keys`, in order. */
  function RenderEach(keys: seq<string>, v: string): (r: seq<string>)
    ensures |r| == |keys|
    ensures forall i | 0 <= i < |keys| :: r[i] == ToTailwindClass(keys[i], v)
  {
    seq(|keys|, i requires 0 <= i < |keys| => ToTailwindClass(keys[i], v))
  }

  /**
   * Corrected first `forEach` of `intersectCommonValues`: a common value the new map lacks
   * is emitted under the key of every child intersected so far, all of which held it.
   */
  function DroppedUnder(common: Dict<string>, valuesMap: Dict<string>, keys: seq<string>): seq<string> {
    if common == [] then []
    else
      var rest := DroppedUnder(common[1..], valuesMap, keys);
      if Truthy(Get(valuesMap, common[0].0)) then rest
      else RenderEach(keys, common[0].0) + rest
  }

  /** Corrected `intersectCommonValues`, given the keys of the children intersected so far. */
  function FixedIntersect(common: Option<Dict<string>>, valuesMap: Dict<string>, keys: seq<string>): (Dict<string>, seq<string>) {
    match common
    case None => (valuesMap, [])
    case Some(c) =>
      var kept := Keep(c, valuesMap);
      (kept, DroppedUnder(c, valuesMap, keys) + NotKept(valuesMap, kept))
  }

  /** The keys of the first `n` children of `g`. */
  function ChildKeys(g: Shape, n: nat): (r: seq<string>)
    requires g.Group? && n <= |g.children|
    ensures |r| == n && forall j | 0 <= j < n :: r[j] == g.children[j].0
  {
    seq(n, j requires 0 <= j < n => g.children[j].0)
  }

  /** `ChildValuesMap`, with nested objects resolved the corrected way. */
  function FixedChildValuesMap(g: Shape, leaves: seq<seq<string>>, i: nat): (Dict<string>, seq<string>)
    requires g.Group? && i < |g.children|
    decreases g, 0, i, 0
  {
    var key := g.children[i].0;
    var child := g.children[i].1;
    if child.Slot? then (FromValues(Values(leaves, child.id), key), [])
    else
      var inner := FixedResolve(child, leaves);
      (Relabel(inner.0, key), inner.1)
  }

  function FixedResolveChildren(g: Shape, leaves: seq<seq<string>>, n: nat): Step
    requires g.Group? && n <= |g.children|
    decreases g, 0, n, 1
  {
    if n == 0 then Step(None, [])
    else
      var prev := FixedResolveChildren(g, leaves, n - 1);
      var child := FixedChildValuesMap(g, leaves, n - 1);
      var (common, emitted) := FixedIntersect(prev.common, child.0, ChildKeys(g, n - 1));
      Step(Some(common), prev.emitted + child.1 + emitted)
  }

  /** Corrected `recursiveResolveClasses`. */
  function FixedResolve(g: Shape, leaves: seq<seq<string>>): (Dict<string>, seq<string>)
    decreases g, 1, 0, 0
  {
    if g.Slot? then ([], [])
    else
      var s := FixedResolveChildren(g, leaves, |g.children|);
      (s.common.GetOr([]), s.emitted)
  }

  /** Corrected output of one family: its leftovers, then its shorthands. */
  function FixedFamilyOutput(key: string, g: Shape, leaves: seq<seq<string>>): seq<string> {
    var r := FixedResolve(g, leaves);
    r.1 + RenderAll(key, r.0)
  }

  // ---------------------------------------------------------------------------------------
  // No value is lost by the corrected resolution

  /** `p` is the key of child `j` of `g` or a key on the way from that child down to slot `id`. */
  ghost predicate OnWay(g: Shape, j: nat, id: nat, p: string)
    requires g.Group? && j < |g.children|
  {
    p == g.children[j].0 || PathLabel(g.children[j].1, id, p)
  }

  /** `out` gives `v` to slot `id` through child `j` of `g`. */
  ghost predicate CoveredThrough(out: seq<string>, g: Shape, j: nat, id: nat, v: string)
    requires g.Group? && j < |g.children|
  {
    exists p | OnWay(g, j, id, p) :: ToTailwindClass(p, v) in out
  }

  lemma CoveredThroughGrows(a: seq<string>, out: seq<string>, g: Shape, j: nat, id: nat, v: string)
    requires g.Group? && j < |g.children|
    requires CoveredThrough(a, g, j, id, v)
    requires forall x | x in a :: x in out
    ensures CoveredThrough(out, g, j, id, v)
  {
    var p :| OnWay(g, j, id, p) && ToTailwindClass(p, v) in a;
    assert ToTailwindClass(p, v) in out;
  }

  /** A dropped common value is emitted under every key it is dropped for. */
  lemma {:induction false} DroppedUnderHas(c: Dict<string>, m: Dict<string>, keys: seq<string>, v: string, i: nat)
    requires v in Keys(c) && !Truthy(Get(m, v)) && i < |keys|
    ensures ToTailwindClass(keys[i], v) in DroppedUnder(c, m, keys)
  {
    if c[0].0 == v {
      assert RenderEach(keys, v)[i] == ToTailwindClass(keys[i], v);
    } else {
      DroppedUnderHas(c[1..], m, keys, v, i);
    }
  }

  /** A value of the new map that the common map no longer has is emitted under the new map's key. */
  lemma {:induction false} NotKeptHas(m: Dict<string>, kept: Dict<string>, v: string, p: string)
    requires v in Keys(m) && v !in Keys(kept)
    requires forall k | 0 <= k < |m| :: m[k].1 == p
    ensures ToTailwindClass(p, v) in NotKept(m, kept)
  {
    if m[0].0 != v {
      NotKeptHas(m[1..], kept, v, p);
    }
  }

  lemma FixedChildValuesUniform(g: Shape, leaves: seq<seq<string>>, i: nat)
    requires g.Group? && i < |g.children|
    ensures forall k | 0 <= k < |FixedChildValuesMap(g, leaves, i).0| :: FixedChildValuesMap(g, leaves, i).0[k].1 == g.children[i].0
  {
  }

  lemma FixedResolveChildrenSome(g: Shape, leaves: seq<seq<string>>, n: nat)
    requires g.Group? && 1 <= n <= |g.children|
    ensures FixedResolveChildren(g, leaves, n).common.Some?
  {
  }

  /**
   * Corrected resolution keeps every value: a value held by a leaf array below `g` either
   * reaches the common map of `g` or is emitted under a key on the way down to that array.
   */
  lemma {:induction false} FixedCoverage(g: Shape, leaves: seq<seq<string>>, id: nat, v: string)
    requires g.Group? && Below(g, id) && v in Values(leaves, id)
    ensures v in Keys(FixedResolve(g, leaves).0) || Covered(FixedResolve(g, leaves).1, g, id, v)
    decreases g, 1, 0, 0
  {
    var j :| 0 <= j < |g.children| && Below(g.children[j].1, id);
    FixedChildrenCoverage(g, leaves, |g.children|, j, id, v);
    var out := FixedResolve(g, leaves).1;
    if CoveredThrough(out, g, j, id, v) {
      var p :| OnWay(g, j, id, p) && ToTailwindClass(p, v) in out;
      assert PathLabel(g, id, p);
    }
  }

  lemma {:induction false} FixedChildrenCoverage(g: Shape, leaves: seq<seq<string>>, n: nat, j: nat, id: nat, v: string)
    requires g.Group? && j < n <= |g.children| && Below(g.children[j].1, id) && v in Values(leaves, id)
    ensures FixedResolveChildren(g, leaves, n).common.Some?
    ensures v in Keys(FixedResolveChildren(g, leaves, n).common.value)
            || CoveredThrough(FixedResolveChildren(g, leaves, n).emitted, g, j, id, v)
    decreases g, 0, n, 1
  {
    if j == n - 1 {
      FixedChildCoverage(g, leaves, j, id, v);
      LastChildCovered(g, leaves, n, id, v);
    } else {
      FixedChildrenCoverage(g, leaves, n - 1, j, id, v);
      EarlierChildCovered(g, leaves, n, j, id, v);
    }
  }

  /** The child just intersected: its own coverage carries over, or the intersection emits the value. */
  lemma LastChildCovered(g: Shape, leaves: seq<seq<string>>, n: nat, id: nat, v: string)
    requires g.Group? && 1 <= n <= |g.children| && Below(g.children[n - 1].1, id) && v in Values(leaves, id)
    requires var child := FixedChildValuesMap(g, leaves, n - 1);
             v in Keys(child.0) || CoveredThrough(child.1, g, n - 1, id, v)
    ensures FixedResolveChildren(g, leaves, n).common.Some?
    ensures v in Keys(FixedResolveChildren(g, leaves, n).common.value)
            || CoveredThrough(FixedResolveChildren(g, leaves, n).emitted, g, n - 1, id, v)
  {
    var j := n - 1;
    var prev := FixedResolveChildren(g, leaves, n - 1);
    var child := FixedChildValuesMap(g, leaves, n - 1);
    var m := child.0;
    var step := FixedIntersect(prev.common, m, ChildKeys(g, n - 1));
    var out := FixedResolveChildren(g, leaves, n).emitted;
    assert FixedResolveChildren(g, leaves, n) == Step(Some(step.0), prev.emitted + child.1 + step.1);
    if CoveredThrough(child.1, g, j, id, v) {
      CoveredThroughGrows(child.1, out, g, j, id, v);
    } else if n > 1 {
      FixedResolveChildrenSome(g, leaves, n - 1);
      var c := prev.common.value;
      if v !in Keys(Keep(c, m)) {
        FixedChildValuesUniform(g, leaves, j);
        NotKeptHas(m, Keep(c, m), v, g.children[j].0);
        assert OnWay(g, j, id, g.children[j].0);
        assert ToTailwindClass(g.children[j].0, v) in out;
      }
    }
  }

  /** An earlier child: what covered it still does, or the intersection drops and emits the value. */
  lemma EarlierChildCovered(g: Shape, leaves: seq<seq<string>>, n: nat, j: nat, id: nat, v: string)
    requires g.Group? && j < n - 1 && n <= |g.children| && Below(g.children[j].1, id) && v in Values(leaves, id)
    requires FixedResolveChildren(g, leaves, n - 1).common.Some?
    requires v in Keys(FixedResolveChildren(g, leaves, n - 1).common.value)
             || CoveredThrough(FixedResolveChildren(g, leaves, n - 1).emitted, g, j, id, v)
    ensures FixedResolveChildren(g, leaves, n).common.Some?
    ensures v in Keys(FixedResolveChildren(g, leaves, n).common.value)
            || CoveredThrough(FixedResolveChildren(g, leaves, n).emitted, g, j, id, v)
  {
    var prev := FixedResolveChildren(g, leaves, n - 1);
    var child := FixedChildValuesMap(g, leaves, n - 1);
    var m := child.0;
    var step := FixedIntersect(prev.common, m, ChildKeys(g, n - 1));
    var out := FixedResolveChildren(g, leaves, n).emitted;
    assert FixedResolveChildren(g, leaves, n) == Step(Some(step.0), prev.emitted + child.1 + step.1);
    if CoveredThrough(prev.emitted, g, j, id, v) {
      CoveredThroughGrows(prev.emitted, out, g, j, id, v);
    } else {
      var c := prev.common.value;
      if v !in Keys(Keep(c, m)) {
        KeepKeys(c, m, v);
        DroppedUnderHas(c, m, ChildKeys(g, n - 1), v, j);
        assert OnWay(g, j, id, g.children[j].0);
        assert ToTailwindClass(g.children[j].0, v) in out;
      }
    }
  }

  lemma {:induction false} FixedChildCoverage(g: Shape, leaves: seq<seq<string>>, j: nat, id: nat, v: string)
    requires g.Group? && j < |g.children| && Below(g.children[j].1, id) && v in Values(leaves, id)
    ensures v in Keys(FixedChildValuesMap(g, leaves, j).0) || CoveredThrough(FixedChildValuesMap(g, leaves, j).1, g, j, id, v)
    decreases g, 0, j, 0
  {
    var child := g.children[j].1;
    if child.Group? {
      FixedCoverage(child, leaves, id, v);
      var inner := FixedResolve(child, leaves);
      if v !in Keys(inner.0) {
        var p :| PathLabel(child, id, p) && ToTailwindClass(p, v) in inner.1;
        assert OnWay(g, j, id, p);
      }
    }
  }

  /**
   * The corrected `rounded`-style resolution: every value held by a leaf array of a family
   * reaches the output under the family key or under a key on the way down to that array.
   */
  lemma FixedFamilyCoverage(key: string, g: Shape, leaves: seq<seq<string>>, id: nat, v: string)
    requires g.Group? && Below(g, id) && v in Values(leaves, id)
    ensures ToTailwindClass(key, v) in FixedFamilyOutput(key, g, leaves)
            || Covered(FixedFamilyOutput(key, g, leaves), g, id, v)
  {
    FixedCoverage(g, leaves, id, v);
    var r := FixedResolve(g, leaves);
    var out := FixedFamilyOutput(key, g, leaves);
    if v in Keys(r.0) {
      var k :| 0 <= k < |r.0| && r.0[k].0 == v;
      assert RenderAll(key, r.0)[k] == ToTailwindClass(key, v);
      assert ToTailwindClass(key, v) in out;
    } else {
      var p :| PathLabel(g, id, p) && ToTailwindClass(p, v) in r.1;
      assert ToTailwindClass(p, v) in out;
    }
  }

  // ---------------------------------------------------------------------------------------
  // The correction changes nothing where no object has more than two keys

  predicate AtMostTwoKeys(g: Shape)
    decreases g
  {
    g.Group? ==> |g.children| <= 2 && forall i | 0 <= i < |g.children| :: AtMostTwoKeys(g.children[i].1)
  }

  /** With one earlier child, whose key every common value carries, both first `forEach`s emit the same. */
  lemma {:induction false} DroppedUnderSingle(c: Dict<string>, m: Dict<string>, k: string)
    requires forall i | 0 <= i < |c| :: c[i].1 == k
    ensures DroppedUnder(c, m, [k]) == Dropped(c, m)
  {
    if c != [] {
      DroppedUnderSingle(c[1..], m, k);
      assert RenderEach([k], c[0].0) == [ToTailwindClass(c[0].1, c[0].0)];
    }
  }

  /**
   * On a tree whose objects have at most two keys the corrected resolution is the one
   * the code computes: of the eight families, only `rounded` (four keys) is affected.
   */
  lemma {:induction false} FixedAgrees(g: Shape, leaves: seq<seq<string>>)
    requires AtMostTwoKeys(g)
    ensures FixedResolve(g, leaves) == Resolve(g, leaves)
    decreases g, 1, 0, 0
  {
    if g.Group? {
      FixedChildrenAgree(g, leaves, |g.children|);
    }
  }

  lemma {:induction false} FixedChildrenAgree(g: Shape, leaves: seq<seq<string>>, n: nat)
    requires g.Group? && AtMostTwoKeys(g) && n <= |g.children|
    ensures FixedResolveChildren(g, leaves, n) == ResolveChildren(g, leaves, n)
    decreases g, 0, n, 1
  {
    if n > 0 {
      FixedChildrenAgree(g, leaves, n - 1);
      FixedChildAgrees(g, leaves, n - 1);
      if n == 2 {
        var m0 := ChildValuesMap(g, leaves, 0).0;
        ChildMapUniform(g, leaves, 0);
        assert ResolveChildren(g, leaves, 1).common == Some(m0);
        assert ChildKeys(g, 1) == [g.children[0].0];
        DroppedUnderSingle(m0, ChildValuesMap(g, leaves, 1).0, g.children[0].0);
      }
    }
  }

  lemma {:induction false} FixedChildAgrees(g: Shape, leaves: seq<seq<string>>, i: nat)
    requires g.Group? && AtMostTwoKeys(g) && i < |g.children|
    ensures FixedChildValuesMap(g, leaves, i) == ChildValuesMap(g, leaves, i)
    decreases g, 0, i, 0
  {
    if g.children[i].1.Group? {
      FixedAgrees(g.children[i].1, leaves);
    }
  }

  lemma ChildMapUniform(g: Shape, leaves: seq<seq<string>>, i: nat)
    requires g.Group? && i < |g.children|
    ensures forall k | 0 <= k < |ChildValuesMap(g, leaves, i).0| :: ChildValuesMap(g, leaves, i).0[k].1 == g.children[i].0
  {
  }

  // ---------------------------------------------------------------------------------------
  // The lost corner through the whole reducer

  /** The shape of the reducer's tree, family by family. */
  lemma FamiliesLayout()
    ensures |Families| == 8
    ensures Families[0] == ("m", Quad("mx", "ml", "mr", "my", "mt", "mb", 0))
    ensures Families[1] == ("p", Quad("px", "pl", "pr", "py", "pt", "pb", 4))
    ensures Families[2] == ("scroll-m", Quad("scroll-mx", "scroll-ml", "scroll-mr", "scroll-my", "scroll-mt", "scroll-mb", 8))
    ensures Families[3] == ("scroll-p", Quad("scroll-px", "scroll-pl", "scroll-pr", "scroll-py", "scroll-pt", "scroll-pb", 12))
    ensures Families[4] == ("rounded", Rounded)
    ensures Families[5] == ("border", Quad("border-x", "border-l", "border-r", "border-y", "border-t", "border-b", 24))
    ensures Families[6] == ("scale", Group([("scale-x", Slot(28)), ("scale-y", Slot(29))]))
    ensures Families[7] == ("inset", Quad("inset-x", "left", "right", "inset-y", "top", "bottom", 30))
  {
  }

  /** A key that is none of a two-level family's keys is not found in it. */
  lemma QuadMiss(key: string, xKey: string, lKey: string, rKey: string, yKey: string, tKey: string, bKey: string, base: nat)
    requires key !in {xKey, lKey, rKey, yKey, tKey, bKey}
    ensures SetTargets(key, Quad(xKey, lKey, rKey, yKey, tKey, bKey, base), 0) == None
  {
    var g := Quad(xKey, lKey, rKey, yKey, tKey, bKey, base);
    PairMiss(key, lKey, rKey, base, base + 1);
    PairMiss(key, tKey, bKey, base + 2, base + 3);
    assert SetTargets(key, g, 2) == None;
  }

  lemma PairMiss(key: string, a: string, b: string, x: nat, y: nat)
    requires key != a && key != b
    ensures SetTargets(key, Group([(a, Slot(x)), (b, Slot(y))]), 0) == None
  {
    var g := Group([(a, Slot(x)), (b, Slot(y))]);
    assert SetTargets(key, g, 2) == None;
    assert SetTargets(key, g, 1) == None;
  }

  /** `rounded-t` is not found in the first four families, so the search reaches `rounded`. */
  lemma SearchReachesRounded(key: string)
    requires key in {"rounded-t", "rounded-r"}
    ensures SetTargets(key, Group(Families), 0) == SetTargets(key, Group(Families), 4)
  {
    FamiliesLayout();
    var g := Group(Families);
    QuadMiss(key, "mx", "ml", "mr", "my", "mt", "mb", 0);
    QuadMiss(key, "px", "pl", "pr", "py", "pt", "pb", 4);
    QuadMiss(key, "scroll-mx", "scroll-ml", "scroll-mr", "scroll-my", "scroll-mt", "scroll-mb", 8);
    QuadMiss(key, "scroll-px", "scroll-pl", "scroll-pr", "scroll-py", "scroll-pt", "scroll-pb", 12);
    assert SetTargets(key, g, 3) == SetTargets(key, g, 4);
    assert SetTargets(key, g, 2) == SetTargets(key, g, 3);
    assert SetTargets(key, g, 1) == SetTargets(key, g, 2);
    assert SetTargets(key, g, 0) == SetTargets(key, g, 1);
  }

  /** `rounded-t-…` fills the two top corners and `rounded-r-…` the two right ones. */
  lemma RoutesOfTopAndRight()
    ensures SetTargets("rounded-t", Group(Families), 0) == Some([16, 17])
    ensures SetTargets("rounded-r", Group(Families), 0) == Some([18, 19])
  {
    RouteOfTop();
    RouteOfRight();
  }

  lemma RouteOfTop()
    ensures SetTargets("rounded-t", Group(Families), 0) == Some([16, 17])
  {
    FamiliesLayout();
    SearchReachesRounded("rounded-t");
    RoundedTop();
    assert SetTargets("rounded-t", Group(Families), 4) == Some([16, 17]);
  }

  lemma RouteOfRight()
    ensures SetTargets("rounded-r", Group(Families), 0) == Some([18, 19])
  {
    FamiliesLayout();
    SearchReachesRounded("rounded-r");
    RoundedRight();
    assert SetTargets("rounded-r", Group(Families), 4) == Some([18, 19]);
  }

  lemma RoundedTop()
    ensures SetTargets("rounded-t", Rounded, 0) == Some([16, 17])
  {
    var top := Group([("rounded-tl", Slot(16)), ("rounded-tr", Slot(17))]);
    assert AllKeysTargets(top, 2) == [16, 17] by {
      assert SetTargets("rounded-tr", top, 0) == SetTargets("rounded-tr", top, 1);
    }
  }

  lemma RoundedRight()
    ensures SetTargets("rounded-r", Rounded, 0) == Some([18, 19])
  {
    var right := Group([("rounded-tr", Slot(18)), ("rounded-br", Slot(19))]);
    assert AllKeysTargets(right, 2) == [18, 19] by {
      assert SetTargets("rounded-br", right, 0) == SetTargets("rounded-br", right, 1);
    }
    PairMiss("rounded-r", "rounded-tl", "rounded-tr", 16, 17);
    assert SetTargets("rounded-r", Rounded, 0) == SetTargets("rounded-r", Rounded, 1);
  }

  /** Appending `rounded-t-2` and `rounded-r-2` passes nothing through and fills the top and right corners. */
  lemma AppendTopAndRight()
    ensures AppendAll(Families, InitialReduction(), ["rounded-t-2", "rounded-r-2"])
            == Reduction([], TopAndRightLeaves())
  {
    RoutesOfTopAndRight();
    AppendTopAndRightIn(Families);
  }

  lemma AppendTopAndRightIn(fams: seq<(string, Shape)>)
    requires SetTargets("rounded-t", Group(fams), 0) == Some([16, 17])
    requires SetTargets("rounded-r", Group(fams), 0) == Some([18, 19])
    ensures AppendAll(fams, InitialReduction(), ["rounded-t-2", "rounded-r-2"])
            == Reduction([], TopAndRightLeaves())
  {
    var s0 := InitialReduction();
    var l1 := PushAt(PushAt(s0.leaves, 16, "2"), 17, "2");
    var l2 := PushAt(PushAt(l1, 18, "2"), 19, "2");
    TopAndRightPushes(s0.leaves, l1, l2);
    var cs := ["rounded-t-2", "rounded-r-2"];
    assert cs[..1] == ["rounded-t-2"] && cs[..1][..0] == [];
    AppendRouted(fams, "rounded-t", "rounded-t-2", s0, [16, 17], l1);
    AppendRouted(fams, "rounded-r", "rounded-r-2", Reduction([], l1), [18, 19], l2);
    assert AppendAll(fams, s0, cs[..1]) == Append(fams, AppendAll(fams, s0, []), "rounded-t-2");
    assert AppendAll(fams, s0, cs) == Append(fams, AppendAll(fams, s0, cs[..1]), "rounded-r-2");
  }

  lemma TopAndRightPushes(l0: seq<seq<string>>, l1: seq<seq<string>>, l2: seq<seq<string>>)
    requires l0 == InitialReduction().leaves
    requires l1 == PushAt(PushAt(l0, 16, "2"), 17, "2")
    requires l2 == PushAt(PushAt(l1, 18, "2"), 19, "2")
    ensures l2 == TopAndRightLeaves()
  {
    assert l0[16] == [] && l0[17] == [] && l0[18] == [] && l0[19] == [];
    forall id | 0 <= id < SlotCount
      ensures l2[id] == TopAndRightLeaves()[id]
    {
    }
  }

  /** Appending `<key>-2` for a key routed to two slots pushes `2` into both. */
  lemma AppendRouted(fams: seq<(string, Shape)>, key: string, className: string, s: Reduction, ids: seq<nat>, after: seq<seq<string>>)
    requires key != "" && key[0] != '-' && className == key + "-2"
    requires |ids| == 2 && SetTargets(key, Group(fams), 0) == Some(ids)
    requires after == PushAt(PushAt(s.leaves, ids[0], "2"), ids[1], "2")
    ensures Append(fams, s, className) == s.(leaves := after)
  {
    ParseRendered(key, "2");
    assert ToTailwindClass(key, "2") == key + "-2";
    var p := ParseTailwindClass(key + "-2");
    assert p == ParsedClass(Some("2"), key);
    assert ids[..1] == [ids[0]] && [ids[0]][..0] == [];
    assert PushAll(s.leaves, [ids[0]], "2") == PushAt(s.leaves, ids[0], "2");
    assert PushAll(s.leaves, ids, "2") == after;
    assert Append(fams, s, key + "-2") == s.(leaves := PushAll(s.leaves, ids, "2"));
  }

  /** A two-level family whose four leaf arrays are empty contributes nothing. */
  lemma QuadEmpty(xKey: string, lKey: string, rKey: string, yKey: string, tKey: string, bKey: string, base: nat, leaves: seq<seq<string>>)
    requires forall id | base <= id < base + 4 :: Values(leaves, id) == []
    ensures Resolve(Quad(xKey, lKey, rKey, yKey, tKey, bKey, base), leaves) == ([], [])
  {
    var g := Quad(xKey, lKey, rKey, yKey, tKey, bKey, base);
    PairEmpty(lKey, rKey, base, base + 1, leaves);
    PairEmpty(tKey, bKey, base + 2, base + 3, leaves);
    assert ChildValuesMap(g, leaves, 0) == ([], []);
    assert ChildValuesMap(g, leaves, 1) == ([], []);
    assert ResolveChildren(g, leaves, 1) == Step(Some([]), []);
    assert ResolveChildren(g, leaves, 2) == Step(Some([]), []);
  }

  /** Only `rounded` has anything to emit once the top and right corners hold `2`. */
  lemma OutputOfTopAndRight()
    ensures FamiliesOutput(Families, TopAndRightLeaves(), 8) == ["rounded-r-2"]
  {
    AllFamilyOutputsOfTopAndRight();
    OutputsIn(Families, TopAndRightLeaves());
  }

  lemma OutputsIn(fams: seq<(string, Shape)>, l: seq<seq<string>>)
    requires |fams| == 8
    requires forall i | 0 <= i < 8 :: FamilyOutput(fams[i].0, fams[i].1, l) == if i == 4 then ["rounded-r-2"] else []
    ensures FamiliesOutput(fams, l, 8) == ["rounded-r-2"]
  {
    assert FamiliesOutput(fams, l, 1) == [];
    assert FamiliesOutput(fams, l, 2) == [];
    assert FamiliesOutput(fams, l, 3) == [];
    assert FamiliesOutput(fams, l, 4) == [];
    assert FamiliesOutput(fams, l, 5) == ["rounded-r-2"];
    assert FamiliesOutput(fams, l, 6) == ["rounded-r-2"];
    assert FamiliesOutput(fams, l, 7) == ["rounded-r-2"];
  }

  lemma AllFamilyOutputsOfTopAndRight()
    ensures |Families| == 8
    ensures forall i | 0 <= i < 8 :: FamilyOutput(Families[i].0, Families[i].1, TopAndRightLeaves()) == if i == 4 then ["rounded-r-2"] else []
  {
    FamiliesLayout();
    forall i | 0 <= i < 8
      ensures FamilyOutput(Families[i].0, Families[i].1, TopAndRightLeaves()) == if i == 4 then ["rounded-r-2"] else []
    {
      FamilyOutputOfTopAndRight(i);
    }
  }

  lemma FamilyOutputOfTopAndRight(i: nat)
    requires i < 8
    ensures FamilyOutput(Families[i].0, Families[i].1, TopAndRightLeaves()) == if i == 4 then ["rounded-r-2"] else []
  {
    var l := TopAndRightLeaves();
    FamiliesLayout();
    if i == 0 {
      QuadEmpty("mx", "ml", "mr", "my", "mt", "mb", 0, l);
    } else if i == 1 {
      QuadEmpty("px", "pl", "pr", "py", "pt", "pb", 4, l);
    } else if i == 2 {
      QuadEmpty("scroll-mx", "scroll-ml", "scroll-mr", "scroll-my", "scroll-mt", "scroll-mb", 8, l);
    } else if i == 3 {
      QuadEmpty("scroll-px", "scroll-pl", "scroll-pr", "scroll-py", "scroll-pt", "scroll-pb", 12, l);
    } else if i == 4 {
      RoundedCornerLost();
    } else if i == 5 {
      QuadEmpty("border-x", "border-l", "border-r", "border-y", "border-t", "border-b", 24, l);
    } else if i == 6 {
      PairEmpty("scale-x", "scale-y", 28, 29, l);
    } else {
      QuadEmpty("inset-x", "left", "right", "inset-y", "top", "bottom", 30, l);
    }
  }

  /**
   * As written, through the whole reducer: `rounded-t-2 rounded-r-2` (the top-left, top-right
   * and bottom-right corners) reduces to `rounded-r-2`, which rounds the right corners only.
   */
  lemma TopLeftCornerLost()
    ensures Reduced(["rounded-t-2", "rounded-r-2"]) == ["rounded-r-2"]
  {
    AppendTopAndRight();
    OutputOfTopAndRight();
    FamiliesLayout();
  }
}
