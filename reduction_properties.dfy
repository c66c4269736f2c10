/**
 * What the shorthand reducer computes, stated against independent definitions: a value
 * climbs to a family key exactly when every leaf array below it holds that value.
 */
module TailwindClassesReductionProperties {
  import opened Wrappers
  import opened JsStrings
  import opened OrderedMap
  import opened TailwindClassesReduction

  /** Every object of the tree has at least one key, and no key is the empty string. */
  predicate WellShaped(g: Shape)
    decreases g
  {
    g.Group? ==>
      |g.children| > 0
      && forall i | 0 <= i < |g.children| :: g.children[i].0 != "" && WellShaped(g.children[i].1)
  }

  /** `v` sits in every leaf array below `g`. */
  predicate InAllSlots(g: Shape, leaves: seq<seq<string>>, v: string)
    decreases g
  {
    if g.Slot? then v in Values(leaves, g.id)
    else forall i | 0 <= i < |g.children| :: InAllSlots(g.children[i].1, leaves, v)
  }

  /** In a map whose every entry carries `p`, a value that is present carries `p`. */
  lemma {:induction false} GetUniform(d: Dict<string>, v: string, p: string)
    requires forall i | 0 <= i < |d| :: d[i].1 == p
    ensures Get(d, v).Some? ==> Get(d, v).value == p
  {
    if d != [] && d[0].0 != v {
      GetUniform(d[1..], v, p);
    }
  }

  /**
   * A value reaches the common map of an object exactly when every leaf array below that
   * object holds it: the shorthand is produced for precisely the values all sides share.
   */
  lemma {:induction false} CollapseIff(g: Shape, leaves: seq<seq<string>>, v: string)
    requires g.Group? && WellShaped(g)
    ensures v in Keys(Resolve(g, leaves).0) <==> InAllSlots(g, leaves, v)
    decreases g, 1, 0, 0
  {
    ChildrenCollapse(g, leaves, |g.children|, v);
  }

  lemma {:induction false} ChildrenCollapse(g: Shape, leaves: seq<seq<string>>, n: nat, v: string)
    requires g.Group? && WellShaped(g) && 1 <= n <= |g.children|
    ensures ResolveChildren(g, leaves, n).common.Some?
    ensures v in Keys(ResolveChildren(g, leaves, n).common.value)
            <==> forall j | 0 <= j < n :: InAllSlots(g.children[j].1, leaves, v)
    decreases g, 0, n, 1
  {
    var m := ChildValuesMap(g, leaves, n - 1).0;
    var prev := ResolveChildren(g, leaves, n - 1);
    assert ResolveChildren(g, leaves, n).common == Some(Intersect(prev.common, m).0);
    ChildMapCollapse(g, leaves, n - 1, v);
    if n > 1 {
      ChildrenCollapse(g, leaves, n - 1, v);
      KeepUniform(prev.common.value, m, v, g.children[n - 1].0);
      SlotsUpTo(g, leaves, n, v);
    }
  }

  /** A value survives an intersection with a map of one non-empty prefix exactly when both have it. */
  lemma KeepUniform(c: Dict<string>, m: Dict<string>, v: string, p: string)
    requires p != "" && forall k | 0 <= k < |m| :: m[k].1 == p
    ensures v in Keys(Keep(c, m)) <==> v in Keys(c) && v in Keys(m)
  {
    KeepKeys(c, m, v);
    GetUniform(m, v, p);
  }

  /** Every one of the first `n` children, as the first `n - 1` and child `n - 1`. */
  lemma SlotsUpTo(g: Shape, leaves: seq<seq<string>>, n: nat, v: string)
    requires g.Group? && 1 <= n <= |g.children|
    ensures (forall j | 0 <= j < n :: InAllSlots(g.children[j].1, leaves, v))
            <==> (forall j | 0 <= j < n - 1 :: InAllSlots(g.children[j].1, leaves, v))
                 && InAllSlots(g.children[n - 1].1, leaves, v)
  {
  }

  lemma {:induction false} ChildMapCollapse(g: Shape, leaves: seq<seq<string>>, i: nat, v: string)
    requires g.Group? && WellShaped(g) && i < |g.children|
    ensures v in Keys(ChildValuesMap(g, leaves, i).0) <==> InAllSlots(g.children[i].1, leaves, v)
    ensures forall k | 0 <= k < |ChildValuesMap(g, leaves, i).0| :: ChildValuesMap(g, leaves, i).0[k].1 == g.children[i].0
    decreases g, 0, i, 0
  {
    var child := g.children[i].1;
    if child.Group? {
      CollapseIff(child, leaves, v);
    }
  }

  /**
   * A class is routed into the tree exactly when it has a non-empty value and its prefix is
   * a key somewhere in the tree; every other class (no `-`, a trailing `-`, an unknown
   * prefix such as `md` or `hover:ml`) is passed through.
   */
  lemma RoutedIff(families: seq<(string, Shape)>, className: string)
    ensures var p := ParseTailwindClass(className);
            Routed(families, className)
            <==> p.value.Some? && p.value.value != "" && p.classPrefix in LabelsFrom(Group(families), 0)
  {
    SetTargetsFindsIff(ParseTailwindClass(className).classPrefix, Group(families), 0);
  }

  /** A class without any `-` has no value and is never routed. */
  lemma NoDashNotRouted(families: seq<(string, Shape)>, className: string)
    requires '-' !in className
    ensures !Routed(families, className)
  {
    assert !LeadingDash(className);
    assert LastIndexOf(className, '-') == -1;
  }

  /**
   * The output of the reducer: the classes outside the families, unchanged and in their
   * original order, then each family's output in the order of the tree.
   */
  lemma ReducedSplit(families: seq<(string, Shape)>, classNames: seq<string>)
    ensures ReducedWith(families, classNames)
            == Unrouted(families, classNames)
               + FamiliesOutput(families, AppendAll(families, InitialReduction(), classNames).leaves, |families|)
  {
    var s := AppendAll(families, InitialReduction(), classNames);
    PassThroughInOrder(families, InitialReduction(), classNames);
    assert InitialReduction().resolved == [];
    assert s.resolved == Unrouted(families, classNames);
    assert ReducedWith(families, classNames) == s.resolved + FamiliesOutput(families, s.leaves, |families|);
  }

  /**
   * Resolution never repeats a value: however often a value was pushed into the leaf
   * arrays, the common map holds it at most once, so its shorthand is emitted once.
   */
  lemma {:induction false} ResolveWf(g: Shape, leaves: seq<seq<string>>)
    ensures Wf(Resolve(g, leaves).0)
    decreases g, 1, 0, 0
  {
    if g.Group? {
      ResolveChildrenWf(g, leaves, |g.children|);
    }
  }

  lemma {:induction false} ResolveChildrenWf(g: Shape, leaves: seq<seq<string>>, n: nat)
    requires g.Group? && n <= |g.children|
    ensures ResolveChildren(g, leaves, n).common.Some? ==> Wf(ResolveChildren(g, leaves, n).common.value)
    decreases g, 0, n, 1
  {
    if n > 0 {
      var prev := ResolveChildren(g, leaves, n - 1).common;
      var m := ChildValuesMap(g, leaves, n - 1).0;
      ResolveChildrenWf(g, leaves, n - 1);
      ChildValuesMapWf(g, leaves, n - 1);
      IntersectWf(prev, m);
      ResolveChildrenStep(g, leaves, n, Intersect(prev, m).0);
    }
  }

  lemma ResolveChildrenStep(g: Shape, leaves: seq<seq<string>>, n: nat, next: Dict<string>)
    requires g.Group? && 0 < n <= |g.children|
    requires next == Intersect(ResolveChildren(g, leaves, n - 1).common, ChildValuesMap(g, leaves, n - 1).0).0
    ensures ResolveChildren(g, leaves, n).common == Some(next)
  {
  }

  lemma {:induction false} ChildValuesMapWf(g: Shape, leaves: seq<seq<string>>, i: nat)
    requires g.Group? && i < |g.children|
    ensures Wf(ChildValuesMap(g, leaves, i).0)
    decreases g, 0, i, 0
  {
    var child := g.children[i].1;
    if child.Group? {
      ResolveWf(child, leaves);
      RelabelWf(Resolve(child, leaves).0, g.children[i].0);
    }
  }

  /**
   * A value given on the key of a two-level family (`m-3`) is pushed into all four leaf
   * arrays, and one given on an intermediate key (`mx-3`) into the two below it.
   */
  lemma QuadDistributes(xKey: string, lKey: string, rKey: string, yKey: string, tKey: string, bKey: string, base: nat)
    requires lKey != rKey && tKey != bKey && xKey != yKey && yKey != lKey && yKey != rKey
    ensures var q := Quad(xKey, lKey, rKey, yKey, tKey, bKey, base);
            AllKeysTargets(q, 2) == [base, base + 1, base + 2, base + 3]
            && SetTargets(xKey, q, 0) == Some([base, base + 1])
            && SetTargets(yKey, q, 0) == Some([base + 2, base + 3])
  {
    var q := Quad(xKey, lKey, rKey, yKey, tKey, bKey, base);
    var x := q.children[0].1;
    var y := q.children[1].1;
    assert SetTargets(lKey, x, 0) == Some([base]);
    assert SetTargets(rKey, x, 0) == SetTargets(rKey, x, 1) == Some([base + 1]);
    assert AllKeysTargets(x, 1) == [base];
    assert AllKeysTargets(x, 2) == [base, base + 1];
    assert SetTargets(tKey, y, 0) == Some([base + 2]);
    assert SetTargets(bKey, y, 0) == SetTargets(bKey, y, 1) == Some([base + 3]);
    assert AllKeysTargets(y, 1) == [base + 2];
    assert AllKeysTargets(y, 2) == [base + 2, base + 3];
    assert AllKeysTargets(q, 1) == [base, base + 1];
    assert SetTargets(yKey, x, 0) == None by {
      assert SetTargets(yKey, x, 2) == None;
      assert SetTargets(yKey, x, 1) == None;
    }
    assert SetTargets(yKey, q, 0) == SetTargets(yKey, q, 1);
  }
}
