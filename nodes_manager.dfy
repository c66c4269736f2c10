/**
 * The node registry: an ordered list of nodes, one per selector, and a selector-to-index
 * map. Merging a node normalises its selector first, then either unions its classes into
 * the node already registered for that selector or appends a new node.
 */
module NodesManager {
  import opened Wrappers
  import opened Selectors

  /** A declaration carried along untouched (postcss `Declaration`, by property and value). */
  datatype Declaration = Declaration(prop: string, value: string)

  datatype TailwindNode = TailwindNode(selector: string, tailwindClasses: seq<string>, skippedDeclarations: seq<Declaration>)

  /** A node as callers hand it in: its lists may be missing. */
  datatype MergeableNode = MergeableNode(selector: string, tailwindClasses: Option<seq<string>>,
                                         skippedDeclarations: Option<seq<Declaration>>)

  predicate NoDuplicates(s: seq<string>) {
    forall i, j | 0 <= i < j < |s| :: s[i] != s[j]
  }

  /** `[...new Set(s)]`: the first occurrence of each element, in order. */
  function Dedup(s: seq<string>): (r: seq<string>)
    ensures NoDuplicates(r)
    ensures forall x :: x in r <==> x in s
    ensures |r| <= |s|
  {
    if s == [] then []
    else
      var d := Dedup(s[..|s| - 1]);
      var last := s[|s| - 1];
      assert forall x :: x in s <==> x in s[..|s| - 1] || x == last;
      if last in d then d else d + [last]
  }

  /** A list without repeats is its own set. */
  lemma {:induction false} DedupDistinct(s: seq<string>)
    requires NoDuplicates(s)
    ensures Dedup(s) == s
  {
    if s != [] {
      var init := s[..|s| - 1];
      DedupDistinct(init);
      assert s[|s| - 1] !in init;
      assert init + [s[|s| - 1]] == s;
    }
  }

  /** Appending never reorders or drops what the set of the first part already holds. */
  lemma {:induction false} DedupPrefix(a: seq<string>, b: seq<string>)
    ensures |Dedup(a)| <= |Dedup(a + b)| && Dedup(a + b)[..|Dedup(a)|] == Dedup(a)
    decreases |b|
  {
    if b == [] {
      assert a + b == a;
    } else {
      var b0 := b[..|b| - 1];
      DedupPrefix(a, b0);
      assert (a + b)[..|a + b| - 1] == a + b0;
      var d := Dedup(a + b0);
      assert Dedup(a + b) == d || Dedup(a + b) == d + [b[|b| - 1]];
    }
  }

  /** The union of a node's classes with merged-in classes: old classes first, then the unseen ones. */
  lemma MergedClasses(old_: seq<string>, incoming: seq<string>)
    requires NoDuplicates(old_)
    ensures var r := Dedup(old_ + incoming);
            |old_| <= |r| && r[..|old_|] == old_ && NoDuplicates(r)
            && forall x :: x in r <==> x in old_ || x in incoming
  {
    DedupPrefix(old_, incoming);
    DedupDistinct(old_);
  }

  // ---------------------------------------------------------------------------------------
  // The registry as values

  /** `refreshNodesMap`: each selector mapped to the last index that holds it. */
  function LastIndexMap(nodes: seq<TailwindNode>): map<string, nat> {
    if nodes == [] then map[]
    else LastIndexMap(nodes[..|nodes| - 1])[nodes[|nodes| - 1].selector := |nodes| - 1]
  }

  /**
   * The registry invariant: the map sends each of its selectors to the last node with that
   * selector, and every node's selector is in the map.
   */
  predicate Indexed(nodes: seq<TailwindNode>, nodesMap: map<string, nat>) {
    (forall s | s in nodesMap ::
       nodesMap[s] < |nodes| && nodes[nodesMap[s]].selector == s
       && forall j | nodesMap[s] < j < |nodes| :: nodes[j].selector != s)
    && (forall i | 0 <= i < |nodes| :: nodes[i].selector in nodesMap)
  }

  /** Every selector occurs in at most one node. */
  predicate DistinctSelectors(nodes: seq<TailwindNode>) {
    forall i, j | 0 <= i < j < |nodes| :: nodes[i].selector != nodes[j].selector
  }

  /** The constructor's map satisfies the registry invariant for any initial list, repeats included. */
  lemma {:induction false} LastIndexMapIndexed(nodes: seq<TailwindNode>)
    ensures Indexed(nodes, LastIndexMap(nodes))
  {
    if nodes != [] {
      var init := nodes[..|nodes| - 1];
      LastIndexMapIndexed(init);
      assert forall i | 0 <= i < |init| :: init[i] == nodes[i];
    }
  }

  /** `normalizeNode`: the selector decomposed, and every class given the selector's prefix. */
  function Normalized(node: MergeableNode, parse: string -> seq<seq<SelectorItem>>,
                      stringify: seq<SelectorItem> -> string): (r: Option<MergeableNode>)
    ensures r.None? <==> ParseSelector(node.selector, parse, stringify).None?
    ensures r.Some? ==> r.value.skippedDeclarations == node.skippedDeclarations
    ensures r.Some? ==> r.value.tailwindClasses.Some? == node.tailwindClasses.Some?
    ensures r.Some? && node.tailwindClasses.Some? ==>
              var p := ParseSelector(node.selector, parse, stringify).value;
              r.value.selector == p.selector
              && |r.value.tailwindClasses.value| == |node.tailwindClasses.value|
              && forall k | 0 <= k < |node.tailwindClasses.value| ::
                   r.value.tailwindClasses.value[k] == p.classesPrefix + node.tailwindClasses.value[k]
  {
    match ParseSelector(node.selector, parse, stringify)
    case None => None
    case Some(p) =>
      var classes := match node.tailwindClasses
                     case None => None
                     case Some(cs) => Some(seq(|cs|, k requires 0 <= k < |cs| => p.classesPrefix + cs[k]));
      Some(MergeableNode(p.selector, classes, node.skippedDeclarations))
  }

  /** An existing node after a merge: classes unioned, skipped declarations appended verbatim. */
  function MergeInto(node: TailwindNode, incoming: MergeableNode): TailwindNode {
    TailwindNode(node.selector,
                 if incoming.tailwindClasses.Some? then Dedup(node.tailwindClasses + incoming.tailwindClasses.value)
                 else node.tailwindClasses,
                 if incoming.skippedDeclarations.Some? then node.skippedDeclarations + incoming.skippedDeclarations.value
                 else node.skippedDeclarations)
  }

  /** A node created from a merge, missing lists defaulted to empty. */
  function NewNode(incoming: MergeableNode): TailwindNode {
    TailwindNode(incoming.selector, incoming.tailwindClasses.GetOr([]), incoming.skippedDeclarations.GetOr([]))
  }

  /** Whether a merge finds a registered node for the (normalised) selector. */
  predicate Registered(nodes: seq<TailwindNode>, nodesMap: map<string, nat>, selector: string) {
    selector in nodesMap && nodesMap[selector] < |nodes|
  }

  /** The list and map after merging an already normalised node. */
  function Merge(nodes: seq<TailwindNode>, nodesMap: map<string, nat>, incoming: MergeableNode)
    : (seq<TailwindNode>, map<string, nat>)
  {
    if Registered(nodes, nodesMap, incoming.selector) then
      var i := nodesMap[incoming.selector];
      (nodes[i := MergeInto(nodes[i], incoming)], nodesMap)
    else
      (nodes + [NewNode(incoming)], nodesMap[incoming.selector := |nodes|])
  }

  /** A merge keeps the registry invariant, and keeps selectors distinct when they were. */
  lemma MergeIndexed(nodes: seq<TailwindNode>, nodesMap: map<string, nat>, incoming: MergeableNode)
    requires Indexed(nodes, nodesMap)
    ensures Indexed(Merge(nodes, nodesMap, incoming).0, Merge(nodes, nodesMap, incoming).1)
    ensures DistinctSelectors(nodes) ==> DistinctSelectors(Merge(nodes, nodesMap, incoming).0)
  {
    var (ns, m) := Merge(nodes, nodesMap, incoming);
    if !Registered(nodes, nodesMap, incoming.selector) {
      assert incoming.selector !in nodesMap;
      assert forall i | 0 <= i < |nodes| :: ns[i] == nodes[i];
    }
  }

  /**
   * A merge never removes a node nor changes a node's selector, never loses a class, and
   * leaves the merged selector registered; a new selector's node goes to the end.
   */
  lemma MergeGrows(nodes: seq<TailwindNode>, nodesMap: map<string, nat>, incoming: MergeableNode)
    requires Indexed(nodes, nodesMap)
    ensures var (ns, m) := Merge(nodes, nodesMap, incoming);
            |nodes| <= |ns| <= |nodes| + 1
            && (forall i | 0 <= i < |nodes| :: ns[i].selector == nodes[i].selector
                  && (forall c | c in nodes[i].tailwindClasses :: c in ns[i].tailwindClasses))
            && incoming.selector in m && ns[m[incoming.selector]].selector == incoming.selector
            && (incoming.selector !in nodesMap ==> ns == nodes + [NewNode(incoming)])
  {
  }

  /**
   * Merging into a registered node whose classes have no repeats appends exactly the
   * unseen classes and keeps the old ones first; the skipped declarations are appended
   * as they come.
   */
  lemma MergeExisting(nodes: seq<TailwindNode>, nodesMap: map<string, nat>, incoming: MergeableNode)
    requires Indexed(nodes, nodesMap) && incoming.selector in nodesMap
    requires incoming.tailwindClasses.Some? && incoming.skippedDeclarations.Some?
    requires NoDuplicates(nodes[nodesMap[incoming.selector]].tailwindClasses)
    ensures var i := nodesMap[incoming.selector];
            var before := nodes[i];
            var after := Merge(nodes, nodesMap, incoming).0[i];
            |before.tailwindClasses| <= |after.tailwindClasses|
            && after.tailwindClasses[..|before.tailwindClasses|] == before.tailwindClasses
            && NoDuplicates(after.tailwindClasses)
            && (forall c :: c in after.tailwindClasses <==> c in before.tailwindClasses || c in incoming.tailwindClasses.value)
            && after.skippedDeclarations == before.skippedDeclarations + incoming.skippedDeclarations.value
  {
    var i := nodesMap[incoming.selector];
    MergedClasses(nodes[i].tailwindClasses, incoming.tailwindClasses.value);
  }

  // ---------------------------------------------------------------------------------------
  // The registry object

  class TailwindNodesManager {
    var nodes: seq<TailwindNode>
    var nodesMap: map<string, nat>
    /** The selector parser and printer the manager works with. */
    const parse: string -> seq<seq<SelectorItem>>
    const stringify: seq<SelectorItem> -> string

    ghost predicate Valid()
      reads this
    {
      Indexed(nodes, nodesMap)
    }

    constructor(initialNodes: seq<TailwindNode>, parse: string -> seq<seq<SelectorItem>>,
                stringify: seq<SelectorItem> -> string)
      ensures Valid()
      ensures nodes == initialNodes && nodesMap == LastIndexMap(initialNodes)
      ensures this.parse == parse && this.stringify == stringify
    {
      this.parse := parse;
      this.stringify := stringify;
      nodes := initialNodes;
      new;
      RefreshNodesMap();
      LastIndexMapIndexed(initialNodes);
    }

    /** The index of the node registered for a selector. */
    function GetNodeIndexBySelector(selector: string): (r: Option<nat>)
      reads this
      ensures r.Some? <==> selector in nodesMap
      ensures Valid() && r.Some? ==> r.value < |nodes| && nodes[r.value].selector == selector
    {
      if selector in nodesMap then Some(nodesMap[selector]) else None
    }

    /** The node registered for a selector. */
    function GetNodeBySelector(selector: string): (r: Option<TailwindNode>)
      reads this
      ensures Valid() ==> (r.Some? <==> selector in nodesMap)
      ensures r.Some? ==> r.value in nodes
      ensures Valid() && r.Some? ==> r.value.selector == selector
    {
      if Registered(nodes, nodesMap, selector) then Some(nodes[nodesMap[selector]]) else None
    }

    function GetNodes(): seq<TailwindNode>
      reads this
    {
      nodes
    }

    /** `refreshNodesMap`: the reduce over the nodes, later indices overwriting earlier ones. */
    method RefreshNodesMap()
      modifies this
      ensures nodes == old(nodes) && nodesMap == LastIndexMap(nodes)
    {
      var m: map<string, nat> := map[];
      for i := 0 to |nodes|
        invariant m == LastIndexMap(nodes[..i])
      {
        assert nodes[..i + 1][..i] == nodes[..i];
        m := m[nodes[i].selector := i];
      }
      assert nodes[..|nodes|] == nodes;
      nodesMap := m;
    }

    /** `addNode`: push the node and point its selector at it. */
    method AddNode(node: TailwindNode)
      modifies this
      ensures nodes == old(nodes) + [node] && nodesMap == old(nodesMap)[node.selector := |old(nodes)|]
    {
      nodes := nodes + [node];
      nodesMap := nodesMap[node.selector := |nodes| - 1];
    }

    /** `parseSelector`, the loop over the items of the first parsed selector. */
    method ParseSelector(selector: string) returns (r: Option<ParsedSelector>)
      ensures r == Selectors.ParseSelector(selector, parse, stringify)
    {
      var parsed := parse(selector);
      if parsed == [] {
        return None;
      }
      var base, convertable := SplitSelector(parsed[0]);
      if |base| + |convertable| != |parsed[0]| {
        return Some(ParsedSelector(selector, ""));
      }
      return Some(ParsedSelector(stringify(base), ClassesPrefix(convertable)));
    }

    /** `normalizeNode` */
    method NormalizeNode(node: MergeableNode) returns (r: Option<MergeableNode>)
      ensures r == Normalized(node, parse, stringify)
    {
      var p := ParseSelector(node.selector);
      if p.None? {
        return None;
      }
      var classes := node.tailwindClasses;
      if classes.Some? {
        var prefixed: seq<string> := [];
        for k := 0 to |classes.value|
          invariant |prefixed| == k
          invariant forall j | 0 <= j < k :: prefixed[j] == p.value.classesPrefix + classes.value[j]
        {
          prefixed := prefixed + [p.value.classesPrefix + classes.value[k]];
        }
        var cs := classes.value;
        assert prefixed == seq(|cs|, k requires 0 <= k < |cs| => p.value.classesPrefix + cs[k]);
        classes := Some(prefixed);
      }
      r := Some(MergeableNode(p.value.selector, classes, node.skippedDeclarations));
    }

    /**
     * `mergeNode`: the normalised node merged into the registry; the node now registered for
     * its selector is returned. When the selector has no parse the source throws before any
     * change, here `None` with the registry untouched.
     */
    method MergeNode(mergeableNode: MergeableNode) returns (node: Option<TailwindNode>)
      requires Valid()
      modifies this
      ensures Valid()
      ensures Normalized(mergeableNode, parse, stringify).None? ==>
                node.None? && nodes == old(nodes) && nodesMap == old(nodesMap)
      ensures Normalized(mergeableNode, parse, stringify).Some? ==>
                var incoming := Normalized(mergeableNode, parse, stringify).value;
                (nodes, nodesMap) == Merge(old(nodes), old(nodesMap), incoming)
                && node == Some(nodes[nodesMap[incoming.selector]])
    {
      var normalized := NormalizeNode(mergeableNode);
      if normalized.None? {
        return None;
      }
      var incoming := normalized.value;
      MergeIndexed(nodes, nodesMap, incoming);
      MergeGrows(nodes, nodesMap, incoming);
      var existing := GetNodeBySelector(incoming.selector);
      if existing.Some? {
        var i := nodesMap[incoming.selector];
        var merged := existing.value;
        if incoming.tailwindClasses.Some? {
          merged := merged.(tailwindClasses := Dedup(merged.tailwindClasses + incoming.tailwindClasses.value));
        }
        if incoming.skippedDeclarations.Some? {
          merged := merged.(skippedDeclarations := merged.skippedDeclarations + incoming.skippedDeclarations.value);
        }
        nodes := nodes[i := merged];
        node := Some(merged);
      } else {
        var created := NewNode(incoming);
        AddNode(created);
        node := Some(created);
      }
    }
  }
}
