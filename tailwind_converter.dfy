/**
 * The rule converter: every declaration of a rule becomes one arbitrary-property class,
 * the classes of each selector of the rule are prefixed with the selector's variants and
 * the `media:` prefixes of the enclosing at-rules, and the resulting nodes are merged into
 * a fresh registry.
 */
module TailwindConversion {
  import opened Wrappers
  import opened Selectors
  import opened NodesManager

  /** The ancestors of a rule, read upwards until the first one that is not an at-rule. */
  datatype Parent = AtRule(name: string, parent: Parent) | NotAtRule

  /** A rule: its selector text, the declarations its walk visits in order, and its parent. */
  datatype Rule = Rule(selector: string, declarations: seq<Declaration>, parent: Parent)

  /** `convertAtRuleToClassPrefix` */
  function ConvertAtRuleToClassPrefix(atRuleName: string): string {
    if atRuleName == "media" then "media:" else ""
  }

  /** Every class with `prefix` in front of it. */
  function PrefixAll(prefix: string, classes: seq<string>): (r: seq<string>)
    ensures |r| == |classes|
    ensures forall k | 0 <= k < |r| :: r[k] == prefix + classes[k]
  {
    seq(|classes|, k requires 0 <= k < |classes| => prefix + classes[k])
  }

  lemma PrefixNothing(classes: seq<string>)
    ensures PrefixAll("", classes) == classes
  {
    assert forall k | 0 <= k < |classes| :: "" + classes[k] == classes[k];
  }

  lemma PrefixTwice(a: string, b: string, classes: seq<string>)
    ensures PrefixAll(a, PrefixAll(b, classes)) == PrefixAll(a + b, classes)
  {
    assert forall k | 0 <= k < |classes| :: a + (b + classes[k]) == (a + b) + classes[k];
  }

  /** The prefixes of an at-rule chain, outermost first. */
  function AtRulesPrefix(atRule: Parent): string {
    match atRule
    case NotAtRule => ""
    case AtRule(name, parent) => AtRulesPrefix(parent) + ConvertAtRuleToClassPrefix(name)
  }

  /** `prepareClassesByAtRule`: prefix with this at-rule's prefix, then with its at-rule parents'. */
  function PrepareClassesByAtRule(classes: seq<string>, atRule: Parent): seq<string>
    requires atRule.AtRule?
    decreases atRule
  {
    var prefix := ConvertAtRuleToClassPrefix(atRule.name);
    var prefixed := if prefix != "" then PrefixAll(prefix, classes) else classes;
    if atRule.parent.AtRule? then PrepareClassesByAtRule(prefixed, atRule.parent) else prefixed
  }

  /**
   * The at-rule walk gives every class the prefixes of the whole at-rule chain, the
   * outermost leftmost: a class inside `@media` inside `@media` gets `media:media:`, and
   * any other at-rule adds nothing.
   */
  lemma {:induction false} AtRuleChain(classes: seq<string>, atRule: Parent)
    requires atRule.AtRule?
    ensures PrepareClassesByAtRule(classes, atRule) == PrefixAll(AtRulesPrefix(atRule), classes)
    decreases atRule
  {
    var prefix := ConvertAtRuleToClassPrefix(atRule.name);
    var prefixed := if prefix != "" then PrefixAll(prefix, classes) else classes;
    PrefixNothing(classes);
    assert prefixed == PrefixAll(prefix, classes);
    if atRule.parent.AtRule? {
      AtRuleChain(prefixed, atRule.parent);
      PrefixTwice(AtRulesPrefix(atRule.parent), prefix, classes);
    } else {
      assert AtRulesPrefix(atRule) == prefix;
    }
  }

  /** `media:` repeated `n` times. */
  function MediaPrefixes(n: nat): string {
    if n == 0 then "" else MediaPrefixes(n - 1) + "media:"
  }

  /** The number of `@media` rules in a chain. */
  function MediaDepth(atRule: Parent): nat {
    match atRule
    case NotAtRule => 0
    case AtRule(name, parent) => MediaDepth(parent) + (if name == "media" then 1 else 0)
  }

  /** The chain's prefix is one `media:` per enclosing `@media` and nothing else. */
  lemma {:induction false} OnlyMediaCounts(atRule: Parent)
    ensures AtRulesPrefix(atRule) == MediaPrefixes(MediaDepth(atRule))
  {
    if atRule.AtRule? {
      OnlyMediaCounts(atRule.parent);
    }
  }

  /** `convertDeclarationToClasses`: one arbitrary-property class, `prop-[snake_value]`. */
  function ConvertDeclarationToClasses(declaration: Declaration, snakeCase: string -> string): (r: seq<string>)
    ensures |r| == 1
    ensures |r[0]| == |declaration.prop| + |snakeCase(declaration.value)| + 3
    ensures r[0][..|declaration.prop| + 2] == declaration.prop + "-["
    ensures r[0][|declaration.prop| + 2..|r[0]| - 1] == snakeCase(declaration.value) && r[0][|r[0]| - 1] == ']'
  {
    [declaration.prop + "-[" + snakeCase(declaration.value) + "]"]
  }

  /** The classes of the declarations visited so far, in walk order. */
  function DeclarationsClasses(declarations: seq<Declaration>, snakeCase: string -> string): (r: seq<string>)
    ensures |r| == |declarations|
    ensures forall k | 0 <= k < |r| :: r[k] == ConvertDeclarationToClasses(declarations[k], snakeCase)[0]
  {
    if declarations == [] then []
    else
      var n := |declarations| - 1;
      DeclarationsClasses(declarations[..n], snakeCase) + ConvertDeclarationToClasses(declarations[n], snakeCase)
  }

  /**
   * `makeTailwindNode`: a simple selector is replaced by its base and its classes get the
   * variant prefix; a complex one is kept with its classes as they are; then, when the
   * rule sits directly in an at-rule, the at-rule prefixes go in front. A selector with no
   * parse makes the source throw, here `None`.
   */
  function TailwindNodeOf(classes: seq<string>, rule: Rule, selector: string,
                          parse: string -> seq<seq<SelectorItem>>, stringify: seq<SelectorItem> -> string)
    : (r: Option<MergeableNode>)
    ensures r.None? <==> parse(selector) == []
    ensures r.Some? ==> r.value.skippedDeclarations.None? && r.value.tailwindClasses.Some?
  {
    match ParseSelector(selector, parse, stringify)
    case None => None
    case Some(p) =>
      var prefixed := PrefixAll(p.classesPrefix, classes);
      var withAtRules := if rule.parent.AtRule? then PrepareClassesByAtRule(prefixed, rule.parent) else prefixed;
      Some(MergeableNode(p.selector, Some(withAtRules), None))
  }

  /**
   * Each class of a node gets the at-rule prefixes outermost, then the selector's variant
   * prefix, then the class itself; the node carries the selector's base.
   */
  lemma NodeClassesLayout(classes: seq<string>, rule: Rule, selector: string,
                          parse: string -> seq<seq<SelectorItem>>, stringify: seq<SelectorItem> -> string)
    requires parse(selector) != []
    ensures var p := ParseSelector(selector, parse, stringify).value;
            var node := TailwindNodeOf(classes, rule, selector, parse, stringify).value;
            node.selector == p.selector
            && node.tailwindClasses.value == PrefixAll(AtRulesPrefix(rule.parent) + p.classesPrefix, classes)
  {
    var p := ParseSelector(selector, parse, stringify).value;
    var prefixed := PrefixAll(p.classesPrefix, classes);
    if rule.parent.AtRule? {
      AtRuleChain(prefixed, rule.parent);
      PrefixTwice(AtRulesPrefix(rule.parent), p.classesPrefix, classes);
    } else {
      assert AtRulesPrefix(rule.parent) + p.classesPrefix == p.classesPrefix;
    }
  }

  /** `makeTailwindNode`, with the item loop of the selector split. */
  method MakeTailwindNode(tailwindClasses: seq<string>, rule: Rule, selector: string,
                          parse: string -> seq<seq<SelectorItem>>, stringify: seq<SelectorItem> -> string)
    returns (node: Option<MergeableNode>)
    ensures node == TailwindNodeOf(tailwindClasses, rule, selector, parse, stringify)
  {
    var parsed := parse(selector);
    if parsed == [] {
      return None;
    }
    var base, convertable := SplitSelector(parsed[0]);
    var classes := tailwindClasses;
    var sel := selector;
    if |base| + |convertable| == |parsed[0]| {
      var classesPrefix := ClassesPrefix(convertable);
      sel := stringify(base);
      classes := PrefixAll(classesPrefix, classes);
    } else {
      PrefixNothing(classes);
    }
    if rule.parent.AtRule? {
      classes := PrepareClassesByAtRule(classes, rule.parent);
    }
    node := Some(MergeableNode(sel, Some(classes), None));
  }

  /** The selector a rule's node is built for: the prepared selector, or the rule's own when that is empty. */
  function NodeSelector(rule: Rule, selector: string): string {
    if selector != "" then selector else rule.selector
  }

  /**
   * The node one selector of a rule contributes, normalised as the registry receives it;
   * `None` when a selector has no parse and the source throws.
   */
  function Incoming(rule: Rule, selector: string, snakeCase: string -> string,
                    parse: string -> seq<seq<SelectorItem>>, stringify: seq<SelectorItem> -> string)
    : Option<MergeableNode>
  {
    match TailwindNodeOf(DeclarationsClasses(rule.declarations, snakeCase), rule, NodeSelector(rule, selector), parse, stringify)
    case None => None
    case Some(made) => Normalized(made, parse, stringify)
  }

  /** One selector of `convertRule`: the registry after its node, if any, is merged. */
  function RuleStep(st: (seq<TailwindNode>, map<string, nat>), rule: Rule, selector: string, snakeCase: string -> string,
                    parse: string -> seq<seq<SelectorItem>>, stringify: seq<SelectorItem> -> string)
    : Option<(seq<TailwindNode>, map<string, nat>)>
  {
    if rule.declarations == [] then Some(st)
    else
      match Incoming(rule, selector, snakeCase, parse, stringify)
      case None => None
      case Some(incoming) => Some(Merge(st.0, st.1, incoming))
  }

  /** The registry's list and map. */
  type Registry = (seq<TailwindNode>, map<string, nat>)

  /** The callback of the selector loop, as a function value. */
  function Step(rule: Rule, snakeCase: string -> string, parse: string -> seq<seq<SelectorItem>>,
                stringify: seq<SelectorItem> -> string): (Registry, string) -> Option<Registry>
  {
    (st: Registry, selector: string) => RuleStep(st, rule, selector, snakeCase, parse, stringify)
  }

  /** A loop over the first `n` selectors that stops at the first failing step. */
  function FoldSelectors(step: (Registry, string) -> Option<Registry>, selectors: seq<string>, n: nat): Option<Registry>
    requires n <= |selectors|
  {
    if n == 0 then Some(([], map[]))
    else
      match FoldSelectors(step, selectors, n - 1)
      case None => None
      case Some(st) => step(st, selectors[n - 1])
  }

  /**
   * The registry after the first `n` prepared selectors of a rule, `None` once a selector
   * fails to parse.
   */
  function RuleState(rule: Rule, selectors: seq<string>, n: nat, snakeCase: string -> string,
                     parse: string -> seq<seq<SelectorItem>>, stringify: seq<SelectorItem> -> string)
    : Option<Registry>
    requires n <= |selectors|
  {
    FoldSelectors(Step(rule, snakeCase, parse, stringify), selectors, n)
  }

  /** Once a step has failed, the loop fails. */
  lemma {:induction false} FailurePersists(step: (Registry, string) -> Option<Registry>, selectors: seq<string>, n: nat, m: nat)
    requires n <= m <= |selectors| && FoldSelectors(step, selectors, n).None?
    ensures FoldSelectors(step, selectors, m).None?
    decreases m
  {
    if m > n {
      FailurePersists(step, selectors, n, m - 1);
    }
  }

  /** The registry after one more selector. */
  lemma StateStep(rule: Rule, selectors: seq<string>, n: nat, snakeCase: string -> string,
                  parse: string -> seq<seq<SelectorItem>>, stringify: seq<SelectorItem> -> string)
    requires 1 <= n <= |selectors|
    ensures var prev := RuleState(rule, selectors, n - 1, snakeCase, parse, stringify);
            RuleState(rule, selectors, n, snakeCase, parse, stringify)
            == if prev.None? then None else RuleStep(prev.value, rule, selectors[n - 1], snakeCase, parse, stringify)
  {
  }

  /**
   * The registry a rule builds keeps its invariant, holds one node per selector, and every
   * node has at least one class.
   */
  lemma {:induction false} RuleStateWellFormed(rule: Rule, selectors: seq<string>, n: nat, snakeCase: string -> string,
                                               parse: string -> seq<seq<SelectorItem>>, stringify: seq<SelectorItem> -> string)
    requires n <= |selectors|
    ensures var r := RuleState(rule, selectors, n, snakeCase, parse, stringify);
            r.Some? ==> WellFormed(r.value)
  {
    if n > 0 {
      RuleStateWellFormed(rule, selectors, n - 1, snakeCase, parse, stringify);
      StateStep(rule, selectors, n, snakeCase, parse, stringify);
      var prev := RuleState(rule, selectors, n - 1, snakeCase, parse, stringify);
      if prev.Some? {
        StepWellFormed(prev.value, rule, selectors[n - 1], snakeCase, parse, stringify);
      }
    }
  }

  lemma NodeClassesNonEmpty(classes: seq<string>, rule: Rule, selector: string,
                            parse: string -> seq<seq<SelectorItem>>, stringify: seq<SelectorItem> -> string)
    requires classes != [] && TailwindNodeOf(classes, rule, selector, parse, stringify).Some?
    ensures TailwindNodeOf(classes, rule, selector, parse, stringify).value.tailwindClasses.value != []
  {
    NodeClassesLayout(classes, rule, selector, parse, stringify);
  }

  /** A rule without declarations produces no node at all. */
  lemma EmptyRuleNoNodes(rule: Rule, selectors: seq<string>, n: nat, snakeCase: string -> string,
                         parse: string -> seq<seq<SelectorItem>>, stringify: seq<SelectorItem> -> string)
    requires rule.declarations == [] && n <= |selectors|
    ensures RuleState(rule, selectors, n, snakeCase, parse, stringify) == Some(([], map[]))
  {
    if n > 0 {
      EmptyRuleNoNodes(rule, selectors, n - 1, snakeCase, parse, stringify);
    }
  }

  /** The declaration walk of `convertRule`: each declaration's classes, in order. */
  method CollectClasses(declarations: seq<Declaration>, snakeCase: string -> string) returns (tailwindClasses: seq<string>)
    ensures tailwindClasses == DeclarationsClasses(declarations, snakeCase)
  {
    tailwindClasses := [];
    for j := 0 to |declarations|
      invariant tailwindClasses == DeclarationsClasses(declarations[..j], snakeCase)
    {
      assert declarations[..j + 1][..j] == declarations[..j];
      tailwindClasses := tailwindClasses + ConvertDeclarationToClasses(declarations[j], snakeCase);
    }
    assert declarations[..|declarations|] == declarations;
  }

  /** The nodes `convertRule` returns for a rule and its prepared selectors. */
  function RuleNodes(rule: Rule, selectors: seq<string>, snakeCase: string -> string,
                     parse: string -> seq<seq<SelectorItem>>, stringify: seq<SelectorItem> -> string)
    : Option<seq<TailwindNode>>
  {
    match RuleState(rule, selectors, |selectors|, snakeCase, parse, stringify)
    case None => None
    case Some(st) => Some(st.0)
  }

  /** The registry invariant, distinct selectors, and at least one class on every node. */
  predicate WellFormed(st: Registry) {
    Indexed(st.0, st.1) && DistinctSelectors(st.0)
    && forall i | 0 <= i < |st.0| :: st.0[i].tailwindClasses != []
  }

  /** Merging a node with classes into a well-formed registry keeps it well-formed. */
  lemma MergeWellFormed(st: Registry, incoming: MergeableNode)
    requires WellFormed(st) && incoming.tailwindClasses.Some? && incoming.tailwindClasses.value != []
    ensures WellFormed(Merge(st.0, st.1, incoming))
  {
    MergeIndexed(st.0, st.1, incoming);
    MergeGrows(st.0, st.1, incoming);
    var ns := Merge(st.0, st.1, incoming).0;
    forall i | 0 <= i < |ns|
      ensures ns[i].tailwindClasses != []
    {
      if i < |st.0| {
        assert st.0[i].tailwindClasses[0] in ns[i].tailwindClasses;
      }
    }
  }

  /** What one selector does: nothing for a rule without declarations, else a merge of its node. */
  lemma StepMerges(st: Registry, rule: Rule, selector: string, snakeCase: string -> string,
                   parse: string -> seq<seq<SelectorItem>>, stringify: seq<SelectorItem> -> string)
    ensures rule.declarations == [] ==> RuleStep(st, rule, selector, snakeCase, parse, stringify) == Some(st)
    ensures var incoming := Incoming(rule, selector, snakeCase, parse, stringify);
            rule.declarations != [] ==>
              RuleStep(st, rule, selector, snakeCase, parse, stringify)
              == if incoming.None? then None else Some(Merge(st.0, st.1, incoming.value))
  {
  }

  /** The node a selector of a rule with declarations contributes carries classes. */
  lemma IncomingHasClasses(rule: Rule, selector: string, snakeCase: string -> string,
                           parse: string -> seq<seq<SelectorItem>>, stringify: seq<SelectorItem> -> string)
    requires rule.declarations != [] && Incoming(rule, selector, snakeCase, parse, stringify).Some?
    ensures var incoming := Incoming(rule, selector, snakeCase, parse, stringify).value;
            incoming.tailwindClasses.Some? && incoming.tailwindClasses.value != []
  {
    var classes := DeclarationsClasses(rule.declarations, snakeCase);
    var made := TailwindNodeOf(classes, rule, NodeSelector(rule, selector), parse, stringify);
    NodeClassesNonEmpty(classes, rule, NodeSelector(rule, selector), parse, stringify);
    assert Normalized(made.value, parse, stringify).Some?;
  }

  /** One selector keeps the registry well-formed. */
  lemma StepWellFormed(st: Registry, rule: Rule, selector: string, snakeCase: string -> string,
                       parse: string -> seq<seq<SelectorItem>>, stringify: seq<SelectorItem> -> string)
    requires WellFormed(st)
    ensures var r := RuleStep(st, rule, selector, snakeCase, parse, stringify);
            r.Some? ==> WellFormed(r.value)
  {
    StepMerges(st, rule, selector, snakeCase, parse, stringify);
    if rule.declarations != [] && Incoming(rule, selector, snakeCase, parse, stringify).Some? {
      IncomingHasClasses(rule, selector, snakeCase, parse, stringify);
      MergeWellFormed(st, Incoming(rule, selector, snakeCase, parse, stringify).value);
    }
  }

  /** After a selector the loop either goes on from the step's registry, or has failed for good. */
  lemma StepOutcome(rule: Rule, selectors: seq<string>, i: nat, st: Registry, snakeCase: string -> string,
                    parse: string -> seq<seq<SelectorItem>>, stringify: seq<SelectorItem> -> string)
    requires i < |selectors| && RuleState(rule, selectors, i, snakeCase, parse, stringify) == Some(st)
    ensures RuleState(rule, selectors, i + 1, snakeCase, parse, stringify)
            == RuleStep(st, rule, selectors[i], snakeCase, parse, stringify)
    ensures RuleStep(st, rule, selectors[i], snakeCase, parse, stringify).None?
            ==> RuleNodes(rule, selectors, snakeCase, parse, stringify).None?
  {
    StateStep(rule, selectors, i + 1, snakeCase, parse, stringify);
    if RuleStep(st, rule, selectors[i], snakeCase, parse, stringify).None? {
      FailurePersists(Step(rule, snakeCase, parse, stringify), selectors, i + 1, |selectors|);
    }
  }

  /**
   * The body of `convertRule`'s selector loop: the rule's classes, made into a node for
   * `selector` and merged into the registry; `false` where the source throws.
   */
  method ConvertSelector(nodesManager: TailwindNodesManager, rule: Rule, selector: string, snakeCase: string -> string)
    returns (ok: bool)
    requires nodesManager.Valid()
    modifies nodesManager
    ensures nodesManager.Valid()
    ensures var next := RuleStep(old((nodesManager.nodes, nodesManager.nodesMap)), rule, selector, snakeCase,
                                 nodesManager.parse, nodesManager.stringify);
            ok == next.Some? && (ok ==> next.value == (nodesManager.nodes, nodesManager.nodesMap))
  {
    var parse, stringify := nodesManager.parse, nodesManager.stringify;
    ghost var st: Registry := (nodesManager.nodes, nodesManager.nodesMap);
    StepMerges(st, rule, selector, snakeCase, parse, stringify);
    var tailwindClasses := CollectClasses(rule.declarations, snakeCase);
    if |tailwindClasses| > 0 {
      var made := MakeTailwindNode(tailwindClasses, rule, NodeSelector(rule, selector), parse, stringify);
      if made.None? {
        return false;
      }
      assert Incoming(rule, selector, snakeCase, parse, stringify) == Normalized(made.value, parse, stringify);
      var merged := nodesManager.MergeNode(made.value);
      if merged.None? {
        return false;
      }
    }
    ok := true;
  }

  /**
   * `convertRule`: the declaration walk for each prepared selector, and a merge into a
   * fresh registry whenever it produced classes.
   */
  method ConvertRule(rule: Rule, selectors: seq<string>, snakeCase: string -> string,
                     parse: string -> seq<seq<SelectorItem>>, stringify: seq<SelectorItem> -> string)
    returns (nodes: Option<seq<TailwindNode>>)
    ensures nodes == RuleNodes(rule, selectors, snakeCase, parse, stringify)
  {
    var nodesManager := new TailwindNodesManager([], parse, stringify);
    var i := 0;
    while i < |selectors|
      invariant i <= |selectors| && nodesManager.Valid()
      invariant nodesManager.parse == parse && nodesManager.stringify == stringify
      invariant RuleState(rule, selectors, i, snakeCase, parse, stringify) == Some((nodesManager.nodes, nodesManager.nodesMap))
    {
      ghost var st: Registry := (nodesManager.nodes, nodesManager.nodesMap);
      var ok := ConvertSelector(nodesManager, rule, selectors[i], snakeCase);
      StepOutcome(rule, selectors, i, st, snakeCase, parse, stringify);
      if !ok {
        return None;
      }
      i := i + 1;
    }
    nodes := Some(nodesManager.GetNodes());
  }
}
