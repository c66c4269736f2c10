/**
 * Selector decomposition shared by the node registry and the converter: the items of a
 * compound selector split into a base (tags and plain attributes, classes and ids among
 * them) and convertible items (pseudo-classes, pseudo-elements and `aria-*="true"`
 * attributes) whose names become a variant prefix such as `hover:focus:`.
 */
module Selectors {
  import opened Wrappers

  /**
   * One item of a parsed selector. Class and id selectors come back from the selector
   * parser as attributes; universal selectors and combinators fall under `Other`.
   */
  datatype SelectorItem =
    | Tag(name: string)
    | Attribute(name: string, value: string)
    | Pseudo(name: string)
    | PseudoElement(name: string)
    | Other(kind: string)

  const AriaAttributeNames: seq<string> := [
    "aria-checked", "aria-disabled", "aria-expanded", "aria-hidden",
    "aria-pressed", "aria-readonly", "aria-required", "aria-selected"]

  /** `isAriaSelector`: an attribute item naming one of the listed states with the value `true`. */
  predicate IsAriaSelector(item: SelectorItem) {
    item.Attribute? && item.name in AriaAttributeNames && item.value == "true"
  }

  /** An item that becomes part of the class prefix. */
  predicate Convertible(item: SelectorItem) {
    item.Pseudo? || item.PseudoElement? || IsAriaSelector(item)
  }

  /** An item that stays in the selector. */
  predicate IsBase(item: SelectorItem) {
    !Convertible(item) && (item.Tag? || item.Attribute?)
  }

  /** The items that stay in the selector, in order. */
  function BaseItems(items: seq<SelectorItem>): (r: seq<SelectorItem>)
    ensures forall k | 0 <= k < |r| :: IsBase(r[k])
    ensures |r| <= |items|
  {
    if items == [] then []
    else BaseItems(items[..|items| - 1]) + (if IsBase(items[|items| - 1]) then [items[|items| - 1]] else [])
  }

  /** The convertible items, in order. */
  function ConvertibleItems(items: seq<SelectorItem>): (r: seq<SelectorItem>)
    ensures forall k | 0 <= k < |r| :: Convertible(r[k])
    ensures |r| <= |items|
  {
    if items == [] then []
    else ConvertibleItems(items[..|items| - 1]) + (if Convertible(items[|items| - 1]) then [items[|items| - 1]] else [])
  }

  /** Every item is either convertible or a base item: the selector is not complex. */
  predicate Simple(items: seq<SelectorItem>) {
    forall k | 0 <= k < |items| :: Convertible(items[k]) || IsBase(items[k])
  }

  /**
   * The length test the source uses for "not complex" holds exactly when every item is
   * convertible or a base item.
   */
  lemma {:induction false} SimpleIff(items: seq<SelectorItem>)
    ensures |BaseItems(items)| + |ConvertibleItems(items)| == |items| <==> Simple(items)
    ensures |BaseItems(items)| + |ConvertibleItems(items)| <= |items|
  {
    if items != [] {
      var init := items[..|items| - 1];
      SimpleIff(init);
      assert forall k | 0 <= k < |init| :: init[k] == items[k];
    }
  }

  /** The loop that pushes each item into `base` or `convertable`. */
  method SplitSelector(items: seq<SelectorItem>) returns (base: seq<SelectorItem>, convertable: seq<SelectorItem>)
    ensures base == BaseItems(items) && convertable == ConvertibleItems(items)
  {
    base := [];
    convertable := [];
    for i := 0 to |items|
      invariant base == BaseItems(items[..i]) && convertable == ConvertibleItems(items[..i])
    {
      assert items[..i + 1][..i] == items[..i];
      var item := items[i];
      if item.Pseudo? || item.PseudoElement? || IsAriaSelector(item) {
        convertable := convertable + [item];
      } else if item.Tag? || item.Attribute? {
        base := base + [item];
      }
    }
    assert items[..|items|] == items;
  }

  /** The name of a convertible item. */
  function ItemName(item: SelectorItem): string {
    match item
    case Tag(n) => n
    case Attribute(n, _) => n
    case Pseudo(n) => n
    case PseudoElement(n) => n
    case Other(_) => ""
  }

  /** `convertable.map(item => `${item.name}:`).join('')` */
  function ClassesPrefix(convertable: seq<SelectorItem>): (r: string)
    ensures convertable == [] ==> r == ""
  {
    if convertable == [] then ""
    else ClassesPrefix(convertable[..|convertable| - 1]) + ItemName(convertable[|convertable| - 1]) + ":"
  }

  /** The prefix has one `:` per convertible item. */
  lemma {:induction false} PrefixColons(convertable: seq<SelectorItem>)
    requires forall k | 0 <= k < |convertable| :: ':' !in ItemName(convertable[k])
    ensures multiset(ClassesPrefix(convertable))[':'] == |convertable|
  {
    if convertable != [] {
      var init := convertable[..|convertable| - 1];
      var last := convertable[|convertable| - 1];
      PrefixColons(init);
      assert ClassesPrefix(convertable) == ClassesPrefix(init) + ItemName(last) + ":";
      assert multiset(ItemName(last))[':'] == 0;
    }
  }

  /** A selector with the prefix its convertible items make. */
  datatype ParsedSelector = ParsedSelector(selector: string, classesPrefix: string)

  /**
   * `parseSelector`: the first selector of the parse is decomposed. A simple one becomes its
   * printed base and the names of its convertible items; a complex one is kept as written
   * with no prefix. A parse with no selector at all makes the source throw, here `None`.
   */
  function ParseSelector(selector: string, parse: string -> seq<seq<SelectorItem>>,
                         stringify: seq<SelectorItem> -> string): (r: Option<ParsedSelector>)
    ensures r.None? <==> parse(selector) == []
    ensures r.Some? && !Simple(parse(selector)[0]) ==> r.value == ParsedSelector(selector, "")
    ensures r.Some? && Simple(parse(selector)[0])
            ==> r.value == ParsedSelector(stringify(BaseItems(parse(selector)[0])), ClassesPrefix(ConvertibleItems(parse(selector)[0])))
  {
    var parsed := parse(selector);
    if parsed == [] then None
    else
      var items := parsed[0];
      SimpleIff(items);
      var base := BaseItems(items);
      var convertable := ConvertibleItems(items);
      if |base| + |convertable| != |items| then Some(ParsedSelector(selector, ""))
      else Some(ParsedSelector(stringify(base), ClassesPrefix(convertable)))
  }

  /** Base items are never convertible, so decomposing a base again keeps all of it and adds no prefix. */
  lemma {:induction false} BaseOfBase(items: seq<SelectorItem>)
    ensures BaseItems(BaseItems(items)) == BaseItems(items)
    ensures ConvertibleItems(BaseItems(items)) == []
  {
    if items != [] {
      var init := items[..|items| - 1];
      var last := items[|items| - 1];
      BaseOfBase(init);
      var b := BaseItems(init);
      if IsBase(last) {
        var bb := b + [last];
        assert BaseItems(items) == bb;
        assert bb[..|bb| - 1] == b;
        assert BaseItems(bb) == BaseItems(b) + [last];
        assert ConvertibleItems(bb) == ConvertibleItems(b);
      } else {
        assert BaseItems(items) == b;
      }
    }
  }

  /**
   * Decomposition is idempotent when the parser reads a printed base back as that base:
   * the selector a first pass produces comes out of a second pass unchanged and with an
   * empty prefix.
   */
  lemma NormalizeTwice(selector: string, parse: string -> seq<seq<SelectorItem>>, stringify: seq<SelectorItem> -> string)
    requires ParseSelector(selector, parse, stringify).Some?
    requires var items := parse(selector)[0];
             Simple(items) ==> parse(stringify(BaseItems(items))) == [BaseItems(items)]
    ensures var first := ParseSelector(selector, parse, stringify).value;
            ParseSelector(first.selector, parse, stringify) == Some(ParsedSelector(first.selector, ""))
  {
    var items := parse(selector)[0];
    if Simple(items) {
      var base := BaseItems(items);
      BaseOfBase(items);
      assert Simple(base);
      assert parse(stringify(base))[0] == base;
    }
  }

  /** An `aria-*` attribute joins the prefix only with the value `true`; with any other value it stays in the base. */
  lemma AriaNeedsTrue(name: string, value: string)
    ensures Convertible(Attribute(name, value)) <==> name in AriaAttributeNames && value == "true"
    ensures !Convertible(Attribute(name, value)) ==> BaseItems([Attribute(name, value)]) == [Attribute(name, value)]
    ensures !IsAriaSelector(Tag(name)) && !IsAriaSelector(Pseudo(name)) && !IsAriaSelector(PseudoElement(name))
  {
    assert [Attribute(name, value)][..0] == [];
  }
}
