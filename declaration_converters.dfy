/**
 * The declaration table: each supported CSS property names one converter kind, with the
 * theme table or utility table it reads and the class prefix it writes.
 */
module DeclarationConverters {
  import opened Wrappers
  import opened JsStrings
  import opened OrderedMap
  import opened Converters
  import opened CssFunctions

  /** The kinds of table entry, each with the tables and prefixes it is built from. */
  datatype Converter =
    | Color(mapKey: string, classPrefix: string)
    | Strict(utility: string)
    | Plain(mapKey: string, classPrefix: string)
    | Size(mapKey: string, classPrefix: string, usesRemInPx: bool, supportsNegativeValues: bool)
    | Border(classPrefix: string)
    | Composed(mapKey: string, top: string, right: string, bottom: string, left: string)
    | Functions(list: FunctionList)
    | NoClasses

  /** `TAILWIND_DECLARATION_CONVERTERS[property]`, `None` for a property the table lacks. */
  function DeclarationConverter(property: string): Option<Converter> {
    if property == [] then None
    else match property[0]
    case 'a' =>
      (match property
      case "accent-color" => Some(Color("accentColor", "accent"))
      case "align-content" => Some(Strict("align-content"))
      case "align-items" => Some(Strict("align-items"))
      case "align-self" => Some(Strict("align-self"))
      case "animation" => Some(Plain("animation", "animate"))
      case "appearance" => Some(Strict("appearance"))
      case "aspect-ratio" => Some(Plain("aspectRatio", "aspect"))
      case _ => None)
    case 'b' =>
      (match property
      case "backdrop-filter" => Some(Functions(BackdropFilter))
      case "background-attachment" => Some(Strict("background-attachment"))
      case "background-blend-mode" => Some(Strict("background-blend-mode"))
      case "background-clip" => Some(Strict("background-clip"))
      case "background-color" => Some(Color("backgroundColor", "bg"))
      case "background-image" => Some(Plain("backgroundImage", "bg"))
      case "background-origin" => Some(Strict("background-origin"))
      case "background-position" => Some(Plain("backgroundPosition", "bg"))
      case "background-repeat" => Some(Strict("background-repeat"))
      case "background-size" => Some(Size("backgroundSize", "bg", true, false))
      case "border" => Some(Border("border"))
      case "border-bottom" => Some(Border("border-b"))
      case "border-bottom-color" => Some(Color("borderColor", "border-b"))
      case "border-bottom-left-radius" => Some(Size("borderRadius", "rounded-bl", true, false))
      case "border-bottom-right-radius" => Some(Size("borderRadius", "rounded-br", true, false))
      case "border-bottom-width" => Some(Size("borderWidth", "border-b", true, false))
      case "border-collapse" => Some(Strict("border-collapse"))
      case "border-color" => Some(Color("borderColor", "border"))
      case "border-left" => Some(Border("border-l"))
      case "border-left-color" => Some(Color("borderColor", "border-l"))
      case "border-left-width" => Some(Size("borderWidth", "border-l", true, false))
      case "border-radius" => Some(Size("borderRadius", "rounded", true, false))
      case "border-right" => Some(Border("border-r"))
      case "border-right-color" => Some(Color("borderColor", "border-r"))
      case "border-right-width" => Some(Size("borderWidth", "border-r", true, false))
      case "border-spacing" => Some(Size("borderSpacing", "border-spacing", true, false))
      case "border-style" => Some(Strict("border-style"))
      case "border-top" => Some(Border("border-t"))
      case "border-top-color" => Some(Color("borderColor", "border-t"))
      case "border-top-left-radius" => Some(Size("borderRadius", "rounded-tl", true, false))
      case "border-top-right-radius" => Some(Size("borderRadius", "rounded-tr", true, false))
      case "border-top-width" => Some(Size("borderWidth", "border-t", true, false))
      case "border-width" => Some(Size("borderWidth", "border", true, false))
      case "bottom" => Some(Size("inset", "bottom", true, true))
      case "box-decoration-break" => Some(Strict("box-decoration-break"))
      case "box-shadow" => Some(Plain("boxShadow", "shadow"))
      case "box-sizing" => Some(Strict("box-sizing"))
      case "break-after" => Some(Strict("break-after"))
      case "break-before" => Some(Strict("break-before"))
      case "break-inside" => Some(Strict("break-inside"))
      case _ => None)
    case 'c' =>
      (match property
      case "caret-color" => Some(Color("caretColor", "caret"))
      case "clear" => Some(Strict("clear"))
      case "color" => Some(Color("textColor", "text"))
      case "column-gap" => Some(Size("gap", "gap-x", true, false))
      case "columns" => Some(Size("columns", "columns", true, false))
      case "content" => Some(Plain("content", "content"))
      case "cursor" => Some(Plain("cursor", "cursor"))
      case _ => None)
    case 'd' =>
      (match property
      case "display" => Some(Strict("display"))
      case _ => None)
    case 'f' =>
      (match property
      case "fill" => Some(Color("fill", "fill"))
      case "filter" => Some(Functions(Filter))
      case "flex" => Some(Plain("flex", "flex"))
      case "flex-basis" => Some(Size("flexBasis", "basis", true, false))
      case "flex-direction" => Some(Strict("flex-direction"))
      case "flex-flow" => Some(NoClasses)
      case "flex-grow" => Some(Plain("flexGrow", "grow"))
      case "flex-shrink" => Some(Plain("flexShrink", "shrink"))
      case "flex-wrap" => Some(Strict("flex-wrap"))
      case "float" => Some(Strict("float"))
      case "font-size" => Some(Size("fontSize", "text", true, false))
      case "font-smoothing" => Some(Strict("font-smoothing"))
      case "font-style" => Some(Strict("font-style"))
      case "font-variant-numeric" => Some(Strict("font-variant-numeric"))
      case "font-weight" => Some(Plain("fontWeight", "font"))
      case _ => None)
    case 'g' =>
      (match property
      case "gap" => Some(Size("gap", "gap", true, false))
      case "grid" => Some(NoClasses)
      case "grid-auto-columns" => Some(Plain("gridAutoColumns", "auto-cols"))
      case "grid-auto-flow" => Some(Strict("grid-auto-flow"))
      case "grid-auto-rows" => Some(Plain("gridAutoRows", "auto-rows"))
      case "grid-column" => Some(Plain("gridColumn", "col"))
      case "grid-column-end" => Some(Plain("gridColumnEnd", "col-end"))
      case "grid-column-gap" => Some(Size("gap", "gap-x", true, false))
      case "grid-column-start" => Some(Plain("gridColumnStart", "col-start"))
      case "grid-gap" => Some(Size("gap", "gap", true, false))
      case "grid-row" => Some(Plain("gridRow", "row"))
      case "grid-row-end" => Some(Plain("gridRowEnd", "row-end"))
      case "grid-row-gap" => Some(Size("gap", "gap-y", true, false))
      case "grid-row-start" => Some(Plain("gridRowStart", "row-start"))
      case "grid-template-columns" => Some(Plain("gridTemplateColumns", "grid-cols"))
      case "grid-template-rows" => Some(Plain("gridTemplateRows", "grid-rows"))
      case _ => None)
    case 'h' =>
      (match property
      case "height" => Some(Size("height", "h", true, false))
      case _ => None)
    case 'i' =>
      (match property
      case "inset" => Some(Size("inset", "inset", true, true))
      case "isolation" => Some(Strict("isolation"))
      case _ => None)
    case 'j' =>
      (match property
      case "justify-content" => Some(Strict("justify-content"))
      case "justify-items" => Some(Strict("justify-items"))
      case "justify-self" => Some(Strict("justify-self"))
      case _ => None)
    case 'l' =>
      (match property
      case "left" => Some(Size("inset", "left", true, true))
      case "letter-spacing" => Some(Size("letterSpacing", "tracking", true, true))
      case "line-height" => Some(Size("lineHeight", "leading", true, false))
      case "list-style-position" => Some(Strict("list-style-position"))
      case "list-style-type" => Some(Plain("listStyleType", "list"))
      case _ => None)
    case 'm' =>
      (match property
      case "margin" => Some(Composed("margin", "mt", "mr", "mb", "ml"))
      case "margin-bottom" => Some(Size("margin", "mb", true, true))
      case "margin-left" => Some(Size("margin", "ml", true, true))
      case "margin-right" => Some(Size("margin", "mr", true, true))
      case "margin-top" => Some(Size("margin", "mt", true, true))
      case "max-height" => Some(Size("maxHeight", "max-h", true, false))
      case "max-width" => Some(Size("maxWidth", "max-w", true, false))
      case "min-height" => Some(Size("minHeight", "min-h", true, false))
      case "min-width" => Some(Size("minWidth", "min-w", true, false))
      case "mix-blend-mode" => Some(Strict("mix-blend-mode"))
      case _ => None)
    case 'o' =>
      (match property
      case "object-fit" => Some(Strict("object-fit"))
      case "object-position" => Some(Plain("objectPosition", "object"))
      case "opacity" => Some(Plain("opacity", "opacity"))
      case "order" => Some(Size("order", "order", false, true))
      case "outline" => Some(Strict("outline"))
      case "outline-color" => Some(Color("outlineColor", "outline"))
      case "outline-offset" => Some(Size("outlineOffset", "outline-offset", true, true))
      case "outline-style" => Some(Strict("outline-style"))
      case "outline-width" => Some(Size("outlineWidth", "outline", true, false))
      case "overflow" => Some(Strict("overflow"))
      case "overflow-wrap" => Some(Strict("overflow-wrap"))
      case "overflow-x" => Some(Strict("overflow-x"))
      case "overflow-y" => Some(Strict("overflow-y"))
      case "overscroll-behavior" => Some(Strict("overscroll-behavior"))
      case "overscroll-behavior-x" => Some(Strict("overscroll-behavior-x"))
      case "overscroll-behavior-y" => Some(Strict("overscroll-behavior-y"))
      case _ => None)
    case 'p' =>
      (match property
      case "padding" => Some(Composed("padding", "pt", "pr", "pb", "pl"))
      case "padding-bottom" => Some(Size("padding", "pb", true, false))
      case "padding-left" => Some(Size("padding", "pl", true, false))
      case "padding-right" => Some(Size("padding", "pr", true, false))
      case "padding-top" => Some(Size("padding", "pt", true, false))
      case "page-break-after" => Some(Strict("break-after"))
      case "page-break-before" => Some(Strict("break-before"))
      case "page-break-inside" => Some(Strict("break-inside"))
      case "place-content" => Some(Strict("place-content"))
      case "place-items" => Some(Strict("place-items"))
      case "place-self" => Some(Strict("place-self"))
      case "pointer-events" => Some(Strict("pointer-events"))
      case "position" => Some(Strict("position"))
      case _ => None)
    case 'r' =>
      (match property
      case "resize" => Some(Strict("resize"))
      case "right" => Some(Size("inset", "right", true, true))
      case "row-gap" => Some(Size("gap", "gap-y", true, false))
      case _ => None)
    case 's' =>
      (match property
      case "scroll-behavior" => Some(Strict("scroll-behavior"))
      case "scroll-margin" => Some(Composed("scrollMargin", "scroll-mt", "scroll-mr", "scroll-mb", "scroll-ml"))
      case "scroll-margin-bottom" => Some(Size("scrollMargin", "scroll-mb", true, true))
      case "scroll-margin-left" => Some(Size("scrollMargin", "scroll-ml", true, true))
      case "scroll-margin-right" => Some(Size("scrollMargin", "scroll-mr", true, true))
      case "scroll-margin-top" => Some(Size("scrollMargin", "scroll-mt", true, true))
      case "scroll-padding" => Some(Composed("scrollPadding", "scroll-pt", "scroll-pr", "scroll-pb", "scroll-pl"))
      case "scroll-padding-bottom" => Some(Size("scrollPadding", "scroll-pb", true, false))
      case "scroll-padding-left" => Some(Size("scrollPadding", "scroll-pl", true, false))
      case "scroll-padding-right" => Some(Size("scrollPadding", "scroll-pr", true, false))
      case "scroll-padding-top" => Some(Size("scrollPadding", "scroll-pt", true, false))
      case "scroll-snap-align" => Some(Strict("scroll-snap-align"))
      case "scroll-snap-type" => Some(Strict("scroll-snap-type"))
      case "scroll-snap-stop" => Some(Strict("scroll-snap-stop"))
      case "stroke" => Some(Color("stroke", "stroke"))
      case "stroke-width" => Some(Size("strokeWidth", "stroke", true, false))
      case _ => None)
    case 't' =>
      (match property
      case "table-layout" => Some(Strict("table-layout"))
      case "text-align" => Some(Strict("text-align"))
      case "text-decoration" => Some(NoClasses)
      case "text-decoration-color" => Some(Color("textDecorationColor", "decoration"))
      case "text-decoration-line" => Some(Strict("text-decoration-line"))
      case "text-decoration-style" => Some(Strict("text-decoration-style"))
      case "text-decoration-thickness" => Some(Size("textDecorationThickness", "decoration", true, false))
      case "text-indent" => Some(Size("textIndent", "indent", true, true))
      case "text-overflow" => Some(Strict("text-overflow"))
      case "text-transform" => Some(Strict("text-transform"))
      case "text-underline-offset" => Some(Size("textUnderlineOffset", "underline-offset", true, false))
      case "top" => Some(Size("inset", "top", true, true))
      case "touch-action" => Some(Strict("touch-action"))
      case "transform" => Some(Functions(Transform))
      case "transform-origin" => Some(Plain("transformOrigin", "origin"))
      case "transition" => Some(NoClasses)
      case "transition-delay" => Some(Plain("transitionDelay", "delay"))
      case "transition-duration" => Some(Plain("transitionDuration", "duration"))
      case "transition-property" => Some(Plain("transitionProperty", "transition"))
      case "transition-timing-function" => Some(Plain("transitionTimingFunction", "ease"))
      case _ => None)
    case 'u' =>
      (match property
      case "user-select" => Some(Strict("user-select"))
      case _ => None)
    case 'v' =>
      (match property
      case "vertical-align" => Some(Strict("vertical-align"))
      case "visibility" => Some(Strict("visibility"))
      case _ => None)
    case 'w' =>
      (match property
      case "white-space" => Some(Strict("white-space"))
      case "width" => Some(Size("width", "w", true, false))
      case "will-change" => Some(Plain("willChange", "will-change"))
      case "word-break" => Some(Strict("word-break"))
      case _ => None)
    case 'z' =>
      (match property
      case "z-index" => Some(Size("zIndex", "z", false, true))
      case _ => None)
    case _ => None
  }

  /** The four sides of a composed spacing entry: one theme table, four prefixes. */
  function SpacingOf(valuesMap: ValuesMap, top: string, right: string, bottom: string, left: string): SpacingMapping {
    SpacingMapping(SideTarget(valuesMap, top), SideTarget(valuesMap, right),
                   SideTarget(valuesMap, bottom), SideTarget(valuesMap, left))
  }

  /**
   * The most classes an entry of each kind can produce for a value of `words` words. A
   * function list yields at most one class per word, and the lists that delete the used
   * entry at most one per entry of their nine.
   */
  function MaxClasses(conv: Converter, words: nat): nat {
    match conv
    case Color(_, _) => 1
    case Strict(_) => 1
    case Plain(_, _) => 1
    case Size(_, _, _, _) => 1
    case Border(_) => 3
    case Composed(_, _, _, _, _) => 4
    case Functions(list) => if list == Filter || words < 9 then words else 9
    case NoClasses => 0
  }

  /**
   * The classes an entry produces for a declaration value: exactly one for a colour, plain
   * or size entry, at most one for a utility entry, and never more than `MaxClasses`.
   */
  function ConverterClasses(conv: Converter, value: string, env: Env): (r: seq<string>)
    ensures |r| <= MaxClasses(conv, |Words(value)|)
    ensures conv.Color? || conv.Plain? || conv.Size? ==> |r| == 1
    ensures conv.NoClasses? ==> r == []
  {
    match conv
    case Color(k, p) => ConvertColorDeclarationValue(value, env.theme(k), p, env)
    case Strict(u) => StrictConvertDeclarationValue(value, env.utilities(u))
    case Plain(k, p) => ConvertDeclarationValue(value, env.theme(k), p, value, p, env.normalizeValue)
    case Size(k, p, rem, neg) =>
      ConvertSizeDeclarationValue(value, env.theme(k), p, if rem then env.remInPx else None, neg, env)
    case Border(p) => BorderClasses(value, env, p)
    case Composed(k, t, r, b, l) =>
      SpacingClassesOfFour(SideValues(ParseComposedSpacingValue(value)), SideTargets(SpacingOf(env.theme(k), t, r, b, l)), env.remInPx, env);
      ComposedSpacingClasses(value, SpacingOf(env.theme(k), t, r, b, l), env.remInPx, env)
    case Functions(list) =>
      EntryClassesBound(list, value, env);
      EntryClasses(list, value, env)
    case NoClasses => []
  }

  /** The classes the table gives a declaration, `None` when the property has no entry. */
  function DeclarationClasses(property: string, value: string, env: Env): Option<seq<string>> {
    match DeclarationConverter(property)
    case None => None
    case Some(conv) => Some(ConverterClasses(conv, value, env))
  }

  /** Looking a declaration up in the table and running the entry it finds. */
  method ConvertDeclaration(property: string, value: string, env: Env) returns (classes: Option<seq<string>>)
    ensures classes == DeclarationClasses(property, value, env)
  {
    var conv := DeclarationConverter(property);
    if conv.None? {
      return None;
    }
    var c := conv.value;
    var result: seq<string>;
    match c {
      case Border(p) =>
        result := ConvertBorderDeclaration(value, env, p);
      case Composed(k, t, r, b, l) =>
        result := ConvertComposedSpacingDeclarationValue(value, SpacingOf(env.theme(k), t, r, b, l), env.remInPx, env);
      case Functions(list) =>
        result := ConvertFunctionList(EntryRemoval(list), list, value, env);
      case _ =>
        result := ConverterClasses(c, value, env);
    }
    classes := Some(result);
  }

  const MarginLonghands: seq<string> :=
    ["margin-top", "margin-right", "margin-bottom", "margin-left",
     "scroll-margin-top", "scroll-margin-right", "scroll-margin-bottom", "scroll-margin-left"]

  const PaddingLonghands: seq<string> :=
    ["padding-top", "padding-right", "padding-bottom", "padding-left",
     "scroll-padding-top", "scroll-padding-right", "scroll-padding-bottom", "scroll-padding-left"]

  /** The margin longhands convert as sizes with the sign handling on. */
  lemma SignedLonghands()
    ensures forall p | p in MarginLonghands ::
              DeclarationConverter(p).Some? && DeclarationConverter(p).value.Size?
              && DeclarationConverter(p).value.supportsNegativeValues && DeclarationConverter(p).value.usesRemInPx
  {
    assert DeclarationConverter("margin-top") == Some(Size("margin", "mt", true, true));
    assert DeclarationConverter("margin-right") == Some(Size("margin", "mr", true, true));
    assert DeclarationConverter("margin-bottom") == Some(Size("margin", "mb", true, true));
    assert DeclarationConverter("margin-left") == Some(Size("margin", "ml", true, true));
    assert DeclarationConverter("scroll-margin-top") == Some(Size("scrollMargin", "scroll-mt", true, true));
    assert DeclarationConverter("scroll-margin-right") == Some(Size("scrollMargin", "scroll-mr", true, true));
    assert DeclarationConverter("scroll-margin-bottom") == Some(Size("scrollMargin", "scroll-mb", true, true));
    assert DeclarationConverter("scroll-margin-left") == Some(Size("scrollMargin", "scroll-ml", true, true));
  }

  /** The padding longhands convert as sizes with the sign handling off. */
  lemma UnsignedLonghands()
    ensures forall p | p in PaddingLonghands ::
              DeclarationConverter(p).Some? && DeclarationConverter(p).value.Size?
              && !DeclarationConverter(p).value.supportsNegativeValues && DeclarationConverter(p).value.usesRemInPx
  {
    assert DeclarationConverter("padding-top") == Some(Size("padding", "pt", true, false));
    assert DeclarationConverter("padding-right") == Some(Size("padding", "pr", true, false));
    assert DeclarationConverter("padding-bottom") == Some(Size("padding", "pb", true, false));
    assert DeclarationConverter("padding-left") == Some(Size("padding", "pl", true, false));
    assert DeclarationConverter("scroll-padding-top") == Some(Size("scrollPadding", "scroll-pt", true, false));
    assert DeclarationConverter("scroll-padding-right") == Some(Size("scrollPadding", "scroll-pr", true, false));
    assert DeclarationConverter("scroll-padding-bottom") == Some(Size("scrollPadding", "scroll-pb", true, false));
    assert DeclarationConverter("scroll-padding-left") == Some(Size("scrollPadding", "scroll-pl", true, false));
  }

  /** `margin-top: -<v>` with `<v>` in the margin table gives the negated theme class `-mt-<token>`. */
  lemma NegativeMarginTop(value: string, env: Env)
    requires var n := env.normalizeSizeValue(value, env.remInPx);
             StartsWith(n, "-") && Hit(env.theme("margin"), n[1..])
    ensures var n := env.normalizeSizeValue(value, env.remInPx);
            DeclarationClasses("margin-top", value, env)
            == Some(["-" + ThemeClass("mt", Get(env.theme("margin"), n[1..]).value)])
  {
    assert DeclarationConverter("margin-top") == Some(Size("margin", "mt", true, true));
  }

  /** `padding-top` looks the signed value up as it is: a negative padding never yields `-pt-…`. */
  lemma PaddingTopKeepsSign(value: string, env: Env)
    ensures var n := env.normalizeSizeValue(value, env.remInPx);
            DeclarationClasses("padding-top", value, env)
            == Some(ConvertDeclarationValue(n, env.theme("padding"), "pt", value, "pt", env.normalizeValue))
  {
    assert DeclarationConverter("padding-top") == Some(Size("padding", "pt", true, false));
  }

  /** `flex-flow`, `grid`, `text-decoration` and `transition` never yield a class. */
  lemma NoClassesEntries(value: string, env: Env)
    ensures forall p | p in ["flex-flow", "grid", "text-decoration", "transition"] :: DeclarationClasses(p, value, env) == Some([])
  {
    assert DeclarationConverter("flex-flow") == Some(NoClasses);
    assert DeclarationConverter("grid") == Some(NoClasses);
    assert DeclarationConverter("text-decoration") == Some(NoClasses);
    assert DeclarationConverter("transition") == Some(NoClasses);
  }

  /**
   * The `margin` shorthand with one to four values gives one class per side, in the order
   * `mt`, `mr`, `mb`, `ml`, each the signed size class of that side's box-model value.
   */
  lemma MarginShorthand(values: seq<string>, env: Env)
    requires 1 <= |values| <= 4
    requires forall k | 0 <= k < |values| :: values[k] != "" && NoSpace(values[k])
    ensures var b := BoxSides(values);
            var m := env.theme("margin");
            DeclarationClasses("margin", Join(values, " "), env)
            == Some(ConvertSizeDeclarationValue(b.top, m, "mt", env.remInPx, true, env)
                    + ConvertSizeDeclarationValue(b.right, m, "mr", env.remInPx, true, env)
                    + ConvertSizeDeclarationValue(b.bottom, m, "mb", env.remInPx, true, env)
                    + ConvertSizeDeclarationValue(b.left, m, "ml", env.remInPx, true, env))
  {
    MarginEntry(Join(values, " "), env);
    var mapping := SpacingOf(env.theme("margin"), "mt", "mr", "mb", "ml");
    ComposedSidesInOrder(values, mapping, env.remInPx, env);
    FourValueRule(values);
  }

  lemma MarginEntry(value: string, env: Env)
    ensures DeclarationClasses("margin", value, env)
            == Some(ComposedSpacingClasses(value, SpacingOf(env.theme("margin"), "mt", "mr", "mb", "ml"), env.remInPx, env))
  {
    assert DeclarationConverter("margin") == Some(Composed("margin", "mt", "mr", "mb", "ml"));
  }
}
