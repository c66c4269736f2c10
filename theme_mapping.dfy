/**
 * `converterMappingByTailwindTheme`: the lookup tables the converters read, built from the
 * resolved theme. Every section becomes a table from a CSS value to a theme token: font
 * sizes by their size, screens by their media query, colours by their hex form, sizes by
 * their normalised (and optionally px-converted) value, and every other section by the
 * text of its values.
 */
module ThemeMapping {
  import opened Wrappers
  import opened JsStrings
  import opened OrderedMap
  import opened CssValues
  import opened JsObjects
  import opened MediaQueries

  /**
   * What the conversion reads besides the theme: `remInPx` (`None` for `null` and
   * `undefined`), the printed product `number * remInPx` behind `remValueToPx` (floating
   * point, a parameter), and `colord(color).toHex()`, `None` when `colord` finds the colour
   * invalid.
   */
  datatype Settings = Settings(remInPx: Option<real>, pxOf: (string, real) -> string, hexOf: string -> Option<string>)

  /** `remValueToPx(_, remInPx)`'s product, for one `remInPx`. */
  function Px(settings: Settings, remInPx: real): string -> string {
    (n: string) => settings.pxOf(n, remInPx)
  }

  // ---------------------------------------------------------------------------------------
  // isColorKey, isSizeKey

  /** `isColorKey`: `fill`, `stroke`, or a key whose lower-case form mentions `color`. */
  predicate IsColorKey(key: string) {
    key == "fill" || key == "stroke" || Contains(ToLowerAscii(key), "color")
  }

  const SizeKeys: seq<string> := [
    "backdropBlur", "backgroundSize", "blur", "borderRadius", "borderSpacing", "borderWidth",
    "columns", "divideWidth", "flexBasis", "gap", "height", "inset", "letterSpacing",
    "lineHeight", "margin", "maxHeight", "maxWidth", "minHeight", "minWidth", "outlineOffset",
    "outlineWidth", "padding", "ringOffsetWidth", "ringWidth", "scrollMargin", "scrollPadding",
    "space", "spacing", "strokeWidth", "textDecorationThickness", "textUnderlineOffset",
    "translate", "width"]

  /** `isSizeKey` */
  predicate IsSizeKey(key: string) {
    key in SizeKeys
  }

  /** The sections the mapping leaves out. */
  predicate Skipped(key: string) {
    key == "keyframes" || key == "container" || key == "fontFamily"
  }

  // ---------------------------------------------------------------------------------------
  // Reading a theme section

  /**
   * `Object.keys(section)` with each key's value: the entries of an object or array;
   * `None` where it throws, on `null` and `undefined`.
   */
  function SectionEntries(section: JsValue): (r: Option<Dict<JsValue>>)
    ensures r.None? <==> section.Null?
  {
    match section
    case Obj(entries, _) => Some(entries)
    case Null => None
    case _ => Some([])
  }

  // ---------------------------------------------------------------------------------------
  // convertFontSizes

  /**
   * The value `convertFontSizes` stores for one font size: the first element of a tuple,
   * converted to px when `remInPx` is given (`!= null`, so `0` too); `None` where
   * `remValueToPx` throws because the value is not a string.
   */
  function FontSizeValue(value: JsValue, settings: Settings): (r: Option<JsValue>)
    ensures settings.remInPx.None? ==> r.Some?
  {
    var size :=
      if value.Obj? && value.isArray then
        match Get(value.entries, "0") case Some(first) => first case None => Null
      else value;
    if settings.remInPx.None? then Some(size)
    else if size.Str? then Some(Str(RemValueToPx(size.s, Px(settings, settings.remInPx.value))))
    else None
  }

  /** The flat object of `convertFontSizes`, before inversion; `None` when a value throws. */
  function FontSizeWrites(fontSizes: Dict<JsValue>, settings: Settings): (r: Option<Dict<JsValue>>)
    ensures r.Some? ==> |r.value| == |fontSizes|
    decreases |fontSizes|
  {
    if fontSizes == [] then Some([])
    else
      var n := |fontSizes| - 1;
      match FontSizeWrites(fontSizes[..n], settings)
      case None => None
      case Some(writes) =>
        match FontSizeValue(fontSizes[n].1, settings)
        case None => None
        case Some(v) => Some(writes + [(fontSizes[n].0, v)])
  }

  /** The flat object of `convertFontSizes`, each size written in turn. */
  function FontSizeFlat(fontSizes: Dict<JsValue>, settings: Settings): Option<Dict<JsValue>> {
    match FontSizeWrites(fontSizes, settings)
    case None => None
    case Some(writes) => Some(PutAll([], writes))
  }

  /** `convertFontSizes(fontSizes, remInPx)`: the inverted flat object. */
  function FontSizeTable(fontSizes: Dict<JsValue>, settings: Settings): Option<Dict<string>> {
    match FontSizeFlat(fontSizes, settings)
    case None => None
    case Some(flatObject) => Invert(flatObject)
  }

  method ConvertFontSizes(fontSizes: Dict<JsValue>, settings: Settings) returns (table: Option<Dict<string>>)
    ensures table == FontSizeTable(fontSizes, settings)
  {
    var flatObject := FlattenFontSizes(fontSizes, settings);
    if flatObject.None? {
      return None;
    }
    table := InvertObject(flatObject.value);
  }

  /** The loop of `convertFontSizes` that fills the flat object. */
  method FlattenFontSizes(fontSizes: Dict<JsValue>, settings: Settings) returns (r: Option<Dict<JsValue>>)
    ensures r == FontSizeFlat(fontSizes, settings)
  {
    var flatObject: Dict<JsValue> := [];
    for i := 0 to |fontSizes|
      invariant FontSizeWrites(fontSizes[..i], settings).Some?
      invariant flatObject == PutAll([], FontSizeWrites(fontSizes[..i], settings).value)
    {
      var (key, value) := fontSizes[i];
      ghost var before := FontSizeWrites(fontSizes[..i], settings).value;
      FontSizeWritesStep(fontSizes, i, settings);
      var converted := FontSizeValue(value, settings);
      if converted.None? {
        FontSizeFails(fontSizes, i + 1, settings);
        return None;
      }
      PutAllSnoc([], before, key, converted.value);
      flatObject := Put(flatObject, key, converted.value);
      assert FontSizeWrites(fontSizes[..i + 1], settings) == Some(before + [(key, converted.value)]);
    }
    assert fontSizes[..|fontSizes|] == fontSizes;
    r := Some(flatObject);
  }

  /** One more font size appends its write, or throws. */
  lemma FontSizeWritesStep(fontSizes: Dict<JsValue>, i: nat, settings: Settings)
    requires i < |fontSizes|
    ensures FontSizeWrites(fontSizes[..i + 1], settings)
            == match FontSizeWrites(fontSizes[..i], settings)
               case None => None
               case Some(writes) =>
                 match FontSizeValue(fontSizes[i].1, settings)
                 case None => None
                 case Some(v) => Some(writes + [(fontSizes[i].0, v)])
  {
    assert fontSizes[..i + 1][..i] == fontSizes[..i];
  }

  /** A font size that throws makes the whole conversion throw. */
  lemma {:induction false} FontSizeFails(fontSizes: Dict<JsValue>, n: nat, settings: Settings)
    requires n <= |fontSizes| && FontSizeWrites(fontSizes[..n], settings).None?
    ensures FontSizeWrites(fontSizes, settings).None?
    decreases |fontSizes| - n
  {
    if n < |fontSizes| {
      assert fontSizes[..n + 1][..n] == fontSizes[..n];
      FontSizeFails(fontSizes, n + 1, settings);
    } else {
      assert fontSizes[..n] == fontSizes;
    }
  }

  /**
   * A tuple font size is looked up by its first element: `['1rem', {lineHeight}]` and the
   * plain `'1rem'` give the same flat value.
   */
  lemma TupleFirst(size: string, rest: Dict<JsValue>, settings: Settings)
    ensures FontSizeValue(Obj([("0", Str(size))] + rest, true), settings) == FontSizeValue(Str(size), settings)
  {
  }

  // ---------------------------------------------------------------------------------------
  // convertScreens

  /** A field of a screen object, when its value is truthy, as the text it prints. */
  function Field(screen: Dict<JsValue>, name: string): (r: Option<string>)
    ensures r.Some? <==> Get(screen, name).Some? && Truthy(Get(screen, name).value)
    ensures r.Some? ==> r.value == TextOf(Get(screen, name).value)
  {
    match Get(screen, name)
    case Some(v) => if Truthy(v) then Some(TextOf(v)) else None
    case None => None
  }

  /** A screen object's `raw`, `min` and `max`; `None` where the `in` test throws, on a primitive. */
  function ScreenOf(value: JsValue): Option<Screen> {
    if value.Obj? then Some(Screen(Field(value.entries, "raw"), Field(value.entries, "min"), Field(value.entries, "max")))
    else None
  }

  /** An empty string counts as no width at all, while an empty array is truthy and prints as nothing. */
  lemma EmptyScreenFields()
    ensures ScreenOf(Obj([("min", Str(""))], false)) == Some(Screen(None, None, None))
    ensures ScreenOf(Obj([("min", Obj([], true))], false)) == Some(Screen(None, Some(""), None))
  {
  }

  /** The screens of a list, `None` when one of them is not an object. */
  function ScreensOf(items: Dict<JsValue>): (r: Option<seq<Screen>>)
    ensures r.Some? ==> |r.value| == |items|
    decreases |items|
  {
    if items == [] then Some([])
    else
      var n := |items| - 1;
      match ScreensOf(items[..n])
      case None => None
      case Some(screens) =>
        match ScreenOf(items[n].1)
        case None => None
        case Some(screen) => Some(screens + [screen])
  }

  /** `buildMediaQueryByScreen(screens[key])` on a configuration value; `None` where it throws. */
  function ScreenQueryOf(value: JsValue): Option<string> {
    match value
    case Str(s) => Some(BuildMediaQueryByScreen(ScreenText(s)))
    case Obj(entries, isArray) =>
      if isArray then
        match ScreensOf(entries)
        case None => None
        case Some(screens) => Some(BuildMediaQueryByScreen(ScreenList(screens)))
      else Some(BuildMediaQueryByScreen(OneScreen(ScreenOf(value).value)))
    case _ => None
  }

  /** The writes of `convertScreens`: each screen's query mapped to its name. */
  function ScreenWrites(screens: Dict<JsValue>): (r: Option<Dict<string>>)
    ensures r.Some? ==> |r.value| == |screens| && forall i | 0 <= i < |screens| :: r.value[i].1 == screens[i].0
    decreases |screens|
  {
    if screens == [] then Some([])
    else
      var n := |screens| - 1;
      match ScreenWrites(screens[..n])
      case None => None
      case Some(writes) =>
        match ScreenQueryOf(screens[n].1)
        case None => None
        case Some(q) => Some(writes + [(q, screens[n].0)])
  }

  /** `convertScreens(screens)`: empty for an array configuration. */
  function ScreenTable(screens: JsValue): Option<Dict<string>> {
    if screens.Obj? && screens.isArray then Some([])
    else
      match SectionEntries(screens)
      case None => None
      case Some(entries) =>
        match ScreenWrites(entries)
        case None => None
        case Some(writes) => Some(PutAll([], writes))
  }

  method ConvertScreens(screens: JsValue) returns (table: Option<Dict<string>>)
    ensures table == ScreenTable(screens)
  {
    if screens.Obj? && screens.isArray {
      return Some([]);
    }
    var entries := SectionEntries(screens);
    if entries.None? {
      return None;
    }
    var converted: Dict<string> := [];
    var keys := entries.value;
    for i := 0 to |keys|
      invariant ScreenWrites(keys[..i]).Some?
      invariant converted == PutAll([], ScreenWrites(keys[..i]).value)
    {
      var (key, value) := keys[i];
      assert keys[..i + 1][..i] == keys[..i];
      var query := ScreenQueryOf(value);
      if query.None? {
        ScreenFails(keys, i + 1);
        return None;
      }
      PutAllSnoc([], ScreenWrites(keys[..i]).value, query.value, key);
      converted := Put(converted, query.value, key);
    }
    assert keys[..|keys|] == keys;
    table := Some(converted);
  }

  lemma {:induction false} ScreenFails(screens: Dict<JsValue>, n: nat)
    requires n <= |screens| && ScreenWrites(screens[..n]).None?
    ensures ScreenWrites(screens).None?
    decreases |screens| - n
  {
    if n < |screens| {
      assert screens[..n + 1][..n] == screens[..n];
      ScreenFails(screens, n + 1);
    } else {
      assert screens[..n] == screens;
    }
  }

  /** Every value of the screens table is a screen name. */
  lemma ScreenTableNames(screens: JsValue)
    requires ScreenTable(screens).Some?
    ensures SectionEntries(screens).Some?
    ensures forall i | 0 <= i < |ScreenTable(screens).value| :: ScreenTable(screens).value[i].1 in Keys(SectionEntries(screens).value)
  {
    if !(screens.Obj? && screens.isArray) {
      var entries := SectionEntries(screens).value;
      var writes := ScreenWrites(entries).value;
      forall i | 0 <= i < |writes|
        ensures writes[i].1 in Keys(entries)
      {
        assert Keys(entries)[i] == entries[i].0;
      }
      PutAllValues([], writes, (k: string) => k in Keys(entries));
    }
  }

  /** A screen given as a width is found under its `min-width` query. */
  lemma ScreenWidthFound(name: string, width: string, screens: Dict<JsValue>)
    requires ScreenTable(Obj(screens + [(name, Str(width))], false)).Some?
    ensures Get(ScreenTable(Obj(screens + [(name, Str(width))], false)).value, MinWidth(width)) == Some(name)
  {
    var all := screens + [(name, Str(width))];
    assert all[..|screens|] == screens;
    var writes := ScreenWrites(all).value;
    assert writes[|screens|] == (MinWidth(width), name);
    assert writes == writes[..|screens|] + [(MinWidth(width), name)];
    PutAllSnoc([], writes[..|screens|], MinWidth(width), name);
    GetPut(PutAll([], writes[..|screens|]), MinWidth(width), name, MinWidth(width));
  }

  // ---------------------------------------------------------------------------------------
  // convertColors

  /** The key a colour gets: its hex form when `colord` reads it, else its own text. */
  function ColorKey(color: string, settings: Settings): string {
    match settings.hexOf(color)
    case Some(hex) => hex
    case None => color
  }

  /** The key `convertColors` writes for one flat colour; `None` for `null` and empty colours, which it skips. */
  function ColorEntry(value: JsValue, settings: Settings): Option<string> {
    var color := ToText(value);
    if color.Some? && color.value != "" then Some(ColorKey(color.value, settings)) else None
  }

  /** The writes of `convertColors` over the flat colours. */
  function ColorWrites(flatColors: Dict<JsValue>, settings: Settings): (r: Dict<string>)
    ensures |r| <= |flatColors|
    ensures forall i | 0 <= i < |r| :: r[i].1 in Keys(flatColors)
    decreases |flatColors|
  {
    if flatColors == [] then []
    else
      var n := |flatColors| - 1;
      var writes := ColorWrites(flatColors[..n], settings);
      assert Keys(flatColors[..n]) == Keys(flatColors)[..n];
      assert flatColors[n].0 == Keys(flatColors)[n];
      match ColorEntry(flatColors[n].1, settings)
      case Some(key) => writes + [(key, flatColors[n].0)]
      case None => writes
  }

  /** The colours a theme section flattens to; a section that is not an object has none. */
  function FlatColors(colors: JsValue): Dict<JsValue> {
    if colors.Obj? then Flatten(colors, DefaultSeparator) else []
  }

  /** `convertColors(colors)` */
  function ColorTable(colors: JsValue, settings: Settings): Dict<string> {
    PutAll([], ColorWrites(FlatColors(colors), settings))
  }

  method ConvertColors(colors: JsValue, settings: Settings) returns (result: Dict<string>)
    ensures result == ColorTable(colors, settings)
  {
    var flatColors: Dict<JsValue> := [];
    if colors.Obj? {
      flatColors := FlattenObject(colors, DefaultSeparator);
    }
    result := [];
    for i := 0 to |flatColors|
      invariant result == PutAll([], ColorWrites(flatColors[..i], settings))
    {
      var (colorName, value) := flatColors[i];
      ghost var before := ColorWrites(flatColors[..i], settings);
      ColorWritesStep(flatColors, i, settings);
      var key := ColorEntry(value, settings);
      if key.Some? {
        PutAllSnoc([], before, key.value, colorName);
        result := Put(result, key.value, colorName);
        assert ColorWrites(flatColors[..i + 1], settings) == before + [(key.value, colorName)];
      } else {
        assert ColorWrites(flatColors[..i + 1], settings) == before;
      }
    }
    assert flatColors[..|flatColors|] == flatColors;
  }

  /** One more colour appends its write, if it makes one. */
  lemma ColorWritesStep(flatColors: Dict<JsValue>, i: nat, settings: Settings)
    requires i < |flatColors|
    ensures ColorWrites(flatColors[..i + 1], settings)
            == ColorWrites(flatColors[..i], settings)
               + (if ColorEntry(flatColors[i].1, settings).Some? then [(ColorEntry(flatColors[i].1, settings).value, flatColors[i].0)] else [])
  {
    assert flatColors[..i + 1][..i] == flatColors[..i];
  }

  /** Every value of the colour table is a flattened colour name such as `red-500`. */
  lemma ColorTableNames(colors: JsValue, settings: Settings)
    ensures forall i | 0 <= i < |ColorTable(colors, settings)| :: ColorTable(colors, settings)[i].1 in Keys(FlatColors(colors))
  {
    PutAllValues([], ColorWrites(FlatColors(colors), settings), (k: string) => k in Keys(FlatColors(colors)));
  }

  /** A colour that `colord` reads is found under its hex form, and one it rejects under its own text. */
  lemma ColorFound(flatColors: Dict<JsValue>, colorName: string, color: string, settings: Settings)
    requires color != ""
    ensures var table := PutAll([], ColorWrites(flatColors + [(colorName, Str(color))], settings));
            match settings.hexOf(color)
            case Some(hex) => Get(table, hex) == Some(colorName)
            case None => Get(table, color) == Some(colorName)
  {
    var all := flatColors + [(colorName, Str(color))];
    assert all[..|flatColors|] == flatColors;
    var before := ColorWrites(flatColors, settings);
    var key := ColorKey(color, settings);
    assert ColorWrites(all, settings) == before + [(key, colorName)];
    PutAllSnoc([], before, key, colorName);
    GetPut(PutAll([], before), key, colorName, key);
  }

  /** `null`, `undefined` and empty colours add nothing to the table. */
  lemma EmptyColorSkipped(flatColors: Dict<JsValue>, colorName: string, value: JsValue, settings: Settings)
    requires value.Null? || value == Str("")
    ensures ColorWrites(flatColors + [(colorName, value)], settings) == ColorWrites(flatColors, settings)
  {
    assert (flatColors + [(colorName, value)])[..|flatColors|] == flatColors;
  }

  // ---------------------------------------------------------------------------------------
  // convertSizes

  /** The key a size gets: converted to px when `remInPx` is truthy (not `0`), then normalised. */
  function SizeKey(size: string, settings: Settings): string {
    var rem := settings.remInPx;
    NormalizeNumberValue(if rem.Some? && rem.value != 0.0 then RemValueToPx(size, Px(settings, rem.value)) else size)
  }

  /** The key `convertSizes` writes for one size; `None` for `null` and empty sizes, which it skips. */
  function SizeEntry(value: JsValue, settings: Settings): (r: Option<string>)
    ensures r.Some? ==> !StartsWithFraction(Trim(r.value))
  {
    var size := ToText(value);
    if size.Some? && size.value != "" then
      var rem := settings.remInPx;
      NormalizedHasNoBareFraction(if rem.Some? && rem.value != 0.0 then RemValueToPx(size.value, Px(settings, rem.value)) else size.value);
      Some(SizeKey(size.value, settings))
    else None
  }

  /** The writes of `convertSizes`. */
  function SizeWrites(sizes: Dict<JsValue>, settings: Settings): (r: Dict<string>)
    ensures |r| <= |sizes|
    ensures forall i | 0 <= i < |r| :: r[i].1 in Keys(sizes)
    decreases |sizes|
  {
    if sizes == [] then []
    else
      var n := |sizes| - 1;
      var writes := SizeWrites(sizes[..n], settings);
      assert Keys(sizes[..n]) == Keys(sizes)[..n];
      assert sizes[n].0 == Keys(sizes)[n];
      match SizeEntry(sizes[n].1, settings)
      case Some(key) => writes + [(key, sizes[n].0)]
      case None => writes
  }

  lemma {:induction false} SizeWritesNormalized(sizes: Dict<JsValue>, settings: Settings)
    ensures forall i | 0 <= i < |SizeWrites(sizes, settings)| :: !StartsWithFraction(Trim(SizeWrites(sizes, settings)[i].0))
    decreases |sizes|
  {
    if sizes != [] {
      var n := |sizes| - 1;
      SizeWritesNormalized(sizes[..n], settings);
    }
  }

  /** `convertSizes(sizes, remInPx)`; `None` where `Object.keys` throws. */
  function SizeTable(sizes: JsValue, settings: Settings): Option<Dict<string>> {
    match SectionEntries(sizes)
    case None => None
    case Some(entries) => Some(PutAll([], SizeWrites(entries, settings)))
  }

  method ConvertSizes(sizes: JsValue, settings: Settings) returns (table: Option<Dict<string>>)
    ensures table == SizeTable(sizes, settings)
  {
    var entries := SectionEntries(sizes);
    if entries.None? {
      return None;
    }
    var keys := entries.value;
    var result: Dict<string> := [];
    for i := 0 to |keys|
      invariant result == PutAll([], SizeWrites(keys[..i], settings))
    {
      var (sizeName, value) := keys[i];
      ghost var before := SizeWrites(keys[..i], settings);
      SizeWritesStep(keys, i, settings);
      var convertedSize := SizeEntry(value, settings);
      if convertedSize.Some? {
        PutAllSnoc([], before, convertedSize.value, sizeName);
        result := Put(result, convertedSize.value, sizeName);
        assert SizeWrites(keys[..i + 1], settings) == before + [(convertedSize.value, sizeName)];
      } else {
        assert SizeWrites(keys[..i + 1], settings) == before;
      }
    }
    assert keys[..|keys|] == keys;
    table := Some(result);
  }

  /** One more size appends its write, if it makes one. */
  lemma SizeWritesStep(sizes: Dict<JsValue>, i: nat, settings: Settings)
    requires i < |sizes|
    ensures SizeWrites(sizes[..i + 1], settings)
            == SizeWrites(sizes[..i], settings)
               + (if SizeEntry(sizes[i].1, settings).Some? then [(SizeEntry(sizes[i].1, settings).value, sizes[i].0)] else [])
  {
    assert sizes[..i + 1][..i] == sizes[..i];
  }

  /** No key of a size table starts with a bare fraction such as `.5rem`, and every value is a size name. */
  lemma SizeTableKeys(sizes: JsValue, settings: Settings)
    requires SizeTable(sizes, settings).Some?
    ensures var t := SizeTable(sizes, settings).value;
            forall i | 0 <= i < |t| :: !StartsWithFraction(Trim(t[i].0)) && t[i].1 in Keys(SectionEntries(sizes).value)
  {
    var entries := SectionEntries(sizes).value;
    var writes := SizeWrites(entries, settings);
    SizeWritesNormalized(entries, settings);
    var t := PutAll([], writes);
    forall i | 0 <= i < |t|
      ensures !StartsWithFraction(Trim(t[i].0))
    {
      assert Keys(t)[i] == t[i].0;
      PutAllKeys([], writes, t[i].0);
      var j :| 0 <= j < |writes| && Keys(writes)[j] == t[i].0;
    }
    PutAllValues([], writes, (k: string) => k in Keys(entries));
  }

  /**
   * `remInPx: 0` converts font sizes (`remInPx != null`) but not other sizes (`remInPx` is
   * falsy): the two tests of the source disagree on zero.
   */
  lemma ZeroRemInPx(settings: Settings, n: string)
    requires settings.remInPx == Some(0.0) && IsRemNumber(n) && IsDigit(n[0])
    ensures FontSizeValue(Str(n + "rem"), settings) == Some(Str(settings.pxOf(n, 0.0) + "px"))
    ensures SizeKey(n + "rem", settings) == n + "rem"
  {
    var t := n + "rem";
    assert t[0] == n[0] && t[|t| - 1] == 'm';
    TrimAround("", t, "");
    assert "" + t + "" == t;
    RemOfTrimmed(t, n, Px(settings, 0.0));
  }

  // ---------------------------------------------------------------------------------------
  // converterMappingByTailwindTheme

  /** The table of one theme section, in the order the source tests the key; `None` where it throws. */
  function SectionTable(key: string, section: JsValue, settings: Settings): Option<Dict<string>> {
    if key == "fontSize" then
      match SectionEntries(section)
      case None => None
      case Some(entries) => FontSizeTable(entries, settings)
    else if key == "screens" then ScreenTable(section)
    else if IsColorKey(key) then Some(ColorTable(section, settings))
    else if IsSizeKey(key) then SizeTable(section, settings)
    else
      match SectionEntries(section)
      case None => None
      case Some(entries) => Invert(entries)
  }

  /** The writes of the mapping: each section's table under its key, the skipped sections left out. */
  function MappingWrites(theme: Dict<JsValue>, settings: Settings): (r: Option<Dict<Dict<string>>>)
    ensures r.Some? ==> forall i | 0 <= i < |r.value| :: r.value[i].0 in Keys(theme) && !Skipped(r.value[i].0)
    decreases |theme|
  {
    if theme == [] then Some([])
    else
      var n := |theme| - 1;
      var (key, section) := theme[n];
      assert key == Keys(theme)[n];
      match MappingWrites(theme[..n], settings)
      case None => None
      case Some(writes) =>
        assert forall i | 0 <= i < |writes| :: writes[i].0 in Keys(theme) by {
          assert Keys(theme[..n]) == Keys(theme)[..n];
        }
        if Skipped(key) then Some(writes)
        else
          match SectionTable(key, section, settings)
          case None => None
          case Some(table) => Some(writes + [(key, table)])
  }

  /** `converterMappingByTailwindTheme(theme, remInPx)`: empty for an undefined theme. */
  function Mapping(theme: Option<Dict<JsValue>>, settings: Settings): Option<Dict<Dict<string>>> {
    match theme
    case None => Some([])
    case Some(sections) =>
      match MappingWrites(sections, settings)
      case None => None
      case Some(writes) => Some(PutAll([], writes))
  }

  method ConverterMappingByTailwindTheme(theme: Option<Dict<JsValue>>, settings: Settings)
    returns (converterMapping: Option<Dict<Dict<string>>>)
    ensures converterMapping == Mapping(theme, settings)
  {
    if theme.None? {
      return Some([]);
    }
    var sections := theme.value;
    var mapping: Dict<Dict<string>> := [];
    for i := 0 to |sections|
      invariant MappingWrites(sections[..i], settings).Some?
      invariant mapping == PutAll([], MappingWrites(sections[..i], settings).value)
    {
      var (key, section) := sections[i];
      assert sections[..i + 1][..i] == sections[..i];
      ghost var writes := MappingWrites(sections[..i], settings).value;
      if Skipped(key) {
        continue;
      }
      var table;
      if key == "fontSize" {
        var entries := SectionEntries(section);
        if entries.None? {
          table := None;
        } else {
          table := ConvertFontSizes(entries.value, settings);
        }
      } else if key == "screens" {
        table := ConvertScreens(section);
      } else if IsColorKey(key) {
        var colors := ConvertColors(section, settings);
        table := Some(colors);
      } else if IsSizeKey(key) {
        table := ConvertSizes(section, settings);
      } else {
        var entries := SectionEntries(section);
        if entries.None? {
          table := None;
        } else {
          table := InvertObject(entries.value);
        }
      }
      assert table == SectionTable(key, section, settings);
      if table.None? {
        MappingFails(sections, i + 1, settings);
        return None;
      }
      PutAllSnoc([], writes, key, table.value);
      mapping := Put(mapping, key, table.value);
    }
    assert sections[..|sections|] == sections;
    converterMapping := Some(mapping);
  }

  lemma {:induction false} MappingFails(theme: Dict<JsValue>, n: nat, settings: Settings)
    requires n <= |theme| && MappingWrites(theme[..n], settings).None?
    ensures MappingWrites(theme, settings).None?
    decreases |theme| - n
  {
    if n < |theme| {
      assert theme[..n + 1][..n] == theme[..n];
      MappingFails(theme, n + 1, settings);
    } else {
      assert theme[..n] == theme;
    }
  }

  /** `keyframes`, `container` and `fontFamily` never get a table; every key of the mapping is a theme key. */
  lemma SkippedAbsent(theme: Dict<JsValue>, settings: Settings, key: string)
    requires Mapping(Some(theme), settings).Some?
    ensures key in Keys(Mapping(Some(theme), settings).value) ==> key in Keys(theme) && !Skipped(key)
  {
    var writes := MappingWrites(theme, settings).value;
    PutAllKeys([], writes, key);
    if key in Keys(writes) {
      var i :| 0 <= i < |writes| && Keys(writes)[i] == key;
    }
  }

  /** Every other section of a theme without repeated keys gets the table its key selects. */
  lemma SectionMapped(theme: Dict<JsValue>, settings: Settings, i: nat)
    requires Wf(theme) && i < |theme| && !Skipped(theme[i].0)
    requires Mapping(Some(theme), settings).Some?
    ensures SectionTable(theme[i].0, theme[i].1, settings).Some?
    ensures Get(Mapping(Some(theme), settings).value, theme[i].0) == SectionTable(theme[i].0, theme[i].1, settings)
  {
    assert theme[..|theme|] == theme;
    MappingWritesAt(theme, settings, |theme|, i);
    var writes := MappingWrites(theme, settings).value;
    GetPutAll([], writes, theme[i].0);
  }

  lemma {:induction false} MappingWritesAt(theme: Dict<JsValue>, settings: Settings, n: nat, i: nat)
    requires Wf(theme) && i < n <= |theme| && !Skipped(theme[i].0)
    requires MappingWrites(theme[..n], settings).Some?
    ensures SectionTable(theme[i].0, theme[i].1, settings).Some?
    ensures LastWrite(MappingWrites(theme[..n], settings).value, theme[i].0) == SectionTable(theme[i].0, theme[i].1, settings)
    decreases n
  {
    var prefix := theme[..n];
    assert prefix[..n - 1] == theme[..n - 1];
    assert prefix[n - 1] == theme[n - 1];
    if i < n - 1 {
      MappingWritesAt(theme, settings, n - 1, i);
      assert Keys(theme)[i] != Keys(theme)[n - 1];
    }
  }

  /** An undefined theme gives an empty mapping. */
  lemma NoTheme(settings: Settings)
    ensures Mapping(None, settings) == Some([])
  {
  }

  /** The five letters at `i` spell `color`, in any case. */
  predicate ColorAt(key: string, i: nat) {
    i + 5 <= |key| && ToLowerAscii(key[i..i + 5]) == "color"
  }

  /** A colour key is `fill`, `stroke`, or a key with the five letters of `color`, in any case, at some position. */
  lemma ColorKeyExactly(key: string)
    ensures IsColorKey(key) <==> key == "fill" || key == "stroke" || exists i: nat :: ColorAt(key, i)
  {
    var lower := ToLowerAscii(key);
    ContainsAt(lower, "color");
    forall i: nat
      ensures OccursAt(lower, "color", i) <==> ColorAt(key, i)
    {
      if i + 5 <= |key| {
        assert lower[i..i + 5] == ToLowerAscii(key[i..i + 5]);
      }
    }
  }

  /** Without an `l` in any case, a key other than `fill` and `stroke` is not a colour key. */
  lemma NoLetterL(key: string)
    requires forall i | 0 <= i < |key| :: key[i] != 'l' && key[i] != 'L'
    requires key != "fill" && key != "stroke"
    ensures !IsColorKey(key)
  {
    var lower := ToLowerAscii(key);
    forall i | 0 <= i < |lower|
      ensures lower[i] != "color"[2]
    {
      assert lower[i] == LowerAscii(key[i]);
    }
    MissingChar(lower, "color", 2);
  }

  /** A key with `color` inside it, in any case of its first letter, is a colour key. */
  lemma ColorInside(prefix: string, c: char, suffix: string)
    requires c == 'c' || c == 'C'
    ensures IsColorKey(prefix + [c] + "olor" + suffix)
  {
    var mid := [c] + "olor";
    assert prefix + [c] + "olor" + suffix == prefix + (mid + suffix);
    LowerConcat(prefix, mid + suffix);
    LowerConcat(mid, suffix);
    assert ToLowerAscii(mid) == "color";
    assert ToLowerAscii(prefix) + ("color" + ToLowerAscii(suffix)) == ToLowerAscii(prefix) + "color" + ToLowerAscii(suffix);
    ContainsInfix(ToLowerAscii(prefix), "color", ToLowerAscii(suffix));
  }

  /** Colour keys as the default theme spells them. */
  lemma ColorKeyExamples()
    ensures IsColorKey("textColor") && IsColorKey("borderColor") && IsColorKey("colors")
    ensures IsColorKey("fill") && IsColorKey("stroke")
  {
    ColorInside("text", 'C', "");
    assert "text" + ['C'] + "olor" + "" == "textColor";
    ColorInside("border", 'C', "");
    assert "border" + ['C'] + "olor" + "" == "borderColor";
    ColorInside("", 'c', "s");
    assert "" + ['c'] + "olor" + "s" == "colors";
  }
}
