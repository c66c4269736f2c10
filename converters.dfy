/**
 * The value converters behind the declaration table. A CSS value is looked up in a theme
 * table: a hit gives the theme token after the class prefix (`DEFAULT` gives the bare
 * prefix), and a miss falls back to an arbitrary-value class `prefix-[value]`. Around that
 * lookup sit the sign handling of size utilities, the four-value side expansion of
 * `margin`/`padding`, the width/style/colour split of `border`, and the walks over the
 * function lists of `transform`, `filter` and `backdrop-filter`.
 */
module Converters {
  import opened Wrappers
  import opened JsStrings
  import opened OrderedMap
  import opened CssFunctions
  import R = TailwindClassesReduction

  /** A theme lookup table: CSS value to theme token. */
  type ValuesMap = Dict<string>

  /**
   * What a converter reads besides the declaration: the value normalisers, the utility
   * tables (`UTILITIES_MAPPING[key]`), the theme tables of the resolved configuration
   * (`config.mapping[key]`) and `config.remInPx` (`None` for `null`/`undefined`).
   */
  datatype Env = Env(
    normalizeValue: string -> string,
    normalizeColorValue: string -> string,
    normalizeSizeValue: (string, Option<real>) -> string,
    utilities: string -> ValuesMap,
    theme: string -> ValuesMap,
    remInPx: Option<real>)

  // ---------------------------------------------------------------------------------------
  // prepareArbitraryValue

  /** `s.replace(/_/g, '\\_')` */
  function EscapeUnderscores(s: string): string {
    if s == [] then []
    else (if s[0] == '_' then "\\_" else [s[0]]) + EscapeUnderscores(s[1..])
  }

  /** `s.replace(/\s+/g, '_')`: every maximal whitespace run becomes one `_`. */
  function CollapseSpaces(s: string): (r: string)
    ensures NoSpace(r)
    decreases |s|
  {
    if s == [] then []
    else if IsSpace(s[0]) then "_" + CollapseSpaces(s[LeadingSpaces(s)..])
    else [s[0]] + CollapseSpaces(s[1..])
  }

  /**
   * `prepareArbitraryValue`: the normalised value with its underscores escaped and its
   * whitespace runs turned into `_`, so that it can stand inside `[...]` in a class name.
   */
  function PrepareArbitraryValue(value: string, normalizeValue: string -> string): (r: string)
    ensures NoSpace(r)
  {
    CollapseSpaces(EscapeUnderscores(normalizeValue(value)))
  }

  /** How Tailwind reads an arbitrary value: `\_` is an underscore, any other `_` a space. */
  function ReadArbitraryValue(t: string): string
    decreases |t|
  {
    if t == [] then []
    else if t[0] == '\\' && |t| > 1 && t[1] == '_' then "_" + ReadArbitraryValue(t[2..])
    else if t[0] == '_' then " " + ReadArbitraryValue(t[1..])
    else [t[0]] + ReadArbitraryValue(t[1..])
  }

  /** `s` with every whitespace run replaced by one space. */
  function SingleSpaced(s: string): string
    decreases |s|
  {
    if s == [] then []
    else if IsSpace(s[0]) then " " + SingleSpaced(s[LeadingSpaces(s)..])
    else [s[0]] + SingleSpaced(s[1..])
  }

  /** No backslash is directly followed by whitespace (which would read back as `\_`). */
  predicate NoBackslashBeforeSpace(s: string) {
    forall i | 0 <= i < |s| - 1 :: s[i] == '\\' ==> !IsSpace(s[i + 1])
  }

  lemma {:induction false} EscapeAppend(a: string, b: string)
    ensures EscapeUnderscores(a + b) == EscapeUnderscores(a) + EscapeUnderscores(b)
  {
    if a != [] {
      var head := if a[0] == '_' then "\\_" else [a[0]];
      assert (a + b)[0] == a[0];
      assert (a + b)[1..] == a[1..] + b;
      EscapeAppend(a[1..], b);
      assert EscapeUnderscores(a + b) == head + EscapeUnderscores(a[1..] + b);
      assert EscapeUnderscores(a) == head + EscapeUnderscores(a[1..]);
      assert head + (EscapeUnderscores(a[1..]) + EscapeUnderscores(b))
             == (head + EscapeUnderscores(a[1..])) + EscapeUnderscores(b);
    } else {
      assert a + b == b;
    }
  }

  lemma {:induction false} EscapeSpaces(w: string)
    requires AllSpace(w)
    ensures EscapeUnderscores(w) == w
  {
    if w != [] {
      EscapeSpaces(w[1..]);
    }
  }

  /** A whitespace run followed by a non-space collapses to one `_`. */
  lemma CollapseRun(w: string, t: string)
    requires w != [] && AllSpace(w) && (t == [] || !IsSpace(t[0]))
    ensures CollapseSpaces(w + t) == "_" + CollapseSpaces(t)
  {
    var s := w + t;
    var n := LeadingSpaces(s);
    SpacePrefix(s, n);
    assert |w| < |s| ==> s[|w|] == t[0];
    assert n == |w|;
    assert s[n..] == t;
  }

  /** The first character of a prepared non-empty text. */
  lemma PreparedHead(x: string)
    requires x != []
    ensures CollapseSpaces(EscapeUnderscores(x)) != []
    ensures CollapseSpaces(EscapeUnderscores(x))[0]
            == if IsSpace(x[0]) then '_' else if x[0] == '_' then '\\' else x[0]
  {
    var e := EscapeUnderscores(x);
    assert e == (if x[0] == '_' then "\\_" else [x[0]]) + EscapeUnderscores(x[1..]);
    assert e[0] == if x[0] == '_' then '\\' else x[0];
  }

  /**
   * Round trip of the arbitrary-value escape: reading the prepared text back gives the
   * value with each whitespace run as a single space, provided no backslash of the value
   * stands right before whitespace.
   */
  lemma {:induction false} ArbitraryValueRoundTrip(s: string)
    requires NoBackslashBeforeSpace(s)
    ensures ReadArbitraryValue(CollapseSpaces(EscapeUnderscores(s))) == SingleSpaced(s)
    decreases |s|, 1
  {
    if s == [] {
    } else if IsSpace(s[0]) {
      SpaceRunRoundTrip(s);
    } else if s[0] == '_' {
      UnderscoreRoundTrip(s);
    } else {
      PlainCharRoundTrip(s);
    }
  }

  lemma {:induction false} SpaceRunRoundTrip(s: string)
    requires NoBackslashBeforeSpace(s) && s != [] && IsSpace(s[0])
    ensures ReadArbitraryValue(CollapseSpaces(EscapeUnderscores(s))) == SingleSpaced(s)
    decreases |s|, 0
  {
    var k := LeadingSpaces(s);
    var rest := s[k..];
    assert s == s[..k] + rest;
    EscapeAppend(s[..k], rest);
    EscapeSpaces(s[..k]);
    var e := EscapeUnderscores(rest);
    if rest != [] {
      PreparedHeadEscape(rest);
    }
    CollapseRun(s[..k], e);
    ArbitraryValueRoundTrip(rest);
    var u := CollapseSpaces(e);
    assert ("_" + u)[1..] == u;
    assert ReadArbitraryValue("_" + u) == " " + ReadArbitraryValue(u);
  }

  lemma {:induction false} UnderscoreRoundTrip(s: string)
    requires NoBackslashBeforeSpace(s) && s != [] && s[0] == '_'
    ensures ReadArbitraryValue(CollapseSpaces(EscapeUnderscores(s))) == SingleSpaced(s)
    decreases |s|, 0
  {
    var e := EscapeUnderscores(s[1..]);
    var u := CollapseSpaces(e);
    assert EscapeUnderscores(s) == "\\_" + e;
    ArbitraryValueRoundTrip(s[1..]);
    assert ("\\_" + e)[1..] == "_" + e;
    assert ("_" + e)[1..] == e;
    assert CollapseSpaces("_" + e) == "_" + u;
    assert CollapseSpaces("\\_" + e) == "\\_" + u;
    assert ("\\_" + u)[2..] == u;
  }

  lemma {:induction false} PlainCharRoundTrip(s: string)
    requires NoBackslashBeforeSpace(s) && s != [] && !IsSpace(s[0]) && s[0] != '_'
    ensures ReadArbitraryValue(CollapseSpaces(EscapeUnderscores(s))) == SingleSpaced(s)
    decreases |s|, 0
  {
    var c := s[0];
    var e := EscapeUnderscores(s[1..]);
    var u := CollapseSpaces(e);
    assert EscapeUnderscores(s) == [c] + e;
    ArbitraryValueRoundTrip(s[1..]);
    assert ([c] + e)[1..] == e;
    assert CollapseSpaces([c] + e) == [c] + u;
    if c == '\\' && s[1..] != [] {
      PreparedHead(s[1..]);
      assert !IsSpace(s[1]);
    }
    assert ([c] + u)[1..] == u;
  }

  /** An escaped text whose source starts with a non-space does not start with whitespace. */
  lemma PreparedHeadEscape(x: string)
    requires x != [] && !IsSpace(x[0])
    ensures EscapeUnderscores(x) != [] && !IsSpace(EscapeUnderscores(x)[0])
  {
    assert EscapeUnderscores(x) == (if x[0] == '_' then "\\_" else [x[0]]) + EscapeUnderscores(x[1..]);
  }

  // ---------------------------------------------------------------------------------------
  // convertDeclarationValue, strictConvertDeclarationValue

  /** `valuesMap[value]` is truthy: present and not the empty string. */
  predicate Hit(valuesMap: ValuesMap, value: string) {
    Get(valuesMap, value).Some? && Get(valuesMap, value).value != ""
  }

  /** The class of a theme token: `DEFAULT` stands for the bare prefix. */
  function ThemeClass(classPrefix: string, token: string): string {
    if token == "DEFAULT" then classPrefix else classPrefix + "-" + token
  }

  /** The class of an arbitrary value. */
  function ArbitraryClass(classPrefix: string, prepared: string): string {
    classPrefix + "-[" + prepared + "]"
  }

  /**
   * `convertDeclarationValue`: always exactly one class, the theme class of the token when
   * `value` is a truthy key of the table, and otherwise the arbitrary-value class of the
   * fallback value under the fallback prefix (an empty token counts as a miss).
   */
  function ConvertDeclarationValue(value: string, valuesMap: ValuesMap, classPrefix: string,
                                   fallbackValue: string, fallbackClassPrefix: string,
                                   normalizeValue: string -> string): (r: seq<string>)
    ensures |r| == 1
    ensures Hit(valuesMap, value) ==> r[0] == ThemeClass(classPrefix, Get(valuesMap, value).value)
    ensures !Hit(valuesMap, value)
            ==> r[0] == ArbitraryClass(fallbackClassPrefix, PrepareArbitraryValue(fallbackValue, normalizeValue))
  {
    match Get(valuesMap, value)
    case Some(token) =>
      if token == "" then [ArbitraryClass(fallbackClassPrefix, PrepareArbitraryValue(fallbackValue, normalizeValue))]
      else if token == "DEFAULT" then [classPrefix]
      else [classPrefix + "-" + token]
    case None => [ArbitraryClass(fallbackClassPrefix, PrepareArbitraryValue(fallbackValue, normalizeValue))]
  }

  /**
   * A theme class reads back, in the shorthand reducer, as its token under its prefix; the
   * same class with a leading `-` reads back as the negated token.
   */
  lemma ThemeClassParses(classPrefix: string, token: string)
    requires classPrefix != "" && classPrefix[0] != '-'
    requires token != "" && token != "DEFAULT" && '-' !in token
    ensures R.ParseTailwindClass(ThemeClass(classPrefix, token)) == R.ParsedClass(Some(token), classPrefix)
    ensures R.ParseTailwindClass("-" + ThemeClass(classPrefix, token)) == R.ParsedClass(Some("-" + token), classPrefix)
  {
    var c := classPrefix + "-" + token;
    var n := |classPrefix|;
    var r := LastIndexOf(c, '-');
    assert c[n] == '-';
    assert r == n;
    assert c[r + 1..] == token;
    assert c[..r] == classPrefix;
    var m := "-" + c;
    assert R.LeadingDash(m) && m[1..] == c;
    assert !R.LeadingDash(c);
  }

  /**
   * A miss reads back: the class is the fallback prefix, `-[`, the prepared value and `]`,
   * and the bracketed text reads as the normalised value with single spaces.
   */
  lemma ArbitraryClassReadsBack(classPrefix: string, value: string, normalizeValue: string -> string)
    requires NoBackslashBeforeSpace(normalizeValue(value))
    ensures var c := ArbitraryClass(classPrefix, PrepareArbitraryValue(value, normalizeValue));
            StartsWith(c, classPrefix + "-[") && c[|c| - 1] == ']'
            && ReadArbitraryValue(c[|classPrefix| + 2..|c| - 1]) == SingleSpaced(normalizeValue(value))
  {
    var p := PrepareArbitraryValue(value, normalizeValue);
    var c := ArbitraryClass(classPrefix, p);
    assert c[|classPrefix| + 2..|c| - 1] == p;
    ArbitraryValueRoundTrip(normalizeValue(value));
  }

  /**
   * `strictConvertDeclarationValue`: the token itself, with no prefix, when the value is a
   * truthy key of the table, and nothing otherwise.
   */
  function StrictConvertDeclarationValue(value: string, valuesMap: ValuesMap): (r: seq<string>)
    ensures |r| <= 1
    ensures r != [] <==> Hit(valuesMap, value)
    ensures r != [] ==> r[0] == Get(valuesMap, value).value
  {
    match Get(valuesMap, value)
    case Some(token) => if token != "" then [token] else []
    case None => []
  }

  /** `convertColorDeclarationValue`: the lookup key is the normalised colour, the fallback the raw value. */
  function ConvertColorDeclarationValue(declValue: string, valuesMap: ValuesMap, classPrefix: string, env: Env): (r: seq<string>)
    ensures |r| == 1
    ensures var key := env.normalizeColorValue(declValue);
            (Hit(valuesMap, key) ==> r[0] == ThemeClass(classPrefix, Get(valuesMap, key).value))
            && (!Hit(valuesMap, key) ==> r[0] == ArbitraryClass(classPrefix, PrepareArbitraryValue(declValue, env.normalizeValue)))
  {
    ConvertDeclarationValue(env.normalizeColorValue(declValue), valuesMap, classPrefix, declValue, classPrefix, env.normalizeValue)
  }

  // ---------------------------------------------------------------------------------------
  // convertSizeDeclarationValue

  /** The sign handling applies: negatives are supported and the normalised value starts with `-`. */
  predicate Signed(normalized: string, supportsNegativeValues: bool) {
    supportsNegativeValues && |normalized| > 0 && normalized[0] == '-'
  }

  /**
   * `convertSizeDeclarationValue`: exactly one class. When the sign handling applies, the
   * unsigned value is looked up and a hit yields the theme class with a leading `-`; a
   * miss, signed or not, yields the arbitrary class of the original value under the
   * unsigned prefix.
   */
  function ConvertSizeDeclarationValue(declValue: string, valuesMap: ValuesMap, classPrefix: string,
                                       remInPx: Option<real>, supportsNegativeValues: bool, env: Env): (r: seq<string>)
    ensures |r| == 1
    ensures var n := env.normalizeSizeValue(declValue, remInPx);
            Signed(n, supportsNegativeValues) && Hit(valuesMap, n[1..])
            ==> r[0] == "-" + ThemeClass(classPrefix, Get(valuesMap, n[1..]).value)
    ensures var n := env.normalizeSizeValue(declValue, remInPx);
            !Signed(n, supportsNegativeValues) && Hit(valuesMap, n)
            ==> r[0] == ThemeClass(classPrefix, Get(valuesMap, n).value)
    ensures var n := env.normalizeSizeValue(declValue, remInPx);
            !Hit(valuesMap, if Signed(n, supportsNegativeValues) then n[1..] else n)
            ==> r[0] == ArbitraryClass(classPrefix, PrepareArbitraryValue(declValue, env.normalizeValue))
  {
    var normalized := env.normalizeSizeValue(declValue, remInPx);
    var isNegative := Signed(normalized, supportsNegativeValues);
    ConvertDeclarationValue(if isNegative then normalized[1..] else normalized, valuesMap,
                            if isNegative then "-" + classPrefix else classPrefix,
                            declValue, classPrefix, env.normalizeValue)
  }

  /** Without negative support a size converts exactly like an unsigned lookup of its normalised value. */
  lemma UnsignedSizeIgnoresSign(declValue: string, valuesMap: ValuesMap, classPrefix: string, remInPx: Option<real>, env: Env)
    ensures ConvertSizeDeclarationValue(declValue, valuesMap, classPrefix, remInPx, false, env)
            == ConvertDeclarationValue(env.normalizeSizeValue(declValue, remInPx), valuesMap, classPrefix,
                                       declValue, classPrefix, env.normalizeValue)
  {
  }

  // ---------------------------------------------------------------------------------------
  // convertBorderDeclaration

  /** The destructuring `[width, style, ...colorArray] = value.split(/\s+/)`, colour joined with spaces. */
  datatype BorderParts = BorderParts(width: string, style: string, color: string)

  function SplitBorderValue(value: string): BorderParts {
    BorderPartsOf(SplitWs(value))
  }

  function BorderPartsOf(pieces: seq<string>): BorderParts
    requires pieces != []
  {
    BorderParts(pieces[0], if |pieces| > 1 then pieces[1] else "",
                if |pieces| > 2 then Join(pieces[2..], " ") else "")
  }

  /**
   * The classes of a `border` shorthand: the width converted as a size, the style through
   * the `border-style` utilities, the colour as a colour, each only when its part is
   * non-empty, and in that order. There are never more than three.
   */
  function BorderClasses(value: string, env: Env, classPrefix: string): (r: seq<string>)
    ensures |r| <= 3
  {
    BorderPartClasses(SplitBorderValue(value), env, classPrefix)
  }

  /** The classes of the three parts, each only when non-empty, in the order width, style, colour. */
  function BorderPartClasses(parts: BorderParts, env: Env, classPrefix: string): (r: seq<string>)
    ensures |r| <= 3
  {
    (if parts.width != "" then ConvertSizeDeclarationValue(parts.width, env.theme("borderWidth"), classPrefix, env.remInPx, false, env) else [])
    + (if parts.style != "" then StrictConvertDeclarationValue(parts.style, env.utilities("border-style")) else [])
    + (if parts.color != "" then ConvertColorDeclarationValue(parts.color, env.theme("borderColor"), classPrefix, env) else [])
  }

  /** `convertBorderDeclaration` */
  method ConvertBorderDeclaration(value: string, env: Env, classPrefix: string) returns (classes: seq<string>)
    ensures classes == BorderClasses(value, env, classPrefix)
  {
    var parts := SplitBorderValue(value);
    classes := [];
    if parts.width != "" {
      classes := classes + ConvertSizeDeclarationValue(parts.width, env.theme("borderWidth"), classPrefix, env.remInPx, false, env);
    }
    if parts.style != "" {
      classes := classes + StrictConvertDeclarationValue(parts.style, env.utilities("border-style"));
    }
    if parts.color != "" {
      classes := classes + ConvertColorDeclarationValue(parts.color, env.theme("borderColor"), classPrefix, env);
    }
    assert classes == BorderPartClasses(parts, env, classPrefix);
  }

  /**
   * A `border` value written as words (width, style, then colour words) gives the width
   * class, the style class and the colour class in that order; an unknown style drops
   * only its own class.
   */
  lemma BorderInOrder(words: seq<string>, env: Env, classPrefix: string)
    requires |words| >= 3
    requires forall k | 0 <= k < |words| :: words[k] != "" && NoSpace(words[k])
    ensures var r := BorderClasses(Join(words, " "), env, classPrefix);
            var w := ConvertSizeDeclarationValue(words[0], env.theme("borderWidth"), classPrefix, env.remInPx, false, env);
            var c := ConvertColorDeclarationValue(Join(words[2..], " "), env.theme("borderColor"), classPrefix, env);
            r == w + StrictConvertDeclarationValue(words[1], env.utilities("border-style")) + c
            && (!Hit(env.utilities("border-style"), words[1]) ==> r == w + c)
  {
    SplitJoin(words);
    JoinHead(words[2..], " ");
    var parts := SplitBorderValue(Join(words, " "));
    assert parts == BorderParts(words[0], words[1], Join(words[2..], " "));
    FullBorderParts(parts, env, classPrefix);
  }

  /** With all three parts present, each contributes its classes. */
  lemma FullBorderParts(parts: BorderParts, env: Env, classPrefix: string)
    requires parts.width != "" && parts.style != "" && parts.color != ""
    ensures var w := ConvertSizeDeclarationValue(parts.width, env.theme("borderWidth"), classPrefix, env.remInPx, false, env);
            var s := StrictConvertDeclarationValue(parts.style, env.utilities("border-style"));
            var c := ConvertColorDeclarationValue(parts.color, env.theme("borderColor"), classPrefix, env);
            BorderPartClasses(parts, env, classPrefix) == w + s + c
            && (s == [] ==> BorderPartClasses(parts, env, classPrefix) == w + c)
  {
  }

  // ---------------------------------------------------------------------------------------
  // parseComposedSpacingValue, convertComposedSpacingDeclarationValue

  /** The four sides of a box; an empty string is a side without a value. */
  datatype Sides = Sides(top: string, right: string, bottom: string, left: string)

  /** `values[i]`, with `undefined` (falsy) as the empty string. */
  function At(values: seq<string>, i: nat): string {
    if i < |values| then values[i] else ""
  }

  /** `a || b` on strings. */
  function Or(a: string, b: string): string {
    if a != "" then a else b
  }

  /**
   * `parseComposedSpacingValue`: `None` (all four sides `null`) for more than four words,
   * otherwise the sides with the missing ones taken from the opposite or the first value.
   */
  function ParseComposedSpacingValue(value: string): (r: Option<Sides>)
    ensures r.None? <==> |SplitWs(value)| > 4
  {
    ExpandSides(SplitWs(value))
  }

  /** The side expansion of `parseComposedSpacingValue` on the words of the value. */
  function ExpandSides(values: seq<string>): (r: Option<Sides>)
    requires values != []
    ensures r.None? <==> |values| > 4
  {
    if |values| > 4 then None
    else Some(Sides(values[0], Or(At(values, 1), values[0]), Or(At(values, 2), values[0]),
                    Or(At(values, 3), Or(At(values, 1), values[0]))))
  }

  /**
   * The side expansion of the CSS `margin` and `padding` shorthands (CSS Box Model Module
   * Level 3, sections 3.2 and 4.2): one value for all sides; two for vertical and
   * horizontal; three for top, horizontal and bottom; four clockwise from the top.
   */
  function BoxSides(values: seq<string>): Sides
    requires 1 <= |values| <= 4
  {
    if |values| == 1 then Sides(values[0], values[0], values[0], values[0])
    else if |values| == 2 then Sides(values[0], values[1], values[0], values[1])
    else if |values| == 3 then Sides(values[0], values[1], values[2], values[1])
    else Sides(values[0], values[1], values[2], values[3])
  }

  /** One to four space-separated values expand exactly as the box model prescribes. */
  lemma FourValueRule(values: seq<string>)
    requires 1 <= |values| <= 4
    requires forall k | 0 <= k < |values| :: values[k] != "" && NoSpace(values[k])
    ensures ParseComposedSpacingValue(Join(values, " ")) == Some(BoxSides(values))
  {
    SplitJoin(values);
    ExpandMatchesBox(values);
  }

  lemma ExpandMatchesBox(values: seq<string>)
    requires 1 <= |values| <= 4
    requires forall k | 0 <= k < |values| :: values[k] != ""
    ensures ExpandSides(values) == Some(BoxSides(values))
  {
  }

  /** The theme table and class prefix of one side. */
  datatype SideTarget = SideTarget(valuesMapping: ValuesMap, classPrefix: string)

  datatype SpacingMapping = SpacingMapping(top: SideTarget, right: SideTarget, bottom: SideTarget, left: SideTarget)

  /** The parsed sides in key order (top, right, bottom, left); `null` sides are empty. */
  function SideValues(parsed: Option<Sides>): (r: seq<string>)
    ensures |r| == 4
  {
    match parsed
    case None => ["", "", "", ""]
    case Some(s) => [s.top, s.right, s.bottom, s.left]
  }

  function SideTargets(mapping: SpacingMapping): (r: seq<SideTarget>)
    ensures |r| == 4
  {
    [mapping.top, mapping.right, mapping.bottom, mapping.left]
  }

  /** The classes of one side: a signed size conversion when both its value and its prefix are non-empty. */
  function SideClasses(value: string, target: SideTarget, remInPx: Option<real>, env: Env): (r: seq<string>)
    ensures |r| == (if value != "" && target.classPrefix != "" then 1 else 0)
  {
    if value != "" && target.classPrefix != "" then
      ConvertSizeDeclarationValue(value, target.valuesMapping, target.classPrefix, remInPx, true, env)
    else []
  }

  /** The classes of the sides visited so far, in visiting order. */
  function SpacingClasses(values: seq<string>, targets: seq<SideTarget>, remInPx: Option<real>, env: Env): (r: seq<string>)
    requires |values| == |targets|
    ensures |r| <= |values|
  {
    if values == [] then []
    else
      var n := |values| - 1;
      SpacingClasses(values[..n], targets[..n], remInPx, env) + SideClasses(values[n], targets[n], remInPx, env)
  }

  /** One more side appends its classes. */
  lemma SpacingStep(values: seq<string>, targets: seq<SideTarget>, k: nat, remInPx: Option<real>, env: Env)
    requires |values| == |targets| && k < |values|
    ensures SpacingClasses(values[..k + 1], targets[..k + 1], remInPx, env)
            == SpacingClasses(values[..k], targets[..k], remInPx, env) + SideClasses(values[k], targets[k], remInPx, env)
  {
    assert values[..k + 1][..k] == values[..k];
    assert targets[..k + 1][..k] == targets[..k];
  }

  /** Four sides give the classes of each side in turn. */
  lemma SpacingClassesOfFour(values: seq<string>, targets: seq<SideTarget>, remInPx: Option<real>, env: Env)
    requires |values| == 4 && |targets| == 4
    ensures SpacingClasses(values, targets, remInPx, env)
            == SideClasses(values[0], targets[0], remInPx, env) + SideClasses(values[1], targets[1], remInPx, env)
               + SideClasses(values[2], targets[2], remInPx, env) + SideClasses(values[3], targets[3], remInPx, env)
  {
    assert values[..3][..2] == values[..2] && values[..2][..1] == values[..1] && values[..1][..0] == [];
    assert targets[..3][..2] == targets[..2] && targets[..2][..1] == targets[..1] && targets[..1][..0] == [];
    assert SpacingClasses(values[..1], targets[..1], remInPx, env) == SideClasses(values[0], targets[0], remInPx, env);
    assert SpacingClasses(values[..2], targets[..2], remInPx, env)
           == SideClasses(values[0], targets[0], remInPx, env) + SideClasses(values[1], targets[1], remInPx, env);
  }

  /** The classes of a composed spacing declaration: its four sides, top, right, bottom, left. */
  function ComposedSpacingClasses(value: string, mapping: SpacingMapping, remInPx: Option<real>, env: Env): seq<string> {
    SpacingClasses(SideValues(ParseComposedSpacingValue(value)), SideTargets(mapping), remInPx, env)
  }

  /** `convertComposedSpacingDeclarationValue` */
  method ConvertComposedSpacingDeclarationValue(value: string, mapping: SpacingMapping, remInPx: Option<real>, env: Env)
    returns (classes: seq<string>)
    ensures classes == ComposedSpacingClasses(value, mapping, remInPx, env)
  {
    var sides := SideValues(ParseComposedSpacingValue(value));
    var targets := SideTargets(mapping);
    classes := [];
    for k := 0 to 4
      invariant classes == SpacingClasses(sides[..k], targets[..k], remInPx, env)
    {
      var side := sides[k];
      var target := targets[k];
      ghost var before := classes;
      if side != "" && target.classPrefix != "" {
        classes := classes + ConvertSizeDeclarationValue(side, target.valuesMapping, target.classPrefix, remInPx, true, env);
      }
      assert classes == before + SideClasses(side, target, remInPx, env);
      SpacingStep(sides, targets, k, remInPx, env);
    }
    assert sides[..4] == sides;
    assert targets[..4] == targets;
  }

  /**
   * One to four values give one class per side, in the order top, right, bottom, left,
   * each a signed size conversion of the side's box-model value.
   */
  lemma ComposedSidesInOrder(values: seq<string>, mapping: SpacingMapping, remInPx: Option<real>, env: Env)
    requires 1 <= |values| <= 4
    requires forall k | 0 <= k < |values| :: values[k] != "" && NoSpace(values[k])
    requires mapping.top.classPrefix != "" && mapping.right.classPrefix != ""
    requires mapping.bottom.classPrefix != "" && mapping.left.classPrefix != ""
    ensures var b := BoxSides(values);
            ComposedSpacingClasses(Join(values, " "), mapping, remInPx, env)
            == SideClasses(b.top, mapping.top, remInPx, env) + SideClasses(b.right, mapping.right, remInPx, env)
               + SideClasses(b.bottom, mapping.bottom, remInPx, env) + SideClasses(b.left, mapping.left, remInPx, env)
    ensures |ComposedSpacingClasses(Join(values, " "), mapping, remInPx, env)| == 4
  {
    FourValueRule(values);
    var b := BoxSides(values);
    assert b.top != "" && b.right != "" && b.bottom != "" && b.left != "";
    SpacingClassesOfFour(SideValues(Some(b)), SideTargets(mapping), remInPx, env);
  }

  /** More than four values give no class at all. */
  lemma TooManySpacingValues(value: string, mapping: SpacingMapping, remInPx: Option<real>, env: Env)
    requires |SplitWs(value)| > 4
    ensures ComposedSpacingClasses(value, mapping, remInPx, env) == []
  {
    SpacingClassesOfFour(SideValues(None), SideTargets(mapping), remInPx, env);
  }

  // ---------------------------------------------------------------------------------------
  // The function lists of `filter`, `backdrop-filter` and `transform`

  datatype FunctionList = Filter | BackdropFilter | Transform

  /** The theme table and class prefix a function name converts with. */
  datatype FunctionTarget = FunctionTarget(valuesMap: ValuesMap, classPrefix: string)

  /** The `mappings` object each entry builds, keyed by CSS function name. */
  function FunctionTargets(list: FunctionList, env: Env): (d: Dict<FunctionTarget>)
    ensures |d| == 9
  {
    match list
    case Filter =>
      [("blur", FunctionTarget(env.theme("blur"), "blur")),
       ("brightness", FunctionTarget(env.theme("brightness"), "brightness")),
       ("contrast", FunctionTarget(env.theme("contrast"), "contrast")),
       ("grayscale", FunctionTarget(env.theme("grayscale"), "grayscale")),
       ("hue-rotate", FunctionTarget(env.theme("hueRotate"), "hue-rotate")),
       ("invert", FunctionTarget(env.theme("invert"), "invert")),
       ("opacity", FunctionTarget(env.theme("opacity"), "opacity")),
       ("saturate", FunctionTarget(env.theme("saturate"), "saturate")),
       ("sepia", FunctionTarget(env.theme("sepia"), "sepia"))]
    case BackdropFilter =>
      [("blur", FunctionTarget(env.theme("backdropBlur"), "backdrop-blur")),
       ("brightness", FunctionTarget(env.theme("backdropBrightness"), "backdrop-brightness")),
       ("contrast", FunctionTarget(env.theme("backdropContrast"), "backdrop-contrast")),
       ("grayscale", FunctionTarget(env.theme("backdropGrayscale"), "backdrop-grayscale")),
       ("hue-rotate", FunctionTarget(env.theme("backdropHueRotate"), "backdrop-hue-rotate")),
       ("invert", FunctionTarget(env.theme("backdropInvert"), "backdrop-invert")),
       ("opacity", FunctionTarget(env.theme("backdropOpacity"), "backdrop-opacity")),
       ("saturate", FunctionTarget(env.theme("backdropSaturate"), "backdrop-saturate")),
       ("sepia", FunctionTarget(env.theme("backdropSepia"), "backdrop-sepia"))]
    case Transform =>
      [("scale", FunctionTarget(env.theme("scale"), "scale")),
       ("scaleX", FunctionTarget(env.theme("scale"), "scale-x")),
       ("scaleY", FunctionTarget(env.theme("scale"), "scale-y")),
       ("translate", FunctionTarget(env.theme("translate"), "translate")),
       ("translateX", FunctionTarget(env.theme("translate"), "translate-x")),
       ("translateY", FunctionTarget(env.theme("translate"), "translate-y")),
       ("skewX", FunctionTarget(env.theme("skew"), "skew-x")),
       ("skewY", FunctionTarget(env.theme("skew"), "skew-y")),
       ("rotate", FunctionTarget(env.theme("rotate"), "rotate"))]
  }

  /**
   * What a converted function deletes: its own entry of `mappings` (`delete mappings[name]`,
   * as `backdrop-filter` and `transform` do), or the key `name` of its theme table
   * (`delete mapping[name]`, as `filter` does).
   */
  datatype Removal = RemoveFunction | RemoveValueKey

  /** The variables the callback updates: the collected classes and the `mappings` object. */
  datatype WalkState = WalkState(classes: seq<string>, targets: Dict<FunctionTarget>)

  /**
   * One callback of the walk. A word that is not a call, or a call with empty parentheses,
   * resets the classes and stops; a name without an entry stops and keeps the classes;
   * a name with an entry converts its argument as an unsigned size, appends that one
   * class and goes on.
   */
  function FunctionStep(removal: Removal, env: Env, st: WalkState, fn: CssFunction): (WalkState, bool) {
    if fn.name.None? || fn.value.None? then (WalkState([], st.targets), false)
    else
      var name := fn.name.value;
      match Get(st.targets, name)
      case None => (st, false)
      case Some(target) =>
        var targets := if removal == RemoveValueKey
                       then Put(st.targets, name, FunctionTarget(Delete(target.valuesMap, name), target.classPrefix))
                       else Delete(st.targets, name);
        var current := ConvertSizeDeclarationValue(fn.value.value, ConvertedMap(removal, target, name),
                                                   target.classPrefix, env.remInPx, false, env);
        if |current| > 0 then (WalkState(st.classes + current, targets), true)
        else (WalkState(st.classes, targets), false)
  }

  /**
   * What one callback does: a word that is not a call resets the classes and stops; a
   * name without an entry changes nothing and stops; a name with an entry appends the
   * first class of its argument and goes on. Deleting whole entries only ever removes
   * keys, and removes the converted name; deleting the theme key keeps the entries.
   */
  lemma FunctionStepEffect(removal: Removal, env: Env, st: WalkState, fn: CssFunction)
    ensures var r := FunctionStep(removal, env, st, fn);
            fn.name.None? || fn.value.None? ==> r == (WalkState([], st.targets), false)
    ensures var r := FunctionStep(removal, env, st, fn);
            fn.name.Some? && fn.value.Some? && fn.name.value !in Keys(st.targets) ==> r == (st, false)
    ensures var r := FunctionStep(removal, env, st, fn);
            fn.name.Some? && fn.value.Some? && fn.name.value in Keys(st.targets)
            ==> r.1 && |r.0.classes| == |st.classes| + 1 && r.0.classes[..|st.classes|] == st.classes
                && r.0.classes[|st.classes|] == ConvertSizeDeclarationValue(
                     fn.value.value, ConvertedMap(removal, Get(st.targets, fn.name.value).value, fn.name.value),
                     Get(st.targets, fn.name.value).value.classPrefix, env.remInPx, false, env)[0]
    ensures var r := FunctionStep(removal, env, st, fn);
            removal == RemoveFunction ==> forall x | x in Keys(r.0.targets) :: x in Keys(st.targets)
    ensures var r := FunctionStep(removal, env, st, fn);
            removal == RemoveFunction && r.1 ==> fn.name.value !in Keys(r.0.targets) && |r.0.targets| < |st.targets|
    ensures var r := FunctionStep(removal, env, st, fn);
            removal == RemoveFunction && !r.1 ==> r.0.targets == st.targets
    ensures var r := FunctionStep(removal, env, st, fn);
            removal == RemoveValueKey ==> Keys(r.0.targets) == Keys(st.targets)
  {
    if fn.name.Some? && fn.value.Some? && Get(st.targets, fn.name.value).Some? {
      DeleteKeys(st.targets, fn.name.value);
      DeleteRemoves(st.targets, fn.name.value);
      var target := Get(st.targets, fn.name.value).value;
      PutKeys(st.targets, fn.name.value, FunctionTarget(Delete(target.valuesMap, fn.name.value), target.classPrefix));
    }
  }

  /** The theme table a function converts with, after the deletion the entry makes. */
  function ConvertedMap(removal: Removal, target: FunctionTarget, name: string): ValuesMap {
    if removal == RemoveValueKey then Delete(target.valuesMap, name) else target.valuesMap
  }

  function Step(removal: Removal, env: Env): (WalkState, CssFunction) -> (WalkState, bool) {
    (st: WalkState, fn: CssFunction) => FunctionStep(removal, env, st, fn)
  }

  /** The classes a function-list entry returns, with the given deletion. */
  function FunctionListClassesWith(removal: Removal, list: FunctionList, value: string, env: Env): seq<string> {
    EveryCSSFunction(value, WalkState([], FunctionTargets(list, env)), Step(removal, env)).0.classes
  }

  /**
   * The classes of the three entries when each deletes the used entry from its own table:
   * `backdrop-filter` and `transform` as written, and the corrected `filter` (see
   * `FilterTakesRepeatedFunction`).
   */
  function FunctionListClasses(list: FunctionList, value: string, env: Env): seq<string> {
    FunctionListClassesWith(RemoveFunction, list, value, env)
  }

  /** The classes the `filter` entry returns as written: it deletes the key from the theme table. */
  function FilterClassesAsWritten(value: string, env: Env): seq<string> {
    FunctionListClassesWith(RemoveValueKey, Filter, value, env)
  }

  /** What each entry deletes as written: `filter` the key of the theme table, the other two the used entry. */
  function EntryRemoval(list: FunctionList): Removal {
    if list == Filter then RemoveValueKey else RemoveFunction
  }

  /** The classes the `filter`, `backdrop-filter` and `transform` entries return as written. */
  function EntryClasses(list: FunctionList, value: string, env: Env): seq<string> {
    FunctionListClassesWith(EntryRemoval(list), list, value, env)
  }

  /** Each callback adds at most one class, so a walk adds at most one class per word. */
  lemma {:induction false} WalkWordBound(removal: Removal, env: Env, fns: seq<CssFunction>, s: WalkState)
    ensures |Every(fns, s, Step(removal, env)).0.classes| <= |s.classes| + |fns|
    decreases |fns|
  {
    if fns != [] {
      FunctionStepEffect(removal, env, s, fns[0]);
      WalkWordBound(removal, env, fns[1..], FunctionStep(removal, env, s, fns[0]).0);
    }
  }

  /**
   * An entry as written yields at most one class per word of its value; `backdrop-filter`
   * and `transform` also at most one per entry of their table. `filter` has no such bound:
   * see `FilterTakesRepeatedFunction`.
   */
  lemma EntryClassesBound(list: FunctionList, value: string, env: Env)
    ensures |EntryClasses(list, value, env)| <= |Words(value)|
    ensures list != Filter ==> |EntryClasses(list, value, env)| <= 9
  {
    WalkWordBound(EntryRemoval(list), env, Words(value), WalkState([], FunctionTargets(list, env)));
    if list != Filter {
      FunctionListAtMostNine(list, value, env);
    }
  }

  /** The entries of `filter`, `backdrop-filter` and `transform`: the `everyCSSFunction` walk and its callback. */
  method ConvertFunctionList(removal: Removal, list: FunctionList, value: string, env: Env) returns (classes: seq<string>)
    ensures classes == FunctionListClassesWith(removal, list, value, env)
  {
    var words := Words(value);
    var mappings := FunctionTargets(list, env);
    ghost var init := WalkState([], mappings);
    classes := [];
    var i := 0;
    var goOn := true;
    while goOn && i < |words|
      invariant 0 <= i <= |words|
      invariant goOn ==> Every(words[i..], WalkState(classes, mappings), Step(removal, env)).0
                         == Every(words, init, Step(removal, env)).0
      invariant !goOn ==> WalkState(classes, mappings) == Every(words, init, Step(removal, env)).0
      decreases |words| - i
    {
      ghost var before := WalkState(classes, mappings);
      assert words[i..][0] == words[i] && words[i..][1..] == words[i + 1..];
      var fn := words[i];
      if fn.name.None? || fn.value.None? {
        classes := [];
        goOn := false;
      } else {
        var name := fn.name.value;
        var mapping := Get(mappings, name);
        if mapping.Some? {
          var valuesMap := mapping.value.valuesMap;
          if removal == RemoveValueKey {
            valuesMap := Delete(valuesMap, name);
            mappings := Put(mappings, name, FunctionTarget(valuesMap, mapping.value.classPrefix));
          } else {
            mappings := Delete(mappings, name);
          }
          var current := ConvertSizeDeclarationValue(fn.value.value, valuesMap, mapping.value.classPrefix, env.remInPx, false, env);
          if |current| > 0 {
            classes := classes + current;
          } else {
            goOn := false;
          }
        } else {
          goOn := false;
        }
      }
      assert (WalkState(classes, mappings), goOn) == FunctionStep(removal, env, before, fn);
      i := i + 1;
    }
  }

  /** The state after the callback on word `k - 1`. */
  lemma StateAfter(env: Env, fns: seq<CssFunction>, s: WalkState, k: nat)
    requires 1 <= k <= |fns|
    ensures States(fns, s, Step(RemoveFunction, env), k)
            == FunctionStep(RemoveFunction, env, States(fns, s, Step(RemoveFunction, env), k - 1), fns[k - 1]).0
  {
  }

  lemma GoneStaysGone(env: Env, st: WalkState, fn: CssFunction, name: string)
    requires name !in Keys(st.targets)
    ensures name !in Keys(FunctionStep(RemoveFunction, env, st, fn).0.targets)
  {
    FunctionStepEffect(RemoveFunction, env, st, fn);
  }

  lemma ConvertedIsGone(env: Env, st: WalkState, fn: CssFunction)
    requires fn.name.Some? && FunctionStep(RemoveFunction, env, st, fn).1
    ensures fn.name.value !in Keys(FunctionStep(RemoveFunction, env, st, fn).0.targets)
  {
    FunctionStepEffect(RemoveFunction, env, st, fn);
  }

  /** Once a walk that deletes whole entries has converted a name, that name never converts again. */
  lemma UsedNameStaysGone(env: Env, fns: seq<CssFunction>, s: WalkState, j: nat, k: nat)
    requires j < k <= |fns|
    requires fns[j].name.Some? && FunctionStep(RemoveFunction, env, States(fns, s, Step(RemoveFunction, env), j), fns[j]).1
    ensures fns[j].name.value !in Keys(States(fns, s, Step(RemoveFunction, env), k).targets)
  {
    ConvertedAfter(env, fns, s, j);
    StaysGone(env, fns, s, fns[j].name.value, j + 1, k);
  }

  /** A name absent from the state after word `i - 1` is absent from every later state. */
  lemma StaysGone(env: Env, fns: seq<CssFunction>, s: WalkState, name: string, i: nat, k: nat)
    requires i <= k <= |fns|
    requires name !in Keys(States(fns, s, Step(RemoveFunction, env), i).targets)
    ensures name !in Keys(States(fns, s, Step(RemoveFunction, env), k).targets)
  {
    var gone := (st: WalkState) => name !in Keys(st.targets);
    forall st: WalkState, fn: CssFunction | gone(st)
      ensures gone(Step(RemoveFunction, env)(st, fn).0)
    {
      GoneStaysGone(env, st, fn, name);
    }
    StatesKeep(fns, s, Step(RemoveFunction, env), gone, i, k);
  }

  /** The name of a word that converted is gone from the state after it. */
  lemma ConvertedAfter(env: Env, fns: seq<CssFunction>, s: WalkState, j: nat)
    requires j < |fns|
    requires fns[j].name.Some? && FunctionStep(RemoveFunction, env, States(fns, s, Step(RemoveFunction, env), j), fns[j]).1
    ensures fns[j].name.value !in Keys(States(fns, s, Step(RemoveFunction, env), j + 1).targets)
  {
    StateAfter(env, fns, s, j + 1);
    ConvertedIsGone(env, States(fns, s, Step(RemoveFunction, env), j), fns[j]);
  }

  /**
   * Each name converts at most once in `transform` and `backdrop-filter`: when a name that
   * already converted comes again, the walk stops there, keeping the classes it has.
   */
  lemma RepeatedNameStops(env: Env, fns: seq<CssFunction>, s: WalkState, j: nat, k: nat)
    requires j < k < |fns|
    requires fns[j].name.Some? && fns[k] == CssFunction(fns[j].name, fns[k].value) && fns[k].value.Some?
    requires FunctionStep(RemoveFunction, env, States(fns, s, Step(RemoveFunction, env), j), fns[j]).1
    ensures var at := States(fns, s, Step(RemoveFunction, env), k);
            FunctionStep(RemoveFunction, env, at, fns[k]) == (at, false)
  {
    UsedNameStaysGone(env, fns, s, j, k);
    FunctionStepEffect(RemoveFunction, env, States(fns, s, Step(RemoveFunction, env), k), fns[k]);
  }

  /** A walk that deletes whole entries keeps its classes and remaining entries within the table size. */
  lemma {:induction false} WalkBound(env: Env, fns: seq<CssFunction>, s: WalkState, n: nat)
    requires |s.classes| + |s.targets| <= n
    ensures var r := Every(fns, s, Step(RemoveFunction, env)).0;
            |r.classes| + |r.targets| <= n
  {
    if fns != [] {
      var next := FunctionStep(RemoveFunction, env, s, fns[0]).0;
      FunctionStepEffect(RemoveFunction, env, s, fns[0]);
      WalkBound(env, fns[1..], next, n);
    }
  }

  /** A function list yields at most one class per entry of its table. */
  lemma FunctionListAtMostNine(list: FunctionList, value: string, env: Env)
    ensures |FunctionListClasses(list, value, env)| <= 9
  {
    WalkBound(env, Words(value), WalkState([], FunctionTargets(list, env)), 9);
  }

  /** Two calls of one function, separated by a space. */
  function TwoCalls(name: string, a: string, b: string): string {
    CallText(name, a) + " " + CallText(name, b)
  }

  lemma TwoCallsWords(name: string, a: string, b: string)
    requires name != "" && AllNameChars(name) && a != "" && b != "" && NoSpace(a) && NoSpace(b)
    requires NoLineTerminator(a) && NoLineTerminator(b)
    ensures Words(TwoCalls(name, a, b)) == [CssFunction(Some(name), Some(a)), CssFunction(Some(name), Some(b))]
  {
    var p := CallText(name, a);
    var q := CallText(name, b);
    var v := TwoCalls(name, a, b);
    assert forall c | c in "()" :: !IsSpace(c);
    assert NoSpace(p) && NoSpace(q) by {
      assert forall i | 0 <= i < |p| :: p[i] in name || p[i] in "()" || p[i] in a;
      assert forall i | 0 <= i < |q| :: q[i] in name || q[i] in "()" || q[i] in b;
    }
    assert v[0] == p[0] == name[0] && v[|v| - 1] == ')';
    NoSpaceTrim(v);
    assert Join([p, q], " ") == v;
    SplitJoin([p, q]);
    ParseCallText(name, a);
    ParseCallText(name, b);
  }

  /**
   * As written, `filter` takes a repeated function twice: `filter: blur(4px) blur(8px)`
   * yields two `blur` classes, because the entry deletes the key `blur` from the theme
   * table instead of the `blur` entry from its own table.
   */
  lemma FilterTakesRepeatedFunction(a: string, b: string, env: Env)
    requires a != "" && b != "" && NoSpace(a) && NoSpace(b) && NoLineTerminator(a) && NoLineTerminator(b)
    ensures |FilterClassesAsWritten(TwoCalls("blur", a, b), env)| == 2
  {
    TwoCallsWords("blur", a, b);
    var fns := Words(TwoCalls("blur", a, b));
    var s0 := WalkState([], FunctionTargets(Filter, env));
    assert Keys(s0.targets)[0] == "blur";
    var r0 := FunctionStep(RemoveValueKey, env, s0, fns[0]);
    FunctionStepEffect(RemoveValueKey, env, s0, fns[0]);
    assert r0.1 && |r0.0.classes| == 1 && "blur" in Keys(r0.0.targets);
    var r1 := FunctionStep(RemoveValueKey, env, r0.0, fns[1]);
    FunctionStepEffect(RemoveValueKey, env, r0.0, fns[1]);
    assert r1.1 && |r1.0.classes| == 2;
    EveryTwo(fns, s0, Step(RemoveValueKey, env));
  }

  /** A walk over two words that both go on ends in the state after the second. */
  lemma EveryTwo(fns: seq<CssFunction>, s: WalkState, callback: (WalkState, CssFunction) -> (WalkState, bool))
    requires |fns| == 2 && callback(s, fns[0]).1 && callback(callback(s, fns[0]).0, fns[1]).1
    ensures Every(fns, s, callback).0 == callback(callback(s, fns[0]).0, fns[1]).0
  {
    var second := callback(callback(s, fns[0]).0, fns[1]).0;
    assert fns[1..][0] == fns[1] && fns[1..][1..] == [];
    assert Every(fns[1..], callback(s, fns[0]).0, callback).0 == Every(fns[1..][1..], second, callback).0;
  }

  /**
   * The evidently intended `filter`: like `backdrop-filter`, it deletes the used entry, so
   * a repeated function stops the walk with the first one's class only, and no list yields
   * more than one class per entry.
   */
  lemma FixedFilterRejectsRepeat(a: string, b: string, value: string, env: Env)
    requires a != "" && b != "" && NoSpace(a) && NoSpace(b) && NoLineTerminator(a) && NoLineTerminator(b)
    ensures |FunctionListClasses(Filter, TwoCalls("blur", a, b), env)| == 1
    ensures |FunctionListClasses(Filter, value, env)| <= 9
  {
    TwoCallsWords("blur", a, b);
    var fns := Words(TwoCalls("blur", a, b));
    var s0 := WalkState([], FunctionTargets(Filter, env));
    assert Keys(s0.targets)[0] == "blur";
    var r0 := FunctionStep(RemoveFunction, env, s0, fns[0]);
    FunctionStepEffect(RemoveFunction, env, s0, fns[0]);
    assert r0.1 && |r0.0.classes| == 1 && "blur" !in Keys(r0.0.targets);
    var r1 := FunctionStep(RemoveFunction, env, r0.0, fns[1]);
    FunctionStepEffect(RemoveFunction, env, r0.0, fns[1]);
    assert r1 == (r0.0, false);
    EveryStopsSecond(fns, s0, Step(RemoveFunction, env));
    WalkBound(env, Words(value), s0, 9);
  }

  /** A walk over two words whose second stops ends in the state that second callback returns. */
  lemma EveryStopsSecond(fns: seq<CssFunction>, s: WalkState, callback: (WalkState, CssFunction) -> (WalkState, bool))
    requires |fns| == 2 && callback(s, fns[0]).1 && !callback(callback(s, fns[0]).0, fns[1]).1
    ensures Every(fns, s, callback).0 == callback(callback(s, fns[0]).0, fns[1]).0
  {
    assert fns[1..][0] == fns[1];
  }
}
