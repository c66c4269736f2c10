# css-to-tailwindcss, modelled in Dafny

A model of the conversion core of `css-to-tailwindcss`. The library turns CSS rules into
Tailwind utility classes. The model has four layers.

- **Declaration converters.** For each CSS property, `TAILWIND_DECLARATION_CONVERTERS`
  maps a value to classes. It looks the value up in the inverted theme table. When the
  lookup misses, it writes an arbitrary-value class `prefix-[value]` instead. Composed
  spacing (`margin: 1px 2px`), `border` and function lists (`filter`, `transform`,
  `backdrop-filter`) have their own converters.
- **Theme mapping.** `converterMappingByTailwindTheme` inverts each theme section into
  a value-to-name table. It flattens colours, reads font-size tuples, builds media
  queries for screens and normalises sizes.
- **The converter and the nodes manager.** `TailwindConverter.convertRule` builds one
  node per selector and merges it into `TailwindNodesManager`. The manager keeps its
  nodes and a selector-to-index map; the merge takes the set union of the classes.
- **The class reducer.** `reduceTailwindClasses` collapses longhand classes into their
  shorthand. For example, `mt-2 mb-2` becomes `my-2`. It does so over the tree of
  families `m`, `p`, `scroll-m`, `scroll-p`, `rounded`, `border`, `scale` and
  `inset`.

JavaScript objects are modelled as ordered dictionaries, `seq<(string, V)>`, with
insertion order and last-write-wins. The reducer's manager, the nodes manager and the
source's loops are imperative: each is a class or method, proved against a
specification function. The pure utilities are modelled as functions.

## Model

| member | source | states |
|---|---|---|
| OrderedMap.GetPutAll | src/utils/flattenObject.ts:1-25 | Reading a key after a run of object writes yields the last write to that key, or the earlier value when the key was never written. |
| OrderedMap.PutKeys | src/utils/invertObject.ts:6-16 | Assigning to an existing key keeps the key order. A new key is appended at the end. |
| OrderedMap.PutAllFresh | src/utils/invertObject.ts:6-16 | Writes of distinct fresh keys append in order. |
| OrderedMap.PutAllWf | src/utils/invertObject.ts:6-16 | A sequence of object writes never duplicates a key. |
| OrderedMap.PutAllSize | src/utils/invertObject.ts:6-16 | The resulting object has exactly as many keys as there are distinct keys written. |
| OrderedMap.DeleteRemoves | src/utils/reduceTailwindClasses.ts:141-165 | After `delete` the key is absent. |
| OrderedMap.DeleteInPlace | src/utils/reduceTailwindClasses.ts:141-165 | Deleting a key removes exactly its entry and keeps the others in order. |
| JsStrings.Trim | src/utils/remValueToPx.ts:1-11 | `trim()` has no leading or trailing whitespace, and is empty exactly when the text is all whitespace. |
| JsStrings.TrimPadded | src/utils/isCSSVariable.ts:1-3 | Trimming ignores whitespace padding on both sides. |
| JsStrings.SplitJoin | src/constants/converters.ts:157-170 | Splitting on whitespace inverts joining non-empty space-free words with spaces. |
| JsStrings.SplitTrimmedHasNoEmptyPiece | src/constants/converters.ts:157-170 | Splitting a trimmed value on whitespace yields no empty piece. |
| JsStrings.LastIndexOfAt | src/utils/reduceTailwindClasses.ts:202-223 | `lastIndexOf` finds the last occurrence of the character. |
| JsStrings.ContainsAt | src/utils/converterMappingByTailwindTheme.ts:16-20 | `includes` holds exactly when the pattern occurs at some position. |
| JsStrings.LowerConcat | src/utils/converterMappingByTailwindTheme.ts:16-20 | `toLowerCase` distributes over concatenation. |
| CssValues.RemValueToPx | src/utils/remValueToPx.ts:1-11 | The value changes only when its trimmed text is a `rem` length. The new value is the converted number followed by `px`. |
| CssValues.RemLengthConverts | src/utils/remValueToPx.ts:1-11 | A padded `<number>rem` converts to the pixel text of the number. |
| CssValues.NonRemUnchanged | src/utils/remValueToPx.ts:1-11 | Any other value is returned unchanged. |
| CssValues.RemValueToPxIdempotent | src/utils/remValueToPx.ts:1-11 | Converting twice is the same as converting once. |
| CssValues.NormalizeNumberValue | src/utils/normalizeNumberValue.ts:1-9 | A `0` is prefixed exactly when the trimmed value starts with `.` and a digit. |
| CssValues.NormalizedHasNoBareFraction | src/utils/normalizeNumberValue.ts:1-9 | The result never starts with a bare fraction. |
| CssValues.NormalizeNumberValueIdempotent | src/utils/normalizeNumberValue.ts:1-9 | Normalising twice is normalising once. |
| CssValues.NormalizedStringHasNoBareFraction | src/utils/normalizeNumbersInString.ts:1-3 | After the replacement no fraction remains bare, at the start or after a separator. |
| CssValues.NormalizeNumbersInStringIdempotent | src/utils/normalizeNumbersInString.ts:1-3 | Normalising a string twice is normalising it once. |
| CssValues.NormalizeFixpoint | src/utils/normalizeNumbersInString.ts:1-3 | A string with no bare fraction is left unchanged. |
| CssValues.NormalizeOnlyInsertsZeros | src/utils/normalizeNumbersInString.ts:1-3 | The result is the input with `0`s inserted, each right before a fraction at the start or after a separator: removing them gives the input back. |
| CssValues.NoDotUnchanged | src/utils/normalizeNumbersInString.ts:1-3 | A string without `.` is left unchanged. |
| CssValues.RemoveSpacesClean | src/utils/removeUnnecessarySpaces.ts:1-3 | No whitespace is left next to `,`, `;` or `:`. |
| CssValues.RemoveSpacesKeepsText | src/utils/removeUnnecessarySpaces.ts:1-3 | Only whitespace is removed: the non-space characters are kept in order. |
| CssValues.RemoveSpacesFixpoint | src/utils/removeUnnecessarySpaces.ts:1-3 | A string already clean of such spaces is unchanged. |
| CssValues.RemoveUnnecessarySpacesIdempotent | src/utils/removeUnnecessarySpaces.ts:1-3 | Removing spaces twice is removing them once. |
| CssValues.VariableName | src/utils/isCSSVariable.ts:1-3 | The name read from a CSS variable value is non-empty. Wrapping it in `var(--…)` gives back the trimmed value. |
| CssValues.VariableRoundTrip | src/utils/isCSSVariable.ts:1-3 | `var(--name)` with padding is recognised as a variable, and its name is read back. |
| CssValues.VariableOfTrimmed | src/utils/isCSSVariable.ts:1-3 | Any value that trims to `var(--name)` is a variable named `name`. |
| CssFunctions.ParseCSSFunction | src/utils/parseCSSFunction.ts:1-7 | With no match, both name and value are undefined. Otherwise the name is a run of word characters or dashes. |
| CssFunctions.GreedyNameIsRun | src/utils/parseCSSFunction.ts:1-7 | The greedy match's name is a non-empty run of name characters, and its value holds no line terminator. |
| CssFunctions.ParseCallText | src/utils/parseCSSFunction.ts:1-7 | `name(value)` parses back to that name and value; an empty value reads as undefined. |
| CssFunctions.NoParenNoFunction | src/utils/parseCSSFunction.ts:1-7 | A text without `(` has no function name. |
| CssFunctions.ParseCSSFunctions | src/utils/parseCSSFunctions.ts:3-14 | Each lazy match of the trimmed value becomes one function, parsed from its name and its value. |
| CssFunctions.LazyMatchesAreCalls | src/utils/parseCSSFunctions.ts:3-14 | Every lazy match is a call `name(value)`. |
| CssFunctions.ParseLazyCall | src/utils/parseCSSFunctions.ts:3-14 | A lazy match parses to its own name and value. |
| CssFunctions.EveryCSSFunction | src/utils/everyCSSFunction.ts:3-15 | The callback runs between once and once per word. |
| CssFunctions.EveryStopsAtFirstFalse | src/utils/everyCSSFunction.ts:3-15 | `every` stops right after the first callback that returns false. |
| CssFunctions.EveryVisitsAll | src/utils/everyCSSFunction.ts:3-15 | When every callback returns true, all functions are visited in order. |
| CssFunctions.StatesKeep | src/utils/everyCSSFunction.ts:3-15 | A property that every callback step preserves holds of every state reached. |
| CssFunctions.BlankValueOneCallback | src/utils/everyCSSFunction.ts:3-15 | A blank value still makes one callback, with a function that has neither name nor value. |
| MediaQueries.ScreenQuery | src/utils/buildMediaQueryByScreen.ts:11-30 | A screen has no query exactly when it has no raw query, no minimum and no maximum. |
| MediaQueries.RawWins | src/utils/buildMediaQueryByScreen.ts:12-14 | A raw query wins over the width conditions. |
| MediaQueries.MinBeforeMax | src/utils/buildMediaQueryByScreen.ts:16-27 | Minimum and maximum widths are joined with ` and `, the minimum first. |
| MediaQueries.TextIsMinWidth | src/utils/buildMediaQueryByScreen.ts:4-6 | A string screen is a minimum-width query. |
| MediaQueries.OneScreenIsList | src/utils/buildMediaQueryByScreen.ts:8 | One screen object is treated as a list of one. |
| MediaQueries.QueriesAppend | src/utils/buildMediaQueryByScreen.ts:10-31 | The queries of a concatenation of lists are the concatenation of their queries. |
| MediaQueries.EmptyScreenDropped | src/utils/buildMediaQueryByScreen.ts:29-31 | A screen with nothing to say is filtered out of the list. |
| MediaQueries.NoQueries | src/utils/buildMediaQueryByScreen.ts:10-32 | A list of screens with no queries gives the empty string. |
| MediaQueries.AppendScreen | src/utils/buildMediaQueryByScreen.ts:32 | Queries are joined with `, `, in order. |
| Selectors.SimpleIff | src/TailwindNodesManager.ts:98-112 | Splitting loses no item exactly when every item is a base item or convertible. |
| Selectors.SplitSelector | src/TailwindNodesManager.ts:98-109 | The loop puts the base items in `base` and the pseudo and aria items in `convertable`, each in order. |
| Selectors.PrefixColons | src/TailwindNodesManager.ts:123 | The class prefix has one `:` per convertible item. |
| Selectors.ParseSelector | src/TailwindNodesManager.ts:91-125 | With no parse there is no result. A complex selector is kept with an empty prefix. A simple one is split into its base selector and its variant prefix. |
| Selectors.BaseOfBase | src/TailwindNodesManager.ts:98-109 | The base items of base items are themselves, with nothing convertible among them. |
| Selectors.NormalizeTwice | src/TailwindNodesManager.ts:91-125 | Parsing an already parsed selector adds no prefix, when stringify and parse agree. |
| Selectors.AriaNeedsTrue | src/utils/isAriaSelector.ts:3-20 | An attribute item is an aria variant exactly when it names an aria attribute with value `true`. A tag or pseudo item never is. |
| Converters.PrepareArbitraryValue | src/constants/converters.ts:12-14 | A prepared arbitrary value contains no whitespace. |
| Converters.ArbitraryValueRoundTrip | src/constants/converters.ts:12-14 | Reading back an escaped, space-collapsed value gives the value with single spaces. |
| Converters.ArbitraryClassReadsBack | src/constants/converters.ts:16-32 | The fallback class is `prefix-[…]`, and its bracketed part reads back to the normalised value. |
| Converters.EscapeAppend | src/constants/converters.ts:12-14 | Escaping underscores distributes over concatenation. |
| Converters.ConvertDeclarationValue | src/constants/converters.ts:16-32 | Always one class: the theme class on a table hit, else the arbitrary class of the fallback value. |
| Converters.ThemeClassParses | src/constants/converters.ts:16-32 | A theme class, and its negative, parse back to the prefix and token in the reducer's class syntax. |
| Converters.StrictConvertDeclarationValue | src/constants/converters.ts:42-47 | One class exactly when the value is in the utility table, and that class is the table's. |
| Converters.ConvertColorDeclarationValue | src/constants/converters.ts:56-67 | One class: the theme class of the normalised colour on a hit, else the arbitrary class. |
| Converters.ConvertSizeDeclarationValue | src/constants/converters.ts:81-99 | One class. A signed value whose magnitude hits the table gives the negated theme class. Otherwise it falls back on the unsigned lookup. |
| Converters.UnsignedSizeIgnoresSign | src/constants/converters.ts:81-99 | Without negative support, the size converter is the plain converter of the normalised value. |
| Converters.BorderInOrder | src/constants/converters.ts:117-155 | For a value of three or more words, the border classes are the width, style and colour classes of the first three words, in that order. |
| Converters.FullBorderParts | src/constants/converters.ts:117-155 | With all three parts present, the classes are width, then style, then colour. |
| Converters.ConvertBorderDeclaration | src/constants/converters.ts:117-155 | The method returns the border classes of its value. |
| Converters.ParseComposedSpacingValue | src/constants/converters.ts:157-170 | There are no sides exactly when the value has more than four words. |
| Converters.FourValueRule | src/constants/converters.ts:157-170 | One to four words expand to top, right, bottom and left by the CSS box rule. |
| Converters.ExpandMatchesBox | src/constants/converters.ts:157-170 | The expansion agrees with the box rule for every count from one to four. |
| Converters.ComposedSidesInOrder | src/constants/converters.ts:172-203 | A shorthand gives the top, right, bottom and left classes in that order. |
| Converters.TooManySpacingValues | src/constants/converters.ts:172-203 | More than four words give no classes. |
| Converters.ConvertComposedSpacingDeclarationValue | src/constants/converters.ts:172-203 | The method's classes equal the composed-spacing classes of its value. |
| Converters.SpacingClassesOfFour | src/constants/converters.ts:190-200 | The four sides contribute their classes in order. |
| Converters.FunctionTargets | src/constants/converters.ts:541-584 | Each function list has nine named target functions. |
| Converters.FunctionStepEffect | src/constants/converters.ts:556-581 | One step of the walk, under either deletion: a nameless or valueless function stops the walk and clears the classes. An unknown name stops it. A known name appends one class, converted with the table after the deletion. Deleting the used entry, as `delete mappings[name]` does, also removes that name from the targets. |
| Converters.ConvertFunctionList | src/constants/converters.ts:541-584 | The method returns the classes of the walk over the value's functions, under the deletion it is given. |
| Converters.WalkWordBound | src/constants/converters.ts:556-581 | Under either deletion, the walk adds at most one class per word. |
| Converters.EntryClassesBound | src/constants/converters.ts:234-1312 | Each of the three entries, as written, gives at most one class per word. `backdrop-filter` and `transform` also give at most nine. |
| Converters.StaysGone | src/constants/converters.ts:1287-1312 | Once a target is removed it stays removed for the rest of the walk. |
| Converters.RepeatedNameStops | src/constants/converters.ts:1287-1312 | When the used entry is deleted, as in `backdrop-filter`, `transform` and the corrected `filter`, a function named twice stops the walk at its second occurrence. |
| Converters.WalkBound | src/constants/converters.ts:248-273 | When the used entry is deleted, as in `backdrop-filter`, `transform` and the corrected `filter`, the walk never holds more classes plus targets than it started with. |
| Converters.FunctionListAtMostNine | src/constants/converters.ts:1287-1312 | `backdrop-filter`, `transform` and the corrected `filter` convert to at most nine classes, one per entry of their table. |
| Converters.FilterTakesRepeatedFunction | src/constants/converters.ts:556-581 | As written, `blur(a) blur(b)` converts to two classes. |
| Converters.FixedFilterRejectsRepeat | src/constants/converters.ts:556-581 | With the target removed, the same value converts to one class. |
| DeclarationConverters.ConverterClasses | src/constants/converters.ts:212-1377 | Each entry kind gives at most its maximum number of classes. `filter`, which as written deletes the key from the theme table, is bounded only by the number of words; `backdrop-filter` and `transform` by nine as well. Colour, plain and size entries give exactly one; the no-class entries give none. |
| DeclarationConverters.ConvertDeclaration | src/constants/converters.ts:212-1377 | A property outside the table gives no result. Any other gives the classes of its entry, the function lists with the deletion each makes as written. |
| DeclarationConverters.SignedLonghands | src/constants/converters.ts:802-836 | The four margin longhands are size converters that support negative values and use `remInPx`. |
| DeclarationConverters.UnsignedLonghands | src/constants/converters.ts:961-991 | The four padding longhands are size converters without negative support. |
| DeclarationConverters.NegativeMarginTop | src/constants/converters.ts:829-836 | A negative `margin-top` whose magnitude is in the theme converts to `-mt-<token>`. |
| DeclarationConverters.PaddingTopKeepsSign | src/constants/converters.ts:985-991 | `padding-top` looks up the normalised value as is, sign included. |
| DeclarationConverters.NoClassesEntries | src/constants/converters.ts:600-603 | `flex-flow`, `grid`, `text-decoration` and `transition` convert to no classes. |
| DeclarationConverters.MarginShorthand | src/constants/converters.ts:790-800 | `margin` with one to four words gives the signed `mt`, `mr`, `mb` and `ml` classes of the box sides. |
| DeclarationConverters.MarginEntry | src/constants/converters.ts:790-800 | `margin` is the composed-spacing converter over the margin theme. |
| JsObjects.FlattenObject | src/utils/flattenObject.ts:1-25 | The method's result is the flattening of the object. |
| JsObjects.FlattenLeaves | src/utils/flattenObject.ts:1-25 | No value of a flattened object is itself an object. |
| JsObjects.FlattenKeys | src/utils/flattenObject.ts:1-25 | A key is in the flattening exactly when it is some leaf's path joined with `-`. |
| JsObjects.FlattenLastWins | src/utils/flattenObject.ts:1-25 | Each flattened key holds the last value written to it. |
| JsObjects.SingleLeaf | src/utils/flattenObject.ts:1-25 | A single leaf is kept as it is. |
| JsObjects.NestedThenSpelled | src/utils/flattenObject.ts:1-25 | `{a: {b: x}, "a-b": y}` flattens to `{"a-b": y}`: the later key wins. |
| JsObjects.SpelledThenNested | src/utils/flattenObject.ts:1-25 | `{"a-b": y, a: {b: x}}` flattens to `{"a-b": x}`, still in first-insertion position. |
| JsObjects.EmptyNestedAddsNothing | src/utils/flattenObject.ts:1-25 | An empty nested object contributes no key. |
| JsObjects.InvertWrites | src/utils/invertObject.ts:1-19 | A `null` value makes the inversion throw. Otherwise each entry writes its value's text as a key, with the entry's key as the value. |
| JsObjects.InvertObject | src/utils/invertObject.ts:1-19 | The method's result is the inversion of the object. |
| JsObjects.InvertCovers | src/utils/invertObject.ts:1-19 | Every value's text becomes a key, and every new value was a key. |
| JsObjects.InvertLastWins | src/utils/invertObject.ts:1-19 | A repeated value maps to the last key holding it. |
| JsObjects.InvertSize | src/utils/invertObject.ts:1-19 | The inversion has one key per distinct value text, and is as large as the object exactly when the values are distinct. |
| JsObjects.InvertTwice | src/utils/invertObject.ts:1-19 | Inverting a string object with distinct values twice gives it back. |
| ThemeMapping.SectionEntries | src/utils/converterMappingByTailwindTheme.ts:149-166 | A theme section has entries except when it is `null`. |
| ThemeMapping.ConvertFontSizes | src/utils/converterMappingByTailwindTheme.ts:60-89 | The method returns the font-size table: each size, first of a tuple and in px when `remInPx` is set, maps to its key. |
| ThemeMapping.FlattenFontSizes | src/utils/converterMappingByTailwindTheme.ts:76-86 | The loop's object is the sequence of writes of the sizes, in key order. |
| ThemeMapping.FontSizeFails | src/utils/converterMappingByTailwindTheme.ts:78-86 | One failing entry makes the whole section fail. |
| ThemeMapping.TupleFirst | src/utils/converterMappingByTailwindTheme.ts:81-83 | A tuple counts as its first element. |
| ThemeMapping.ZeroRemInPx | src/utils/converterMappingByTailwindTheme.ts:85 | A `remInPx` of zero still converts font sizes, but not sizes: the two tests disagree on zero. |
| ThemeMapping.ConvertScreens | src/utils/converterMappingByTailwindTheme.ts:91-103 | The method returns the screens table: each screen's media query maps to its key, and an array gives an empty table. |
| ThemeMapping.ScreenFails | src/utils/converterMappingByTailwindTheme.ts:98-100 | One failing screen makes the section fail. |
| ThemeMapping.EmptyScreenFields | src/utils/buildMediaQueryByScreen.ts:17-23 | A screen's `min` that is the empty string counts as absent, while an empty array is truthy and its empty text is kept. |
| ThemeMapping.ScreenTableNames | src/utils/converterMappingByTailwindTheme.ts:98-100 | Every value of the screens table is a key of the section. |
| ThemeMapping.ScreenWidthFound | src/utils/converterMappingByTailwindTheme.ts:98-100 | The last screen written as a width is found under `(min-width: …)`. |
| ThemeMapping.ConvertColors | src/utils/converterMappingByTailwindTheme.ts:105-120 | The method returns the colour table of the flattened colours. |
| ThemeMapping.ColorTableNames | src/utils/converterMappingByTailwindTheme.ts:105-120 | Every value of the colour table is a flattened colour name. |
| ThemeMapping.ColorFound | src/utils/converterMappingByTailwindTheme.ts:110-117 | The last colour maps to its name, under its hex when it parses and under its text otherwise. |
| ThemeMapping.EmptyColorSkipped | src/utils/converterMappingByTailwindTheme.ts:113 | An empty or `null` colour writes nothing. |
| ThemeMapping.ConvertSizes | src/utils/converterMappingByTailwindTheme.ts:122-137 | The method returns the size table. |
| ThemeMapping.SizeWritesNormalized | src/utils/converterMappingByTailwindTheme.ts:125-134 | No size key starts with a bare fraction. |
| ThemeMapping.SizeTableKeys | src/utils/converterMappingByTailwindTheme.ts:122-137 | Every size key is normalised, and every value is a key of the section. |
| ThemeMapping.ConverterMappingByTailwindTheme | src/utils/converterMappingByTailwindTheme.ts:139-170 | The method returns the mapping of the theme. |
| ThemeMapping.NoTheme | src/utils/converterMappingByTailwindTheme.ts:145-147 | No theme gives an empty mapping. |
| ThemeMapping.SkippedAbsent | src/utils/converterMappingByTailwindTheme.ts:150-152 | `keyframes`, `container` and `fontFamily` are never mapped, and every mapped key is a theme key. |
| ThemeMapping.SectionMapped | src/utils/converterMappingByTailwindTheme.ts:154-166 | Every other section is mapped to the table its key selects. |
| ThemeMapping.MappingFails | src/utils/converterMappingByTailwindTheme.ts:149-167 | One failing section makes the whole mapping fail. |
| ThemeMapping.ColorKeyExactly | src/utils/converterMappingByTailwindTheme.ts:16-20 | A key is a colour key exactly when it is `fill` or `stroke`, or contains `color` in any case. |
| ThemeMapping.ColorInside | src/utils/converterMappingByTailwindTheme.ts:16-20 | Any key with `color` or `Color` inside is a colour key. |
| ThemeMapping.NoLetterL | src/utils/converterMappingByTailwindTheme.ts:16-20 | A key other than `fill` and `stroke` without the letter `l` in either case is not a colour key. |
| ThemeMapping.ColorKeyExamples | src/utils/converterMappingByTailwindTheme.ts:16-20 | `textColor`, `borderColor`, `colors`, `fill` and `stroke` are colour keys. |
| NodesManager.MergedClasses | src/TailwindNodesManager.ts:48-55 | The merged class list keeps the old classes first, adds no duplicate, and holds exactly the old and new classes. |
| NodesManager.DedupPrefix | src/TailwindNodesManager.ts:48-55 | A set built from a list starts with the set of any prefix of it. |
| NodesManager.LastIndexMapIndexed | src/TailwindNodesManager.ts:127-134 | The rebuilt map sends every selector to the index of a node with that selector. |
| NodesManager.Normalized | src/TailwindNodesManager.ts:80-89 | Normalising keeps the skipped declarations and the presence of classes, and has no result only when the selector does not parse. |
| NodesManager.MergeIndexed | src/TailwindNodesManager.ts:42-72 | Merging keeps the selector map correct, and keeps selectors distinct. |
| NodesManager.MergeGrows | src/TailwindNodesManager.ts:42-72 | Merging adds at most one node, never changes a selector, never loses a class, and leaves the incoming selector in the map. |
| NodesManager.MergeExisting | src/TailwindNodesManager.ts:48-61 | Merging into an existing node adds the new classes not already there, after the old ones, and appends the incoming skipped declarations to the stored ones. |
| NodesManager.TailwindNodesManager.constructor | src/TailwindNodesManager.ts:25-28 | A new manager holds the given nodes and the map built from them. |
| NodesManager.TailwindNodesManager.GetNodeIndexBySelector | src/TailwindNodesManager.ts:30-32 | An index is found exactly for a known selector, and it points at a node with that selector. |
| NodesManager.TailwindNodesManager.GetNodeBySelector | src/TailwindNodesManager.ts:34-36 | A node is found exactly for a known selector, and it is a stored node with that selector. |
| NodesManager.TailwindNodesManager.RefreshNodesMap | src/TailwindNodesManager.ts:127-134 | The nodes are unchanged and the map is rebuilt from them. |
| NodesManager.TailwindNodesManager.AddNode | src/TailwindNodesManager.ts:74-78 | The node is appended and its selector mapped to its index. |
| NodesManager.TailwindNodesManager.ParseSelector | src/TailwindNodesManager.ts:91-125 | The method is the selector parse with the manager's parser. |
| NodesManager.TailwindNodesManager.NormalizeNode | src/TailwindNodesManager.ts:80-89 | The method returns the normalised node. |
| NodesManager.TailwindNodesManager.MergeNode | src/TailwindNodesManager.ts:42-72 | The manager stays consistent, and its new nodes and map are those of the merge. A selector that does not parse changes nothing. |
| TailwindConversion.PrefixAll | src/TailwindConverter.ts:117-129 | Every class gets the prefix, in order. |
| TailwindConversion.PrefixTwice | src/TailwindConverter.ts:117-129 | Prefixing twice is prefixing once with the joined prefix. |
| TailwindConversion.AtRuleChain | src/TailwindConverter.ts:117-129 | Walking up the chain of at-rules prefixes the classes with the prefixes of the whole chain. |
| TailwindConversion.OnlyMediaCounts | src/TailwindConverter.ts:131-137 | Only `@media` parents add a prefix. |
| TailwindConversion.ConvertDeclarationToClasses | src/TailwindConverter.ts:64-66 | A declaration converts to one class `prop-[value]` of the snake-cased value. |
| TailwindConversion.CollectClasses | src/TailwindConverter.ts:42-48 | The loop collects one class per declaration, in order. |
| TailwindConversion.TailwindNodeOf | src/TailwindConverter.ts:68-115 | A node exists exactly when the selector parses. It then carries classes and no skipped declarations. |
| TailwindConversion.NodeClassesLayout | src/TailwindConverter.ts:68-115 | The node's selector is the parsed base selector, and its classes carry the at-rule and variant prefixes. |
| TailwindConversion.MakeTailwindNode | src/TailwindConverter.ts:68-115 | The method returns the node of the rule and selector. |
| TailwindConversion.EmptyRuleNoNodes | src/TailwindConverter.ts:38-62 | A rule without declarations adds no nodes. |
| TailwindConversion.RuleStateWellFormed | src/TailwindConverter.ts:38-62 | Every state reached while converting a rule keeps the registry consistent. |
| TailwindConversion.FailurePersists | src/TailwindConverter.ts:38-62 | Once a selector fails, the whole rule fails. |
| TailwindConversion.StepWellFormed | src/TailwindConverter.ts:41-58 | One selector step keeps the registry consistent. |
| TailwindConversion.ConvertSelector | src/TailwindConverter.ts:41-58 | The manager's nodes after one selector are the merge of that selector's node. |
| TailwindConversion.ConvertRule | src/TailwindConverter.ts:38-62 | The method's nodes are those of the rule over all its selectors. |
| TailwindClassesReduction.RenderParsed | src/utils/reduceTailwindClasses.ts:189-223 | Rendering a parsed class gives back the class. |
| TailwindClassesReduction.ParseRendered | src/utils/reduceTailwindClasses.ts:189-223 | Parsing a rendered class gives back its prefix and value, negative values included. |
| TailwindClassesReduction.SignKeptInValue | src/utils/reduceTailwindClasses.ts:202-223 | A leading `-` moves into the value and leaves the prefix unchanged. |
| TailwindClassesReduction.SetTargetsFindsIff | src/utils/reduceTailwindClasses.ts:93-124 | A class prefix is routed exactly when it labels some node of the family tree. |
| TailwindClassesReduction.PassThroughInOrder | src/utils/reduceTailwindClasses.ts:72-78 | The classes no family takes pass through in order. |
| TailwindClassesReduction.FromValues | src/utils/reduceTailwindClasses.ts:179-182 | A values map has each value once, each with the given prefix. |
| TailwindClassesReduction.Relabel | src/utils/reduceTailwindClasses.ts:126-133 | Relabelling keeps the keys and gives every value the prefix. |
| TailwindClassesReduction.KeepKeys | src/utils/reduceTailwindClasses.ts:141-165 | A common value survives exactly when the child map has it. |
| TailwindClassesReduction.KeepOrder | src/utils/reduceTailwindClasses.ts:141-165 | The surviving common values stay distinct. |
| TailwindClassesReduction.TailwindClassesReductionManager.constructor | src/utils/reduceTailwindClasses.ts:4-70 | A new reducer has no resolved classes, empty leaves and the fixed family tree. |
| TailwindClassesReduction.TailwindClassesReductionManager.AppendClassName | src/utils/reduceTailwindClasses.ts:72-78 | The state after one class is the reducer step of that class. |
| TailwindClassesReduction.TailwindClassesReductionManager.RecursiveSetValue | src/utils/reduceTailwindClasses.ts:93-124 | The value is pushed onto every leaf under the matching label. The result says whether any label matched. |
| TailwindClassesReduction.TailwindClassesReductionManager.RecursiveSetValueToAllKeys | src/utils/reduceTailwindClasses.ts:126-133 | The value is pushed onto every leaf under the group. |
| TailwindClassesReduction.TailwindClassesReductionManager.NewValuesMap | src/utils/reduceTailwindClasses.ts:179-182 | The method builds the values map of the leaf values. |
| TailwindClassesReduction.TailwindClassesReductionManager.SetAllPrefixes | src/utils/reduceTailwindClasses.ts:126-133 | The method relabels every value of the map. |
| TailwindClassesReduction.TailwindClassesReductionManager.RecursiveResolveClasses | src/utils/reduceTailwindClasses.ts:135-187 | The method returns the resolved common values, which are distinct. It emits the resolution's classes and leaves the leaves alone. |
| TailwindClassesReduction.TailwindClassesReductionManager.ChildMap | src/utils/reduceTailwindClasses.ts:167-184 | The method returns the child's values map and emits the child's classes. |
| TailwindClassesReduction.TailwindClassesReductionManager.IntersectCommonValues | src/utils/reduceTailwindClasses.ts:141-165 | The method returns the intersection and emits the values it drops. |
| TailwindClassesReduction.TailwindClassesReductionManager.DropMissingValues | src/utils/reduceTailwindClasses.ts:145-155 | Common values the child lacks are dropped and emitted, and the others kept. |
| TailwindClassesReduction.TailwindClassesReductionManager.AddValuesMissingFromCommon | src/utils/reduceTailwindClasses.ts:157-163 | The child's values not kept are emitted under the child's prefix. |
| TailwindClassesReduction.TailwindClassesReductionManager.Reduce | src/utils/reduceTailwindClasses.ts:80-91 | The output is the pass-through classes followed by each family's output, in family order. |
| TailwindClassesReduction.TailwindClassesReductionManager.ResolveFamily | src/utils/reduceTailwindClasses.ts:80-91 | One family emits its leftovers, then its shorthand classes. |
| TailwindClassesReduction.TailwindClassesReductionManager.AppendShorthands | src/utils/reduceTailwindClasses.ts:85-87 | Each common value is emitted as a class of the family prefix. |
| TailwindClassesReduction.ReduceTailwindClasses | src/utils/reduceTailwindClasses.ts:226-234 | The method returns the reduction of the class list. |
| TailwindClassesReductionProperties.CollapseIff | src/utils/reduceTailwindClasses.ts:135-187 | A value reaches a group's shorthand exactly when every leaf under the group holds it. |
| TailwindClassesReductionProperties.RoutedIff | src/utils/reduceTailwindClasses.ts:72-78 | A class is taken by a family exactly when it parses to a value and its prefix labels a node of the tree. |
| TailwindClassesReductionProperties.NoDashNotRouted | src/utils/reduceTailwindClasses.ts:72-78 | A class without `-` is never taken. |
| TailwindClassesReductionProperties.ReducedSplit | src/utils/reduceTailwindClasses.ts:226-234 | The reduction is the pass-through classes followed by the families' output. |
| TailwindClassesReductionProperties.ResolveWf | src/utils/reduceTailwindClasses.ts:135-187 | Resolving never duplicates a common value. |
| TailwindClassesReductionProperties.QuadDistributes | src/utils/reduceTailwindClasses.ts:5-70 | A four-sided family's shorthand reaches all four of its sides. |
| TailwindClassesReductionFix.PairShared | src/utils/reduceTailwindClasses.ts:135-187 | Two sides sharing one value collapse into the pair's shorthand. |
| TailwindClassesReductionFix.RoundedCornerLost | src/utils/reduceTailwindClasses.ts:141-165 | As written, `rounded-t-2 rounded-r-2` leaves the top-left corner uncovered. |
| TailwindClassesReductionFix.TopLeftCornerLost | src/utils/reduceTailwindClasses.ts:226-234 | As written, `["rounded-t-2", "rounded-r-2"]` reduces to `["rounded-r-2"]`. |
| TailwindClassesReductionFix.FixedFamilyCoverage | src/utils/reduceTailwindClasses.ts:141-165 | With every drop emitted under all children sharing the value, each input value stays covered, by a shorthand or by a class for a node above its leaf. |
| TailwindClassesReductionFix.FixedAgrees | src/utils/reduceTailwindClasses.ts:135-187 | The corrected resolution agrees with the original on every tree whose groups have at most two children. |

## Left out

- CSS parsing and walking by postcss, and selector parsing and printing by css-what, are not modelled. They are parameters: a `parse` and a `stringify` function.
- `snakeCase`, `colord` and the value normalisers (`normalizeValue`, `normalizeColorValue`, `normalizeSizeValue`) are parameters. So is the number-to-pixel product of `remValueToPx`, which is floating point.
- `TailwindConverter.convertCSS` is not modelled. It calls `mergeNodes` on the nodes manager, and that method is not defined in `src/TailwindNodesManager.ts`. `convertRule`, `makeTailwindNode` and the at-rule prefixes are modelled.
- `resolveConfig`, `detectIndent`, the node type guards, `UTILITIES_MAPPING` and the pseudo-class tables are not modelled. The pseudo-class tables are reached through the `Convertible` predicate and the utility lookups through parameters.
- Object key order: integer-like keys come first in JavaScript objects; the dictionaries here keep plain insertion order.
- Object keys: inherited and prototype keys are not modelled.
- String and number theme sections are treated as sections without entries.
- Screen fields are modelled as the text of a truthy value or absent. A field holding the empty text stands for a truthy value that prints as nothing, such as an empty array.
- `toLowerCase` is modelled on ASCII letters only.
- `isSizeKey`: the facts that the size keys are not colour keys are not proved.
- CssValues.NormalizedStringHasNoBareFraction: proved only for strings without `..`. The source's separator class `[,;+-/*\s]` contains the range `+-/`, which includes `.`, so `..5` is left with a bare fraction.
- CssValues.NormalizeNumbersInStringIdempotent: proved only for strings without `..`, for the same reason.
- TailwindClassesReduction.TailwindClassesReductionManager: the class follows the code as written, including the corner loss listed under Findings. The corrected resolution (`FixedResolve` in `TailwindClassesReductionFix`) is stated and proved beside it, not substituted into the class.
- A theme section missing from `config.mapping` is modelled as an empty table, because the environment's `theme` is total. In the source a missing section differs in three places: `convertDeclarationValue` throws a `TypeError` reading `valuesMap[value]` (src/constants/converters.ts:23); the function-list callbacks end the walk at `if (mapping)` (src/constants/converters.ts:564); and composed spacing skips the side through its `valuesMapping &&` guard (src/constants/converters.ts:186-189).
- DeclarationConverters.ConvertDeclaration: the `filter` entry follows the code as written, including the repeat listed under Findings. The corrected walk (`FunctionListClasses`, which deletes the used entry) is stated and proved beside it, not substituted into the table.
- Converters.ConvertFunctionList: under `filter`'s deletion the key is removed from a copy of the theme table that lasts for one walk. In the source `delete mapping[name]` (src/constants/converters.ts:565) changes the shared `config.mapping` table, so later declarations converted with the same configuration no longer find that key.
- `prepareRuleSelectors` (src/TailwindConverter.ts:40) is not modelled: `convertRule` takes the rule's prepared selectors as its `selectors` parameter.
- NodesManager.TailwindNodesManager: nodes are values, so aliasing is not modelled. The source's constructor keeps the caller's array (src/TailwindNodesManager.ts:25-28), `normalizeNode` rewrites the caller's node object (80-89), and `mergeNode` returns the stored node itself, which later merges keep changing.
- Integer widths: JavaScript numbers appear only as indices and lengths, which are unbounded here.

## Findings

| source | as written | input that shows it | evidently intended | confidence | as-written member | corrected member |
|---|---|---|---|---|---|---|
| src/utils/reduceTailwindClasses.ts:141-165 | A value dropped from the common values is emitted only under the prefix the map holds for it. That prefix is the one written by the latest child, so the classes for earlier children sharing the value are lost. | `reduceTailwindClasses(["rounded-t-2", "rounded-r-2"])` gives `["rounded-r-2"]`, so the top-left corner loses its radius. | Every value of the input stays covered by some output class. | not executed | TailwindClassesReductionFix.TopLeftCornerLost | TailwindClassesReductionFix.FixedFamilyCoverage |
| src/constants/converters.ts:556-581 | The `filter` callback runs `delete mapping[name]`, which deletes the key `name` from the theme table. `backdrop-filter` and `transform` instead run `delete mappings[name]`, which removes the converted function itself. So in `filter` a function named twice converts twice. | `filter: blur(a) blur(b)` gives two `blur-…` classes, one for each argument. | As in `backdrop-filter` and `transform`, a converted function is removed from `mappings`, so its second occurrence ends the walk. | not executed | Converters.FilterTakesRepeatedFunction | Converters.FixedFilterRejectsRepeat |
