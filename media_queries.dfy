/**
 * `buildMediaQueryByScreen`: the media query of a `screens` entry of the theme. A plain
 * string is a minimum width; a screen object gives its `raw` query, or its minimum and
 * maximum width conditions joined with ` and `; a list gives the queries of its screens
 * joined with `, `, screens with nothing to say left out.
 */
module MediaQueries {
  import opened Wrappers
  import opened JsStrings

  /**
   * A screen object. Each field is present exactly when the object has a truthy value under
   * that name, and holds that value's text. The text of a truthy value can still be empty
   * (an empty array), and the query then prints it as such.
   */
  datatype Screen = Screen(raw: Option<string>, min: Option<string>, max: Option<string>)

  /** The value of a `screens` entry: a string, one screen object, or a list of them. */
  datatype ScreenConfig = ScreenText(s: string) | OneScreen(screen: Screen) | ScreenList(screens: seq<Screen>)

  function MinWidth(width: string): string {
    "(min-width: " + width + ")"
  }

  function MaxWidth(width: string): string {
    "(max-width: " + width + ")"
  }

  /** The width conditions of a screen, the minimum first. */
  function Conditions(screen: Screen): (r: seq<string>)
    ensures |r| <= 2
    ensures r == [] <==> screen.min.None? && screen.max.None?
  {
    (if screen.min.Some? then [MinWidth(screen.min.value)] else [])
    + (if screen.max.Some? then [MaxWidth(screen.max.value)] else [])
  }

  /** The query of one screen object: its raw query, else its conditions; `None` (`null`) when it has neither. */
  function ScreenQuery(screen: Screen): (r: Option<string>)
    ensures r.None? <==> screen.raw.None? && screen.min.None? && screen.max.None?
  {
    if screen.raw.Some? then screen.raw
    else
      var conditions := Conditions(screen);
      if |conditions| > 0 then Some(Join(conditions, " and ")) else None
  }

  /** The queries of the screens that have one, in order (`.map(…).filter(Boolean)`). */
  function Queries(screens: seq<Screen>): (r: seq<string>)
    ensures |r| <= |screens|
  {
    if screens == [] then []
    else
      var n := |screens| - 1;
      Queries(screens[..n]) + match ScreenQuery(screens[n]) case None => [] case Some(q) => [q]
  }

  /** `buildMediaQueryByScreen(screens)` */
  function BuildMediaQueryByScreen(config: ScreenConfig): string {
    match config
    case ScreenText(s) => MinWidth(s)
    case OneScreen(screen) => Join(Queries([screen]), ", ")
    case ScreenList(screens) => Join(Queries(screens), ", ")
  }

  /** A single screen object is read as a list holding it. */
  lemma OneScreenIsList(screen: Screen)
    ensures BuildMediaQueryByScreen(OneScreen(screen)) == BuildMediaQueryByScreen(ScreenList([screen]))
  {
  }

  /** A string screen means the same as a screen object with only that minimum width. */
  lemma TextIsMinWidth(s: string)
    ensures BuildMediaQueryByScreen(ScreenText(s)) == BuildMediaQueryByScreen(OneScreen(Screen(None, Some(s), None)))
  {
    assert Queries([Screen(None, Some(s), None)]) == [MinWidth(s)] by {
      assert [Screen(None, Some(s), None)][..0] == [];
    }
  }

  /** A raw query takes precedence over any width conditions. */
  lemma RawWins(raw: string, min: Option<string>, max: Option<string>)
    ensures ScreenQuery(Screen(Some(raw), min, max)) == Some(raw)
  {
  }

  /** The minimum width condition comes first, and the two are joined with ` and `. */
  lemma MinBeforeMax(min: string, max: string)
    ensures ScreenQuery(Screen(None, Some(min), Some(max))) == Some(MinWidth(min) + " and " + MaxWidth(max))
  {
    var conditions := [MinWidth(min), MaxWidth(max)];
    assert Conditions(Screen(None, Some(min), Some(max))) == conditions;
    assert conditions[1..] == [MaxWidth(max)];
    assert Join(conditions, " and ") == MinWidth(min) + " and " + MaxWidth(max);
  }

  /** The queries of two runs of screens, one after the other. */
  lemma {:induction false} QueriesAppend(a: seq<Screen>, b: seq<Screen>)
    ensures Queries(a + b) == Queries(a) + Queries(b)
    decreases |b|
  {
    if b == [] {
      assert a + b == a;
    } else {
      var n := |b| - 1;
      assert (a + b)[..|a| + n] == a + b[..n];
      assert (a + b)[|a| + n] == b[n];
      QueriesAppend(a, b[..n]);
    }
  }

  /** A screen with neither a raw query nor a width is left out, wherever it stands. */
  lemma EmptyScreenDropped(before: seq<Screen>, after: seq<Screen>)
    ensures BuildMediaQueryByScreen(ScreenList(before + [Screen(None, None, None)] + after))
            == BuildMediaQueryByScreen(ScreenList(before + after))
  {
    QueriesAppend(before + [Screen(None, None, None)], after);
    QueriesAppend(before, [Screen(None, None, None)]);
    assert Queries([Screen(None, None, None)]) == [] by {
      assert [Screen(None, None, None)][..0] == [];
    }
    assert Queries(before + [Screen(None, None, None)]) == Queries(before);
    QueriesAppend(before, after);
  }

  /** No screens, or none with a query, give the empty query. */
  lemma NoQueries(screens: seq<Screen>)
    requires forall i | 0 <= i < |screens| :: ScreenQuery(screens[i]).None?
    ensures BuildMediaQueryByScreen(ScreenList(screens)) == ""
  {
    assert Queries(screens) == [] by {
      QueriesNone(screens);
    }
  }

  lemma {:induction false} QueriesNone(screens: seq<Screen>)
    requires forall i | 0 <= i < |screens| :: ScreenQuery(screens[i]).None?
    ensures Queries(screens) == []
    decreases |screens|
  {
    if screens != [] {
      QueriesNone(screens[..|screens| - 1]);
    }
  }

  /** A further screen with a query is appended after `, ` when earlier screens had queries. */
  lemma AppendScreen(screens: seq<Screen>, screen: Screen)
    requires Queries(screens) != [] && ScreenQuery(screen).Some?
    ensures BuildMediaQueryByScreen(ScreenList(screens + [screen]))
            == BuildMediaQueryByScreen(ScreenList(screens)) + ", " + ScreenQuery(screen).value
  {
    assert (screens + [screen])[..|screens|] == screens;
    JoinSnoc(Queries(screens), ScreenQuery(screen).value, ", ");
  }
}
