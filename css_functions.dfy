/**
 * Recognising CSS function notation such as `translateX(10px)` in a declaration value:
 * `parseCSSFunction` (the first `name(value)`, value up to the last `)` on the line),
 * `parseCSSFunctions` (every `name(value)` from left to right, value up to the first
 * `)`) and `everyCSSFunction` (a short-circuiting walk over the whitespace-separated
 * words of a value).
 */
module CssFunctions {
  import opened Wrappers
  import opened JsStrings

  /** `[\w-]`: the characters of a function name. */
  predicate IsNameChar(c: char) {
    IsWordChar(c) || c == '-'
  }

  predicate AllNameChars(s: string) {
    forall i | 0 <= i < |s| :: IsNameChar(s[i])
  }

  /** The end of the run of name characters that starts at `p`. */
  function RunEnd(s: string, p: nat): (q: nat)
    requires p <= |s|
    ensures p <= q <= |s|
    ensures AllNameChars(s[p..q])
    ensures q < |s| ==> !IsNameChar(s[q])
    decreases |s| - p
  {
    if p == |s| || !IsNameChar(s[p]) then p
    else
      var q := RunEnd(s, p + 1);
      assert s[p..q] == [s[p]] + s[p + 1..q];
      q
  }

  /** The end of the text that `.` can match from `p`: the next line terminator, or the end. */
  function LineEnd(s: string, p: nat): (e: nat)
    requires p <= |s|
    ensures p <= e <= |s|
    ensures NoLineTerminator(s[p..e])
    ensures e < |s| ==> IsLineTerminator(s[e])
    decreases |s| - p
  {
    if p == |s| || IsLineTerminator(s[p]) then p
    else
      var e := LineEnd(s, p + 1);
      assert s[p..e] == [s[p]] + s[p + 1..e];
      e
  }

  /** `s.indexOf(c)` for a one-character needle. */
  function IndexOf(s: string, c: char): (r: int)
    ensures -1 <= r < |s|
    ensures r >= 0 ==> s[r] == c && forall k | 0 <= k < r :: s[k] != c
    ensures r == -1 ==> forall k | 0 <= k < |s| :: s[k] != c
  {
    if s == [] then -1
    else if s[0] == c then 0
    else
      var r := IndexOf(s[1..], c);
      if r == -1 then -1 else r + 1
  }

  /** The name and the value captured by a match. */
  datatype Capture = Capture(name: string, value: string)

  /**
   * `/([\w-]+)\((.*)\)/` tried at position `p`: the maximal run of name characters from
   * `p`, an opening parenthesis, then (greedy `.*`) everything up to the last `)` before
   * the end of the line. A shorter run is no use, since it is followed by a name
   * character and not by `(`.
   */
  function GreedyAt(s: string, p: nat): Option<Capture>
    requires p <= |s|
  {
    var q := RunEnd(s, p);
    if q == p || q == |s| || s[q] != '(' then None
    else
      var e := LineEnd(s, q + 1);
      var k := LastIndexOf(s[q + 1..e], ')');
      if k == -1 then None else Some(Capture(s[p..q], s[q + 1..q + 1 + k]))
  }

  /** The leftmost match of the greedy pattern at or after `p`. */
  function FirstGreedy(s: string, p: nat): Option<Capture>
    requires p <= |s|
    decreases |s| - p
  {
    if p == |s| then None
    else if GreedyAt(s, p).Some? then GreedyAt(s, p)
    else FirstGreedy(s, p + 1)
  }

  /** The result of `parseCSSFunction`: `null` is `None`. */
  datatype CssFunction = CssFunction(name: Option<string>, value: Option<string>)

  /** `name || null` */
  function NonEmpty(s: string): (r: Option<string>)
    ensures r.None? <==> s == ""
    ensures r.Some? ==> r.value == s
  {
    if s == "" then None else Some(s)
  }

  /** `parseCSSFunction(string)`: the first `name(value)` of the string, value up to the last `)`. */
  function ParseCSSFunction(s: string): (r: CssFunction)
    ensures FirstGreedy(s, 0).None? ==> r == CssFunction(None, None)
    ensures FirstGreedy(s, 0).Some? ==> r.name.Some? && AllNameChars(r.name.value)
  {
    match FirstGreedy(s, 0)
    case None => CssFunction(None, None)
    case Some(c) =>
      GreedyNameIsRun(s, 0);
      CssFunction(NonEmpty(c.name), NonEmpty(c.value))
  }

  /** A match found from `p` starts at some `i >= p`, names a non-empty run and is followed by `(`. */
  lemma {:induction false} GreedyNameIsRun(s: string, p: nat)
    requires p <= |s| && FirstGreedy(s, p).Some?
    ensures var c := FirstGreedy(s, p).value;
            c.name != "" && AllNameChars(c.name) && NoLineTerminator(c.value)
    decreases |s| - p
  {
    if GreedyAt(s, p).None? {
      GreedyNameIsRun(s, p + 1);
    } else {
      var q := RunEnd(s, p);
      var e := LineEnd(s, q + 1);
      var k := LastIndexOf(s[q + 1..e], ')');
      if k >= 0 {
        SliceOfSlice(s, q + 1, e, 0, k);
      }
    }
  }

  /** `name(value)` */
  function CallText(name: string, value: string): string {
    name + "(" + value + ")"
  }

  /**
   * Round trip: the text of a call parses back into its name and value, whatever `(` or
   * `)` the value itself contains, as long as it stays on one line. An empty value reads
   * as `null` while the name stays.
   */
  lemma ParseCallText(name: string, value: string)
    requires name != "" && AllNameChars(name) && NoLineTerminator(value)
    ensures ParseCSSFunction(CallText(name, value)) == CssFunction(Some(name), NonEmpty(value))
  {
    var s := CallText(name, value);
    RunOfName(name, "(" + value + ")");
    assert s == name + ("(" + value + ")");
    var q := |name|;
    assert s[q] == '(';
    LineEndAll(s, q + 1);
    var k := LastIndexOf(s[q + 1..], ')');
    assert s[q + 1..] == value + ")";
    assert k == |value|;
    assert s[0..q] == name;
    assert s[q + 1..q + 1 + k] == value;
    assert GreedyAt(s, 0) == Some(Capture(name, value));
  }

  /** The run of name characters at the start of `name + rest` is `name` when `rest` starts otherwise. */
  lemma {:induction false} RunOfName(name: string, rest: string)
    requires AllNameChars(name) && rest != [] && !IsNameChar(rest[0])
    ensures RunEnd(name + rest, 0) == |name|
  {
    RunFrom(name + rest, 0, |name|);
  }

  lemma {:induction false} RunFrom(s: string, p: nat, q: nat)
    requires p <= q < |s| && AllNameChars(s[p..q]) && !IsNameChar(s[q])
    ensures RunEnd(s, p) == q
    decreases q - p
  {
    if p < q {
      assert IsNameChar(s[p..q][0]);
      assert s[p + 1..q] == s[p..q][1..];
      RunFrom(s, p + 1, q);
    }
  }

  /** On text without line terminators `.` reaches the end. */
  lemma {:induction false} LineEndAll(s: string, p: nat)
    requires p <= |s| && NoLineTerminator(s[p..])
    ensures LineEnd(s, p) == |s|
    decreases |s| - p
  {
    if p < |s| {
      assert !IsLineTerminator(s[p..][0]);
      assert s[p + 1..] == s[p..][1..];
      LineEndAll(s, p + 1);
    }
  }

  /** Without any `(` there is no function. */
  lemma NoParenNoFunction(s: string)
    requires '(' !in s
    ensures ParseCSSFunction(s) == CssFunction(None, None)
  {
    forall p | 0 <= p <= |s|
      ensures GreedyAt(s, p).None?
    {
      var q := RunEnd(s, p);
      if q < |s| {
        assert s[q] in s;
      }
    }
    NoneFrom(s, 0);
  }

  lemma {:induction false} NoneFrom(s: string, p: nat)
    requires p <= |s|
    requires forall i | p <= i <= |s| :: GreedyAt(s, i).None?
    ensures FirstGreedy(s, p).None?
    decreases |s| - p
  {
    if p < |s| {
      NoneFrom(s, p + 1);
    }
  }

  // ---------------------------------------------------------------------------------------
  // parseCSSFunctions

  /**
   * `/([\w-]+)\((.*?)\)/` tried at `p` (lazy `.*?`): the end of the match, just after the
   * first `)` that follows the `(` on the same line.
   */
  function LazyAt(s: string, p: nat): (r: Option<nat>)
    requires p <= |s|
    ensures r.Some? ==> p < r.value <= |s|
  {
    var q := RunEnd(s, p);
    if q == p || q == |s| || s[q] != '(' then None
    else
      var e := LineEnd(s, q + 1);
      var k := IndexOf(s[q + 1..e], ')');
      if k == -1 then None else Some(q + 1 + k + 1)
  }

  /** The texts of all matches of the global lazy pattern from `p`, left to right, without overlap. */
  function LazyMatches(s: string, p: nat): seq<string>
    requires p <= |s|
    decreases |s| - p
  {
    if p == |s| then []
    else match LazyAt(s, p)
      case Some(e) => [s[p..e]] + LazyMatches(s, e)
      case None => LazyMatches(s, p + 1)
  }

  /**
   * A text the lazy pattern matches in full: a run of name characters, `(`, a value
   * without `)` or line terminator, and the closing `)`.
   */
  predicate IsLazyCall(t: string) {
    var q := RunEnd(t, 0);
    0 < q && q + 2 <= |t| && t[q] == '(' && t[|t| - 1] == ')'
    && NoLineTerminator(t[q + 1..|t| - 1]) && ')' !in t[q + 1..|t| - 1]
  }

  /** The name of a call text. */
  function CallName(t: string): string {
    t[..RunEnd(t, 0)]
  }

  /** The value between the parentheses of a call text. */
  function CallValue(t: string): string
    requires IsLazyCall(t)
  {
    t[RunEnd(t, 0) + 1..|t| - 1]
  }

  /** `parseCSSFunctions(value)`: every function of the trimmed value, each parsed on its own. */
  function ParseCSSFunctions(value: string): (r: seq<CssFunction>)
    ensures |r| == |LazyMatches(Trim(value), 0)|
    ensures forall i | 0 <= i < |r| ::
              IsLazyCall(LazyMatches(Trim(value), 0)[i])
              && r[i] == CssFunction(Some(CallName(LazyMatches(Trim(value), 0)[i])),
                                     NonEmpty(CallValue(LazyMatches(Trim(value), 0)[i])))
  {
    var ms := LazyMatches(Trim(value), 0);
    LazyMatchesAreCalls(Trim(value), 0);
    forall i | 0 <= i < |ms|
      ensures ParseCSSFunction(ms[i]) == CssFunction(Some(CallName(ms[i])), NonEmpty(CallValue(ms[i])))
    {
      ParseLazyCall(ms[i]);
    }
    seq(|ms|, i requires 0 <= i < |ms| => ParseCSSFunction(ms[i]))
  }

  /** A lazily matched call, parsed again with the greedy pattern, gives back its own name and value. */
  lemma ParseLazyCall(t: string)
    requires IsLazyCall(t)
    ensures ParseCSSFunction(t) == CssFunction(Some(CallName(t)), NonEmpty(CallValue(t)))
  {
    var q := RunEnd(t, 0);
    assert t == CallText(t[..q], CallValue(t));
    assert t[..q] == t[0..q];
    ParseCallText(t[..q], CallValue(t));
  }

  /** Every text the lazy pattern matches is a call. */
  lemma {:induction false} LazyMatchesAreCalls(s: string, p: nat)
    requires p <= |s|
    ensures forall i | 0 <= i < |LazyMatches(s, p)| :: IsLazyCall(LazyMatches(s, p)[i])
    decreases |s| - p
  {
    if p < |s| {
      match LazyAt(s, p)
      case Some(e) =>
        LazyMatchesAreCalls(s, e);
        LazyAtIsCall(s, p);
        assert LazyMatches(s, p) == [s[p..e]] + LazyMatches(s, e);
      case None =>
        LazyMatchesAreCalls(s, p + 1);
    }
  }

  lemma LazyAtIsCall(s: string, p: nat)
    requires p <= |s| && LazyAt(s, p).Some?
    ensures IsLazyCall(s[p..LazyAt(s, p).value])
  {
    var q := RunEnd(s, p);
    var e := LineEnd(s, q + 1);
    var line := s[q + 1..e];
    var k := IndexOf(line, ')');
    var v := line[..k];
    SliceOfSlice(s, q + 1, e, 0, k);
    assert v == line[0..k];
    assert NoLineTerminator(v) by {
      assert forall m | 0 <= m < k :: v[m] == line[m];
    }
    assert ')' !in v by {
      assert forall m | 0 <= m < k :: v[m] == line[m];
    }
    var t := s[p..q + 1 + k + 1];
    assert t == s[p..q] + "(" + v + ")" by {
      assert s[q] == '(' && line[k] == ')';
      assert s[p..q + 1 + k + 1] == s[p..q] + [s[q]] + s[q + 1..q + 1 + k] + [s[q + 1 + k]];
    }
    LazyCallText(s[p..q], v);
  }

  /** A call text whose value holds no `)` and no line terminator is what the lazy pattern matches. */
  lemma LazyCallText(name: string, value: string)
    requires name != "" && AllNameChars(name) && NoLineTerminator(value) && ')' !in value
    ensures IsLazyCall(name + "(" + value + ")")
  {
    var t := name + "(" + value + ")";
    RunOfName(name, "(" + value + ")");
    assert t == name + ("(" + value + ")");
    assert t[|name| + 1..|t| - 1] == value;
  }

  // ---------------------------------------------------------------------------------------
  // everyCSSFunction

  /**
   * `array.every(callback)` where the callback also updates the caller's state: the state
   * after the walk and the number of callbacks made. The walk stops after the first
   * callback that does not return `true`.
   */
  function Every<S>(fns: seq<CssFunction>, s: S, callback: (S, CssFunction) -> (S, bool)): (r: (S, nat))
    ensures r.1 <= |fns|
    ensures fns != [] ==> r.1 >= 1
  {
    if fns == [] then (s, 0)
    else
      var (next, goOn) := callback(s, fns[0]);
      if !goOn then (next, 1)
      else
        var rest := Every(fns[1..], next, callback);
        (rest.0, rest.1 + 1)
  }

  /** The words `everyCSSFunction` visits: the trimmed value split on whitespace runs, each parsed. */
  function Words(value: string): (r: seq<CssFunction>)
    ensures |r| >= 1
  {
    var pieces := SplitWs(Trim(value));
    seq(|pieces|, i requires 0 <= i < |pieces| => ParseCSSFunction(pieces[i]))
  }

  /** `everyCSSFunction(value, callback)`, with the caller's state threaded through the callback. */
  function EveryCSSFunction<S>(value: string, s: S, callback: (S, CssFunction) -> (S, bool)): (r: (S, nat))
    ensures 1 <= r.1 <= |Words(value)|
  {
    Every(Words(value), s, callback)
  }

  /** The callbacks made are those on the words before the first `false`, and that one. */
  lemma {:induction false} EveryStopsAtFirstFalse<S>(fns: seq<CssFunction>, s: S, callback: (S, CssFunction) -> (S, bool), k: nat)
    requires k < |fns|
    requires forall j | 0 <= j < k :: callback(States(fns, s, callback, j), fns[j]).1
    requires !callback(States(fns, s, callback, k), fns[k]).1
    ensures Every(fns, s, callback) == (callback(States(fns, s, callback, k), fns[k]).0, k + 1)
    decreases k
  {
    if k > 0 {
      var next := callback(s, fns[0]).0;
      assert callback(States(fns, s, callback, 0), fns[0]).1;
      forall j | 0 <= j < k - 1
        ensures callback(States(fns[1..], next, callback, j), fns[1..][j]).1
      {
        StatesShift(fns, s, callback, j + 1);
        assert callback(States(fns, s, callback, j + 1), fns[j + 1]).1;
      }
      StatesShift(fns, s, callback, k);
      EveryStopsAtFirstFalse(fns[1..], next, callback, k - 1);
    }
  }

  /** When every callback returns `true`, every word is visited. */
  lemma {:induction false} EveryVisitsAll<S>(fns: seq<CssFunction>, s: S, callback: (S, CssFunction) -> (S, bool))
    requires forall j | 0 <= j < |fns| :: callback(States(fns, s, callback, j), fns[j]).1
    ensures Every(fns, s, callback) == (States(fns, s, callback, |fns|), |fns|)
    decreases |fns|
  {
    if fns != [] {
      var next := callback(s, fns[0]).0;
      assert callback(States(fns, s, callback, 0), fns[0]).1;
      forall j | 0 <= j < |fns| - 1
        ensures callback(States(fns[1..], next, callback, j), fns[1..][j]).1
      {
        StatesShift(fns, s, callback, j + 1);
        assert callback(States(fns, s, callback, j + 1), fns[j + 1]).1;
      }
      EveryVisitsAll(fns[1..], next, callback);
      StatesShift(fns, s, callback, |fns|);
    }
  }

  /** The state before the callback on word `k`, if the walk got that far. */
  function States<S>(fns: seq<CssFunction>, s: S, callback: (S, CssFunction) -> (S, bool), k: nat): S
    requires k <= |fns|
  {
    if k == 0 then s else callback(States(fns, s, callback, k - 1), fns[k - 1]).0
  }

  lemma {:induction false} StatesShift<S>(fns: seq<CssFunction>, s: S, callback: (S, CssFunction) -> (S, bool), k: nat)
    requires 1 <= k <= |fns|
    ensures States(fns, s, callback, k) == States(fns[1..], callback(s, fns[0]).0, callback, k - 1)
  {
    if k > 1 {
      StatesShift(fns, s, callback, k - 1);
      assert fns[1..][k - 2] == fns[k - 1];
    }
  }

  /** A property every callback keeps holds of every later state. */
  lemma {:induction false} StatesKeep<S>(fns: seq<CssFunction>, s: S, callback: (S, CssFunction) -> (S, bool),
                                         keep: S -> bool, i: nat, k: nat)
    requires i <= k <= |fns| && keep(States(fns, s, callback, i))
    requires forall st: S, fn: CssFunction :: keep(st) ==> keep(callback(st, fn).0)
    ensures keep(States(fns, s, callback, k))
    decreases k
  {
    if k > i {
      StatesKeep(fns, s, callback, keep, i, k - 1);
    }
  }

  /** A value with nothing but whitespace is one word with neither name nor value. */
  lemma BlankValueOneCallback(value: string)
    requires AllSpace(value)
    ensures Words(value) == [CssFunction(None, None)]
  {
    assert Trim(value) == [];
    assert SplitWs([]) == [[]];
    NoParenNoFunction([]);
  }
}
