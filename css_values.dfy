/**
 * The small rewrites applied to declaration values before they are matched against the
 * Tailwind theme: rem to px, a leading `0` for fractions such as `.5`, dropping the
 * whitespace around `,` `;` `:`, and recognising `var(--name)`.
 */
module CssValues {
  import opened JsStrings

  predicate AllDigits(s: string) {
    forall i | 0 <= i < |s| :: IsDigit(s[i])
  }

  /** The end of the run of digits that starts at `p`. */
  function DigitRun(s: string, p: nat): (q: nat)
    requires p <= |s|
    ensures p <= q <= |s|
    ensures forall k | p <= k < q :: IsDigit(s[k])
    ensures q < |s| ==> !IsDigit(s[q])
    decreases |s| - p
  {
    if p == |s| || !IsDigit(s[p]) then p else DigitRun(s, p + 1)
  }

  lemma {:induction false} DigitRunAll(s: string, p: nat)
    requires p <= |s| && forall k | p <= k < |s| :: IsDigit(s[k])
    ensures DigitRun(s, p) == |s|
    decreases |s| - p
  {
    if p < |s| {
      DigitRunAll(s, p + 1);
    }
  }

  // ---------------------------------------------------------------------------------------
  // remValueToPx

  /** `(\d+)?\.?\d+`: digits, or digits, a dot and at least one digit. */
  predicate IsRemNumber(n: string) {
    var k := DigitRun(n, 0);
    (k == |n| && k > 0) || (k + 1 < |n| && n[k] == '.' && DigitRun(n, k + 1) == |n|)
  }

  /** `/^(\d+)?\.?\d+rem$/` */
  predicate IsRemValue(t: string) {
    |t| >= 3 && t[|t| - 3..] == "rem" && IsRemNumber(t[..|t| - 3])
  }

  /**
   * `remValueToPx(value, remInPx)`. The product `parseFloat(value) * remInPx` and its
   * printing are floating point and are the parameter `pxOf`, applied to the number text
   * that `parseFloat` reads.
   */
  function RemValueToPx(value: string, pxOf: string -> string): (r: string)
    ensures r != value ==> IsRemValue(Trim(value)) && r == pxOf(Trim(value)[..|Trim(value)| - 3]) + "px"
  {
    var t := Trim(value);
    if IsRemValue(t) then pxOf(t[..|t| - 3]) + "px" else value
  }

  /** A rem length, however padded, becomes its px length; the number text is what `pxOf` sees. */
  lemma RemLengthConverts(a: string, n: string, b: string, pxOf: string -> string)
    requires AllSpace(a) && AllSpace(b) && IsRemNumber(n)
    ensures RemValueToPx(a + (n + "rem") + b, pxOf) == pxOf(n) + "px"
  {
    var t := n + "rem";
    assert n[0] == '.' || IsDigit(n[0]);
    assert t[0] == n[0] && t[|t| - 1] == 'm';
    TrimAround(a, t, b);
    RemOfTrimmed(a + t + b, n, pxOf);
  }

  lemma RemOfTrimmed(v: string, n: string, pxOf: string -> string)
    requires IsRemNumber(n) && Trim(v) == n + "rem"
    ensures RemValueToPx(v, pxOf) == pxOf(n) + "px"
  {
    var t := Trim(v);
    assert t[|t| - 3..] == "rem" && t[..|t| - 3] == n;
  }

  /** A value that does not end in a rem length is returned as it is. */
  lemma NonRemUnchanged(value: string, pxOf: string -> string)
    requires !IsRemValue(Trim(value))
    ensures RemValueToPx(value, pxOf) == value
  {
  }

  /** The rewrite is idempotent: a px value is no rem value. */
  lemma RemValueToPxIdempotent(value: string, pxOf: string -> string)
    ensures RemValueToPx(RemValueToPx(value, pxOf), pxOf) == RemValueToPx(value, pxOf)
  {
    var r := RemValueToPx(value, pxOf);
    if r != value {
      assert r[|r| - 1] == 'x';
      TrimEndsWith(r);
    }
  }

  /** Whitespace around a string whose ends are not whitespace is exactly what trimming removes. */
  lemma TrimAround(a: string, t: string, b: string)
    requires AllSpace(a) && AllSpace(b) && t != [] && !IsSpace(t[0]) && !IsSpace(t[|t| - 1])
    ensures Trim(a + t + b) == t
  {
    TrimPadded(a, t, b);
    NoSpaceTrim(t);
  }

  /** Trimming keeps a last character that is not whitespace. */
  lemma TrimEndsWith(t: string)
    requires t != [] && !IsSpace(t[|t| - 1])
    ensures Trim(t) != [] && Trim(t)[|Trim(t)| - 1] == t[|t| - 1]
  {
    var i, j := TrimBounds(t);
    assert j == |t|;
  }

  /** Trimming keeps a first character that is not whitespace. */
  lemma TrimStartsWith(t: string)
    requires t != [] && !IsSpace(t[0])
    ensures Trim(t) != [] && Trim(t)[0] == t[0]
  {
    var i, j := TrimBounds(t);
    assert i == 0;
  }

  // ---------------------------------------------------------------------------------------
  // normalizeNumberValue

  /** `/^\.[0-9]/` */
  predicate StartsWithFraction(t: string) {
    |t| >= 2 && t[0] == '.' && IsDigit(t[1])
  }

  /**
   * `normalizeNumberValue(value)`: a `0` in front of a value whose trimmed form starts with
   * a fraction. The `0` goes in front of the untrimmed value, before any leading
   * whitespace.
   */
  function NormalizeNumberValue(value: string): (r: string)
    ensures r == value || r == "0" + value
    ensures r != value <==> StartsWithFraction(Trim(value))
  {
    if StartsWithFraction(Trim(value)) then "0" + value else value
  }

  /** After normalising, the value never starts with a bare fraction. */
  lemma NormalizedHasNoBareFraction(value: string)
    ensures !StartsWithFraction(Trim(NormalizeNumberValue(value)))
  {
    if StartsWithFraction(Trim(value)) {
      TrimStartsWith("0" + value);
    }
  }

  /** Normalising twice is normalising once. */
  lemma NormalizeNumberValueIdempotent(value: string)
    ensures NormalizeNumberValue(NormalizeNumberValue(value)) == NormalizeNumberValue(value)
  {
    NormalizedHasNoBareFraction(value);
  }

  // ---------------------------------------------------------------------------------------
  // normalizeNumbersInString

  /**
   * The separator class of the pattern below: `,` `;` `*`, whitespace and the range `+-/`,
   * which runs from `+` to `/` and so also takes `,` `-` and `.`.
   */
  predicate IsSeparator(c: char) {
    c == ',' || c == ';' || ('+' <= c <= '/') || c == '*' || IsSpace(c)
  }

  /** `\.\d+` at `j`: the end of the fraction, or `j` when none starts there. */
  function FractionEnd(s: string, j: nat): (e: nat)
    requires j <= |s|
    ensures e == j || (j + 2 <= e <= |s| && s[j] == '.' && IsDigit(s[j + 1]))
    ensures e > j ==> forall k | j < k < e :: IsDigit(s[k])
    ensures e > j && e < |s| ==> !IsDigit(s[e])
    ensures e == j ==> !(j + 1 < |s| && s[j] == '.' && IsDigit(s[j + 1]))
  {
    if j + 1 < |s| && s[j] == '.' && IsDigit(s[j + 1]) then DigitRun(s, j + 1) else j
  }

  /**
   * The global replacement of `(^|<separator>)(\.\d+)` by `$10$2` from position `i` on:
   * at the start of the string a fraction gets a `0` in front; elsewhere a separator
   * followed by a fraction gets a `0` between them. `$10` reads as `$1` followed by `0`,
   * as there are only two groups.
   */
  function NormalizeFrom(s: string, i: nat): string
    requires i <= |s|
    decreases |s| - i
  {
    if i == |s| then []
    else if i == 0 && FractionEnd(s, 0) > 0 then
      var e := FractionEnd(s, 0);
      "0" + s[..e] + NormalizeFrom(s, e)
    else if IsSeparator(s[i]) && FractionEnd(s, i + 1) > i + 1 then
      var e := FractionEnd(s, i + 1);
      [s[i]] + "0" + s[i + 1..e] + NormalizeFrom(s, e)
    else [s[i]] + NormalizeFrom(s, i + 1)
  }

  /** `normalizeNumbersInString(string)` */
  function NormalizeNumbersInString(s: string): (r: string)
    ensures |r| >= |s|
  {
    NormalizeLength(s, 0);
    NormalizeFrom(s, 0)
  }

  lemma {:induction false} NormalizeLength(s: string, i: nat)
    requires i <= |s|
    ensures |NormalizeFrom(s, i)| >= |s| - i
    decreases |s| - i
  {
    if i < |s| {
      if i == 0 && FractionEnd(s, 0) > 0 {
        NormalizeLength(s, FractionEnd(s, 0));
      } else if IsSeparator(s[i]) && FractionEnd(s, i + 1) > i + 1 {
        NormalizeLength(s, FractionEnd(s, i + 1));
      } else {
        NormalizeLength(s, i + 1);
      }
    }
  }

  /**
   * `r` is `t` with `0`s inserted, each right in front of a fraction that starts the text or
   * follows a separator, and never two in one place. `boundary` says whether the text before
   * `t` allows one at its head. Removing those `0`s from `r` gives back `t`.
   */
  predicate ZeroInserted(r: string, t: string, boundary: bool)
    decreases |r|
  {
    (r == [] && t == []) ||
    (r != [] && t != [] && r[0] == t[0] && ZeroInserted(r[1..], t[1..], IsSeparator(t[0]))) ||
    (boundary && HeadFraction(t) && r != [] && r[0] == '0' && ZeroInserted(r[1..], t, false))
  }

  /** Characters copied in front keep the insertions that follow them legal. */
  lemma {:induction false} CopiedPrefix(p: string, r: string, t: string, boundary: bool)
    requires ZeroInserted(r, t, if p == [] then boundary else IsSeparator(p[|p| - 1]))
    ensures ZeroInserted(p + r, p + t, boundary)
    decreases |p|
  {
    if p == [] {
      assert p + r == r && p + t == t;
    } else {
      CopiedPrefix(p[1..], r, t, IsSeparator(p[0]));
      assert (p + r)[1..] == p[1..] + r && (p + t)[1..] == p[1..] + t;
    }
  }

  lemma {:induction false} NormalizeFromInsertsZeros(s: string, i: nat)
    requires i <= |s|
    ensures ZeroInserted(NormalizeFrom(s, i), s[i..], i == 0 || IsSeparator(s[i - 1]))
    decreases |s| - i
  {
    if i < |s| {
      if i == 0 && FractionEnd(s, 0) > 0 {
        NormalizeFromInsertsZeros(s, FractionEnd(s, 0));
        HeadZeroInserted(s);
      } else if IsSeparator(s[i]) && FractionEnd(s, i + 1) > i + 1 {
        NormalizeFromInsertsZeros(s, FractionEnd(s, i + 1));
        SeparatorZeroInserted(s, i);
      } else {
        NormalizeFromInsertsZeros(s, i + 1);
        var r := NormalizeFrom(s, i);
        assert r[1..] == NormalizeFrom(s, i + 1) && s[i..][1..] == s[i + 1..];
      }
    }
  }

  /** A `0` put in front of a fraction, itself copied in front of a legal rest, is a legal insertion. */
  lemma ZeroBeforeFraction(piece: string, r: string, t: string)
    requires HeadFraction(piece)
    requires ZeroInserted(r, t, IsSeparator(piece[|piece| - 1]))
    ensures ZeroInserted("0" + (piece + r), piece + t, true)
  {
    CopiedPrefix(piece, r, t, false);
    assert HeadFraction(piece + t) && ("0" + (piece + r))[1..] == piece + r;
  }

  lemma HeadStep(s: string)
    requires 0 < |s| && FractionEnd(s, 0) > 0
    ensures NormalizeFrom(s, 0) == "0" + (s[..FractionEnd(s, 0)] + NormalizeFrom(s, FractionEnd(s, 0)))
  {
    var e := FractionEnd(s, 0);
    var n := NormalizeFrom(s, e);
    assert "0" + s[..e] + n == "0" + (s[..e] + n);
  }

  lemma SplitAt(t: string, j: nat, k: nat)
    requires j <= k <= |t|
    ensures t[j..k] + t[k..] == t[j..]
  {
  }

  lemma ConsSplit(t: string, i: nat, k: nat)
    requires i < k <= |t|
    ensures [t[i]] + (t[i + 1..k] + t[k..]) == t[i..]
  {
    SplitAt(t, i + 1, k);
    assert [t[i]] + t[i + 1..] == t[i..];
  }

  /** A separator copied in front of a `0` put before a fraction. */
  lemma SeparatorThenZero(c: char, piece: string, r: string, t: string, boundary: bool)
    requires IsSeparator(c) && HeadFraction(piece)
    requires ZeroInserted(r, t, IsSeparator(piece[|piece| - 1]))
    ensures ZeroInserted([c] + ("0" + (piece + r)), [c] + (piece + t), boundary)
  {
    ZeroBeforeFraction(piece, r, t);
    CopiedPrefix([c], "0" + (piece + r), piece + t, boundary);
  }

  lemma SeparatorStep(s: string, i: nat)
    requires i < |s| && !(i == 0 && FractionEnd(s, 0) > 0)
    requires IsSeparator(s[i]) && FractionEnd(s, i + 1) > i + 1
    ensures NormalizeFrom(s, i) == [s[i]] + ("0" + (s[i + 1..FractionEnd(s, i + 1)] + NormalizeFrom(s, FractionEnd(s, i + 1))))
  {
    var e := FractionEnd(s, i + 1);
    var n := NormalizeFrom(s, e);
    assert [s[i]] + "0" + s[i + 1..e] + n == [s[i]] + ("0" + (s[i + 1..e] + n));
  }

  /** The step that puts a `0` in front of a fraction at the start of the text. */
  lemma HeadZeroInserted(s: string)
    requires 0 < |s| && FractionEnd(s, 0) > 0
    requires ZeroInserted(NormalizeFrom(s, FractionEnd(s, 0)), s[FractionEnd(s, 0)..], true)
    ensures ZeroInserted(NormalizeFrom(s, 0), s, true)
  {
    var e := FractionEnd(s, 0);
    HeadStep(s);
    SplitAt(s, 0, e);
    assert s[..e][e - 1] == s[e - 1];
    ZeroBeforeFraction(s[..e], NormalizeFrom(s, e), s[e..]);
  }

  /** The step that puts a `0` between a separator and the fraction after it. */
  lemma SeparatorZeroInserted(s: string, i: nat)
    requires i < |s| && !(i == 0 && FractionEnd(s, 0) > 0)
    requires IsSeparator(s[i]) && FractionEnd(s, i + 1) > i + 1
    requires ZeroInserted(NormalizeFrom(s, FractionEnd(s, i + 1)), s[FractionEnd(s, i + 1)..], true)
    ensures ZeroInserted(NormalizeFrom(s, i), s[i..], i == 0 || IsSeparator(s[i - 1]))
  {
    var e := FractionEnd(s, i + 1);
    SeparatorStep(s, i);
    ConsSplit(s, i, e);
    assert s[i + 1..e][e - i - 2] == s[e - 1];
    SeparatorThenZero(s[i], s[i + 1..e], NormalizeFrom(s, e), s[e..], i == 0 || IsSeparator(s[i - 1]));
  }

  /** The replacement only inserts `0`s, each in front of a fraction it may take: the rest of the text is kept in order. */
  lemma NormalizeOnlyInsertsZeros(s: string)
    ensures ZeroInserted(NormalizeNumbersInString(s), s, true)
  {
    NormalizeFromInsertsZeros(s, 0);
    assert s[0..] == s;
  }

  /** A fraction at `k` that the pattern would take: at the start, or after a separator. */
  predicate BareFractionAt(t: string, k: nat) {
    k + 1 < |t| && t[k] == '.' && IsDigit(t[k + 1]) && (k == 0 || IsSeparator(t[k - 1]))
  }

  predicate NoBareFraction(t: string) {
    forall k | 0 <= k < |t| :: !BareFractionAt(t, k)
  }

  /** No `..` in the text (`.` is itself a separator, so `..5` would take a `0` after the first dot). */
  predicate NoDoubleDot(s: string) {
    forall k | 0 <= k < |s| - 1 :: !(s[k] == '.' && s[k + 1] == '.')
  }

  /** A text without a bare fraction is left as it is. */
  lemma {:induction false} NormalizeFixpoint(t: string, i: nat)
    requires NoBareFraction(t) && i <= |t|
    ensures NormalizeFrom(t, i) == t[i..]
    decreases |t| - i
  {
    if i < |t| {
      assert !BareFractionAt(t, i);
      if i + 1 < |t| {
        assert !BareFractionAt(t, i + 1);
      }
      NormalizeFixpoint(t, i + 1);
      assert t[i..] == [t[i]] + t[i + 1..];
    }
  }

  /** A fraction at the head of `t`: `.` then a digit. */
  predicate HeadFraction(t: string) {
    |t| >= 2 && t[0] == '.' && IsDigit(t[1])
  }

  /** No bare fraction after the first character. */
  predicate NoBareInside(t: string) {
    forall k | 1 <= k < |t| :: !BareFractionAt(t, k)
  }

  /** Where a scan may resume: the character before, if a separator, is not followed by a fraction. */
  predicate Resumable(s: string, i: nat)
    requires i <= |s|
  {
    i == 0 || !IsSeparator(s[i - 1]) || FractionEnd(s, i) == i
  }

  lemma ConcatNoBare(piece: string, rest: string)
    requires piece != [] && NoBareInside(piece) && NoBareInside(rest)
    requires |piece| >= 2 ==> piece[|piece| - 1] != '.'
    requires HeadFraction(rest) ==> !IsSeparator(piece[|piece| - 1])
    ensures NoBareInside(piece + rest)
  {
    var t := piece + rest;
    forall k | 1 <= k < |t|
      ensures !BareFractionAt(t, k)
    {
      if k >= |piece| + 1 {
        assert t[k - 1] == rest[k - |piece| - 1] && t[k] == rest[k - |piece|];
        if k + 1 < |t| {
          assert t[k + 1] == rest[k + 1 - |piece|];
        }
        assert !BareFractionAt(rest, k - |piece|);
      } else if k == |piece| {
        assert t[k - 1] == piece[|piece| - 1];
        if k + 1 < |t| {
          assert t[k] == rest[0] && t[k + 1] == rest[1];
        }
      } else if k == |piece| - 1 {
        assert t[k] == piece[k];
      } else {
        assert t[k - 1] == piece[k - 1] && t[k] == piece[k] && t[k + 1] == piece[k + 1];
        assert !BareFractionAt(piece, k);
      }
    }
  }

  /** A replaced piece: a separator (or nothing), `0`, then the fraction. */
  lemma PieceNoBare(lead: string, frac: string)
    requires |lead| <= 1 && (lead != [] ==> lead[0] != '.')
    requires |frac| >= 2 && frac[0] == '.' && forall k | 1 <= k < |frac| :: IsDigit(frac[k])
    ensures var p := lead + "0" + frac;
            NoBareInside(p) && !HeadFraction(p) && p[|p| - 1] != '.'
  {
    var p := lead + "0" + frac;
    var n := |lead|;
    assert p[n] == '0';
    assert forall k | n + 1 <= k < |p| :: p[k] == frac[k - n - 1];
    forall k | 1 <= k < |p|
      ensures !BareFractionAt(p, k)
    {
      if k > n + 1 {
        assert IsDigit(p[k]);
      }
    }
  }

  /**
   * Scanning from a resumable position without `..` leaves no bare fraction after the
   * head, and one at the head only after a character that is not a separator.
   */
  lemma {:induction false} NormalizeFromClean(s: string, i: nat)
    requires NoDoubleDot(s) && i <= |s| && Resumable(s, i)
    ensures NoBareInside(NormalizeFrom(s, i))
    ensures HeadFraction(NormalizeFrom(s, i)) ==> i > 0 && !IsSeparator(s[i - 1])
    ensures i < |s| && i > 0 ==> NormalizeFrom(s, i)[0] == s[i]
    decreases |s| - i, 1
  {
    if i < |s| {
      if i == 0 && FractionEnd(s, 0) > 0 {
        LeadingFractionClean(s);
      } else if IsSeparator(s[i]) && FractionEnd(s, i + 1) > i + 1 {
        SeparatedFractionClean(s, i);
      } else {
        CopiedClean(s, i);
      }
    }
  }

  lemma {:induction false} LeadingFractionClean(s: string)
    requires NoDoubleDot(s) && 0 < |s| && FractionEnd(s, 0) > 0
    ensures NoBareInside(NormalizeFrom(s, 0)) && !HeadFraction(NormalizeFrom(s, 0))
    decreases |s|, 0
  {
    var e := FractionEnd(s, 0);
    NormalizeFromClean(s, e);
    var piece := "0" + s[..e];
    PieceNoBare([], s[..e]);
    assert [] + "0" + s[..e] == piece;
    ConcatNoBare(piece, NormalizeFrom(s, e));
    assert NormalizeFrom(s, 0) == piece + NormalizeFrom(s, e);
  }

  lemma {:induction false} SeparatedFractionClean(s: string, i: nat)
    requires NoDoubleDot(s) && i < |s| && !(i == 0 && FractionEnd(s, 0) > 0)
    requires IsSeparator(s[i]) && FractionEnd(s, i + 1) > i + 1
    ensures NoBareInside(NormalizeFrom(s, i)) && !HeadFraction(NormalizeFrom(s, i))
    ensures NormalizeFrom(s, i)[0] == s[i]
    decreases |s| - i, 0
  {
    var e := FractionEnd(s, i + 1);
    NormalizeFromClean(s, e);
    assert s[i] != '.';
    var piece := [s[i]] + "0" + s[i + 1..e];
    PieceNoBare([s[i]], s[i + 1..e]);
    ConcatNoBare(piece, NormalizeFrom(s, e));
    assert NormalizeFrom(s, i) == piece + NormalizeFrom(s, e);
  }

  lemma {:induction false} CopiedClean(s: string, i: nat)
    requires NoDoubleDot(s) && i < |s| && Resumable(s, i) && !(i == 0 && FractionEnd(s, 0) > 0)
    requires !(IsSeparator(s[i]) && FractionEnd(s, i + 1) > i + 1)
    ensures NoBareInside(NormalizeFrom(s, i))
    ensures HeadFraction(NormalizeFrom(s, i)) ==> i > 0 && !IsSeparator(s[i - 1])
    ensures NormalizeFrom(s, i)[0] == s[i]
    decreases |s| - i, 0
  {
    NormalizeFromClean(s, i + 1);
    var rest := NormalizeFrom(s, i + 1);
    ConcatNoBare([s[i]], rest);
    assert NormalizeFrom(s, i) == [s[i]] + rest;
    if HeadFraction(NormalizeFrom(s, i)) {
      assert s[i] == '.' && i + 1 < |s| && IsDigit(s[i + 1]);
      assert FractionEnd(s, i) > i;
    }
  }

  /** On text without `..` every fraction that followed a separator or started the text now has its `0`. */
  lemma NormalizedStringHasNoBareFraction(s: string)
    requires NoDoubleDot(s)
    ensures NoBareFraction(NormalizeNumbersInString(s))
  {
    NormalizeFromClean(s, 0);
    var t := NormalizeNumbersInString(s);
    assert !BareFractionAt(t, 0);
  }

  /** On text without `..` normalising twice is normalising once. */
  lemma NormalizeNumbersInStringIdempotent(s: string)
    requires NoDoubleDot(s)
    ensures NormalizeNumbersInString(NormalizeNumbersInString(s)) == NormalizeNumbersInString(s)
  {
    var t := NormalizeNumbersInString(s);
    NormalizedStringHasNoBareFraction(s);
    NormalizeFixpoint(t, 0);
  }

  /** Text without a dot is left as it is. */
  lemma NoDotUnchanged(s: string)
    requires '.' !in s
    ensures NormalizeNumbersInString(s) == s
  {
    forall k | 0 <= k < |s|
      ensures !BareFractionAt(s, k)
    {
      assert s[k] in s;
    }
    NormalizeFixpoint(s, 0);
  }

  // ---------------------------------------------------------------------------------------
  // removeUnnecessarySpaces

  /** `[,;:]` */
  predicate IsPunct(c: char) {
    c == ',' || c == ';' || c == ':'
  }

  /** The end of the run of whitespace that starts at `p`. */
  function SpaceEnd(s: string, p: nat): (q: nat)
    requires p <= |s|
    ensures p <= q <= |s|
    ensures forall k | p <= k < q :: IsSpace(s[k])
    ensures q < |s| ==> !IsSpace(s[q])
    decreases |s| - p
  {
    if p == |s| || !IsSpace(s[p]) then p else SpaceEnd(s, p + 1)
  }

  /** `(\s+)?[,;:]` matches at `i`. */
  predicate PunctAfterSpaces(s: string, i: nat)
    requires i <= |s|
  {
    SpaceEnd(s, i) < |s| && IsPunct(s[SpaceEnd(s, i)])
  }

  /**
   * The global replacement of `/(\s+)?([,;:])(\s+)?/gm` by `$2` from position `i` on: a
   * `,` `;` or `:` together with the whitespace on either side of it becomes the
   * punctuation alone.
   */
  function RemoveSpacesFrom(s: string, i: nat): (r: string)
    requires i <= |s|
    ensures r != [] <==> i < |s|
    ensures r != [] ==> r[0] == if PunctAfterSpaces(s, i) then s[SpaceEnd(s, i)] else s[i]
    decreases |s| - i
  {
    if i == |s| then []
    else if PunctAfterSpaces(s, i) then
      var j := SpaceEnd(s, i);
      [s[j]] + RemoveSpacesFrom(s, SpaceEnd(s, j + 1))
    else [s[i]] + RemoveSpacesFrom(s, i + 1)
  }

  /** `removeUnnecessarySpaces(string)` */
  function RemoveUnnecessarySpaces(s: string): (r: string)
    ensures |r| <= |s|
  {
    RemoveSpacesLength(s, 0);
    RemoveSpacesFrom(s, 0)
  }

  lemma {:induction false} RemoveSpacesLength(s: string, i: nat)
    requires i <= |s|
    ensures |RemoveSpacesFrom(s, i)| <= |s| - i
    decreases |s| - i
  {
    if i < |s| {
      if PunctAfterSpaces(s, i) {
        RemoveSpacesLength(s, SpaceEnd(s, SpaceEnd(s, i) + 1));
      } else {
        RemoveSpacesLength(s, i + 1);
      }
    }
  }

  /** No whitespace right before or right after a `,` `;` or `:`. */
  predicate NoSpaceNearPunct(t: string) {
    forall k | 0 <= k < |t| - 1 ::
      !(IsSpace(t[k]) && IsPunct(t[k + 1])) && !(IsPunct(t[k]) && IsSpace(t[k + 1]))
  }

  lemma ConsNoSpaceNearPunct(c: char, rest: string)
    requires NoSpaceNearPunct(rest)
    requires rest != [] ==> !(IsSpace(c) && IsPunct(rest[0])) && !(IsPunct(c) && IsSpace(rest[0]))
    ensures NoSpaceNearPunct([c] + rest)
  {
    var t := [c] + rest;
    forall k | 1 <= k < |t| - 1
      ensures !(IsSpace(t[k]) && IsPunct(t[k + 1])) && !(IsPunct(t[k]) && IsSpace(t[k + 1]))
    {
      assert t[k] == rest[k - 1] && t[k + 1] == rest[k];
    }
  }

  /** After the replacement no whitespace touches a `,` `;` or `:`. */
  lemma {:induction false} RemoveSpacesClean(s: string, i: nat)
    requires i <= |s|
    ensures NoSpaceNearPunct(RemoveSpacesFrom(s, i))
    decreases |s| - i
  {
    if i < |s| {
      if PunctAfterSpaces(s, i) {
        var k := SpaceEnd(s, SpaceEnd(s, i) + 1);
        RemoveSpacesClean(s, k);
        ConsNoSpaceNearPunct(s[SpaceEnd(s, i)], RemoveSpacesFrom(s, k));
      } else {
        RemoveSpacesClean(s, i + 1);
        var rest := RemoveSpacesFrom(s, i + 1);
        if rest != [] && IsSpace(s[i]) {
          assert SpaceEnd(s, i) == SpaceEnd(s, i + 1);
        }
        ConsNoSpaceNearPunct(s[i], rest);
      }
    }
  }

  /** The characters of `t` that are not whitespace, in order. */
  function NonSpaces(t: string): (r: string)
    ensures |r| <= |t|
  {
    if t == [] then []
    else (if IsSpace(t[0]) then [] else [t[0]]) + NonSpaces(t[1..])
  }

  lemma {:induction false} NonSpacesSkip(s: string, i: nat)
    requires i <= |s|
    ensures NonSpaces(s[i..]) == NonSpaces(s[SpaceEnd(s, i)..])
    decreases |s| - i
  {
    if i < |s| && IsSpace(s[i]) {
      assert s[i..][1..] == s[i + 1..];
      NonSpacesSkip(s, i + 1);
    }
  }

  lemma NonSpacesCons(c: char, r: string)
    ensures NonSpaces([c] + r) == (if IsSpace(c) then [] else [c]) + NonSpaces(r)
  {
    assert ([c] + r)[1..] == r;
  }

  /** The replacement only removes whitespace: every other character stays, in order. */
  lemma {:induction false} RemoveSpacesKeepsText(s: string, i: nat)
    requires i <= |s|
    ensures NonSpaces(RemoveSpacesFrom(s, i)) == NonSpaces(s[i..])
    decreases |s| - i, 1
  {
    if i < |s| {
      if PunctAfterSpaces(s, i) {
        PunctKeepsText(s, i);
      } else {
        RemoveSpacesKeepsText(s, i + 1);
        assert s[i..] == [s[i]] + s[i + 1..];
        NonSpacesCons(s[i], s[i + 1..]);
        NonSpacesCons(s[i], RemoveSpacesFrom(s, i + 1));
      }
    }
  }

  lemma {:induction false} PunctKeepsText(s: string, i: nat)
    requires i < |s| && PunctAfterSpaces(s, i)
    ensures NonSpaces(RemoveSpacesFrom(s, i)) == NonSpaces(s[i..])
    decreases |s| - i, 0
  {
    var j := SpaceEnd(s, i);
    var k := SpaceEnd(s, j + 1);
    var rest := RemoveSpacesFrom(s, k);
    assert RemoveSpacesFrom(s, i) == [s[j]] + rest;
    RemoveSpacesKeepsText(s, k);
    NonSpacesSkip(s, i);
    NonSpacesSkip(s, j + 1);
    assert s[j..] == [s[j]] + s[j + 1..];
    NonSpacesCons(s[j], s[j + 1..]);
    NonSpacesCons(s[j], rest);
  }

  /** Text where no whitespace touches a `,` `;` or `:` is left as it is. */
  lemma {:induction false} RemoveSpacesFixpoint(t: string, i: nat)
    requires NoSpaceNearPunct(t) && i <= |t|
    ensures RemoveSpacesFrom(t, i) == t[i..]
    decreases |t| - i
  {
    if i < |t| {
      if PunctAfterSpaces(t, i) {
        SpaceRunLast(t, i);
        assert SpaceEnd(t, i) == i;
        if i + 1 < |t| {
          assert !(IsPunct(t[i]) && IsSpace(t[i + 1]));
        }
        assert SpaceEnd(t, i + 1) == i + 1;
      }
      RemoveSpacesFixpoint(t, i + 1);
      assert t[i..] == [t[i]] + t[i + 1..];
    }
  }

  /** A run of whitespace that is not empty ends with whitespace. */
  lemma SpaceRunLast(t: string, i: nat)
    requires i <= |t|
    ensures SpaceEnd(t, i) > i ==> IsSpace(t[SpaceEnd(t, i) - 1])
  {
  }

  /** Removing the spaces twice is removing them once. */
  lemma RemoveUnnecessarySpacesIdempotent(s: string)
    ensures RemoveUnnecessarySpaces(RemoveUnnecessarySpaces(s)) == RemoveUnnecessarySpaces(s)
  {
    var t := RemoveUnnecessarySpaces(s);
    RemoveSpacesClean(s, 0);
    RemoveSpacesFixpoint(t, 0);
  }

  // ---------------------------------------------------------------------------------------
  // isCSSVariable

  /** `isCSSVariable(value)`: the trimmed value is `var(--…)` with at least one character inside. */
  predicate IsCSSVariable(value: string) {
    var t := Trim(value);
    |t| >= 8 && t[..6] == "var(--" && t[|t| - 1] == ')' && NoLineTerminator(t[6..|t| - 1])
  }

  /** The name after `--` inside `var(…)`. */
  function VariableName(value: string): (name: string)
    requires IsCSSVariable(value)
    ensures name != [] && NoLineTerminator(name)
    ensures Trim(value) == VarText(name)
  {
    var t := Trim(value);
    assert t == t[..6] + t[6..|t| - 1] + [t[|t| - 1]];
    t[6..|t| - 1]
  }

  /** Every `var(--name)`, with whitespace around it, is a CSS variable with that name. */
  lemma VariableRoundTrip(a: string, name: string, b: string)
    requires AllSpace(a) && AllSpace(b) && name != [] && NoLineTerminator(name)
    ensures IsCSSVariable(a + VarText(name) + b)
    ensures VariableName(a + VarText(name) + b) == name
  {
    TrimVarText(a, name, b);
    VariableOfTrimmed(a + VarText(name) + b, name);
  }

  lemma TrimVarText(a: string, name: string, b: string)
    requires AllSpace(a) && AllSpace(b)
    ensures Trim(a + VarText(name) + b) == VarText(name)
  {
    var t := VarText(name);
    assert t[0] == 'v' && t[|t| - 1] == ')';
    TrimAround(a, t, b);
  }

  /** `var(--name)` */
  function VarText(name: string): string {
    "var(--" + name + ")"
  }

  lemma VariableOfTrimmed(v: string, name: string)
    requires name != [] && NoLineTerminator(name) && Trim(v) == VarText(name)
    ensures IsCSSVariable(v) && VariableName(v) == name
  {
    var t := Trim(v);
    assert t[..6] == "var(--" && t[6..|t| - 1] == name;
  }
}
