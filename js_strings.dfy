/**
 * The few JavaScript string operations the converter relies on, written out at the
 * character level: the `\s` class (which is also what `String.prototype.trim` strips),
 * `trim`, `split(/\s+/)`, `join`, `startsWith`, `includes`, `lastIndexOf` and an
 * ASCII `toLowerCase`.
 */
module JsStrings {

  /** The characters matched by `\s` in a JavaScript regular expression. */
  predicate IsSpace(c: char) {
    if c <= ' ' then c == ' ' || '\t' <= c <= '\r'
    else if c < '\U{A0}' then false
    else c in WideWhitespace
  }

  /** The whitespace characters outside ASCII. */
  const WideWhitespace: set<char> := {'\U{A0}', '\U{1680}', '\U{2000}', '\U{2001}', '\U{2002}', '\U{2003}', '\U{2004}', '\U{2005}', '\U{2006}', '\U{2007}', '\U{2008}', '\U{2009}', '\U{200A}', '\U{2028}', '\U{2029}', '\U{202F}', '\U{205F}', '\U{3000}', '\U{FEFF}'}

  /** The characters that `.` in a JavaScript regular expression does not match. */
  predicate IsLineTerminator(c: char) {
    c == '\n' || c == '\r' || c == '\U{2028}' || c == '\U{2029}'
  }

  /** `\d` */
  predicate IsDigit(c: char) {
    '0' <= c <= '9'
  }

  /** `\w` */
  predicate IsWordChar(c: char) {
    ('a' <= c <= 'z') || ('A' <= c <= 'Z') || IsDigit(c) || c == '_'
  }

  /** Text that `.` matches throughout. */
  predicate NoLineTerminator(s: string) {
    forall i | 0 <= i < |s| :: !IsLineTerminator(s[i])
  }

  predicate NoSpace(s: string) {
    forall i | 0 <= i < |s| :: !IsSpace(s[i])
  }

  predicate AllSpace(s: string) {
    forall i | 0 <= i < |s| :: IsSpace(s[i])
  }

  predicate StartsWith(s: string, p: string) {
    |p| <= |s| && s[..|p|] == p
  }

  /** `s.includes(p)` */
  predicate Contains(s: string, p: string)
    decreases |s|
  {
    StartsWith(s, p) || (s != [] && Contains(s[1..], p))
  }

  /** Number of leading characters of `s` that are whitespace. */
  function LeadingSpaces(s: string): (n: nat)
    ensures n <= |s|
    ensures AllSpace(s[..n])
    ensures n < |s| ==> !IsSpace(s[n])
  {
    if s == [] || !IsSpace(s[0]) then 0
    else
      var n := 1 + LeadingSpaces(s[1..]);
      assert s[..n] == [s[0]] + s[1..][..n - 1];
      n
  }

  /** Index of the first non-whitespace character of `s` at or after `p`, or `|s|`. */
  function TextStart(s: string, p: nat): (i: nat)
    requires p <= |s|
    ensures p <= i <= |s|
    ensures forall m | p <= m < i :: IsSpace(s[m])
    ensures i < |s| ==> !IsSpace(s[i])
    decreases |s| - p
  {
    if p == |s| || !IsSpace(s[p]) then p else TextStart(s, p + 1)
  }

  /** Index just past the last non-whitespace character of `s[i..k]`, or `i`. */
  function TextEnd(s: string, i: nat, k: nat): (j: nat)
    requires i <= k <= |s|
    ensures i <= j <= k
    ensures forall m | j <= m < k :: IsSpace(s[m])
    ensures i < j ==> !IsSpace(s[j - 1])
    decreases k
  {
    if k == i || !IsSpace(s[k - 1]) then k else TextEnd(s, i, k - 1)
  }

  /** `s.trim()`: the text between the leading and the trailing whitespace. */
  function Trim(s: string): (r: string)
    ensures |r| <= |s|
    ensures r != [] ==> !IsSpace(r[0]) && !IsSpace(r[|r| - 1])
    ensures AllSpace(s) <==> r == []
  {
    var i := TextStart(s, 0);
    var j := TextEnd(s, i, |s|);
    TrimmedEnds(s, i, j);
    s[i..j]
  }

  lemma TrimmedEnds(s: string, i: nat, j: nat)
    requires i <= j <= |s|
    requires forall m | 0 <= m < i :: IsSpace(s[m])
    requires forall m | j <= m < |s| :: IsSpace(s[m])
    requires i < j ==> !IsSpace(s[i])
    ensures AllSpace(s) <==> i == j
  {
    if i == j {
      assert AllSpace(s) by {
        forall m | 0 <= m < |s|
          ensures IsSpace(s[m])
        {
        }
      }
    } else {
      assert !IsSpace(s[i]);
    }
  }

  lemma SpacePrefix(s: string, k: nat)
    requires k <= |s|
    ensures AllSpace(s[..k]) <==> forall m | 0 <= m < k :: IsSpace(s[m])
  {
    assert forall m | 0 <= m < k :: s[..k][m] == s[m];
  }

  lemma SpaceSuffix(s: string, k: nat)
    requires k <= |s|
    ensures AllSpace(s[k..]) <==> forall m | k <= m < |s| :: IsSpace(s[m])
  {
    assert forall m | k <= m < |s| :: s[k..][m - k] == s[m];
  }

  /** Any slice with whitespace-only margins and non-whitespace ends is the trimmed string. */
  lemma TrimOf(s: string, i: nat, j: nat)
    requires i <= j <= |s| && AllSpace(s[..i]) && AllSpace(s[j..])
    requires i < j ==> !IsSpace(s[i]) && !IsSpace(s[j - 1])
    ensures Trim(s) == s[i..j]
  {
    SpacePrefix(s, i);
    SpaceSuffix(s, j);
    TrimBetween(s, i, j);
  }

  /** `TrimOf`, with the margins stated character by character. */
  lemma TrimBetween(s: string, i: nat, j: nat)
    requires i <= j <= |s|
    requires forall m | 0 <= m < i :: IsSpace(s[m])
    requires forall m | j <= m < |s| :: IsSpace(s[m])
    requires i < j ==> !IsSpace(s[i]) && !IsSpace(s[j - 1])
    ensures Trim(s) == s[i..j]
  {
    if i == j {
      TrimAllSpace(s, i);
    } else {
      TrimNonSpaceEnds(s, i, j);
    }
  }

  lemma TrimAllSpace(s: string, i: nat)
    requires i <= |s|
    requires forall m | 0 <= m < i :: IsSpace(s[m])
    requires forall m | i <= m < |s| :: IsSpace(s[m])
    ensures Trim(s) == []
  {
    assert AllSpace(s) by {
      forall m | 0 <= m < |s|
        ensures IsSpace(s[m])
      {
      }
    }
  }

  lemma TrimNonSpaceEnds(s: string, i: nat, j: nat)
    requires i < j <= |s|
    requires forall m | 0 <= m < i :: IsSpace(s[m])
    requires forall m | j <= m < |s| :: IsSpace(s[m])
    requires !IsSpace(s[i]) && !IsSpace(s[j - 1])
    ensures Trim(s) == s[i..j]
  {
    var i2, j2 := TrimBounds(s);
    assert !AllSpace(s);
    SameFirstNonSpace(s, i, i2);
    SameLastNonSpace(s, j, j2);
  }

  lemma SameFirstNonSpace(s: string, i: nat, i2: nat)
    requires i < |s| && i2 < |s| && !IsSpace(s[i]) && !IsSpace(s[i2])
    requires forall m | 0 <= m < i :: IsSpace(s[m])
    requires forall m | 0 <= m < i2 :: IsSpace(s[m])
    ensures i == i2
  {
  }

  lemma SameLastNonSpace(s: string, j: nat, j2: nat)
    requires 0 < j <= |s| && 0 < j2 <= |s| && !IsSpace(s[j - 1]) && !IsSpace(s[j2 - 1])
    requires forall m | j <= m < |s| :: IsSpace(s[m])
    requires forall m | j2 <= m < |s| :: IsSpace(s[m])
    ensures j == j2
  {
  }

  /** Where the trimmed text of `s` starts and ends: only whitespace lies outside it. */
  lemma TrimBounds(s: string) returns (i: nat, j: nat)
    ensures i <= j <= |s| && Trim(s) == s[i..j]
    ensures forall m | 0 <= m < i :: IsSpace(s[m])
    ensures forall m | j <= m < |s| :: IsSpace(s[m])
    ensures i < j ==> !IsSpace(s[i]) && !IsSpace(s[j - 1])
  {
    i := TextStart(s, 0);
    j := TextEnd(s, i, |s|);
  }

  /** Whitespace around a string does not change its trimmed form. */
  lemma TrimPadded(a: string, s: string, b: string)
    requires AllSpace(a) && AllSpace(b)
    ensures Trim(a + s + b) == Trim(s)
  {
    var i, j := TrimBounds(s);
    PaddedTrim(a, s, b, i, j);
  }

  lemma PaddedTrim(a: string, s: string, b: string, i: nat, j: nat)
    requires AllSpace(a) && AllSpace(b) && i <= j <= |s|
    requires forall m | 0 <= m < i :: IsSpace(s[m])
    requires forall m | j <= m < |s| :: IsSpace(s[m])
    requires i < j ==> !IsSpace(s[i]) && !IsSpace(s[j - 1])
    ensures Trim(a + s + b) == s[i..j]
  {
    PaddedMargins(a, s, b, i, j);
    TrimBetween(a + s + b, |a| + i, |a| + j);
  }

  /** The margins of `s` stay whitespace once `s` is padded with whitespace. */
  lemma PaddedMargins(a: string, s: string, b: string, i: nat, j: nat)
    requires AllSpace(a) && AllSpace(b) && i <= j <= |s|
    requires forall m | 0 <= m < i :: IsSpace(s[m])
    requires forall m | j <= m < |s| :: IsSpace(s[m])
    ensures forall m | 0 <= m < |a| + i :: IsSpace((a + s + b)[m])
    ensures forall m | |a| + j <= m < |a + s + b| :: IsSpace((a + s + b)[m])
    ensures (a + s + b)[|a| + i..|a| + j] == s[i..j]
    ensures i < j ==> (a + s + b)[|a| + i] == s[i] && (a + s + b)[|a| + j - 1] == s[j - 1]
  {
    var t := a + s + b;
    forall m | 0 <= m < |a| + i
      ensures IsSpace(t[m])
    {
      if m < |a| {
        assert t[m] == a[m];
      } else {
        assert t[m] == s[m - |a|];
      }
    }
    forall m | |a| + j <= m < |t|
      ensures IsSpace(t[m])
    {
      if m < |a| + |s| {
        assert t[m] == s[m - |a|];
      } else {
        assert t[m] == b[m - |a| - |s|];
      }
    }
    assert t[|a| + i..|a| + j] == s[i..j];
  }

  /** A string without whitespace at its ends is its own trimmed form. */
  lemma NoSpaceTrim(s: string)
    requires s != [] && !IsSpace(s[0]) && !IsSpace(s[|s| - 1])
    ensures Trim(s) == s
  {
    SpacePrefix(s, 0);
    SpaceSuffix(s, |s|);
    TrimOf(s, 0, |s|);
  }

  /** Index of the first whitespace character of `s`, or `|s|` when there is none. */
  function FirstSpace(s: string): (i: nat)
    ensures i <= |s|
    ensures NoSpace(s[..i])
    ensures i < |s| ==> IsSpace(s[i])
  {
    if s == [] then 0
    else if IsSpace(s[0]) then 0
    else
      var i := 1 + FirstSpace(s[1..]);
      assert s[..i] == [s[0]] + s[1..][..i - 1];
      i
  }

  /** `s.split(/\s+/)`: the pieces between maximal runs of whitespace, empty ones included. */
  function SplitWs(s: string): (r: seq<string>)
    ensures |r| >= 1
    ensures forall k | 0 <= k < |r| :: NoSpace(r[k])
    decreases |s|
  {
    var i := FirstSpace(s);
    if i == |s| then [s]
    else
      var j := i + LeadingSpaces(s[i..]);
      [s[..i]] + SplitWs(s[j..])
  }

  /** Splitting a trimmed, non-empty string yields no empty piece. */
  lemma {:induction false} SplitTrimmedHasNoEmptyPiece(s: string)
    requires s != [] && !IsSpace(s[0]) && !IsSpace(s[|s| - 1])
    ensures forall k | 0 <= k < |SplitWs(s)| :: SplitWs(s)[k] != []
    decreases |s|
  {
    var i := FirstSpace(s);
    if i < |s| {
      var j := i + LeadingSpaces(s[i..]);
      assert s[|s| - 1] == s[i..][|s| - 1 - i];
      SplitTrimmedHasNoEmptyPiece(s[j..]);
    }
  }

  /** A string without whitespace is its own single piece. */
  lemma SplitNoSpace(s: string)
    requires NoSpace(s)
    ensures SplitWs(s) == [s]
  {
  }

  /** A slice of a slice is a slice of the original. */
  lemma SliceOfSlice<T>(s: seq<T>, a: nat, b: nat, x: nat, y: nat)
    requires a <= b <= |s| && x <= y <= b - a
    ensures s[a..b][x..y] == s[a + x..a + y]
  {
    assert |s[a..b][x..y]| == |s[a + x..a + y]|;
    forall k | 0 <= k < y - x
      ensures s[a..b][x..y][k] == s[a + x..a + y][k]
    {
    }
  }

  /** `parts.join(sep)` */
  function Join(parts: seq<string>, sep: string): string {
    if parts == [] then ""
    else if |parts| == 1 then parts[0]
    else parts[0] + sep + Join(parts[1..], sep)
  }

  /** Joining one more piece appends the separator and the piece. */
  lemma {:induction false} JoinSnoc(parts: seq<string>, x: string, sep: string)
    requires parts != []
    ensures Join(parts + [x], sep) == Join(parts, sep) + sep + x
  {
    if |parts| == 1 {
      assert (parts + [x])[1..] == [x];
    } else {
      assert (parts + [x])[1..] == parts[1..] + [x];
      JoinSnoc(parts[1..], x, sep);
    }
  }

  /** A join of non-empty pieces starts with the first character of the first piece. */
  lemma JoinHead(parts: seq<string>, sep: string)
    requires parts != [] && parts[0] != []
    ensures Join(parts, sep) != [] && Join(parts, sep)[0] == parts[0][0]
  {
    if |parts| > 1 {
      assert Join(parts, sep) == parts[0] + (sep + Join(parts[1..], sep));
    }
  }

  /** Splitting on whitespace undoes a join with single spaces of non-empty, space-free pieces. */
  lemma {:induction false} SplitJoin(parts: seq<string>)
    requires parts != []
    requires forall k | 0 <= k < |parts| :: parts[k] != [] && NoSpace(parts[k])
    ensures SplitWs(Join(parts, " ")) == parts
  {
    if |parts| == 1 {
      SplitNoSpace(parts[0]);
    } else {
      var rest := Join(parts[1..], " ");
      assert Join(parts, " ") == parts[0] + " " + rest;
      JoinHead(parts[1..], " ");
      SplitFirst(parts[0], rest);
      SplitJoin(parts[1..]);
    }
  }

  /** A space-free piece, one space and a text that starts with a non-space split as the piece, then the text. */
  lemma SplitFirst(a: string, rest: string)
    requires NoSpace(a) && rest != [] && !IsSpace(rest[0])
    ensures SplitWs(a + " " + rest) == [a] + SplitWs(rest)
  {
    var s := a + " " + rest;
    var n := |a|;
    FirstSpaceAt(s, n);
    assert s[n..] == " " + rest;
    assert LeadingSpaces(s[n..]) == 1 by {
      assert s[n..][1] == rest[0];
    }
    assert s[n + 1..] == rest;
    assert s[..n] == a;
  }

  /** The first whitespace character is the one with none before it. */
  lemma {:induction false} FirstSpaceAt(s: string, n: nat)
    requires n < |s| && IsSpace(s[n]) && NoSpace(s[..n])
    ensures FirstSpace(s) == n
  {
    if n > 0 {
      assert s[..n][0] == s[0];
      assert s[1..][..n - 1] == s[..n][1..];
      FirstSpaceAt(s[1..], n - 1);
    }
  }

  /** A text contains every text it is built around. */
  lemma {:induction false} ContainsInfix(a: string, p: string, b: string)
    ensures Contains(a + p + b, p)
    decreases |a|
  {
    if a == [] {
      assert a + p + b == p + b;
      assert (p + b)[..|p|] == p;
    } else {
      assert (a + p + b)[1..] == a[1..] + p + b;
      ContainsInfix(a[1..], p, b);
    }
  }

  /** `p` occurs in `s` at position `i`. */
  predicate OccursAt(s: string, p: string, i: nat) {
    i + |p| <= |s| && s[i..i + |p|] == p
  }

  /** `s.includes(p)` holds exactly when `p` occurs at some position of `s`. */
  lemma {:induction false} ContainsAt(s: string, p: string)
    ensures Contains(s, p) <==> exists i: nat :: OccursAt(s, p, i)
    decreases |s|
  {
    if StartsWith(s, p) {
      assert OccursAt(s, p, 0);
    } else if s == [] {
    } else {
      ContainsAt(s[1..], p);
      if exists i: nat :: OccursAt(s, p, i) {
        var i: nat :| OccursAt(s, p, i);
        assert i != 0;
        assert OccursAt(s[1..], p, i - 1) by {
          assert s[1..][i - 1..i - 1 + |p|] == s[i..i + |p|];
        }
      }
      if Contains(s[1..], p) {
        var i: nat :| OccursAt(s[1..], p, i);
        assert OccursAt(s, p, i + 1) by {
          assert s[1..][i..i + |p|] == s[i + 1..i + 1 + |p|];
        }
      }
    }
  }

  /** A text lacking one of the characters of `p` does not contain `p`. */
  lemma {:induction false} MissingChar(s: string, p: string, k: nat)
    requires k < |p| && forall i | 0 <= i < |s| :: s[i] != p[k]
    ensures !Contains(s, p)
    decreases |s|
  {
    if |p| <= |s| {
      assert s[..|p|][k] == s[k];
    }
    if s != [] {
      forall i | 0 <= i < |s[1..]|
        ensures s[1..][i] != p[k]
      {
        assert s[1..][i] == s[i + 1];
      }
      MissingChar(s[1..], p, k);
    }
  }

  /** `s.lastIndexOf(c)` for a one-character needle. */
  function LastIndexOf(s: string, c: char): (r: int)
    ensures -1 <= r < |s|
    ensures r >= 0 ==> s[r] == c && forall k | r < k < |s| :: s[k] != c
    ensures r == -1 ==> forall k | 0 <= k < |s| :: s[k] != c
  {
    if s == [] then -1
    else if s[|s| - 1] == c then |s| - 1
    else LastIndexOf(s[..|s| - 1], c)
  }

  /** The last occurrence is the one after which the character does not occur again. */
  lemma {:induction false} LastIndexOfAt(s: string, c: char, i: nat)
    requires i < |s| && s[i] == c
    requires forall k | i < k < |s| :: s[k] != c
    ensures LastIndexOf(s, c) == i
  {
    if i < |s| - 1 {
      var t := s[..|s| - 1];
      assert t[i] == c;
      assert forall k | i < k < |t| :: t[k] == s[k];
      LastIndexOfAt(t, c, i);
    }
  }

  /** `s.toLowerCase()` on the ASCII letters. */
  function ToLowerAscii(s: string): (r: string)
    ensures |r| == |s|
    ensures forall i {:trigger r[i]} | 0 <= i < |s| :: r[i] == LowerAscii(s[i])
  {
    if s == [] then [] else [LowerAscii(s[0])] + ToLowerAscii(s[1..])
  }

  /** One character of `toLowerCase`, on the ASCII letters. */
  function LowerAscii(c: char): char {
    if 'A' <= c <= 'Z' then (c as int + 32) as char else c
  }

  /** Lower-casing works character by character, so it distributes over concatenation. */
  lemma {:induction false} LowerConcat(a: string, b: string)
    ensures ToLowerAscii(a + b) == ToLowerAscii(a) + ToLowerAscii(b)
  {
    if a == [] {
      assert a + b == b;
    } else {
      LowerConcat(a[1..], b);
      assert (a + b)[0] == a[0] && (a + b)[1..] == a[1..] + b;
    }
  }

  /** The decimal text of a natural number, as JavaScript prints an array index. */
  function NatToString(n: nat): (r: string)
    ensures r != [] && forall i | 0 <= i < |r| :: IsDigit(r[i])
  {
    if n < 10 then [('0' as int + n) as char]
    else NatToString(n / 10) + [('0' as int + n % 10) as char]
  }
}
