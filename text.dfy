/** String helpers shared by the Node.js and the Python service: the whitespace classes of the
    two runtimes, trimming, splitting on one character, joining, and decimal rendering of
    natural numbers. Strings are sequences of Unicode scalar values. */
module Text {

  /** c lies in one of the inclusive ranges. */
  predicate InRanges(c: char, ranges: seq<(char, char)>)
  {
    ranges != [] && ((ranges[0].0 <= c <= ranges[0].1) || InRanges(c, ranges[1..]))
  }

  /** Characters removed by JavaScript's String.prototype.trim: WhiteSpace (section 12.2 of
      ECMA-262, with every space separator of Unicode category Zs) and LineTerminator (section 12.3). */
  predicate IsJsWhitespace(c: char) {
    InRanges(c, [('\t', '\r'), (' ', ' '), ('\U{00A0}', '\U{00A0}'), ('\U{1680}', '\U{1680}'),
                 ('\U{2000}', '\U{200A}'), ('\U{2028}', '\U{2029}'), ('\U{202F}', '\U{202F}'),
                 ('\U{205F}', '\U{205F}'), ('\U{3000}', '\U{3000}'), ('\U{FEFF}', '\U{FEFF}')])
  }

  /** LineTerminator of section 12.3 of ECMA-262: the characters a regular expression's `.` does not match. */
  predicate IsJsLineTerminator(c: char) {
    c == '\n' || c == '\r' || c == '\U{2028}' || c == '\U{2029}'
  }

  /** Characters for which Python's str.isspace() holds. str.strip() without argument removes
      exactly these, and the class `\s` of a str regular expression matches exactly these. */
  predicate IsPyWhitespace(c: char) {
    InRanges(c, [('\t', '\r'), ('\U{001C}', ' '), ('\U{0085}', '\U{0085}'), ('\U{00A0}', '\U{00A0}'),
                 ('\U{1680}', '\U{1680}'), ('\U{2000}', '\U{200A}'), ('\U{2028}', '\U{2029}'),
                 ('\U{202F}', '\U{202F}'), ('\U{205F}', '\U{205F}'), ('\U{3000}', '\U{3000}')])
  }

  /** A character below the start of every range lies in none of them. */
  lemma {:induction false} BelowRanges(c: char, ranges: seq<(char, char)>)
    requires forall i :: 0 <= i < |ranges| ==> c < ranges[i].0
    ensures !InRanges(c, ranges)
  {
    if ranges != [] {
      BelowRanges(c, ranges[1..]);
    }
  }

  /** Printable ASCII characters after the space are not Python whitespace. */
  lemma AsciiNotPyWhitespace(c: char)
    requires ' ' < c <= '~'
    ensures !IsPyWhitespace(c)
  {
    var rest := [('\U{0085}', '\U{0085}'), ('\U{00A0}', '\U{00A0}'),
                 ('\U{1680}', '\U{1680}'), ('\U{2000}', '\U{200A}'), ('\U{2028}', '\U{2029}'),
                 ('\U{202F}', '\U{202F}'), ('\U{205F}', '\U{205F}'), ('\U{3000}', '\U{3000}')];
    var all := [('\t', '\r'), ('\U{001C}', ' '), ('\U{0085}', '\U{0085}'), ('\U{00A0}', '\U{00A0}'),
                ('\U{1680}', '\U{1680}'), ('\U{2000}', '\U{200A}'), ('\U{2028}', '\U{2029}'),
                ('\U{202F}', '\U{202F}'), ('\U{205F}', '\U{205F}'), ('\U{3000}', '\U{3000}')];
    BelowRanges(c, rest);
    assert all[1..][1..] == rest;
    assert !InRanges(c, all[1..]);
    assert IsPyWhitespace(c) == InRanges(c, all);
  }

  /** Neither end of s is a whitespace character in the sense of ws. */
  predicate IsTrimmed(s: string, ws: char -> bool) {
    s == [] || (!ws(s[0]) && !ws(s[|s| - 1]))
  }

  /** Every character of s is whitespace in the sense of ws. */
  predicate AllIn(s: string, ws: char -> bool) {
    forall k :: 0 <= k < |s| ==> ws(s[k])
  }

  /** s without its leading whitespace. */
  function TrimStart(s: string, ws: char -> bool): (r: string)
    ensures |r| <= |s|
  {
    if s != [] && ws(s[0]) then TrimStart(s[1..], ws) else s
  }

  /** s without its trailing whitespace. */
  function TrimEnd(s: string, ws: char -> bool): (r: string)
    ensures |r| <= |s|
  {
    if s != [] && ws(s[|s| - 1]) then TrimEnd(s[..|s| - 1], ws) else s
  }

  /** Both ends of s trimmed of whitespace (JavaScript's trim with IsJsWhitespace,
      Python's strip with IsPyWhitespace). */
  function Trim(s: string, ws: char -> bool): (r: string)
    ensures |r| <= |s|
  {
    TrimEnd(TrimStart(s, ws), ws)
  }

  /** TrimStart drops the longest all-whitespace prefix: what it keeps is a suffix of s that is
      empty or starts with a non-whitespace character, and all it drops is whitespace. */
  lemma {:induction false} TrimStartSpec(s: string, ws: char -> bool)
    ensures var r := TrimStart(s, ws);
      && r == s[|s| - |r|..]
      && (forall k :: 0 <= k < |s| - |r| ==> ws(s[k]))
      && (r == [] || !ws(r[0]))
  {
    if s != [] && ws(s[0]) {
      var r := TrimStart(s[1..], ws);
      TrimStartSpec(s[1..], ws);
      assert s[1..][|s| - 1 - |r|..] == s[|s| - |r|..];
      forall k | 0 < k < |s| - |r| ensures ws(s[k]) {
        assert s[k] == s[1..][k - 1];
      }
    }
  }

  /** TrimEnd drops the longest all-whitespace suffix: what it keeps is a prefix of s that is
      empty or ends with a non-whitespace character, and all it drops is whitespace. */
  lemma {:induction false} TrimEndSpec(s: string, ws: char -> bool)
    ensures var r := TrimEnd(s, ws);
      && r == s[..|r|]
      && (forall k :: |r| <= k < |s| ==> ws(s[k]))
      && (r == [] || !ws(r[|r| - 1]))
  {
    if s != [] && ws(s[|s| - 1]) {
      var t := s[..|s| - 1];
      var r := TrimEnd(t, ws);
      TrimEndSpec(t, ws);
      assert t[..|r|] == s[..|r|];
      forall k | |r| <= k < |s| - 1 ensures ws(s[k]) {
        assert s[k] == t[k];
      }
    }
  }

  /** Neither end of a trimmed string is whitespace. */
  lemma TrimIsTrimmed(s: string, ws: char -> bool)
    ensures IsTrimmed(Trim(s, ws), ws)
  {
    var t := TrimStart(s, ws);
    TrimStartSpec(s, ws);
    TrimEndSpec(t, ws);
    var r := TrimEnd(t, ws);
    if r != [] {
      assert r[0] == t[0];
    }
  }

  /** Trim cuts s at two positions, and only whitespace lies outside the cut. */
  lemma TrimSlice(s: string, ws: char -> bool) returns (i: nat, j: nat)
    ensures i <= j <= |s| && Trim(s, ws) == s[i..j]
    ensures forall k :: 0 <= k < i ==> ws(s[k])
    ensures forall k :: j <= k < |s| ==> ws(s[k])
  {
    var t := TrimStart(s, ws);
    var r := TrimEnd(t, ws);
    TrimStartSpec(s, ws);
    TrimEndSpec(t, ws);
    i := |s| - |t|;
    j := i + |r|;
    forall m | 0 <= m < |t| ensures t[m] == s[i + m] {
    }
    forall m | 0 <= m < |r| ensures r[m] == s[i + m] {
      assert r[m] == t[m];
    }
    assert r == s[i..j];
    forall k | j <= k < |s| ensures ws(s[k]) {
      assert ws(t[k - i]);
    }
  }

  /** A string trims to nothing exactly when it is made of whitespace only. */
  lemma TrimEmptyIff(s: string, ws: char -> bool)
    ensures Trim(s, ws) == [] <==> AllIn(s, ws)
  {
    var i, j := TrimSlice(s, ws);
    TrimIsTrimmed(s, ws);
    if Trim(s, ws) != [] {
      assert Trim(s, ws)[0] == s[i] && !ws(s[i]);
    }
  }

  /** Trimming leaves a trimmed string as it is; in particular trimming twice trims once. */
  lemma TrimOfTrimmed(s: string, ws: char -> bool)
    requires IsTrimmed(s, ws)
    ensures Trim(s, ws) == s
  {
    assert TrimStart(s, ws) == s;
  }

  /** Every character of Trim(s, ws) comes from s. */
  lemma TrimChars(s: string, ws: char -> bool, c: char)
    ensures c in Trim(s, ws) ==> c in s
  {
    var i, j := TrimSlice(s, ws);
    if c in Trim(s, ws) {
      var k :| 0 <= k < j - i && Trim(s, ws)[k] == c;
      assert s[i + k] == c;
    }
  }

  /** A non-whitespace character of s survives trimming: it is at offset o of the result. */
  lemma TrimCover(s: string, ws: char -> bool, k: nat) returns (o: nat)
    requires k < |s| && !ws(s[k])
    ensures o < |Trim(s, ws)| && Trim(s, ws)[o] == s[k]
  {
    var i, j := TrimSlice(s, ws);
    o := k - i;
    assert s[i..j][o] == s[k];
  }

  /** Position of the first c in s, or |s| when s has none. */
  function IndexOf(s: string, c: char): (i: nat)
    ensures i <= |s|
    ensures i < |s| ==> s[i] == c
    ensures forall k :: 0 <= k < i ==> s[k] != c
  {
    if s == [] then 0 else if s[0] == c then 0 else 1 + IndexOf(s[1..], c)
  }

  lemma {:induction false} IndexOfAppend(a: string, b: string, c: char)
    requires c !in a
    ensures IndexOf(a + b, c) == |a| + IndexOf(b, c)
  {
    if a != [] {
      assert (a + b)[0] == a[0] != c;
      assert (a + b)[1..] == a[1..] + b;
      IndexOfAppend(a[1..], b, c);
      assert IndexOf(a + b, c) == 1 + IndexOf(a[1..] + b, c);
    } else {
      assert a + b == b;
    }
  }

  /** A string made of a sep-free head, sep and a tail determines the head and the tail. */
  lemma SplitAtSeparator(a: string, b: string, c: string, d: string, sep: char)
    requires sep !in a && sep !in c
    requires a + [sep] + b == c + [sep] + d
    ensures a == c && b == d
  {
    var s := a + [sep] + b;
    assert s == a + ([sep] + b) && s == c + ([sep] + d);
    IndexOfAppend(a, [sep] + b, sep);
    IndexOfAppend(c, [sep] + d, sep);
    assert IndexOf([sep] + b, sep) == 0 && IndexOf([sep] + d, sep) == 0;
    assert a == s[..|a|] == c;
    assert b == s[|a| + 1..] == d;
  }

  /** The pieces of s between the occurrences of sep, as JavaScript's String.prototype.split and
      Python's str.split do with a one-character separator: one more piece than separators,
      empty pieces kept. */
  function SplitOn(s: string, sep: char): (parts: seq<string>)
    ensures |parts| >= 1
    ensures forall p <- parts :: sep !in p
    decreases |s|
  {
    var i := IndexOf(s, sep);
    if i == |s| then [s] else [s[..i]] + SplitOn(s[i + 1..], sep)
  }

  /** Past the first separator, the pieces of s are those of the rest, one place later. */
  lemma SplitOnTail(s: string, sep: char, j: nat)
    requires IndexOf(s, sep) < |s| && j < |SplitOn(s[IndexOf(s, sep) + 1..], sep)|
    ensures SplitOn(s, sep)[j + 1] == SplitOn(s[IndexOf(s, sep) + 1..], sep)[j]
  {
    var i := IndexOf(s, sep);
    var pieces, rest := SplitOn(s, sep), SplitOn(s[i + 1..], sep);
    assert pieces == [s[..i]] + rest;
    assert pieces[j + 1] == ([s[..i]] + rest)[j + 1] == rest[j];
  }

  /** A character of s other than sep lies in some piece of the split: at offset o of piece j. */
  lemma {:induction false} SplitOnCover(s: string, sep: char, k: nat) returns (j: nat, o: nat)
    requires k < |s| && s[k] != sep
    ensures j < |SplitOn(s, sep)| && o < |SplitOn(s, sep)[j]| && SplitOn(s, sep)[j][o] == s[k]
    decreases |s|
  {
    var i := IndexOf(s, sep);
    if k < i {
      j, o := 0, k;
      assert SplitOn(s, sep)[0] == s[..i] by {
        if i == |s| {
          assert s[..i] == s;
        }
      }
      assert s[..i][k] == s[k];
    } else {
      assert i < |s| && k > i;
      var head, rest, k1 := s[..i], s[i + 1..], k - i - 1;
      assert k1 < |rest| && rest[k1] == s[k];
      var j1, o1 := SplitOnCover(rest, sep, k1);
      j, o := j1 + 1, o1;
      SplitOnTail(s, sep, j1);
      assert SplitOn(s, sep)[j] == SplitOn(rest, sep)[j1];
    }
  }

  /** parts separated by sep, as JavaScript's Array.prototype.join and Python's str.join. */
  function Join(parts: seq<string>, sep: string): string
  {
    if |parts| == 0 then ""
    else if |parts| == 1 then parts[0]
    else parts[0] + sep + Join(parts[1..], sep)
  }

  /** Joining the pieces of a split gives back the string. */
  lemma {:induction false} JoinSplit(s: string, sep: char)
    ensures Join(SplitOn(s, sep), [sep]) == s
    decreases |s|
  {
    var i := IndexOf(s, sep);
    if i < |s| {
      var rest := SplitOn(s[i + 1..], sep);
      assert SplitOn(s, sep) == [s[..i]] + rest;
      assert ([s[..i]] + rest)[1..] == rest;
      JoinSplit(s[i + 1..], sep);
      assert s == s[..i] + [sep] + s[i + 1..];
    }
  }

  /** Splitting at a first separator that follows a separator-free prefix. */
  lemma SplitOnCons(a: string, sep: char, b: string)
    requires sep !in a
    ensures SplitOn(a + [sep] + b, sep) == [a] + SplitOn(b, sep)
  {
    var s := a + [sep] + b;
    assert s == a + ([sep] + b);
    IndexOfAppend(a, [sep] + b, sep);
    assert s[..|a|] == a;
    assert s[|a| + 1..] == b;
  }

  /** A string without the separator splits into itself. */
  lemma SplitOnNone(a: string, sep: char)
    requires sep !in a
    ensures SplitOn(a, sep) == [a]
  {
    IndexOfAppend(a, [], sep);
    assert a + [] == a;
  }

  /** Splitting a join of separator-free pieces gives back the pieces. */
  lemma {:induction false} SplitJoin(parts: seq<string>, sep: char)
    requires |parts| >= 1
    requires forall p <- parts :: sep !in p
    ensures SplitOn(Join(parts, [sep]), sep) == parts
  {
    if |parts| == 1 {
      SplitOnNone(parts[0], sep);
    } else {
      var tail := Join(parts[1..], [sep]);
      SplitOnCons(parts[0], sep, tail);
      SplitJoin(parts[1..], sep);
      assert parts == [parts[0]] + parts[1..];
    }
  }

  predicate IsDigit(c: char) {
    '0' <= c <= '9'
  }

  function DigitChar(d: nat): (c: char)
    requires d < 10
    ensures IsDigit(c)
  {
    (48 + d) as char
  }

  function DigitValue(c: char): (d: nat)
    requires IsDigit(c)
    ensures d < 10 && DigitChar(d) == c
  {
    (c as int - 48) as nat
  }

  /** Decimal notation of n without leading zeros, as JavaScript's Number.prototype.toString
      writes a non-negative integer below 10^21. */
  function Decimal(n: nat): (s: string)
    ensures |s| >= 1
    ensures forall c <- s :: IsDigit(c)
    decreases n
  {
    if n < 10 then [DigitChar(n)] else Decimal(n / 10) + [DigitChar(n % 10)]
  }

  /** The number a string of decimal digits denotes. */
  function DecimalValue(s: string): nat
    requires forall c <- s :: IsDigit(c)
  {
    if s == [] then 0 else 10 * DecimalValue(s[..|s| - 1]) + DigitValue(s[|s| - 1])
  }

  /** Reading a rendered number gives the number back. */
  lemma {:induction false} DecimalRoundTrip(n: nat)
    ensures DecimalValue(Decimal(n)) == n
    decreases n
  {
    if n >= 10 {
      var s := Decimal(n);
      assert s[..|s| - 1] == Decimal(n / 10);
      DecimalRoundTrip(n / 10);
    }
  }

  /** Distinct numbers have distinct decimal notations. */
  lemma DecimalInjective(m: nat, n: nat)
    requires Decimal(m) == Decimal(n)
    ensures m == n
  {
    DecimalRoundTrip(m);
    DecimalRoundTrip(n);
  }
}
