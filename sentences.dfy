/** `split_into_sentences` of the Python service: the text is cut after every `.`, `!` or `?`
    that is followed by whitespace (the regular expression `(?<=[.!?])\s+` given to re.split),
    each piece is cut again at every line feed, and what is left is stripped of whitespace,
    empty strings dropped. */
module Sentences {
  import opened Text

  predicate IsSentenceEnd(c: char) {
    c == '.' || c == '!' || c == '?'
  }

  /** Position p is where `(?<=[.!?])\s+` matches: a whitespace character right after a sentence end. */
  predicate IsBreakAt(s: string, p: int) {
    1 <= p < |s| && IsSentenceEnd(s[p - 1]) && IsPyWhitespace(s[p])
  }

  /** No sentence end in s is followed by whitespace. */
  predicate NoBreak(s: string) {
    forall p :: 0 <= p < |s| ==> !IsBreakAt(s, p)
  }

  /** The leftmost match position at or after `from`, or |s| when there is none. */
  function FirstBreak(s: string, from: nat): (p: nat)
    requires from <= |s|
    ensures from <= p <= |s|
    ensures p < |s| ==> IsBreakAt(s, p)
    ensures forall q :: from <= q < p ==> !IsBreakAt(s, q)
    decreases |s| - from
  {
    if from == |s| || IsBreakAt(s, from) then from else FirstBreak(s, from + 1)
  }

  /** The end of the whitespace run starting at p: `\s+` is greedy. */
  function RunEnd(s: string, p: nat): (q: nat)
    requires p <= |s|
    ensures p <= q <= |s|
    ensures forall k :: p <= k < q ==> IsPyWhitespace(s[k])
    ensures q < |s| ==> !IsPyWhitespace(s[q])
    decreases |s| - p
  {
    if p < |s| && IsPyWhitespace(s[p]) then RunEnd(s, p + 1) else p
  }

  /** re.split from position `from` on: the text up to the next match, then the rest after
      the matched whitespace run; the last piece runs to the end of s (possibly empty). */
  function SplitFrom(s: string, from: nat): (pieces: seq<string>)
    requires from <= |s|
    ensures |pieces| >= 1
    decreases |s| - from
  {
    var p := FirstBreak(s, from);
    if p == |s| then [s[from..]] else [s[from..p]] + SplitFrom(s, RunEnd(s, p))
  }

  /** `re.split(r'(?<=[.!?])\s+', text)` */
  function SplitAtBreaks(text: string): (pieces: seq<string>)
    ensures |pieces| >= 1
  {
    SplitFrom(text, 0)
  }

  /** What the inner loop keeps of one line: its stripped form, unless that is empty. */
  function Kept(part: string): (kept: seq<string>)
    ensures |kept| <= 1
  {
    var p := Trim(part, IsPyWhitespace);
    if p == [] then [] else [p]
  }

  /** The stripped non-empty lines among parts, in order. */
  function KeepStripped(parts: seq<string>): seq<string>
  {
    if parts == [] then [] else Kept(parts[0]) + KeepStripped(parts[1..])
  }

  /** The sentences the nested loops collect from the pieces, in order. */
  function SentencesOf(pieces: seq<string>): seq<string>
  {
    if pieces == [] then [] else KeepStripped(SplitOn(pieces[0], '\n')) + SentencesOf(pieces[1..])
  }

  /** The list split_into_sentences returns. */
  function Sentences(text: string): seq<string>
  {
    SentencesOf(SplitAtBreaks(text))
  }

  /** The loops of split_into_sentences, appending to `final`. */
  method SplitIntoSentences(text: string) returns (final: seq<string>)
    ensures final == Sentences(text)
  {
    var sentences := SplitAtBreaks(text);
    final := [];
    for i := 0 to |sentences|
      invariant final == SentencesOf(sentences[..i])
    {
      final := AppendLines(final, sentences[i]);
      SentencesOfSnoc(sentences, i);
    }
    assert sentences[..|sentences|] == sentences;
  }

  /** The inner loop: the stripped non-empty lines of s appended to final. */
  method AppendLines(final0: seq<string>, s: string) returns (final: seq<string>)
    ensures final == final0 + KeepStripped(SplitOn(s, '\n'))
  {
    var parts := SplitOn(s, '\n');
    final := final0;
    for j := 0 to |parts|
      invariant final == final0 + KeepStripped(parts[..j])
    {
      ghost var mid := final;
      var p := Trim(parts[j], IsPyWhitespace);
      if p != [] {
        final := final + [p];
      }
      assert final == mid + Kept(parts[j]);
      KeepStrippedSnoc(parts, j);
      Assoc(final0, KeepStripped(parts[..j]), Kept(parts[j]));
    }
    assert parts[..|parts|] == parts;
  }

  lemma Assoc(a: seq<string>, b: seq<string>, c: seq<string>)
    ensures (a + b) + c == a + (b + c)
  {
  }

  lemma KeepStrippedSnoc(parts: seq<string>, j: nat)
    requires j < |parts|
    ensures KeepStripped(parts[..j + 1]) == KeepStripped(parts[..j]) + Kept(parts[j])
  {
    var a, b := parts[..j], [parts[j]];
    assert parts[..j + 1] == a + b;
    KeepStrippedAppend(a, b);
    KeepStrippedSingle(parts[j]);
  }

  lemma KeepStrippedSingle(part: string)
    ensures KeepStripped([part]) == Kept(part)
  {
    assert [part][1..] == [];
  }

  lemma SentencesOfSnoc(pieces: seq<string>, i: nat)
    requires i < |pieces|
    ensures SentencesOf(pieces[..i + 1]) == SentencesOf(pieces[..i]) + KeepStripped(SplitOn(pieces[i], '\n'))
  {
    var a, b := pieces[..i], [pieces[i]];
    assert pieces[..i + 1] == a + b;
    SentencesOfAppend(a, b);
    SentencesOfSingle(pieces[i]);
  }

  lemma SentencesOfSingle(piece: string)
    ensures SentencesOf([piece]) == KeepStripped(SplitOn(piece, '\n'))
  {
    assert [piece][1..] == [];
  }

  lemma {:induction false} KeepStrippedAppend(a: seq<string>, b: seq<string>)
    ensures KeepStripped(a + b) == KeepStripped(a) + KeepStripped(b)
  {
    if a == [] {
      assert a + b == b;
    } else {
      assert (a + b)[0] == a[0];
      assert (a + b)[1..] == a[1..] + b;
      KeepStrippedAppend(a[1..], b);
    }
  }

  lemma {:induction false} SentencesOfAppend(a: seq<string>, b: seq<string>)
    ensures SentencesOf(a + b) == SentencesOf(a) + SentencesOf(b)
  {
    if a == [] {
      assert a + b == b;
    } else {
      assert (a + b)[0] == a[0];
      assert (a + b)[1..] == a[1..] + b;
      SentencesOfAppend(a[1..], b);
    }
  }

  /** One step of the split on line feeds: the first line, then the lines of the rest. */
  lemma SplitStep(s: string)
    ensures IndexOf(s, '\n') == |s| ==> SplitOn(s, '\n') == [s]
    ensures IndexOf(s, '\n') < |s| ==>
      SplitOn(s, '\n') == [s[..IndexOf(s, '\n')]] + SplitOn(s[IndexOf(s, '\n') + 1..], '\n')
  {
    if IndexOf(s, '\n') == |s| {
      assert s[..|s|] == s;
    }
  }

  /** The kept lines of a string without line feed: its own stripped form, if any. */
  lemma KeepLast(s: string)
    requires IndexOf(s, '\n') == |s|
    ensures KeepStripped(SplitOn(s, '\n')) == Kept(s)
  {
    SplitStep(s);
    assert KeepStripped([s]) == Kept(s) + KeepStripped([]);
  }

  /** The kept lines of s: those of its first line, then those of the rest. */
  lemma KeepStep(s: string, i: nat)
    requires i == IndexOf(s, '\n') < |s|
    ensures KeepStripped(SplitOn(s, '\n')) == Kept(s[..i]) + KeepStripped(SplitOn(s[i + 1..], '\n'))
  {
    SplitStep(s);
    var parts := SplitOn(s, '\n');
    assert parts[0] == s[..i];
  }

  // ----- The shape of every sentence -----

  /** What every returned sentence looks like. */
  predicate IsSentence(x: string) {
    x != [] && IsTrimmed(x, IsPyWhitespace) && '\n' !in x && NoBreak(x)
  }

  /** A slice of a string without breaks has none either. */
  lemma NoBreakSlice(s: string, a: nat, b: nat)
    requires a <= b <= |s| && NoBreak(s)
    ensures NoBreak(s[a..b])
  {
    forall p | 1 <= p < b - a ensures !IsBreakAt(s[a..b], p) {
      assert !IsBreakAt(s, a + p);
      assert s[a..b][p - 1] == s[a + p - 1] && s[a..b][p] == s[a + p];
    }
  }

  /** Every piece of re.split is free of breaks: each ends before the leftmost match. */
  lemma {:induction false} PiecesNoBreak(s: string, from: nat)
    requires from <= |s|
    ensures forall piece <- SplitFrom(s, from) :: NoBreak(piece)
    decreases |s| - from
  {
    var p := FirstBreak(s, from);
    forall q | 1 <= q < p - from ensures !IsBreakAt(s[from..p], q) {
      assert !IsBreakAt(s, from + q);
      assert s[from..p][q - 1] == s[from + q - 1] && s[from..p][q] == s[from + q];
    }
    if p < |s| {
      PiecesNoBreak(s, RunEnd(s, p));
      assert SplitFrom(s, from) == [s[from..p]] + SplitFrom(s, RunEnd(s, p));
    } else {
      assert SplitFrom(s, from) == [s[from..]] && s[from..] == s[from..p];
    }
  }

  /** The stripped line kept from a break-free line without a line feed is a sentence. */
  lemma KeptIsSentence(part: string)
    requires '\n' !in part && NoBreak(part)
    ensures forall x <- Kept(part) :: IsSentence(x)
  {
    var i, j := TrimSlice(part, IsPyWhitespace);
    TrimIsTrimmed(part, IsPyWhitespace);
    NoBreakSlice(part, i, j);
    TrimChars(part, IsPyWhitespace, '\n');
  }

  lemma {:induction false} KeepStrippedAreSentences(parts: seq<string>)
    requires forall part <- parts :: '\n' !in part && NoBreak(part)
    ensures forall x <- KeepStripped(parts) :: IsSentence(x)
  {
    if parts != [] {
      KeptIsSentence(parts[0]);
      KeepStrippedAreSentences(parts[1..]);
    }
  }

  /** The lines of a break-free piece are break-free. */
  lemma {:induction false} LinesNoBreak(s: string)
    requires NoBreak(s)
    ensures forall part <- SplitOn(s, '\n') :: NoBreak(part)
    decreases |s|
  {
    var i := IndexOf(s, '\n');
    SplitStep(s);
    NoBreakSlice(s, 0, i);
    if i < |s| {
      NoBreakSlice(s, i + 1, |s|);
      assert s[i + 1..|s|] == s[i + 1..];
      LinesNoBreak(s[i + 1..]);
    } else {
      assert s[..i] == s;
    }
  }

  lemma {:induction false} SentencesOfAreSentences(pieces: seq<string>)
    requires forall piece <- pieces :: NoBreak(piece)
    ensures forall x <- SentencesOf(pieces) :: IsSentence(x)
  {
    if pieces != [] {
      LinesNoBreak(pieces[0]);
      KeepStrippedAreSentences(SplitOn(pieces[0], '\n'));
      SentencesOfAreSentences(pieces[1..]);
    }
  }

  /** Every returned string is non-empty, stripped, free of line feeds, and has no sentence end
      followed by whitespace inside it. */
  lemma SentencesShape(text: string)
    ensures forall x <- Sentences(text) :: IsSentence(x)
  {
    PiecesNoBreak(text, 0);
    SentencesOfAreSentences(SplitAtBreaks(text));
  }

  // ----- Empty results -----

  /** A piece of an all-whitespace string is all whitespace. */
  lemma PiecesOfBlank(s: string, from: nat)
    requires from <= |s| && AllIn(s, IsPyWhitespace)
    ensures forall piece <- SplitFrom(s, from) :: AllIn(piece, IsPyWhitespace)
  {
    var p := FirstBreak(s, from);
    if p < |s| {
      assert false;
    }
    assert SplitFrom(s, from) == [s[from..]];
  }

  /** A non-whitespace character of s lies in some piece: at offset o of piece j. */
  lemma {:induction false} PiecesCover(s: string, from: nat, k: nat) returns (j: nat, o: nat)
    requires from <= k < |s| && !IsPyWhitespace(s[k])
    ensures j < |SplitFrom(s, from)| && o < |SplitFrom(s, from)[j]| && SplitFrom(s, from)[j][o] == s[k]
    decreases |s| - from
  {
    var p := FirstBreak(s, from);
    if k < p {
      j, o := 0, k - from;
      assert SplitFrom(s, from)[0] == s[from..p] by {
        if p == |s| {
          assert s[from..] == s[from..p];
        }
      }
      assert s[from..p][k - from] == s[k];
    } else {
      var q := RunEnd(s, p);
      assert k >= q;
      var j1, o1 := PiecesCover(s, q, k);
      assert SplitFrom(s, from) == [s[from..p]] + SplitFrom(s, q);
      j, o := j1 + 1, o1;
    }
  }

  /** The kept lines are none exactly when every line is blank. */
  lemma {:induction false} KeepStrippedEmptyIff(parts: seq<string>)
    ensures KeepStripped(parts) == [] <==> forall part <- parts :: AllIn(part, IsPyWhitespace)
  {
    if parts != [] {
      var head, tail := parts[0], parts[1..];
      assert KeepStripped(parts) == Kept(head) + KeepStripped(tail);
      assert Kept(head) == [] <==> AllIn(head, IsPyWhitespace) by {
        TrimEmptyIff(head, IsPyWhitespace);
      }
      KeepStrippedEmptyIff(tail);
      assert forall part :: part in parts <==> part == head || part in tail by {
        assert parts == [head] + tail;
      }
    }
  }

  lemma AllInConcat(a: string, c: char, b: string)
    ensures AllIn(a + [c] + b, IsPyWhitespace) <==> AllIn(a, IsPyWhitespace) && IsPyWhitespace(c) && AllIn(b, IsPyWhitespace)
  {
    var s := a + [c] + b;
    if AllIn(s, IsPyWhitespace) {
      forall k | 0 <= k < |b| ensures IsPyWhitespace(b[k]) {
        assert b[k] == s[|a| + 1 + k];
      }
      assert s[|a|] == c;
      forall k | 0 <= k < |a| ensures IsPyWhitespace(a[k]) {
        assert a[k] == s[k];
      }
    }
  }

  /** Every line of s is blank exactly when s is: the line feeds between them are whitespace. */
  lemma {:induction false} LinesAllBlankIff(s: string)
    ensures (forall part <- SplitOn(s, '\n') :: AllIn(part, IsPyWhitespace)) <==> AllIn(s, IsPyWhitespace)
    decreases |s|
  {
    var i := IndexOf(s, '\n');
    SplitStep(s);
    if i < |s| {
      var rest := s[i + 1..];
      LinesAllBlankIff(rest);
      assert s == s[..i] + [s[i]] + rest;
      AllInConcat(s[..i], s[i], rest);
      assert SplitOn(s, '\n') == [s[..i]] + SplitOn(rest, '\n');
    }
  }

  /** The lines of s are all blank exactly when s is. */
  lemma LinesBlankIff(s: string)
    ensures KeepStripped(SplitOn(s, '\n')) == [] <==> AllIn(s, IsPyWhitespace)
  {
    KeepStrippedEmptyIff(SplitOn(s, '\n'));
    LinesAllBlankIff(s);
  }

  lemma {:induction false} SentencesOfBlankIff(pieces: seq<string>)
    ensures SentencesOf(pieces) == [] <==> forall piece <- pieces :: AllIn(piece, IsPyWhitespace)
  {
    if pieces != [] {
      LinesBlankIff(pieces[0]);
      SentencesOfBlankIff(pieces[1..]);
      assert pieces == [pieces[0]] + pieces[1..];
    }
  }

  /** split_into_sentences returns nothing exactly when the text is empty or whitespace only. */
  lemma SentencesEmptyIff(text: string)
    ensures Sentences(text) == [] <==> AllIn(text, IsPyWhitespace)
  {
    SentencesOfBlankIff(SplitAtBreaks(text));
    if AllIn(text, IsPyWhitespace) {
      PiecesOfBlank(text, 0);
    } else {
      var k :| 0 <= k < |text| && !IsPyWhitespace(text[k]);
      var j, o := PiecesCover(text, 0, k);
      assert !AllIn(SplitAtBreaks(text)[j], IsPyWhitespace);
    }
  }

  // ----- Nothing but whitespace is dropped -----

  lemma LineFeedIsWhitespace()
    ensures IsPyWhitespace('\n')
  {
  }

  /** A non-whitespace character of a line is kept, inside the stripped line. */
  lemma {:induction false} KeepStrippedCover(parts: seq<string>, j: nat, o: nat) returns (j2: nat, o2: nat)
    requires j < |parts| && o < |parts[j]| && !IsPyWhitespace(parts[j][o])
    ensures j2 < |KeepStripped(parts)| && o2 < |KeepStripped(parts)[j2]|
    ensures KeepStripped(parts)[j2][o2] == parts[j][o]
    decreases |parts|
  {
    var head, tail := parts[0], parts[1..];
    assert KeepStripped(parts) == Kept(head) + KeepStripped(tail);
    if j == 0 {
      o2 := TrimCover(head, IsPyWhitespace, o);
      j2 := 0;
    } else {
      assert parts[j] == tail[j - 1];
      var j1, o1 := KeepStrippedCover(tail, j - 1, o);
      j2, o2 := |Kept(head)| + j1, o1;
    }
  }

  /** A non-whitespace character of a piece is kept, inside one of the collected sentences. */
  lemma {:induction false} SentencesOfCover(pieces: seq<string>, j: nat, o: nat) returns (j2: nat, o2: nat)
    requires j < |pieces| && o < |pieces[j]| && !IsPyWhitespace(pieces[j][o])
    ensures j2 < |SentencesOf(pieces)| && o2 < |SentencesOf(pieces)[j2]|
    ensures SentencesOf(pieces)[j2][o2] == pieces[j][o]
    decreases |pieces|
  {
    var lines := KeepStripped(SplitOn(pieces[0], '\n'));
    assert SentencesOf(pieces) == lines + SentencesOf(pieces[1..]);
    if j == 0 {
      LineFeedIsWhitespace();
      var l, lo := SplitOnCover(pieces[0], '\n', o);
      j2, o2 := KeepStrippedCover(SplitOn(pieces[0], '\n'), l, lo);
    } else {
      assert pieces[j] == pieces[1..][j - 1];
      var j1, o1 := SentencesOfCover(pieces[1..], j - 1, o);
      j2, o2 := |lines| + j1, o1;
    }
  }

  /** Every non-whitespace character of the text occurs, as a value, at offset o of sentence j.
      SentencesInOrder gives the positional form: each such character lies inside the slice of
      the text that some sentence is. */
  lemma SentencesCover(text: string, k: nat) returns (j: nat, o: nat)
    requires k < |text| && !IsPyWhitespace(text[k])
    ensures j < |Sentences(text)| && o < |Sentences(text)[j]| && Sentences(text)[j][o] == text[k]
  {
    var j1, o1 := PiecesCover(text, 0, k);
    j, o := SentencesOfCover(SplitAtBreaks(text), j1, o1);
  }

  // ----- Input order -----

  /** parts occur in s at the offsets offs, each inside [lo, hi), in order and without overlap. */
  predicate OrderedIn(s: string, lo: nat, hi: nat, parts: seq<string>, offs: seq<nat>) {
    && lo <= hi <= |s| && |offs| == |parts|
    && (forall k :: 0 <= k < |parts| ==>
          lo <= offs[k] && offs[k] + |parts[k]| <= hi && s[offs[k]..offs[k] + |parts[k]|] == parts[k])
    && (forall k :: 0 < k < |parts| ==> offs[k - 1] + |parts[k - 1]| <= offs[k])
  }

  function Shift(offs: seq<nat>, d: nat): (r: seq<nat>)
    ensures |r| == |offs| && forall k :: 0 <= k < |offs| ==> r[k] == offs[k] + d
  {
    seq(|offs|, k requires 0 <= k < |offs| => offs[k] + d)
  }

  /** Two ordered runs, the second after the first, make one. */
  lemma OrderedAppend(s: string, lo: nat, m1: nat, m2: nat, hi: nat,
                      a: seq<string>, oa: seq<nat>, b: seq<string>, ob: seq<nat>)
    requires m1 <= m2
    requires OrderedIn(s, lo, m1, a, oa) && OrderedIn(s, m2, hi, b, ob)
    ensures OrderedIn(s, lo, hi, a + b, oa + ob)
  {
    var c, oc := a + b, oa + ob;
    forall k | 0 <= k < |c|
      ensures lo <= oc[k] && oc[k] + |c[k]| <= hi && s[oc[k]..oc[k] + |c[k]|] == c[k]
    {
      if k >= |a| {
        assert c[k] == b[k - |a|] && oc[k] == ob[k - |a|];
      }
    }
    forall k | 0 < k < |c| ensures oc[k - 1] + |c[k - 1]| <= oc[k] {
      if k > |a| {
        assert c[k - 1] == b[k - 1 - |a|] && oc[k - 1] == ob[k - 1 - |a|];
      } else if k == |a| {
        assert oc[k] == ob[0];
      }
    }
  }

  /** Offsets inside the slice s[a..b] become offsets inside s. */
  lemma OrderedShift(s: string, a: nat, b: nat, parts: seq<string>, offs: seq<nat>)
    requires a <= b <= |s| && OrderedIn(s[a..b], 0, b - a, parts, offs)
    ensures OrderedIn(s, a, b, parts, Shift(offs, a))
  {
    forall k | 0 <= k < |parts|
      ensures s[offs[k] + a..offs[k] + a + |parts[k]|] == parts[k]
    {
      SliceOfSlice(s, a, b, offs[k], offs[k] + |parts[k]|);
    }
  }

  /** An ordered run inside [lo, hi) is one inside any wider window. */
  lemma OrderedWiden(s: string, lo: nat, hi: nat, lo2: nat, hi2: nat, parts: seq<string>, offs: seq<nat>)
    requires OrderedIn(s, lo, hi, parts, offs) && lo2 <= lo && hi <= hi2 <= |s|
    ensures OrderedIn(s, lo2, hi2, parts, offs)
  {
  }

  lemma SliceOfSlice(s: string, a: nat, b: nat, x: nat, y: nat)
    requires a <= b <= |s| && x <= y <= b - a
    ensures s[a..b][x..y] == s[a + x..a + y]
  {
    forall m | 0 <= m < y - x ensures s[a..b][x..y][m] == s[a + x..a + y][m] {
      assert s[a..b][x..y][m] == s[a..b][x + m] == s[a + x + m];
    }
  }

  /** Every non-whitespace character of s inside [lo, hi) lies inside one of the parts, where
      the parts are placed at the offsets offs. */
  predicate Covers(s: string, lo: nat, hi: nat, parts: seq<string>, offs: seq<nat>) {
    && hi <= |s| && |offs| == |parts|
    && forall k :: lo <= k < hi && !IsPyWhitespace(s[k]) ==>
         exists j :: 0 <= j < |parts| && offs[j] <= k < offs[j] + |parts[j]|
  }

  /** The slice s[a..b], placed at a, lies in [a, b) and covers it. */
  lemma CoversSingle(s: string, a: nat, b: nat)
    requires a <= b <= |s|
    ensures OrderedIn(s, a, b, [s[a..b]], [a])
    ensures Covers(s, a, b, [s[a..b]], [a])
  {
    assert [a][0] + |[s[a..b]][0]| == b;
    forall k | a <= k < b && !IsPyWhitespace(s[k])
      ensures exists j :: 0 <= j < 1 && [a][j] <= k < [a][j] + |[s[a..b]][j]|
    {
      assert [a][0] <= k < [a][0] + |[s[a..b]][0]|;
    }
  }

  /** Two covering runs with only whitespace between them make one. */
  lemma CoversAppend(s: string, lo: nat, m1: nat, m2: nat, hi: nat,
                     a: seq<string>, oa: seq<nat>, b: seq<string>, ob: seq<nat>)
    requires m1 <= m2 <= hi <= |s|
    requires Covers(s, lo, m1, a, oa) && Covers(s, m2, hi, b, ob)
    requires forall k :: m1 <= k < m2 ==> IsPyWhitespace(s[k])
    ensures Covers(s, lo, hi, a + b, oa + ob)
  {
    var c, oc := a + b, oa + ob;
    forall k | lo <= k < hi && !IsPyWhitespace(s[k])
      ensures exists j :: 0 <= j < |c| && oc[j] <= k < oc[j] + |c[j]|
    {
      if k < m1 {
        var j :| 0 <= j < |a| && oa[j] <= k < oa[j] + |a[j]|;
        assert c[j] == a[j] && oc[j] == oa[j];
      } else if k < m2 {
        assert false;
      } else {
        var j :| 0 <= j < |b| && ob[j] <= k < ob[j] + |b[j]|;
        assert c[|a| + j] == b[j] && oc[|a| + j] == ob[j];
      }
    }
  }

  /** Offsets covering the slice s[a..b] become offsets covering [a, b) in s. */
  lemma CoversShift(s: string, a: nat, b: nat, parts: seq<string>, offs: seq<nat>)
    requires a <= b <= |s| && Covers(s[a..b], 0, b - a, parts, offs)
    ensures Covers(s, a, b, parts, Shift(offs, a))
  {
    var sh := Shift(offs, a);
    forall k | a <= k < b && !IsPyWhitespace(s[k])
      ensures exists j :: 0 <= j < |parts| && sh[j] <= k < sh[j] + |parts[j]|
    {
      assert s[a..b][k - a] == s[k];
      var j :| 0 <= j < |parts| && offs[j] <= k - a < offs[j] + |parts[j]|;
      assert sh[j] == offs[j] + a;
    }
  }

  /** A covering run still covers when only whitespace is added before it. */
  lemma CoversWidenLow(s: string, lo: nat, hi: nat, lo2: nat, parts: seq<string>, offs: seq<nat>)
    requires Covers(s, lo, hi, parts, offs) && lo2 <= lo
    requires forall k :: lo2 <= k < lo && k < |s| ==> IsPyWhitespace(s[k])
    ensures Covers(s, lo2, hi, parts, offs)
  {
  }

  /** In an ordered covering run, only whitespace precedes the first part, and the rest of the
      run covers what follows the first part. */
  lemma CoversHeadTail(s: string, lo: nat, hi: nat, pieces: seq<string>, poffs: seq<nat>)
    requires OrderedIn(s, lo, hi, pieces, poffs) && Covers(s, lo, hi, pieces, poffs) && pieces != []
    ensures forall k :: lo <= k < poffs[0] && k < |s| ==> IsPyWhitespace(s[k])
    ensures Covers(s, poffs[0] + |pieces[0]|, hi, pieces[1..], poffs[1..])
  {
    forall k | lo <= k < poffs[0] && k < |s| ensures IsPyWhitespace(s[k]) {
      if !IsPyWhitespace(s[k]) {
        var j :| 0 <= j < |pieces| && poffs[j] <= k < poffs[j] + |pieces[j]|;
        if j > 0 {
          OrderedBefore(s, lo, hi, pieces, poffs, 0, j);
        }
        assert false;
      }
    }
    var b := poffs[0] + |pieces[0]|;
    forall k | b <= k < hi && !IsPyWhitespace(s[k])
      ensures exists j :: 0 <= j < |pieces[1..]| && poffs[1..][j] <= k < poffs[1..][j] + |pieces[1..][j]|
    {
      var j :| 0 <= j < |pieces| && poffs[j] <= k < poffs[j] + |pieces[j]|;
      assert j != 0;
      assert pieces[1..][j - 1] == pieces[j] && poffs[1..][j - 1] == poffs[j];
    }
  }

  /** In an ordered run, every element ends before any later one starts. */
  lemma {:induction false} OrderedBefore(s: string, lo: nat, hi: nat, parts: seq<string>, offs: seq<nat>, j: nat, k: nat)
    requires OrderedIn(s, lo, hi, parts, offs) && j < k < |parts|
    ensures offs[j] + |parts[j]| <= offs[k]
    decreases k - j
  {
    if j + 1 < k {
      OrderedBefore(s, lo, hi, parts, offs, j + 1, k);
    }
  }

  /** The rest of an ordered run starts after its first element. */
  lemma OrderedTail(s: string, lo: nat, hi: nat, parts: seq<string>, offs: seq<nat>)
    requires OrderedIn(s, lo, hi, parts, offs) && parts != []
    ensures OrderedIn(s, offs[0] + |parts[0]|, hi, parts[1..], offs[1..])
  {
    forall k | 1 <= k < |parts| ensures offs[0] + |parts[0]| <= offs[k] {
      OrderedBefore(s, lo, hi, parts, offs, 0, k);
    }
  }

  /** The pieces of re.split occur in the text in order. */
  lemma {:induction false} PiecesOrdered(s: string, from: nat) returns (offs: seq<nat>)
    requires from <= |s|
    ensures OrderedIn(s, from, |s|, SplitFrom(s, from), offs)
    ensures Covers(s, from, |s|, SplitFrom(s, from), offs)
    decreases |s| - from
  {
    var p := FirstBreak(s, from);
    CoversSingle(s, from, p);
    if p == |s| {
      offs := [from];
      assert s[from..] == s[from..p];
    } else {
      var q := RunEnd(s, p);
      var rest := PiecesOrdered(s, q);
      OrderedAppend(s, from, p, q, |s|, [s[from..p]], [from], SplitFrom(s, q), rest);
      CoversAppend(s, from, p, q, |s|, [s[from..p]], [from], SplitFrom(s, q), rest);
      offs := [from] + rest;
    }
  }

  /** The kept form of a line occurs in it. */
  lemma KeptOrdered(part: string) returns (offs: seq<nat>)
    ensures OrderedIn(part, 0, |part|, Kept(part), offs)
    ensures Covers(part, 0, |part|, Kept(part), offs)
  {
    var i, j := TrimSlice(part, IsPyWhitespace);
    offs := if Kept(part) == [] then [] else [i];
    forall k | 0 <= k < |part| && !IsPyWhitespace(part[k])
      ensures exists m :: 0 <= m < |Kept(part)| && offs[m] <= k < offs[m] + |Kept(part)[m]|
    {
      assert i <= k < j;
      assert Kept(part) == [part[i..j]];
      assert offs[0] <= k < offs[0] + |Kept(part)[0]|;
    }
  }

  /** The kept form of the slice s[a..b] occurs in s inside [a, b). */
  lemma KeptAt(s: string, a: nat, b: nat) returns (offs: seq<nat>)
    requires a <= b <= |s|
    ensures OrderedIn(s, a, b, Kept(s[a..b]), offs)
    ensures Covers(s, a, b, Kept(s[a..b]), offs)
  {
    var o := KeptOrdered(s[a..b]);
    OrderedShift(s, a, b, Kept(s[a..b]), o);
    CoversShift(s, a, b, Kept(s[a..b]), o);
    offs := Shift(o, a);
  }

  /** The kept lines of the slice s[a..b] occur in s inside [a, b), in order. */
  lemma LinesAt(s: string, a: nat, b: nat) returns (offs: seq<nat>)
    requires a <= b <= |s|
    ensures OrderedIn(s, a, b, KeepStripped(SplitOn(s[a..b], '\n')), offs)
    ensures Covers(s, a, b, KeepStripped(SplitOn(s[a..b], '\n')), offs)
    decreases b - a, 2
  {
    var o := LinesOrdered(s[a..b]);
    OrderedShift(s, a, b, KeepStripped(SplitOn(s[a..b], '\n')), o);
    CoversShift(s, a, b, KeepStripped(SplitOn(s[a..b], '\n')), o);
    offs := Shift(o, a);
  }

  /** The kept form of the prefix s[..i] occurs in s before i. */
  lemma KeptPrefix(s: string, i: nat) returns (offs: seq<nat>)
    requires i <= |s|
    ensures OrderedIn(s, 0, i, Kept(s[..i]), offs)
    ensures Covers(s, 0, i, Kept(s[..i]), offs)
  {
    offs := KeptAt(s, 0, i);
    assert s[0..i] == s[..i];
  }

  /** The kept lines of the suffix s[a..] occur in s from a on, in order. */
  lemma LinesSuffix(s: string, a: nat) returns (offs: seq<nat>)
    requires a <= |s|
    ensures OrderedIn(s, a, |s|, KeepStripped(SplitOn(s[a..], '\n')), offs)
    ensures Covers(s, a, |s|, KeepStripped(SplitOn(s[a..], '\n')), offs)
    decreases |s| - a, 3
  {
    offs := LinesAt(s, a, |s|);
    assert s[a..|s|] == s[a..];
  }

  /** The kept lines of a piece occur in it in order. */
  lemma {:induction false} LinesOrdered(s: string) returns (offs: seq<nat>)
    ensures OrderedIn(s, 0, |s|, KeepStripped(SplitOn(s, '\n')), offs)
    ensures Covers(s, 0, |s|, KeepStripped(SplitOn(s, '\n')), offs)
    decreases |s|, 1
  {
    var i := IndexOf(s, '\n');
    if i == |s| {
      KeepLast(s);
      offs := KeptOrdered(s);
    } else {
      var first, later := Kept(s[..i]), KeepStripped(SplitOn(s[i + 1..], '\n'));
      assert KeepStripped(SplitOn(s, '\n')) == first + later by {
        KeepStep(s, i);
      }
      var o0 := KeptPrefix(s, i);
      var o1 := LinesSuffix(s, i + 1);
      OrderedAppend(s, 0, i, i + 1, |s|, first, o0, later, o1);
      LineFeedIsWhitespace();
      CoversAppend(s, 0, i, i + 1, |s|, first, o0, later, o1);
      offs := o0 + o1;
    }
  }

  /** The kept lines of the piece at the head of an ordered run occur there. */
  lemma HeadLinesAt(s: string, lo: nat, hi: nat, pieces: seq<string>, poffs: seq<nat>) returns (offs: seq<nat>)
    requires OrderedIn(s, lo, hi, pieces, poffs) && pieces != []
    ensures OrderedIn(s, poffs[0], poffs[0] + |pieces[0]|, KeepStripped(SplitOn(pieces[0], '\n')), offs)
    ensures Covers(s, poffs[0], poffs[0] + |pieces[0]|, KeepStripped(SplitOn(pieces[0], '\n')), offs)
  {
    offs := LinesAt(s, poffs[0], poffs[0] + |pieces[0]|);
  }

  lemma {:induction false} SentencesOfOrdered(s: string, lo: nat, hi: nat, pieces: seq<string>, poffs: seq<nat>)
    returns (offs: seq<nat>)
    requires OrderedIn(s, lo, hi, pieces, poffs) && Covers(s, lo, hi, pieces, poffs)
    ensures OrderedIn(s, lo, hi, SentencesOf(pieces), offs)
    ensures Covers(s, lo, hi, SentencesOf(pieces), offs)
    decreases |pieces|
  {
    if pieces == [] {
      offs := [];
    } else {
      var b := poffs[0] + |pieces[0]|;
      var lines := KeepStripped(SplitOn(pieces[0], '\n'));
      var o0 := HeadLinesAt(s, lo, hi, pieces, poffs);
      OrderedTail(s, lo, hi, pieces, poffs);
      CoversHeadTail(s, lo, hi, pieces, poffs);
      var o1 := SentencesOfOrdered(s, b, hi, pieces[1..], poffs[1..]);
      OrderedWiden(s, poffs[0], b, lo, b, lines, o0);
      OrderedAppend(s, lo, b, b, hi, lines, o0, SentencesOf(pieces[1..]), o1);
      CoversWidenLow(s, poffs[0], b, lo, lines, o0);
      CoversAppend(s, lo, b, b, hi, lines, o0, SentencesOf(pieces[1..]), o1);
      offs := o0 + o1;
    }
  }

  /** The sentences are the non-whitespace content of the text: placed at the offsets offs, each
      sentence is the slice of the text there, they follow one another without overlap, and
      every non-whitespace character of the text lies inside one of them. */
  lemma SentencesInOrder(text: string) returns (offs: seq<nat>)
    ensures OrderedIn(text, 0, |text|, Sentences(text), offs)
    ensures Covers(text, 0, |text|, Sentences(text), offs)
  {
    var poffs := PiecesOrdered(text, 0);
    offs := SentencesOfOrdered(text, 0, |text|, SplitAtBreaks(text), poffs);
  }

  // A repeated sentence is kept twice: "a. a." gives ["a.", "a."].

  /** Where the breaks of "a. a." are: one after the first full stop, none after. */
  lemma RepeatedBreaks()
    ensures FirstBreak("a. a.", 0) == 2 && RunEnd("a. a.", 2) == 3 && FirstBreak("a. a.", 3) == 5
  {
    var s := "a. a.";
    AsciiNotPyWhitespace('a');
    AsciiNotPyWhitespace('.');
    assert IsPyWhitespace(' ');
    assert !IsBreakAt(s, 0) && !IsBreakAt(s, 1) && IsBreakAt(s, 2);
    assert !IsBreakAt(s, 3) && !IsBreakAt(s, 4);
  }

  /** "a. a." splits into two equal pieces. */
  lemma RepeatedPieces()
    ensures SplitAtBreaks("a. a.") == ["a.", "a."]
  {
    var s := "a. a.";
    RepeatedBreaks();
    assert SplitFrom(s, 3) == [s[3..]];
    assert s[0..2] == "a." && s[3..] == "a.";
  }

  /** A piece without line feeds or surrounding whitespace is one sentence. */
  lemma OneSentence(p: string)
    requires p != [] && '\n' !in p && IsTrimmed(p, IsPyWhitespace)
    ensures SentencesOf([p]) == [p]
  {
    SplitOnNone(p, '\n');
    TrimOfTrimmed(p, IsPyWhitespace);
    assert KeepStripped([p]) == [p];
  }

  /** The sentences of two pieces are those of the first followed by those of the second. */
  lemma SentencesOfPair(p: string, q: string)
    ensures SentencesOf([p, q]) == SentencesOf([p]) + SentencesOf([q])
  {
    assert [p, q][1..] == [q];
    assert [p][1..] == [];
  }

  /** A sentence that occurs twice in the text occurs twice in the result. */
  lemma SentencesRepeated()
    ensures Sentences("a. a.") == ["a.", "a."]
  {
    var x := "a.";
    RepeatedPieces();
    AsciiNotPyWhitespace('a');
    AsciiNotPyWhitespace('.');
    assert IsTrimmed(x, IsPyWhitespace) && '\n' !in x;
    OneSentence(x);
    SentencesOfPair(x, x);
  }
}
