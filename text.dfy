/**
 * String helpers shared by every part of the model.  Python strings are
 * sequences of characters; the regular expressions of the source are written
 * out here as scanners over those sequences.  Character classes are the ASCII
 * ones: `\s` is the six ASCII white-space characters, `\d` the ten ASCII digits,
 * `\w` ASCII letters, digits and underscore, and case folding is ASCII only.
 */
module Text {
  import opened Wrappers

  type String = seq<char>

  // ---------------------------------------------------------------------
  // Character classes
  // ---------------------------------------------------------------------

  /** The ASCII characters Python's `str.isspace` accepts (tab to carriage return, `\x1c` to `\x1f`, space). */
  predicate IsSpace(c: char) {
    c == ' ' || c == '\t' || c == '\n' || c == '\r' || c == '\U{B}' || c == '\U{C}' || '\U{1C}' <= c <= '\U{1F}'
  }

  predicate IsDigit(c: char) {
    '0' <= c <= '9'
  }

  predicate IsUpper(c: char) {
    'A' <= c <= 'Z'
  }

  predicate IsLower(c: char) {
    'a' <= c <= 'z'
  }

  /** A cased letter in the sense of `str.title`. */
  predicate IsLetter(c: char) {
    IsUpper(c) || IsLower(c)
  }

  /** The regular-expression class `\w`. */
  predicate IsWordChar(c: char) {
    IsLetter(c) || IsDigit(c) || c == '_'
  }

  function Lower(c: char): (r: char)
    ensures !IsUpper(r)
    ensures IsLetter(c) <==> IsLetter(r)
    ensures !IsUpper(c) ==> r == c
  {
    if IsUpper(c) then (c as int + 32) as char else c
  }

  function Upper(c: char): (r: char)
    ensures !IsLower(r)
    ensures IsLetter(c) <==> IsLetter(r)
    ensures !IsLower(c) ==> r == c
  {
    if IsLower(c) then (c as int - 32) as char else c
  }

  /** `str.lower` */
  function LowerStr(s: String): (r: String)
    ensures |r| == |s|
    ensures forall i :: 0 <= i < |s| ==> r[i] == Lower(s[i])
  {
    seq(|s|, i requires 0 <= i < |s| => Lower(s[i]))
  }

  // ---------------------------------------------------------------------
  // Predicates on strings
  // ---------------------------------------------------------------------

  predicate StartsWith(s: String, p: String) {
    |p| <= |s| && s[..|p|] == p
  }

  predicate EndsWith(s: String, p: String) {
    |p| <= |s| && s[|s| - |p|..] == p
  }

  /** A prefix of `y` is a prefix of anything `y` is extended to. */
  lemma PrefixOfExtension(x: String, y: String, z: String)
    requires x <= y
    ensures x <= y + z
  {
    assert (y + z)[..|x|] == y[..|x|];
  }

  /** A string that starts with `p` still does once extended. */
  lemma StartsWithExtension(s: String, p: String, z: String)
    requires StartsWith(s, p)
    ensures StartsWith(s + z, p)
  {
    assert (s + z)[..|p|] == s[..|p|];
  }

  /** An occurrence of `pat` starts at position `i` of `s`. */
  predicate OccursAt(s: String, pat: String, i: nat) {
    i + |pat| <= |s| && s[i..i + |pat|] == pat
  }

  /** `p in s` for strings: `p` occurs at some position of `s`. */
  predicate Contains(s: String, p: String) {
    exists i: nat | i <= |s| :: OccursAt(s, p, i)
  }

  /** A pattern absent from a text is absent from every slice of it. */
  lemma SliceKeepsAbsent(s: String, p: String, a: nat, b: nat)
    requires a <= b <= |s| && !Contains(s, p)
    ensures !Contains(s[a..b], p)
  {
    var r := s[a..b];
    forall i: nat | i <= |r|
      ensures !OccursAt(r, p, i)
    {
      if i + |p| <= |r| {
        var x, y := r[i..i + |p|], s[a + i..a + i + |p|];
        forall k | 0 <= k < |p| ensures x[k] == y[k] {
          assert r[i + k] == s[a + i + k];
        }
        assert x == y;
        assert !OccursAt(s, p, a + i);
      }
    }
  }

  /** No two consecutive white-space characters. */
  predicate NoDoubleSpace(s: String) {
    forall i :: 0 <= i < |s| - 1 ==> !(IsSpace(s[i]) && IsSpace(s[i + 1]))
  }

  /** Neither the first nor the last character is white space. */
  predicate Trimmed(s: String) {
    s == [] || (!IsSpace(s[0]) && !IsSpace(s[|s| - 1]))
  }

  /** Every white-space character is a plain space. */
  predicate OnlyPlainSpaces(s: String) {
    forall i :: 0 <= i < |s| && IsSpace(s[i]) ==> s[i] == ' '
  }

  predicate AllSpace(s: String) {
    forall i :: 0 <= i < |s| ==> IsSpace(s[i])
  }

  function CountDigits(s: String): (n: nat)
    ensures n <= |s|
  {
    if s == [] then 0 else (if IsDigit(s[0]) then 1 else 0) + CountDigits(s[1..])
  }

  // ---------------------------------------------------------------------
  // strip
  // ---------------------------------------------------------------------

  /** `str.lstrip()`: the suffix left after the leading white space. */
  function StripLeft(s: String): (r: String)
    ensures |r| <= |s| && r == s[|s| - |r|..]
    ensures r != [] ==> !IsSpace(r[0])
    ensures forall i :: 0 <= i < |s| - |r| ==> IsSpace(s[i])
  {
    if s != [] && IsSpace(s[0]) then StripLeft(s[1..]) else s
  }

  /** `str.rstrip()`: the prefix left before the trailing white space. */
  function StripRight(s: String): (r: String)
    ensures |r| <= |s| && r == s[..|r|]
    ensures r != [] ==> !IsSpace(r[|r| - 1])
    ensures forall i :: |r| <= i < |s| ==> IsSpace(s[i])
  {
    if s != [] && IsSpace(s[|s| - 1]) then StripRight(s[..|s| - 1]) else s
  }

  /** `str.strip()` */
  function Strip(s: String): (r: String)
    ensures Trimmed(r)
    ensures |r| <= |s|
  {
    StripRight(StripLeft(s))
  }

  /** Where the stripped text starts in the original one. */
  function StripStart(s: String): nat {
    |s| - |StripLeft(s)|
  }

  /** The stripped string is a slice of the original one. */
  lemma StripIsSlice(s: String)
    ensures StripStart(s) + |Strip(s)| <= |s|
    ensures Strip(s) == s[StripStart(s)..StripStart(s) + |Strip(s)|]
  {
    var l := StripLeft(s);
    assert Strip(s) == l[..|Strip(s)|];
  }

  lemma SliceKeepsNoDoubleSpace(s: String, a: nat, b: nat)
    requires a <= b <= |s| && NoDoubleSpace(s)
    ensures NoDoubleSpace(s[a..b])
  {
    var r := s[a..b];
    forall i | 0 <= i < |r| - 1
      ensures !(IsSpace(r[i]) && IsSpace(r[i + 1]))
    {
      assert r[i] == s[a + i] && r[i + 1] == s[a + i + 1];
    }
  }

  lemma StripKeepsNoDoubleSpace(s: String)
    requires NoDoubleSpace(s)
    ensures NoDoubleSpace(Strip(s))
  {
    StripIsSlice(s);
    SliceKeepsNoDoubleSpace(s, StripStart(s), StripStart(s) + |Strip(s)|);
  }

  lemma StripKeepsAbsent(s: String, c: char)
    requires c !in s
    ensures c !in Strip(s)
  {
    StripIsSlice(s);
  }

  lemma StripOfTrimmed(s: String)
    requires Trimmed(s)
    ensures Strip(s) == s
  {
  }

  /** A string strips to nothing exactly when it is all white space. */
  lemma {:induction false} StripEmptyIffAllSpace(s: String)
    ensures Strip(s) == [] <==> AllSpace(s)
  {
  }

  // ---------------------------------------------------------------------
  // White-space runs
  // ---------------------------------------------------------------------

  /** Length of the white-space run that starts the string. */
  function SpaceRunLen(s: String): (n: nat)
    ensures n <= |s|
    ensures forall i :: 0 <= i < n ==> IsSpace(s[i])
    ensures n < |s| ==> !IsSpace(s[n])
  {
    if s != [] && IsSpace(s[0]) then 1 + SpaceRunLen(s[1..]) else 0
  }

  /** The white-space run is exactly `n` long when `n` spaces are followed by the end or a non-space. */
  lemma {:induction false} SpaceRunLenIs(s: String, n: nat)
    requires n <= |s| && forall i :: 0 <= i < n ==> IsSpace(s[i])
    requires n < |s| ==> !IsSpace(s[n])
    ensures SpaceRunLen(s) == n
    decreases n
  {
    if n > 0 {
      assert forall i :: 0 <= i < n - 1 ==> s[1..][i] == s[i + 1];
      SpaceRunLenIs(s[1..], n - 1);
    }
  }

  /** Length of the non-white-space run that starts the string. */
  function WordLen(s: String): (n: nat)
    ensures n <= |s|
    ensures forall i :: 0 <= i < n ==> !IsSpace(s[i])
    ensures n < |s| ==> IsSpace(s[n])
    ensures s != [] && !IsSpace(s[0]) ==> 1 <= n
  {
    if s != [] && !IsSpace(s[0]) then 1 + WordLen(s[1..]) else 0
  }

  /**
   * The substitutions of the source that act on whole white-space runs.
   * `AllToSpace` is `re.sub(r"\s+", " ", s)`;
   * `NewlineRunToSpace` is `re.sub(r"\s*\n\s*", " ", s)`;
   * `LongRunToSpace` is `re.sub(r"\s{2,}", " ", s)`;
   * `JoinHyphenated` is `re.sub(r"-\s*\n\s*", "-", s)`, which deletes a run
   * holding a newline when a hyphen stands right before it.
   */
  datatype RunRule = AllToSpace | NewlineRunToSpace | LongRunToSpace | JoinHyphenated

  function RunImage(rule: RunRule, afterHyphen: bool, w: String): String
  {
    match rule
    case AllToSpace => " "
    case NewlineRunToSpace => if '\n' in w then " " else w
    case LongRunToSpace => if |w| >= 2 then " " else w
    case JoinHyphenated => if afterHyphen && '\n' in w then [] else w
  }

  /**
   * Rewrite every maximal white-space run of `s` by `rule`;
   * `afterHyphen` tells whether the character before `s` was a hyphen.
   */
  function RewriteRuns(rule: RunRule, s: String, afterHyphen: bool): String
    decreases |s|
  {
    if s == [] then []
    else if IsSpace(s[0]) then
      var n := SpaceRunLen(s);
      RunImage(rule, afterHyphen, s[..n]) + RewriteRuns(rule, s[n..], false)
    else [s[0]] + RewriteRuns(rule, s[1..], s[0] == '-')
  }

  /** `re.sub(r"\s+", " ", s)` */
  function CollapseSpaces(s: String): String {
    RewriteRuns(AllToSpace, s, false)
  }

  /** Rewriting runs adds no character but a space. */
  lemma {:induction false} RewriteRunsChars(rule: RunRule, s: String, h: bool, c: char)
    requires c in RewriteRuns(rule, s, h)
    ensures c in s || c == ' '
    decreases |s|
  {
    if s != [] {
      if IsSpace(s[0]) {
        var n := SpaceRunLen(s);
        if c in RunImage(rule, h, s[..n]) {
          assert c in s[..n] || c == ' ';
        } else {
          RewriteRunsChars(rule, s[n..], false, c);
        }
      } else if c != s[0] {
        RewriteRunsChars(rule, s[1..], s[0] == '-', c);
      }
    }
  }

  /** After turning newline-holding runs into spaces no newline is left. */
  lemma {:induction false} NewlineRunsRemoved(s: String, h: bool)
    ensures '\n' !in RewriteRuns(NewlineRunToSpace, s, h)
    decreases |s|
  {
    if s != [] {
      if IsSpace(s[0]) {
        NewlineRunsRemoved(s[SpaceRunLen(s)..], false);
      } else {
        NewlineRunsRemoved(s[1..], s[0] == '-');
      }
    }
  }

  /**
   * Rules that leave every run at most one character long leave no two
   * white-space characters side by side, and do not change whether the text
   * starts with white space.
   */
  lemma {:induction false} ShortRunsNoDoubleSpace(rule: RunRule, s: String, h: bool)
    requires rule == AllToSpace || rule == LongRunToSpace
    ensures NoDoubleSpace(RewriteRuns(rule, s, h))
    ensures RewriteRuns(rule, s, h) != [] <==> s != []
    ensures s != [] ==> (IsSpace(RewriteRuns(rule, s, h)[0]) <==> IsSpace(s[0]))
    decreases |s|
  {
    if s != [] {
      var r := RewriteRuns(rule, s, h);
      if IsSpace(s[0]) {
        var n := SpaceRunLen(s);
        var img := RunImage(rule, h, s[..n]);
        var rest := RewriteRuns(rule, s[n..], false);
        ShortRunsNoDoubleSpace(rule, s[n..], false);
        assert |img| == 1 && IsSpace(img[0]);
        assert r == img + rest;
        assert rest != [] ==> !IsSpace(rest[0]);
        forall i | 0 <= i < |r| - 1
          ensures !(IsSpace(r[i]) && IsSpace(r[i + 1]))
        {
          if i > 0 {
            assert r[i] == rest[i - 1] && r[i + 1] == rest[i];
          }
        }
      } else {
        var rest := RewriteRuns(rule, s[1..], s[0] == '-');
        ShortRunsNoDoubleSpace(rule, s[1..], s[0] == '-');
        assert r == [s[0]] + rest;
        forall i | 0 <= i < |r| - 1
          ensures !(IsSpace(r[i]) && IsSpace(r[i + 1]))
        {
          if i > 0 {
            assert r[i] == rest[i - 1] && r[i + 1] == rest[i];
          }
        }
      }
    }
  }

  /** `re.sub(r"\s+", " ", s)` leaves only plain spaces as white space. */
  lemma {:induction false} CollapsedPlainSpaces(s: String, h: bool)
    ensures OnlyPlainSpaces(RewriteRuns(AllToSpace, s, h))
    decreases |s|
  {
    if s != [] {
      var r := RewriteRuns(AllToSpace, s, h);
      if IsSpace(s[0]) {
        var n := SpaceRunLen(s);
        CollapsedPlainSpaces(s[n..], false);
        assert r == " " + RewriteRuns(AllToSpace, s[n..], false);
      } else {
        CollapsedPlainSpaces(s[1..], s[0] == '-');
        assert r == [s[0]] + RewriteRuns(AllToSpace, s[1..], s[0] == '-');
      }
    }
  }

  /** Text collapsed and stripped: no newline, no double white space, no white space at either end. */
  predicate Tidy(s: String) {
    '\n' !in s && NoDoubleSpace(s) && Trimmed(s)
  }

  /** `re.sub(r"\s+", " ", s).strip()` is tidy. */
  lemma CollapseStripTidy(s: String)
    ensures Tidy(Strip(CollapseSpaces(s)))
  {
    var c := CollapseSpaces(s);
    ShortRunsNoDoubleSpace(AllToSpace, s, false);
    CollapsedPlainSpaces(s, false);
    StripKeepsNoDoubleSpace(c);
    PlainSpacesNoNewline(c);
    StripKeepsAbsent(c, '\n');
  }

  lemma PlainSpacesNoNewline(s: String)
    requires OnlyPlainSpaces(s)
    ensures '\n' !in s
  {
    forall i | 0 <= i < |s|
      ensures s[i] != '\n'
    {
      if s[i] == '\n' {
        assert IsSpace(s[i]);
      }
    }
  }

  // ---------------------------------------------------------------------
  // split / join
  // ---------------------------------------------------------------------

  /** A non-empty run of non-white-space characters. */
  predicate IsWord(w: String) {
    w != [] && forall j :: 0 <= j < |w| ==> !IsSpace(w[j])
  }

  /** `str.split()` with no separator: the maximal non-white-space runs. */
  function Words(s: String): (ws: seq<String>)
    ensures forall i :: 0 <= i < |ws| ==> IsWord(ws[i])
    decreases |s|
  {
    var t := StripLeft(s);
    if t == [] then []
    else
      FirstWord(s);
      var n := WordLen(t);
      var rest := Words(t[n..]);
      ConsWords(t[..n], rest);
      [t[..n]] + rest
  }

  lemma ConsWords(w: String, rest: seq<String>)
    requires IsWord(w) && forall i :: 0 <= i < |rest| ==> IsWord(rest[i])
    ensures forall i :: 0 <= i < |[w] + rest| ==> IsWord(([w] + rest)[i])
  {
  }

  /** The first word of a text that is not blank, and what is left after it. */
  lemma FirstWord(s: String)
    requires StripLeft(s) != []
    ensures var t := StripLeft(s); var n := WordLen(t);
            1 <= n && IsWord(t[..n]) && |t[n..]| < |s|
  {
  }

  /** `sep.join(parts)` */
  function Join(sep: String, parts: seq<String>): String
  {
    if parts == [] then []
    else if |parts| == 1 then parts[0]
    else parts[0] + sep + Join(sep, parts[1..])
  }

  /** `s.split(c)` for a one-character separator: never empty, keeps empty pieces. */
  function SplitOn(s: String, c: char): (parts: seq<String>)
    ensures |parts| >= 1
    ensures forall i :: 0 <= i < |parts| ==> c !in parts[i]
  {
    if s == [] then [[]]
    else
      var rest := SplitOn(s[1..], c);
      if s[0] == c then [[]] + rest
      else [[s[0]] + rest[0]] + rest[1..]
  }

  /** Splitting on a character and joining with it gives the string back. */
  lemma {:induction false} JoinSplitOn(s: String, c: char)
    ensures Join([c], SplitOn(s, c)) == s
  {
    if s != [] {
      var rest := SplitOn(s[1..], c);
      JoinSplitOn(s[1..], c);
      if s[0] == c {
        assert Join([c], [[]] + rest) == [] + [c] + Join([c], rest);
      } else {
        if |rest| == 1 {
          assert Join([c], SplitOn(s, c)) == [s[0]] + rest[0];
        } else {
          assert rest == [rest[0]] + rest[1..];
          assert Join([c], rest) == rest[0] + [c] + Join([c], rest[1..]);
        }
      }
    }
  }

  /** Splitting on a character the text does not hold gives the text back whole. */
  lemma {:induction false} SplitOnAbsent(s: String, c: char)
    requires c !in s
    ensures SplitOn(s, c) == [s]
  {
    if s != [] {
      SplitOnAbsent(s[1..], c);
      assert [s[0]] + s[1..] == s;
    }
  }

  /** Every string stripped (`[l.strip() for l in lines]`). */
  function StripAll(lines: seq<String>): (r: seq<String>)
    ensures |r| == |lines| && forall i :: 0 <= i < |lines| ==> r[i] == Strip(lines[i])
  {
    seq(|lines|, i requires 0 <= i < |lines| => Strip(lines[i]))
  }

  /** The non-empty strings, in order. */
  function NonEmpty(ss: seq<String>): (r: seq<String>)
    ensures forall l :: l in r ==> l != []
  {
    if ss == [] then []
    else
      var last := ss[|ss| - 1];
      NonEmpty(ss[..|ss| - 1]) + (if last != [] then [last] else [])
  }

  /** Filtering keeps exactly the non-empty members. */
  lemma {:induction false} NonEmptyMembers(ss: seq<String>, l: String)
    ensures l in NonEmpty(ss) <==> l != [] && l in ss
  {
    if ss != [] {
      var init := ss[..|ss| - 1];
      NonEmptyMembers(init, l);
      assert ss == init + [ss[|ss| - 1]];
    }
  }

  /** The stripped non-blank lines, in order (`[l.strip() for l in lines if l.strip()]`). */
  function NonBlankLines(lines: seq<String>): (r: seq<String>)
    ensures forall l :: l in r ==> l != []
  {
    NonEmpty(StripAll(lines))
  }

  /** A stripped line is kept exactly when some line strips to it. */
  lemma NonBlankLinesMembers(lines: seq<String>, l: String)
    ensures l in NonBlankLines(lines) <==> l != [] && exists i :: 0 <= i < |lines| && Strip(lines[i]) == l
  {
    var stripped := StripAll(lines);
    NonEmptyMembers(stripped, l);
    if l in stripped {
      var i :| 0 <= i < |stripped| && stripped[i] == l;
      assert Strip(lines[i]) == l;
    }
    if exists i :: 0 <= i < |lines| && Strip(lines[i]) == l {
      var i :| 0 <= i < |lines| && Strip(lines[i]) == l;
      assert stripped[i] == l;
    }
  }

  /** One more line through the filter: it is kept, stripped, unless it strips to nothing. */
  lemma NonBlankLinesStep(lines: seq<String>, i: nat)
    requires i < |lines|
    ensures NonBlankLines(lines[..i + 1]) ==
              NonBlankLines(lines[..i]) + (if Strip(lines[i]) != [] then [Strip(lines[i])] else [])
  {
    var before, after := StripAll(lines[..i]), StripAll(lines[..i + 1]);
    var last := Strip(lines[i]);
    assert after[i] == last;
    assert after[..i] == before by {
      forall k | 0 <= k < i ensures after[k] == before[k] {
        assert lines[..i + 1][k] == lines[..i][k];
      }
    }
    assert NonBlankLines(lines[..i + 1]) == NonEmpty(after[..i]) + (if last != [] then [last] else []);
  }

  /** `" ".join(s.split())`: white space normalised to single spaces. */
  function NormalizeSpaces(s: String): String {
    Join(" ", Words(s))
  }

  /** Joining space-free non-empty words by single spaces gives a tidy string. */
  lemma {:induction false} JoinWordsTidy(ws: seq<String>)
    requires forall i :: 0 <= i < |ws| ==> IsWord(ws[i])
    ensures Tidy(Join(" ", ws)) && OnlyPlainSpaces(Join(" ", ws))
    ensures ws != [] ==> Join(" ", ws) != [] && Join(" ", ws)[0] == ws[0][0]
  {
    if |ws| > 1 {
      JoinWordsTidy(ws[1..]);
      var r := Join(" ", ws[1..]);
      var w := ws[0];
      var j := w + " " + r;
      assert Join(" ", ws) == j;
      forall i | 0 <= i < |j| - 1
        ensures !(IsSpace(j[i]) && IsSpace(j[i + 1]))
      {
        if i < |w| - 1 {
          assert j[i] == w[i];
        } else if i == |w| - 1 {
          assert j[i] == w[i];
        } else if i == |w| {
          assert j[i + 1] == r[0];
        } else {
          assert j[i] == r[i - |w| - 1] && j[i + 1] == r[i - |w|];
        }
      }
      forall i | 0 <= i < |j| && IsSpace(j[i])
        ensures j[i] == ' '
      {
        if i > |w| {
          assert j[i] == r[i - |w| - 1];
        }
      }
      assert j[|j| - 1] == r[|r| - 1];
      PlainSpacesNoNewline(j);
    } else if |ws| == 1 {
      PlainSpacesNoNewline(ws[0]);
    }
  }

  /** `" ".join(s.split())` is tidy and uses plain spaces only. */
  lemma NormalizeSpacesTidy(s: String)
    ensures Tidy(NormalizeSpaces(s)) && OnlyPlainSpaces(NormalizeSpaces(s))
  {
    JoinWordsTidy(Words(s));
  }

  lemma SeqAssoc<T>(a: seq<T>, b: seq<T>, c: seq<T>)
    ensures a + (b + c) == (a + b) + c
  {
  }

  lemma HeadTail<T>(s: seq<T>)
    requires s != []
    ensures s == [s[0]] + s[1..]
  {
  }

  /** Splitting words joined by single spaces gives the words back. */
  lemma {:induction false} WordsOfJoin(ws: seq<String>)
    requires forall i :: 0 <= i < |ws| ==> IsWord(ws[i])
    ensures Words(Join(" ", ws)) == ws
  {
    if |ws| == 1 {
      WordsOfWord(ws[0]);
    } else if |ws| > 1 {
      var rest := ws[1..];
      var r := Join(" ", rest);
      assert Join(" ", ws) == ws[0] + " " + r;
      JoinWordsTidy(rest);
      assert r != [] && r[0] == rest[0][0] == ws[1][0];
      assert IsWord(ws[1]);
      WordsOfWordThen(ws[0], r);
      WordsOfJoin(rest);
      HeadTail(ws);
    }
  }

  lemma WordsOfWord(w: String)
    requires IsWord(w)
    ensures Words(w) == [w]
  {
    assert StripLeft(w) == w;
    WordLenOfWord(w);
    assert w[..WordLen(w)] == w;
    assert w[|w|..] == [];
  }

  lemma WordsOfWordThen(w: String, r: String)
    requires IsWord(w) && r != [] && !IsSpace(r[0])
    ensures Words(w + " " + r) == [w] + Words(r)
  {
    var j := w + (" " + r);
    assert w + " " + r == j;
    assert StripLeft(j) == j;
    WordLenPrefix(w, " " + r);
    assert j[..|w|] == w;
    assert j[|w|..] == " " + r;
    WordsSkipSpace(r);
  }

  lemma WordsSkipSpace(r: String)
    requires r != [] && !IsSpace(r[0])
    ensures Words(" " + r) == Words(r)
  {
    assert (" " + r)[1..] == r;
    assert StripLeft(" " + r) == StripLeft(r) == r;
  }

  lemma {:induction false} WordLenOfWord(w: String)
    requires forall j :: 0 <= j < |w| ==> !IsSpace(w[j])
    ensures WordLen(w) == |w|
  {
    if w != [] {
      WordLenOfWord(w[1..]);
    }
  }

  lemma {:induction false} WordLenPrefix(w: String, rest: String)
    requires forall j :: 0 <= j < |w| ==> !IsSpace(w[j])
    requires rest != [] && IsSpace(rest[0])
    ensures WordLen(w + rest) == |w|
  {
    if w != [] {
      assert (w + rest)[1..] == w[1..] + rest;
      WordLenPrefix(w[1..], rest);
    } else {
      assert w + rest == rest;
    }
  }

  /** Normalising white space twice changes nothing more. */
  lemma NormalizeSpacesIdempotent(s: String)
    ensures NormalizeSpaces(NormalizeSpaces(s)) == NormalizeSpaces(s)
  {
    WordsOfJoin(Words(s));
  }

  /** A text with no word is blank, and a blank text has no word. */
  lemma {:induction false} WordsEmptyIffBlank(s: String)
    ensures Words(s) == [] <==> AllSpace(s)
  {
  }

  // ---------------------------------------------------------------------
  // replace
  // ---------------------------------------------------------------------

  /** `s.replace(pat, rep)`: left to right, non-overlapping. */
  function ReplaceAll(s: String, pat: String, rep: String): String
    requires pat != []
    decreases |s|
  {
    if |s| < |pat| then s
    else if s[..|pat|] == pat then rep + ReplaceAll(s[|pat|..], pat, rep)
    else [s[0]] + ReplaceAll(s[1..], pat, rep)
  }

  /** A one-character pattern absent from the replacement is absent from the result. */
  lemma {:induction false} ReplaceRemovesChar(s: String, x: char, rep: String)
    requires x !in rep
    ensures x !in ReplaceAll(s, [x], rep)
    decreases |s|
  {
    if |s| >= 1 {
      ReplaceRemovesChar(s[1..], x, rep);
      if s[..1] != [x] {
        assert s[0] != x;
      }
    }
  }

  /** Replacement adds no character that is in neither the text nor the replacement. */
  lemma {:induction false} ReplaceChars(s: String, pat: String, rep: String, c: char)
    requires pat != []
    requires c in ReplaceAll(s, pat, rep)
    ensures c in s || c in rep
    decreases |s|
  {
    if |s| >= |pat| {
      if s[..|pat|] == pat {
        if c !in rep {
          ReplaceChars(s[|pat|..], pat, rep, c);
        }
      } else if c != s[0] {
        ReplaceChars(s[1..], pat, rep, c);
      }
    }
  }

  /** Replacing a one-character pattern distributes over concatenation. */
  lemma {:induction false} ReplaceCharAppend(a: String, b: String, x: char, rep: String)
    ensures ReplaceAll(a + b, [x], rep) == ReplaceAll(a, [x], rep) + ReplaceAll(b, [x], rep)
    decreases |a|
  {
    if a != [] {
      assert (a + b)[1..] == a[1..] + b;
      ReplaceCharAppend(a[1..], b, x, rep);
      assert (a + b)[..1] == a[..1];
    } else {
      assert a + b == b;
    }
  }

  lemma OccursAtTail(s: String, pat: String, i: nat)
    requires s != []
    ensures OccursAt(s[1..], pat, i) <==> OccursAt(s, pat, i + 1)
  {
    if i + |pat| <= |s[1..]| {
      assert s[1..][i..i + |pat|] == s[i + 1..i + 1 + |pat|];
    }
  }

  lemma NoOccurrenceInTail(a: String, b: String, pat: String)
    requires a != []
    requires forall i :: 0 <= i < |a| ==> !OccursAt(a + b, pat, i)
    ensures forall i :: 0 <= i < |a| - 1 ==> !OccursAt(a[1..] + b, pat, i)
  {
    var ab := a + b;
    assert ab[1..] == a[1..] + b;
    forall i | 0 <= i < |a| - 1
      ensures !OccursAt(a[1..] + b, pat, i)
    {
      assert !OccursAt(ab, pat, i + 1);
      OccursAtTail(ab, pat, i);
    }
  }

  /** When no occurrence starts inside `a`, replacement leaves `a` alone. */
  lemma {:induction false} ReplaceSkipsPrefix(a: String, b: String, pat: String, rep: String)
    requires pat != []
    requires forall i :: 0 <= i < |a| ==> !OccursAt(a + b, pat, i)
    ensures ReplaceAll(a + b, pat, rep) == a + ReplaceAll(b, pat, rep)
    decreases |a|
  {
    if a != [] {
      var ab := a + b;
      assert !OccursAt(ab, pat, 0);
      assert ab[1..] == a[1..] + b;
      NoOccurrenceInTail(a, b, pat);
      ReplaceSkipsPrefix(a[1..], b, pat, rep);
      if |ab| >= |pat| {
        assert ab[..|pat|] == ab[0..0 + |pat|];
      }
      assert ReplaceAll(ab, pat, rep) == [a[0]] + ReplaceAll(a[1..] + b, pat, rep);
    } else {
      assert a + b == b;
    }
  }

  lemma ReplaceWhole(pat: String, rep: String)
    requires pat != []
    ensures ReplaceAll(pat, pat, rep) == rep
  {
    assert pat[|pat|..] == [];
  }

  lemma ReplaceAtFront(pat: String, b: String, rep: String)
    requires pat != []
    ensures ReplaceAll(pat + b, pat, rep) == rep + ReplaceAll(b, pat, rep)
  {
    var s := pat + b;
    assert s[..|pat|] == pat;
    assert s[|pat|..] == b;
  }

  /**
   * No occurrence of `pat` starts inside `root` when `root` has none of its
   * own and the first character of `tail` is not a later character of `pat`.
   */
  lemma NoOccurrenceBefore(root: String, tail: String, pat: String)
    requires pat != [] && tail != []
    requires tail[0] !in pat[1..]
    requires !Contains(root, pat)
    ensures forall i :: 0 <= i < |root| ==> !OccursAt(root + tail, pat, i)
  {
    var t := root + tail;
    forall i | 0 <= i < |root|
      ensures !OccursAt(t, pat, i)
    {
      if i + |pat| <= |root| {
        assert !OccursAt(root, pat, i);
        assert t[i..i + |pat|] == root[i..i + |pat|];
      } else if i + |pat| <= |t| {
        var k := |root| - i;
        assert t[i..i + |pat|][k] == t[|root|] == tail[0];
        assert pat[1..][k - 1] == pat[k];
      }
    }
  }

  // ---------------------------------------------------------------------
  // Runs, positions and lines
  // ---------------------------------------------------------------------

  /** Length of the run of digits that starts the string. */
  function DigitRunLen(s: String): (n: nat)
    ensures n <= |s|
    ensures forall i :: 0 <= i < n ==> IsDigit(s[i])
    ensures n < |s| ==> !IsDigit(s[n])
  {
    if s != [] && IsDigit(s[0]) then 1 + DigitRunLen(s[1..]) else 0
  }

  /** Length of the run of `c` that starts the string. */
  function RunOf(s: String, c: char): (n: nat)
    ensures n <= |s|
    ensures forall i :: 0 <= i < n ==> s[i] == c
    ensures n < |s| ==> s[n] != c
  {
    if s != [] && s[0] == c then 1 + RunOf(s[1..], c) else 0
  }

  /** The position of the last `c` in `s`, if any (`str.rfind`). */
  function LastIndexOf(s: String, c: char): (r: Option<nat>)
    ensures r.Some? ==> r.value < |s| && s[r.value] == c
    ensures r.Some? ==> forall i :: r.value < i < |s| ==> s[i] != c
    ensures r.None? ==> c !in s
  {
    if s == [] then None
    else if s[|s| - 1] == c then Some(|s| - 1)
    else
      var r := LastIndexOf(s[..|s| - 1], c);
      assert s == s[..|s| - 1] + [s[|s| - 1]];
      r
  }

  /** The position of the first `c` in `s`, if any (`str.find`). */
  function FirstIndexOf(s: String, c: char): (r: Option<nat>)
    ensures r.Some? ==> r.value < |s| && s[r.value] == c
    ensures r.Some? ==> forall i :: 0 <= i < r.value ==> s[i] != c
    ensures r.None? ==> c !in s
  {
    if s == [] then None
    else if s[0] == c then Some(0)
    else
      var r := FirstIndexOf(s[1..], c);
      assert s == [s[0]] + s[1..];
      if r.Some? then Some(r.value + 1) else None
  }

  /** The line boundaries of `str.splitlines`. */
  predicate IsLineBreak(c: char) {
    c == '\n' || c == '\r' || c == '\U{B}' || c == '\U{C}' || c == '\U{1C}' || c == '\U{1D}'
    || c == '\U{1E}' || c == '\U{85}' || c == '\U{2028}' || c == '\U{2029}'
  }

  /** Length of the text before the first line boundary. */
  function LineLen(s: String): (n: nat)
    ensures n <= |s|
    ensures forall i :: 0 <= i < n ==> !IsLineBreak(s[i])
    ensures n < |s| ==> IsLineBreak(s[n])
  {
    if s != [] && !IsLineBreak(s[0]) then 1 + LineLen(s[1..]) else 0
  }

  /**
   * `str.splitlines()`: the lines without their boundaries, `\r\n` counting
   * as one boundary and no empty line after a final boundary.
   */
  function SplitLines(s: String): (lines: seq<String>)
    ensures forall i, j :: 0 <= i < |lines| && 0 <= j < |lines[i]| ==> !IsLineBreak(lines[i][j])
    ensures s == [] <==> lines == []
    decreases |s|
  {
    if s == [] then []
    else
      var n := LineLen(s);
      if n == |s| then [s]
      else
        var b := if s[n] == '\r' && n + 1 < |s| && s[n + 1] == '\n' then 2 else 1;
        [s[..n]] + SplitLines(s[n + b..])
  }

  // ---------------------------------------------------------------------
  // Numbers as text
  // ---------------------------------------------------------------------

  function DigitChar(d: nat): (c: char)
    requires d < 10
    ensures IsDigit(c)
  {
    ('0' as int + d) as char
  }

  /** `str(n)` for a natural number. */
  function NatToString(n: nat): (s: String)
    ensures s != []
    ensures forall i :: 0 <= i < |s| ==> IsDigit(s[i])
    ensures (n < 10) <==> |s| == 1
  {
    if n < 10 then [DigitChar(n)] else NatToString(n / 10) + [DigitChar(n % 10)]
  }

  /** Distinct numbers are written differently. */
  lemma {:induction false} NatToStringInjective(m: nat, n: nat)
    requires NatToString(m) == NatToString(n)
    ensures m == n
  {
    var s := NatToString(m);
    if m >= 10 && n >= 10 {
      assert s[..|s| - 1] == NatToString(m / 10);
      assert s[..|s| - 1] == NatToString(n / 10);
      NatToStringInjective(m / 10, n / 10);
      assert s[|s| - 1] == DigitChar(m % 10) == DigitChar(n % 10);
    }
  }

  /** `str(i)` for an integer. */
  function IntToString(i: int): (s: String)
    ensures s != []
  {
    if i < 0 then "-" + NatToString(-i) else NatToString(i)
  }
}
