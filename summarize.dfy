/**
 * The text hygiene around the summarising model: token estimates and the
 * chunking threshold, cleaning of extracted PDF text, removal of running
 * headers and footers, detection of repeated sentences, post-processing of
 * the model's output, the name of a summary file, and the escaping of
 * paragraphs before they are laid out.
 */
module Summarize {
  import opened Wrappers
  import opened Text
  import opened Sorting
  import opened Tally

  // ---------------------------------------------------------- estimate_tokens

  /** `int(len(text.split()) * 1.3)`: the floor of 1.3 tokens per word. */
  function EstimateTokens(text: String): (n: nat)
    ensures 10 * n <= 13 * |Words(text)| < 10 * n + 10
  {
    (|Words(text)| * 13) / 10
  }

  /** Only a blank text is estimated at zero tokens. */
  lemma EstimateTokensZero(text: String)
    ensures EstimateTokens(text) == 0 <==> AllSpace(text)
  {
    WordsEmptyIffBlank(text);
  }

  // ----------------------------------------------------------- chunk_document

  /**
   * `chunk_document`: the content as a single chunk when its estimate is
   * within the limit, otherwise what the text splitter makes of it (`split`
   * stands for the recursive character splitter, which is not modelled).
   */
  function ChunkDocument(content: String, maxChunkTokens: int, split: String -> seq<String>): (chunks: seq<String>)
    ensures 13 * |Words(content)| < 10 * maxChunkTokens + 10 ==> chunks == [content]
    ensures 13 * |Words(content)| >= 10 * maxChunkTokens + 10 ==> chunks == split(content)
  {
    if EstimateTokens(content) <= maxChunkTokens then [content] else split(content)
  }

  /**
   * The main loop chunks only documents estimated above 32000 tokens, with a
   * limit of 31000 per chunk, so such a document always goes to the splitter.
   */
  lemma LongDocumentsAreSplit(content: String, split: String -> seq<String>)
    requires EstimateTokens(content) > 32000
    ensures ChunkDocument(content, 32000 - 1000, split) == split(content)
  {
  }

  // ----------------------------------------------------------- clean_pdf_text

  /** Length of the run of word characters that starts the string. */
  function WordCharRun(s: String): (n: nat)
    ensures n <= |s|
    ensures forall i :: 0 <= i < n ==> IsWordChar(s[i])
    ensures n < |s| ==> !IsWordChar(s[n])
  {
    if s != [] && IsWordChar(s[0]) then 1 + WordCharRun(s[1..]) else 0
  }

  /**
   * `re.sub(r'(\w+)-\n(\w+)', r'\1\2', s)`.  `joinable` tells whether the
   * character before `s` is a word character that a match may still use as
   * the end of its first group.  A match consumes the whole word after the
   * line break, so that word cannot start the next match.
   */
  function Dehyphenate(s: String, joinable: bool): (r: String)
    ensures |r| <= |s|
    decreases |s|
  {
    if s == [] then []
    else if joinable && |s| >= 3 && s[0] == '-' && s[1] == '\n' && IsWordChar(s[2]) then
      var m := WordCharRun(s[2..]);
      s[2..2 + m] + Dehyphenate(s[2 + m..], false)
    else [s[0]] + Dehyphenate(s[1..], IsWordChar(s[0]))
  }

  /** Dehyphenation only deletes characters: every character of the result is one of the text. */
  lemma {:induction false} DehyphenateChars(s: String, joinable: bool, c: char)
    requires c in Dehyphenate(s, joinable)
    ensures c in s
    decreases |s|
  {
    if s != [] {
      if joinable && |s| >= 3 && s[0] == '-' && s[1] == '\n' && IsWordChar(s[2]) {
        var m := WordCharRun(s[2..]);
        if c !in s[2..2 + m] {
          DehyphenateChars(s[2 + m..], false, c);
        }
      } else if c != s[0] {
        DehyphenateChars(s[1..], IsWordChar(s[0]), c);
      }
    }
  }

  /** A text without a hyphen is left as it is. */
  lemma {:induction false} DehyphenateNoHyphen(s: String, joinable: bool)
    requires '-' !in s
    ensures Dehyphenate(s, joinable) == s
    decreases |s|
  {
    if s != [] {
      assert s == [s[0]] + s[1..];
      DehyphenateNoHyphen(s[1..], IsWordChar(s[0]));
    }
  }

  /** A word broken across two lines is joined again: `a-\nb` becomes `ab`. */
  lemma DehyphenateJoins(a: char, b: char)
    requires IsWordChar(a) && IsWordChar(b)
    ensures Dehyphenate([a, '-', '\n', b], false) == [a, b]
  {
    var t := [a, '-', '\n', b];
    var s := t[1..];
    assert s == ['-', '\n', b] && s[2..] == [b] && s[2..3] == [b] && s[3..] == [];
    assert WordCharRun([b]) == 1 by {
      assert [b][1..] == [];
    }
  }

  /**
   * A word that closed one match cannot open the next: for word characters
   * `a` and `b`, `a-\nb-\nc` becomes `ab-\nc`.
   */
  lemma DehyphenateConsumes(a: char, b: char, c: char)
    requires IsWordChar(a) && IsWordChar(b)
    ensures Dehyphenate([a, '-', '\n', b, '-', '\n', c], false) == [a, b, '-', '\n', c]
  {
    var t := [a, '-', '\n', b, '-', '\n', c];
    assert t[1..] == ['-', '\n', b, '-', '\n', c];
    DehyphenateJoinsOnce(b, c);
  }

  /** The join takes the word `b` and leaves the next break after a non-word character. */
  lemma DehyphenateJoinsOnce(b: char, c: char)
    requires IsWordChar(b)
    ensures Dehyphenate(['-', '\n', b, '-', '\n', c], true) == [b, '-', '\n', c]
  {
    var s := ['-', '\n', b, '-', '\n', c];
    var rest := s[2..];
    assert rest == [b, '-', '\n', c];
    assert WordCharRun(rest) == 1 by {
      assert rest[1..] == ['-', '\n', c];
      assert !IsWordChar('-');
    }
    assert s[2..3] == [b] && s[3..] == ['-', '\n', c];
    DehyphenateUnjoinable(c);
  }

  /** A hyphen after a non-word character is kept. */
  lemma DehyphenateUnjoinable(c: char)
    ensures Dehyphenate(['-', '\n', c], false) == ['-', '\n', c]
  {
    var t := ['-', '\n', c];
    var u := t[1..];
    var v := u[1..];
    assert u == ['\n', c] && v == [c] && v[1..] == [];
    assert !IsWordChar('-') && !IsWordChar('\n');
    assert Dehyphenate(v, false) == [c];
    assert Dehyphenate(u, false) == ['\n'] + Dehyphenate(v, false);
    assert Dehyphenate(t, false) == ['-'] + Dehyphenate(u, false);
  }

  /** The lines end a sentence when they end in one of `. ? ! : ;`. */
  predicate EndsSentence(s: String) {
    s != [] && (s[|s| - 1] == '.' || s[|s| - 1] == '?' || s[|s| - 1] == '!' || s[|s| - 1] == ':' || s[|s| - 1] == ';')
  }

  /**
   * The text the line loop of `clean_pdf_text` builds: each stripped line is
   * appended after a space when the text so far is non-empty and does not
   * end a sentence, and after a newline otherwise.
   */
  function JoinLines(lines: seq<String>): String {
    if lines == [] then []
    else
      var acc := JoinLines(lines[..|lines| - 1]);
      var line := Strip(lines[|lines| - 1]);
      if acc != [] && !EndsSentence(acc) then acc + " " + line else acc + "\n" + line
  }

  /** `re.sub(r'\n+', '\n', s)` */
  function SqueezeNewlines(s: String): String
    decreases |s|
  {
    if s == [] then []
    else if s[0] == '\n' then
      assert RunOf(s, '\n') >= 1;
      "\n" + SqueezeNewlines(s[RunOf(s, '\n')..])
    else [s[0]] + SqueezeNewlines(s[1..])
  }

  lemma {:induction false} SqueezeNewlinesNone(s: String)
    requires '\n' !in s
    ensures SqueezeNewlines(s) == s
    decreases |s|
  {
    if s != [] {
      assert s == [s[0]] + s[1..];
      SqueezeNewlinesNone(s[1..]);
    }
  }

  /** What `clean_pdf_text` returns. */
  function CleanedPdfText(text: String): String {
    Strip(SqueezeNewlines(CollapseSpaces(JoinLines(SplitLines(Dehyphenate(text, false))))))
  }

  /** Cleaned PDF text has no newline, no two white-space characters in a row and no white space at either end. */
  lemma CleanedPdfTextTidy(text: String)
    ensures Tidy(CleanedPdfText(text))
  {
    var c := CollapseSpaces(JoinLines(SplitLines(Dehyphenate(text, false))));
    CollapsedPlainSpaces(JoinLines(SplitLines(Dehyphenate(text, false))), false);
    PlainSpacesNoNewline(c);
    SqueezeNewlinesNone(c);
    CollapseStripTidy(JoinLines(SplitLines(Dehyphenate(text, false))));
  }

  /** `clean_pdf_text` */
  method CleanPdfText(text: String) returns (r: String)
    ensures r == CleanedPdfText(text)
    ensures Tidy(r)
  {
    var lines := SplitLines(Dehyphenate(text, false));
    var fixedText: String := [];
    var i := 0;
    while i < |lines|
      invariant 0 <= i <= |lines|
      invariant fixedText == JoinLines(lines[..i])
    {
      assert lines[..i + 1][..i] == lines[..i];
      var line := Strip(lines[i]);
      if fixedText != [] && !EndsSentence(fixedText) {
        fixedText := fixedText + " " + line;
      } else {
        fixedText := fixedText + "\n" + line;
      }
      i := i + 1;
    }
    assert lines[..i] == lines;
    r := Strip(SqueezeNewlines(CollapseSpaces(fixedText)));
    CleanedPdfTextTidy(text);
  }

  // ------------------------------------------------ headers and footers

  /** The stripped non-empty lines of all pages, in the order the counting loop visits them. */
  function StrippedLines(pages: seq<String>): (r: seq<String>)
    ensures forall l :: l in r ==> l != []
  {
    if pages == [] then []
    else StrippedLines(pages[..|pages| - 1]) + NonBlankLines(SplitLines(pages[|pages| - 1]))
  }

  /** A line is among the stripped lines exactly when some page has a line that strips to it. */
  lemma {:induction false} StrippedLinesMembers(pages: seq<String>, l: String)
    ensures l in StrippedLines(pages) <==> l != [] && OnSomePage(pages, |pages|, l)
  {
    if pages != [] {
      var n := |pages| - 1;
      var init := pages[..n];
      var lines := NonBlankLines(SplitLines(pages[n]));
      StrippedLinesMembers(init, l);
      assert StrippedLines(pages) == StrippedLines(init) + lines;
      OnSomePagePrefix(pages, n, l);
    }
  }

  /** Some page among the first `m` has a line that strips to `l`. */
  predicate OnSomePage(pages: seq<String>, m: nat, l: String)
    requires m <= |pages|
  {
    exists p :: 0 <= p < m && l in NonBlankLines(SplitLines(pages[p]))
  }

  lemma OnSomePagePrefix(pages: seq<String>, n: nat, l: String)
    requires n < |pages|
    ensures OnSomePage(pages, n + 1, l) <==>
              OnSomePage(pages[..n], n, l) || l in NonBlankLines(SplitLines(pages[n]))
  {
    var init := pages[..n];
    if OnSomePage(pages, n + 1, l) {
      var p :| 0 <= p < n + 1 && l in NonBlankLines(SplitLines(pages[p]));
      if p < n {
        assert init[p] == pages[p];
      }
    }
    if OnSomePage(init, n, l) {
      var p :| 0 <= p < n && l in NonBlankLines(SplitLines(init[p]));
      assert init[p] == pages[p];
    }
  }


  /** The lines counted as running headers or footers: more often than on half the pages, and shorter than 100. */
  function CommonLines(pages: seq<String>): (common: set<String>)
    ensures forall l :: l in common <==>
              (2 * multiset(StrippedLines(pages))[l] > |pages| && |l| < 100)
  {
    var all := StrippedLines(pages);
    set l | l in all && 2 * multiset(all)[l] > |pages| && |l| < 100
  }

  /** The lines of a page whose stripped text is not a header or footer. */
  function KeepNotCommon(lines: seq<String>, common: set<String>): (r: seq<String>)
    ensures |r| <= |lines|
    ensures forall l :: l in r ==> l in lines && Strip(l) !in common
    ensures forall l :: l in lines && Strip(l) !in common ==> l in r
  {
    if lines == [] then []
    else
      var n := |lines| - 1;
      var last := lines[n];
      assert forall l :: l in lines ==> l in lines[..n] || l == last;
      KeepNotCommon(lines[..n], common) + (if Strip(last) !in common then [last] else [])
  }

  /** The filter keeps the order of the lines: two runs of lines are filtered one after the other. */
  lemma {:induction false} KeepNotCommonAppend(a: seq<String>, b: seq<String>, common: set<String>)
    ensures KeepNotCommon(a + b, common) == KeepNotCommon(a, common) + KeepNotCommon(b, common)
    decreases |b|
  {
    if b == [] {
      assert a + b == a;
    } else {
      var n := |b| - 1;
      var last := if Strip(b[n]) !in common then [b[n]] else [];
      assert (a + b)[..|a + b| - 1] == a + b[..n];
      assert (a + b)[|a + b| - 1] == b[n];
      KeepNotCommonAppend(a, b[..n], common);
      assert KeepNotCommon(a + b, common) == KeepNotCommon(a + b[..n], common) + last;
      SeqAssoc(KeepNotCommon(a, common), KeepNotCommon(b[..n], common), last);
    }
  }

  /** One page with its headers and footers removed, then cleaned. */
  function CleanedPage(page: String, common: set<String>): String {
    CleanedPdfText(Join("\n", KeepNotCommon(SplitLines(page), common)))
  }

  /** A cleaned page is added after a blank line unless it is blank. */
  function AppendPage(acc: String, cleaned: String): String {
    if Strip(cleaned) != [] then acc + "\n\n" + cleaned else acc
  }

  /** The document text: every page that does not clean to blank, each after a blank line. */
  function DocumentText(pages: seq<String>, common: set<String>): String {
    if pages == [] then []
    else AppendPage(DocumentText(pages[..|pages| - 1], common), CleanedPage(pages[|pages| - 1], common))
  }

  lemma DocumentTextStep(pages: seq<String>, p: nat, common: set<String>)
    requires p < |pages|
    ensures DocumentText(pages[..p + 1], common) == AppendPage(DocumentText(pages[..p], common), CleanedPage(pages[p], common))
  {
    assert pages[..p + 1][..p] == pages[..p];
  }

  /** The counting loop over the stripped lines of all pages, and the set of common lines it yields. */
  method FindCommonLines(pages: seq<String>) returns (common: set<String>)
    ensures common == CommonLines(pages)
  {
    var all := StrippedLines(pages);
    var keys, counts := CountOccurrences(all);
    common := set l | l in counts && 2 * counts[l] > |pages| && |l| < 100;
  }

  /** The lines of a page whose stripped text is not common. */
  method KeepLines(lines: seq<String>, common: set<String>) returns (kept: seq<String>)
    ensures kept == KeepNotCommon(lines, common)
  {
    kept := [];
    var j := 0;
    while j < |lines|
      invariant 0 <= j <= |lines|
      invariant kept == KeepNotCommon(lines[..j], common)
    {
      assert lines[..j + 1][..j] == lines[..j];
      if Strip(lines[j]) !in common {
        kept := kept + [lines[j]];
      }
      j := j + 1;
    }
    assert lines[..j] == lines;
  }

  /** One page without its common lines, cleaned. */
  method CleanPage(page: String, common: set<String>) returns (cleaned: String)
    ensures cleaned == CleanedPage(page, common)
    ensures Tidy(cleaned)
  {
    var kept := KeepLines(SplitLines(page), common);
    cleaned := CleanPdfText(Join("\n", kept));
  }

  /** One page of the loop: its cleaned text is appended after a blank line unless it is blank. */
  method AddPage(doc: String, page: String, common: set<String>) returns (doc': String)
    ensures doc' == AppendPage(doc, CleanedPage(page, common))
  {
    var cleaned := CleanPage(page, common);
    if Strip(cleaned) != [] {
      doc' := doc + "\n\n" + cleaned;
    } else {
      doc' := doc;
    }
  }

  /** The cleaned pages, joined with blank lines, for a given set of common lines. */
  method AssemblePages(pages: seq<String>, common: set<String>) returns (doc: String)
    ensures doc == DocumentText(pages, common)
  {
    doc := [];
    var p := 0;
    while p < |pages|
      invariant 0 <= p <= |pages|
      invariant doc == DocumentText(pages[..p], common)
    {
      DocumentTextStep(pages, p, common);
      doc := AddPage(doc, pages[p], common);
      p := p + 1;
    }
    assert pages[..p] == pages;
  }

  /**
   * The page loop of `load_and_clean_pdfs`: count the stripped lines over all
   * pages, take the common ones, and join the cleaned pages.
   */
  method CleanPages(pages: seq<String>) returns (doc: String)
    ensures doc == DocumentText(pages, CommonLines(pages))
  {
    var common := FindCommonLines(pages);
    doc := AssemblePages(pages, common);
  }

  /** How many of the pages have `l` among their stripped lines. */
  function PagesWith(pages: seq<String>, l: String): nat {
    if pages == [] then 0
    else PagesWith(pages[..|pages| - 1], l) + (if l in NonBlankLines(SplitLines(pages[|pages| - 1])) then 1 else 0)
  }

  lemma {:induction false} PagesWithCounted(pages: seq<String>, l: String)
    ensures multiset(StrippedLines(pages))[l] >= PagesWith(pages, l)
  {
    if pages != [] {
      var init := pages[..|pages| - 1];
      var last := NonBlankLines(SplitLines(pages[|pages| - 1]));
      PagesWithCounted(init, l);
      assert multiset(StrippedLines(pages)) == multiset(StrippedLines(init)) + multiset(last);
      if l in last {
        assert multiset(last)[l] >= 1;
      }
    }
  }

  /** A short line that stands on more than half of the pages is removed from all of them. */
  lemma RepeatedLineIsCommon(pages: seq<String>, l: String)
    requires 2 * PagesWith(pages, l) > |pages| && |l| < 100
    ensures l in CommonLines(pages)
  {
    PagesWithCounted(pages, l);
  }

  // --------------------------------------------------------- detect_repetition

  predicate IsSentenceEnd(c: char) {
    c == '.' || c == '!' || c == '?'
  }

  function SentenceEndRun(s: String): (n: nat)
    ensures n <= |s|
    ensures forall k :: 0 <= k < n ==> IsSentenceEnd(s[k])
    ensures n < |s| ==> !IsSentenceEnd(s[n])
  {
    if s != [] && IsSentenceEnd(s[0]) then 1 + SentenceEndRun(s[1..]) else 0
  }

  /** The characters of `s` that are not sentence ends, in order. */
  function WithoutEnds(s: String): (r: String)
    ensures forall k :: 0 <= k < |r| ==> !IsSentenceEnd(r[k])
  {
    if s == [] then [] else (if IsSentenceEnd(s[0]) then [] else [s[0]]) + WithoutEnds(s[1..])
  }

  /** `re.split(r'[.!?]+', s)` */
  function SplitSentences(s: String): (parts: seq<String>)
    ensures |parts| >= 1
    ensures forall i, k :: 0 <= i < |parts| && 0 <= k < |parts[i]| ==> !IsSentenceEnd(parts[i][k])
    ensures (forall k :: 0 <= k < |s| ==> !IsSentenceEnd(s[k])) ==> parts == [s]
    decreases |s|
  {
    if s == [] then [[]]
    else if IsSentenceEnd(s[0]) then
      [[]] + SplitSentences(s[SentenceEndRun(s)..])
    else
      var rest := SplitSentences(s[1..]);
      var parts := [[s[0]] + rest[0]] + rest[1..];
      assert forall i :: 1 <= i < |parts| ==> parts[i] == rest[i];
      assert forall k :: 1 <= k < |parts[0]| ==> parts[0][k] == rest[0][k - 1];
      assert (forall k :: 0 <= k < |s| ==> !IsSentenceEnd(s[k])) ==> parts == [s] by {
        if forall k :: 0 <= k < |s| ==> !IsSentenceEnd(s[k]) {
          assert forall k :: 0 <= k < |s[1..]| ==> s[1..][k] == s[k + 1];
          assert rest == [s[1..]];
          assert [s[0]] + s[1..] == s;
        }
      }
      parts
  }

  /** The pieces put back together are the text without its sentence ends: nothing else is lost. */
  lemma {:induction false} SplitSentencesJoin(s: String)
    ensures Join("", SplitSentences(s)) == WithoutEnds(s)
    decreases |s|
  {
    if s != [] {
      if IsSentenceEnd(s[0]) {
        var n := SentenceEndRun(s);
        SplitSentencesJoin(s[n..]);
        EndRunDropped(s, n);
        JoinAfterEmpty(SplitSentences(s[n..]));
      } else {
        SplitSentencesJoin(s[1..]);
        JoinExtendFirst(s[0], SplitSentences(s[1..]));
        assert WithoutEnds(s) == [s[0]] + WithoutEnds(s[1..]);
      }
    }
  }

  /** An empty first piece adds nothing to the concatenation. */
  lemma JoinAfterEmpty(rest: seq<String>)
    requires rest != []
    ensures Join("", [[]] + rest) == Join("", rest)
  {
    assert ([[]] + rest)[1..] == rest;
  }

  /** A character put in front of the first piece is put in front of the concatenation. */
  lemma JoinExtendFirst(c: char, rest: seq<String>)
    requires rest != []
    ensures Join("", [[c] + rest[0]] + rest[1..]) == [c] + Join("", rest)
  {
    var parts := [[c] + rest[0]] + rest[1..];
    if |rest| > 1 {
      var tail := Join("", rest[1..]);
      assert parts[1..] == rest[1..];
      assert Join("", parts) == ([c] + rest[0]) + "" + tail;
      assert Join("", rest) == rest[0] + "" + tail;
      SeqAssoc([c], rest[0], tail);
      assert rest[0] + "" == rest[0] && ([c] + rest[0]) + "" == [c] + rest[0];
    }
  }


  /** A leading run of sentence ends contributes nothing. */
  lemma {:induction false} EndRunDropped(s: String, n: nat)
    requires n <= |s| && forall k :: 0 <= k < n ==> IsSentenceEnd(s[k])
    ensures WithoutEnds(s) == WithoutEnds(s[n..])
    decreases n
  {
    if n > 0 {
      assert s[1..][n - 1..] == s[n..];
      EndRunDropped(s[1..], n - 1);
    }
  }

  /** The strings longer than 20 characters, in order. */
  function LongOnly(ss: seq<String>): (r: seq<String>)
    ensures forall x :: x in r <==> x in ss && |x| > 20
  {
    if ss == [] then []
    else
      var n := |ss| - 1;
      assert forall x :: x in ss <==> x in ss[..n] || x == ss[n];
      LongOnly(ss[..n]) + if |ss[n]| > 20 then [ss[n]] else []
  }

  /** `[s.strip() for s in parts if len(s.strip()) > 20]` */
  function LongSentences(parts: seq<String>): (r: seq<String>)
    ensures forall x :: x in r ==> |x| > 20
    ensures forall x :: x in r <==> x in StripAll(parts) && |x| > 20
  {
    LongOnly(StripAll(parts))
  }


  /** The first 50 characters of each sentence, lower-cased. */
  function Fingerprints(sentences: seq<String>): (r: seq<String>)
    ensures |r| == |sentences|
    ensures forall i :: 0 <= i < |r| ==>
              |r[i]| == (if |sentences[i]| <= 50 then |sentences[i]| else 50)
              && forall k :: 0 <= k < |r[i]| ==> r[i][k] == Lower(sentences[i][k])
  {
    seq(|sentences|, i requires 0 <= i < |sentences| => LowerStr(Take(sentences[i], 50)))
  }

  /** `max(counts.values())` over the keys of a non-empty Counter. */
  function MaxCount(keys: seq<String>, m: multiset<String>): (r: nat)
    requires keys != []
    ensures forall k :: k in keys ==> m[k] <= r
    ensures exists k :: k in keys && m[k] == r
  {
    if |keys| == 1 then m[keys[0]]
    else
      var rest := MaxCount(keys[1..], m);
      if m[keys[0]] >= rest then m[keys[0]] else rest
  }

  /** The verdict on the fingerprints: no fingerprint means no repetition, otherwise the largest count decides. */
  function Repeats(fps: seq<String>, threshold: int): bool {
    if fps == [] then false
    else MaxCount(FirstAppearance(fps), multiset(fps)) >= threshold
  }

  /**
   * `detect_repetition`: repetition is reported exactly when some fingerprint
   * of a sentence longer than 20 characters occurs at least `threshold` times.
   */
  function DetectRepetition(text: String, threshold: int): (r: bool)
    ensures r <==> var fps := Fingerprints(LongSentences(SplitSentences(text)));
                   exists i :: 0 <= i < |fps| && multiset(fps)[fps[i]] >= threshold
  {
    var fps := Fingerprints(LongSentences(SplitSentences(text)));
    MaxCountReaches(fps, threshold);
    Repeats(fps, threshold)
  }

  /** The largest count over the distinct values reaches `threshold` exactly when some value's count does. */
  lemma MaxCountReaches(fps: seq<String>, threshold: int)
    ensures Repeats(fps, threshold) <==> exists i :: 0 <= i < |fps| && multiset(fps)[fps[i]] >= threshold
  {
    if fps != [] {
      MaxCountReachesNonEmpty(fps, threshold);
    }
  }

  lemma MaxCountReachesNonEmpty(fps: seq<String>, threshold: int)
    requires fps != []
    ensures MaxCount(FirstAppearance(fps), multiset(fps)) >= threshold <==>
              exists i :: 0 <= i < |fps| && multiset(fps)[fps[i]] >= threshold
  {
    var keys := FirstAppearance(fps);
    var m := multiset(fps);
    var mx := MaxCount(keys, m);
    if mx >= threshold {
      var k :| k in keys && m[k] == mx;
      var i :| 0 <= i < |fps| && fps[i] == k;
    }
    if exists i :: 0 <= i < |fps| && m[fps[i]] >= threshold {
      var i :| 0 <= i < |fps| && m[fps[i]] >= threshold;
      assert fps[i] in keys;
    }
  }

  /** Without a sentence longer than 20 characters there is no repetition. */
  lemma NoLongSentenceNoRepetition(text: String, threshold: int)
    requires LongSentences(SplitSentences(text)) == []
    ensures !DetectRepetition(text, threshold)
  {
  }

  // ------------------------------------------------------ clean_summary_output

  /** `re.sub(r'\d+', '#', s)` */
  function DigitRunsToHash(s: String): (r: String)
    ensures |r| <= |s|
    ensures forall i :: 0 <= i < |r| ==> !IsDigit(r[i])
    decreases |s|
  {
    if s == [] then []
    else if IsDigit(s[0]) then
      assert DigitRunLen(s) >= 1;
      "#" + DigitRunsToHash(s[DigitRunLen(s)..])
    else [s[0]] + DigitRunsToHash(s[1..])
  }

  /** A text without digits is left as it is. */
  lemma {:induction false} DigitRunsToHashPlain(s: String)
    requires forall i :: 0 <= i < |s| ==> !IsDigit(s[i])
    ensures DigitRunsToHash(s) == s
    decreases |s|
  {
    if s != [] {
      assert forall i :: 0 <= i < |s[1..]| ==> s[1..][i] == s[i + 1];
      DigitRunsToHashPlain(s[1..]);
      assert [s[0]] + s[1..] == s;
    }
  }

  /** A whole run of digits becomes one `#`. */
  lemma DigitRunsToHashRun(s: String)
    requires s != [] && forall i :: 0 <= i < |s| ==> IsDigit(s[i])
    ensures DigitRunsToHash(s) == "#"
  {
    assert DigitRunLen(s) == |s|;
    assert s[|s|..] == [];
  }

  /** Two pieces that do not split a run of digits. */
  predicate DigitBoundary(u: String, v: String) {
    u == [] || v == [] || !IsDigit(u[|u| - 1]) || !IsDigit(v[0])
  }

  lemma {:induction false} DigitRunLenConcat(u: String, v: String)
    requires u != [] && DigitBoundary(u, v)
    ensures DigitRunLen(u + v) == DigitRunLen(u)
    decreases |u|
  {
    if IsDigit(u[0]) {
      assert (u + v)[1..] == u[1..] + v;
      if |u| > 1 {
        DigitRunLenConcat(u[1..], v);
      }
    }
  }

  /**
   * The rewriting is compositional at digit-run boundaries: with a whole
   * run becoming `"#"` and a digit-free piece staying as it is, this
   * determines the result as "each run of digits becomes one `#`".
   */
  lemma {:induction false} DigitRunsToHashConcat(u: String, v: String)
    requires DigitBoundary(u, v)
    ensures DigitRunsToHash(u + v) == DigitRunsToHash(u) + DigitRunsToHash(v)
    decreases |u|
  {
    if u == [] {
      assert u + v == v;
    } else {
      DigitRunLenConcat(u, v);
      var m := if IsDigit(u[0]) then DigitRunLen(u) else 1;
      var rest := u[m..];
      assert (u + v)[0] == u[0] && (u + v)[m..] == rest + v;
      assert DigitBoundary(rest, v) by {
        assert rest != [] ==> rest[|rest| - 1] == u[|u| - 1];
      }
      DigitRunsToHashConcat(rest, v);
      var head := DigitRunsHead(u, v);
      SeqAssoc(head, DigitRunsToHash(rest), DigitRunsToHash(v));
    }
  }

  /** The first step of the rewriting, the same for `u` and for `u + v`. */
  lemma DigitRunsHead(u: String, v: String) returns (head: String)
    requires u != [] && DigitRunLen(u + v) == DigitRunLen(u)
    ensures var m := if IsDigit(u[0]) then DigitRunLen(u) else 1;
            m <= |u|
            && DigitRunsToHash(u + v) == head + DigitRunsToHash((u + v)[m..])
            && DigitRunsToHash(u) == head + DigitRunsToHash(u[m..])
  {
    assert (u + v)[0] == u[0];
    head := if IsDigit(u[0]) then "#" else [u[0]];
  }


  /** The key a summary line is compared by: stripped, lower-cased, cut to 60 characters, digit runs as `#`. */
  function LineKey(line: String): (key: String)
    ensures |key| <= 60
    ensures forall i :: 0 <= i < |key| ==> !IsDigit(key[i])
  {
    DigitRunsToHash(Take(LowerStr(Strip(line)), 60))
  }

  /** Without digits in its first 60 characters, a line's key is that prefix, stripped and lower-cased. */
  lemma LineKeyPlain(line: String)
    requires var cut := Take(LowerStr(Strip(line)), 60); forall i :: 0 <= i < |cut| ==> !IsDigit(cut[i])
    ensures LineKey(line) == Take(LowerStr(Strip(line)), 60)
  {
    DigitRunsToHashPlain(Take(LowerStr(Strip(line)), 60));
  }

  /** Line `i` is kept when its key is shorter than 10 or no earlier line has the same key. */
  predicate KeptAt(lines: seq<String>, i: nat, key: String -> String)
    requires i < |lines|
  {
    |key(lines[i])| < 10 || forall j :: 0 <= j < i ==> key(lines[j]) != key(lines[i])
  }

  /** The lines the deduplicating loop keeps, in their order. */
  function Deduplicated(lines: seq<String>, key: String -> String): (r: seq<String>)
    ensures |r| <= |lines|
    ensures forall l :: l in r ==> l in lines
  {
    if lines == [] then []
    else
      var init := lines[..|lines| - 1];
      Deduplicated(init, key) + (if KeptAt(lines, |lines| - 1, key) then [lines[|lines| - 1]] else [])
  }

  /** A kept last line differs in key from every earlier line, when its key is long. */
  lemma KeptLastDiffers(lines: seq<String>, key: String -> String, x: String)
    requires lines != [] && KeptAt(lines, |lines| - 1, key) && |key(lines[|lines| - 1])| >= 10
    requires x in lines[..|lines| - 1]
    ensures key(x) != key(lines[|lines| - 1])
  {
    var k :| 0 <= k < |lines| - 1 && lines[..|lines| - 1][k] == x;
    assert lines[k] == x;
  }

  /** No two lines share a key of 10 or more characters. */
  predicate DistinctLongKeys(r: seq<String>, key: String -> String) {
    forall i, j :: 0 <= i < j < |r| && |key(r[j])| >= 10 ==> key(r[i]) != key(r[j])
  }

  /** The kept lines have distinct long keys. */
  lemma {:induction false} DeduplicatedDistinct(lines: seq<String>, key: String -> String)
    ensures DistinctLongKeys(Deduplicated(lines, key), key)
  {
    if lines != [] {
      var init := lines[..|lines| - 1];
      DeduplicatedDistinct(init, key);
      var r := Deduplicated(lines, key);
      var d := Deduplicated(init, key);
      if KeptAt(lines, |lines| - 1, key) {
        assert r == d + [lines[|lines| - 1]];
        forall i, j | 0 <= i < j < |r| && |key(r[j])| >= 10
          ensures key(r[i]) != key(r[j])
        {
          assert r[i] == d[i];
          if j == |r| - 1 {
            assert r[j] == lines[|lines| - 1];
            KeptLastDiffers(lines, key, d[i]);
          } else {
            assert r[j] == d[j];
          }
        }
      } else {
        assert r == d;
      }
    }
  }

  /** A line with a long key is dropped only after an earlier line with the same key. */
  lemma DroppedHasEarlierTwin(lines: seq<String>, i: nat, key: String -> String)
    requires i < |lines| && !KeptAt(lines, i, key)
    ensures |key(lines[i])| >= 10
    ensures exists j :: 0 <= j < i && key(lines[j]) == key(lines[i])
  {
  }

  /** The deduplicating loop with its set of seen keys. */
  method DedupLines(lines: seq<String>, key: String -> String) returns (cleaned: seq<String>)
    ensures cleaned == Deduplicated(lines, key)
  {
    var seen: set<String> := {};
    cleaned := [];
    var i := 0;
    while i < |lines|
      invariant 0 <= i <= |lines|
      invariant cleaned == Deduplicated(lines[..i], key)
      invariant forall k :: k in seen <==> exists j :: 0 <= j < i && key(lines[j]) == k
    {
      var normalized := key(lines[i]);
      assert lines[..i + 1][..i] == lines[..i];
      assert KeptAt(lines[..i + 1], i, key) <==> KeptAt(lines, i, key) by {
        assert forall j :: 0 <= j <= i ==> lines[..i + 1][j] == lines[j];
      }
      if normalized !in seen || |normalized| < 10 {
        cleaned := cleaned + [lines[i]];
      }
      seen := seen + {normalized};
      i := i + 1;
    }
    assert lines[..i] == lines;
  }

  predicate IsBullet(c: char) {
    c == '-' || c == '*' || c == '\U{2022}'
  }

  /**
   * Where an empty bullet line that starts `s` ends: a newline, white
   * space, a bullet, white space and a newline (the last one of that white
   * space, as the greedy `\s*` backs off to it).
   */
  function BulletLineEnd(s: String): (r: Option<nat>)
    ensures r.Some? ==> 3 <= r.value <= |s| && s[0] == '\n' && s[r.value - 1] == '\n'
    ensures r.Some? ==> exists q :: 0 < q < r.value - 1 && IsBullet(s[q])
    ensures (forall i :: 0 <= i < |s| ==> !IsBullet(s[i])) ==> r.None?
  {
    if s == [] || s[0] != '\n' then None
    else
      var q := 1 + SpaceRunLen(s[1..]);
      if q < |s| && IsBullet(s[q]) then
        var w := SpaceRunLen(s[q + 1..]);
        match LastIndexOf(s[q + 1..q + 1 + w], '\n')
        case Some(j) =>
          assert s[q + 1..q + 1 + w][j] == s[q + 1 + j];
          Some(q + 1 + j + 1)
        case None => None
      else None
  }

  /**
   * The match found when a bullet follows `n1` spaces and `n2` spaces and a
   * newline follow the bullet.
   */
  lemma BulletLineEndIs(s: String, n1: nat, n2: nat)
    requires s != [] && s[0] == '\n'
    requires SpaceRunLen(s[1..]) == n1 && 1 + n1 < |s| && IsBullet(s[1 + n1])
    requires SpaceRunLen(s[2 + n1..]) == n2 + 1 && s[2 + n1 + n2] == '\n'
    ensures BulletLineEnd(s) == Some(3 + n1 + n2)
  {
    var t := s[2 + n1..2 + n1 + n2 + 1];
    assert t[n2] == '\n';
    assert LastIndexOf(t, '\n') == Some(n2);
  }

  /** A matched bullet line is replaced by one newline. */
  lemma DropAtBulletLine(s: String, k: nat)
    requires BulletLineEnd(s) == Some(k)
    ensures DropEmptyBullets(s) == "\n" + DropEmptyBullets(s[k..])
  {
  }

  /** `re.sub(r'\n\s*[-*•]\s*\n', '\n', s)`: each empty bullet line, scanning left to right, becomes one newline. */
  function DropEmptyBullets(s: String): (r: String)
    ensures |r| <= |s|
    decreases |s|
  {
    if s == [] then []
    else
      match BulletLineEnd(s)
      case Some(k) => "\n" + DropEmptyBullets(s[k..])
      case None => [s[0]] + DropEmptyBullets(s[1..])
  }

  /** Only characters are removed: each kept character comes from the input, a removed bullet line leaving its newline. */
  lemma {:induction false} DropEmptyBulletsSub(s: String)
    ensures multiset(DropEmptyBullets(s)) <= multiset(s)
    decreases |s|
  {
    if s != [] {
      assert s == [s[0]] + s[1..];
      match BulletLineEnd(s)
      case Some(k) =>
        var rest := DropEmptyBullets(s[k..]);
        assert DropEmptyBullets(s) == "\n" + rest;
        assert s[1..] == s[1..k] + s[k..];
        DropEmptyBulletsSub(s[k..]);
        assert multiset(s) == multiset{'\n'} + multiset(s[1..k]) + multiset(s[k..]);
      case None =>
        var rest := DropEmptyBullets(s[1..]);
        assert DropEmptyBullets(s) == [s[0]] + rest;
        DropEmptyBulletsSub(s[1..]);
    }
  }

  /** A text without bullet characters is left as it is. */
  lemma {:induction false} DropEmptyBulletsPlain(s: String)
    requires forall i :: 0 <= i < |s| ==> !IsBullet(s[i])
    ensures DropEmptyBullets(s) == s
    decreases |s|
  {
    if s != [] {
      assert forall i :: 0 <= i < |s[1..]| ==> s[1..][i] == s[i + 1];
      DropEmptyBulletsPlain(s[1..]);
      assert DropEmptyBullets(s) == [s[0]] + DropEmptyBullets(s[1..]);
    }
  }

  /** An empty bullet line disappears. */
  lemma DropEmptyBulletsExample()
    ensures DropEmptyBullets("a\n- \nb") == "a\nb"
  {
    var s := "a\n- \nb";
    assert s[0] == 'a' && s[1..] == "\n- \nb";
    DropBulletLine();
  }

  lemma DropBulletLine()
    ensures DropEmptyBullets("\n- \nb") == "\nb"
  {
    var t := "\n- \nb";
    assert t[1..] == "- \nb" && t[2..] == " \nb";
    assert SpaceRunLen("- \nb") == 0;
    assert SpaceRunLen(" \nb") == 2 by {
      assert " \nb"[1..] == "\nb" && "\nb"[1..] == "b";
    }
    assert t[2..4] == " \n";
    assert LastIndexOf(" \n", '\n') == Some(1);
    assert t[4..] == "b";
    assert DropEmptyBullets("b") == "b" by {
      assert "b"[1..] == [];
    }
  }

  /**
   * An empty bullet line (a newline, `n1` white-space characters, a bullet,
   * `n2` white-space characters and a newline) in front of text that does
   * not start with white space becomes one newline.
   */
  lemma DropsEmptyBulletLine(s: String, n1: nat, n2: nat)
    requires 3 + n1 + n2 <= |s| && s[0] == '\n' && IsBullet(s[1 + n1]) && s[2 + n1 + n2] == '\n'
    requires AllSpace(s[1..1 + n1]) && AllSpace(s[2 + n1..2 + n1 + n2])
    requires 3 + n1 + n2 < |s| ==> !IsSpace(s[3 + n1 + n2])
    ensures DropEmptyBullets(s) == "\n" + DropEmptyBullets(s[3 + n1 + n2..])
  {
    BulletLineEndAt(s, n1, n2);
    DropAtBulletLine(s, 3 + n1 + n2);
  }

  /** Where an empty bullet line with `n1` and `n2` white-space characters around its bullet ends. */
  lemma BulletLineEndAt(s: String, n1: nat, n2: nat)
    requires 3 + n1 + n2 <= |s| && s[0] == '\n' && IsBullet(s[1 + n1]) && s[2 + n1 + n2] == '\n'
    requires AllSpace(s[1..1 + n1]) && AllSpace(s[2 + n1..2 + n1 + n2])
    requires 3 + n1 + n2 < |s| ==> !IsSpace(s[3 + n1 + n2])
    ensures BulletLineEnd(s) == Some(3 + n1 + n2)
  {
    var v := s[1..];
    assert forall i :: 0 <= i < n1 ==> v[i] == s[1..1 + n1][i];
    SpaceRunLenIs(v, n1);
    var u := s[2 + n1..];
    assert forall i :: 0 <= i < n2 ==> u[i] == s[2 + n1..2 + n1 + n2][i];
    SpaceRunLenIs(u, n2 + 1);
    BulletLineEndIs(s, n1, n2);
  }

  /** No three newlines in a row. */
  predicate NoTripleNewline(s: String) {
    !Contains(s, "\n\n\n")
  }

  /** At most two newlines before a text that does not start with one make no triple newline. */
  lemma NoTripleAfterNewlines(img: String, rest: String)
    requires |img| <= 2 && forall i :: 0 <= i < |img| ==> img[i] == '\n'
    requires rest == [] || rest[0] != '\n'
    requires NoTripleNewline(rest)
    ensures NoTripleNewline(img + rest)
  {
    var t := img + rest;
    forall i: nat | i <= |t|
      ensures !OccursAt(t, "\n\n\n", i)
    {
      if i >= |img| {
        assert !OccursAt(rest, "\n\n\n", i - |img|);
        if i + 3 <= |t| {
          assert t[i..i + 3] == rest[i - |img|..i - |img| + 3];
        }
      } else if i + 3 <= |t| {
        assert t[i..i + 3][|img| - i] == t[|img|] == rest[0];
      }
    }
  }

  /** A character other than a newline before a text keeps it free of triple newlines. */
  lemma NoTripleAfterChar(c: char, rest: String)
    requires c != '\n'
    requires NoTripleNewline(rest)
    ensures NoTripleNewline([c] + rest)
  {
    var t := [c] + rest;
    forall i: nat | i <= |t|
      ensures !OccursAt(t, "\n\n\n", i)
    {
      if i >= 1 {
        assert !OccursAt(rest, "\n\n\n", i - 1);
        if i + 3 <= |t| {
          assert t[i..i + 3] == rest[i - 1..i + 2];
        }
      } else if 3 <= |t| {
        assert t[0..3][0] == c;
      }
    }
  }

  /** `re.sub(r'\n{3,}', '\n\n', s)` */
  function SqueezeBlankLines(s: String): (r: String)
    ensures s != [] && s[0] != '\n' ==> r != [] && r[0] == s[0]
    ensures NoTripleNewline(r)
    decreases |s|
  {
    if s == [] then []
    else if s[0] == '\n' then
      var n := RunOf(s, '\n');
      var rest := SqueezeBlankLines(s[n..]);
      var img := if n >= 3 then "\n\n" else s[..n];
      NoTripleAfterNewlines(img, rest);
      img + rest
    else
      var rest := SqueezeBlankLines(s[1..]);
      NoTripleAfterChar(s[0], rest);
      [s[0]] + rest
  }

  /** What `clean_summary_output` returns. */
  function CleanedSummary(text: String): String {
    Strip(SqueezeBlankLines(DropEmptyBullets(Join("\n", Deduplicated(SplitOn(text, '\n'), LineKey)))))
  }

  /** Stripping keeps a text free of three newlines in a row. */
  lemma StripKeepsNoTriple(s: String)
    requires NoTripleNewline(s)
    ensures NoTripleNewline(Strip(s))
  {
    StripIsSlice(s);
    SliceKeepsAbsent(s, "\n\n\n", StripStart(s), StripStart(s) + |Strip(s)|);
  }

  /** `clean_summary_output` */
  method CleanSummaryOutput(text: String) returns (r: String)
    ensures r == CleanedSummary(text)
    ensures NoTripleNewline(r) && Trimmed(r)
  {
    var cleanedLines := DedupLines(SplitOn(text, '\n'), LineKey);
    var squeezed := SqueezeBlankLines(DropEmptyBullets(Join("\n", cleanedLines)));
    r := Strip(squeezed);
    StripKeepsNoTriple(squeezed);
  }

  // ------------------------------------------------------- summary file names

  /** `os.path.splitext(name)[0]`: the name without its last extension; leading dots of the last path component do not start one. */
  function SplitExtRoot(name: String): (root: String)
    ensures |root| <= |name| && root == name[..|root|]
  {
    var sep := LastIndexOf(name, '/');
    var start := if sep.Some? then sep.value + 1 else 0;
    var dot := LastIndexOf(name, '.');
    if dot.Some? && start <= dot.value && exists i :: start <= i < dot.value && name[i] != '.' then name[..dot.value]
    else name
  }

  /** A file name ending in `.pdf` loses exactly that extension. */
  lemma SplitExtPdf(base: String)
    requires '/' !in base
    requires exists i :: 0 <= i < |base| && base[i] != '.'
    ensures SplitExtRoot(base + ".pdf") == base
  {
    var name := base + ".pdf";
    assert name[|base|] == '.';
    assert LastIndexOf(name, '.') == Some(|base|);
    assert LastIndexOf(name, '/') == None by {
      assert forall k :: 0 <= k < |name| ==> name[k] != '/' by {
        forall k | 0 <= k < |name| ensures name[k] != '/' {
          if k < |base| {
            assert name[k] == base[k];
          }
        }
      }
    }
    var i :| 0 <= i < |base| && base[i] != '.';
    assert name[i] == base[i];
    assert name[..|base|] == base;
  }

  /** `f"summary_{base_name}.pdf"` for the document's file name. */
  function SummaryFileName(filename: String): (r: String)
    ensures StartsWith(r, "summary_") && EndsWith(r, ".pdf")
    ensures 12 <= |r| <= |filename| + 12 && r[8..|r| - 4] == filename[..|r| - 12]
  {
    var root := SplitExtRoot(filename);
    var r := "summary_" + root + ".pdf";
    assert r[8..|r| - 4] == root;
    r
  }

  /** The summary of `name.pdf` is `summary_name.pdf`. */
  lemma SummaryFileNameOfPdf(base: String)
    requires '/' !in base
    requires exists i :: 0 <= i < |base| && base[i] != '.'
    ensures SummaryFileName(base + ".pdf") == "summary_" + base + ".pdf"
  {
    SplitExtPdf(base);
  }

  /**
   * `is_already_summarized`: a document without a file name is never
   * summarised; otherwise its summary file must be among the files of the
   * summaries directory, given here as a set of names.
   */
  function IsAlreadySummarized(filename: String, summaryFiles: set<String>): (done: bool)
    ensures done ==> filename != [] && StartsWith(SummaryFileName(filename), "summary_")
    ensures done <==> filename != [] && SummaryFileName(filename) in summaryFiles
  {
    if filename == [] then false else SummaryFileName(filename) in summaryFiles
  }

  /** The name the check looks for is the name the summary is saved under. */
  lemma SavedSummaryIsFound(filename: String, summaryFiles: set<String>)
    requires filename != []
    ensures IsAlreadySummarized(filename, summaryFiles + {SummaryFileName(filename)})
  {
  }

  // ------------------------------------------------------------- escaping

  /** The escaping of `save_summary_as_pdf`, as written: `&` first, then `<`, then `>`. */
  function Escape(s: String): String {
    ReplaceAll(ReplaceAll(ReplaceAll(s, "&", "&amp;"), "<", "&lt;"), ">", "&gt;")
  }

  function EscapeChar(c: char): String {
    if c == '&' then "&amp;" else if c == '<' then "&lt;" else if c == '>' then "&gt;" else [c]
  }

  /** Every character escaped on its own. */
  function EscapeEach(s: String): String {
    if s == [] then [] else EscapeChar(s[0]) + EscapeEach(s[1..])
  }

  /** Reading the entities back. */
  function Unescape(s: String): String
    decreases |s|
  {
    if s == [] then []
    else if StartsWith(s, "&amp;") then "&" + Unescape(s[5..])
    else if StartsWith(s, "&lt;") then "<" + Unescape(s[4..])
    else if StartsWith(s, "&gt;") then ">" + Unescape(s[4..])
    else [s[0]] + Unescape(s[1..])
  }

  /** A one-character text under a one-character replacement. */
  lemma ReplaceOne(c: char, x: char, rep: String)
    ensures ReplaceAll([c], [x], rep) == if c == x then rep else [c]
  {
    assert [c][..1] == [c];
    assert [c][1..] == [];
  }

  lemma {:induction false} ReplaceAbsent(s: String, x: char, rep: String)
    requires x !in s
    ensures ReplaceAll(s, [x], rep) == s
    decreases |s|
  {
    if s != [] {
      assert s[..1] == [s[0]];
      ReplaceAbsent(s[1..], x, rep);
    }
  }

  /** One character through the three replacements. */
  lemma EscapeOne(c: char)
    ensures Escape([c]) == EscapeChar(c)
  {
    ReplaceOne(c, '&', "&amp;");
    var c1 := ReplaceAll([c], "&", "&amp;");
    if c == '&' {
      ReplaceAbsent(c1, '<', "&lt;");
      ReplaceAbsent(c1, '>', "&gt;");
    } else {
      ReplaceOne(c, '<', "&lt;");
      var c2 := ReplaceAll(c1, "<", "&lt;");
      if c == '<' {
        ReplaceAbsent(c2, '>', "&gt;");
      } else {
        ReplaceOne(c, '>', "&gt;");
      }
    }
  }

  /** The three replacements escape every character on its own. */
  lemma {:induction false} EscapeIsCharwise(s: String)
    ensures Escape(s) == EscapeEach(s)
  {
    if s != [] {
      var c, t := [s[0]], s[1..];
      assert s == c + t;
      ReplaceCharAppend(c, t, '&', "&amp;");
      var c1, t1 := ReplaceAll(c, "&", "&amp;"), ReplaceAll(t, "&", "&amp;");
      ReplaceCharAppend(c1, t1, '<', "&lt;");
      var c2, t2 := ReplaceAll(c1, "<", "&lt;"), ReplaceAll(t1, "<", "&lt;");
      ReplaceCharAppend(c2, t2, '>', "&gt;");
      EscapeOne(s[0]);
      EscapeIsCharwise(t);
    } else {
      assert Escape(s) == [];
    }
  }

  lemma UnescapeAmp(rest: String)
    ensures Unescape("&amp;" + rest) == "&" + Unescape(rest)
  {
    var t := "&amp;" + rest;
    assert t[..5] == "&amp;";
    assert t[5..] == rest;
  }

  lemma UnescapeLt(rest: String)
    ensures Unescape("&lt;" + rest) == "<" + Unescape(rest)
  {
    var t := "&lt;" + rest;
    assert t[1] == 'l' && !StartsWith(t, "&amp;");
    assert t[..4] == "&lt;";
    assert t[4..] == rest;
  }

  lemma UnescapeGt(rest: String)
    ensures Unescape("&gt;" + rest) == ">" + Unescape(rest)
  {
    var t := "&gt;" + rest;
    assert t[1] == 'g' && !StartsWith(t, "&amp;") && !StartsWith(t, "&lt;");
    assert t[..4] == "&gt;";
    assert t[4..] == rest;
  }

  lemma UnescapePlain(c: char, rest: String)
    requires c != '&'
    ensures Unescape([c] + rest) == [c] + Unescape(rest)
  {
    var t := [c] + rest;
    assert t[0] == c;
    assert !StartsWith(t, "&amp;") && !StartsWith(t, "&lt;") && !StartsWith(t, "&gt;");
    assert t[1..] == rest;
  }

  /** Unescaping reads one escaped character back and continues after it. */
  lemma UnescapeEscapeChar(c: char, rest: String)
    ensures Unescape(EscapeChar(c) + rest) == [c] + Unescape(rest)
  {
    if c == '&' {
      UnescapeAmp(rest);
    } else if c == '<' {
      UnescapeLt(rest);
    } else if c == '>' {
      UnescapeGt(rest);
    } else {
      UnescapePlain(c, rest);
    }
  }

  /** Unescaping an escaped text gives the text back. */
  lemma {:induction false} UnescapeEscapeEach(s: String)
    ensures Unescape(EscapeEach(s)) == s
  {
    if s != [] {
      UnescapeEscapeChar(s[0], EscapeEach(s[1..]));
      UnescapeEscapeEach(s[1..]);
      assert s == [s[0]] + s[1..];
    }
  }

  lemma UnescapeEscape(s: String)
    ensures Unescape(Escape(s)) == s
  {
    EscapeIsCharwise(s);
    UnescapeEscapeEach(s);
  }

  lemma {:induction false} EscapeEachNoBracket(s: String)
    ensures '<' !in EscapeEach(s) && '>' !in EscapeEach(s)
  {
    if s != [] {
      EscapeEachNoBracket(s[1..]);
    }
  }

  /** An escaped paragraph contains no `<` and no `>`. */
  lemma EscapedNoBracket(s: String)
    ensures '<' !in Escape(s) && '>' !in Escape(s)
  {
    EscapeIsCharwise(s);
    EscapeEachNoBracket(s);
  }

  /** `s.split(sep)` for a separator of any non-zero length. */
  function SplitOnString(s: String, sep: String): (parts: seq<String>)
    requires sep != []
    ensures |parts| >= 1
    decreases |s|
  {
    if |s| < |sep| then [s]
    else if s[..|sep|] == sep then [[]] + SplitOnString(s[|sep|..], sep)
    else
      var rest := SplitOnString(s[1..], sep);
      [[s[0]] + rest[0]] + rest[1..]
  }

  /** Putting a character in front of the first piece puts it in front of the joined text. */
  lemma JoinConsHead(sep: String, c: char, parts: seq<String>)
    requires parts != []
    ensures Join(sep, [[c] + parts[0]] + parts[1..]) == [c] + Join(sep, parts)
  {
    var q := [[c] + parts[0]] + parts[1..];
    assert q[1..] == parts[1..];
    if |parts| > 1 {
      assert Join(sep, q) == ([c] + parts[0]) + sep + Join(sep, parts[1..]);
    }
  }

  /** Splitting and joining with the same separator gives the text back. */
  lemma {:induction false} JoinSplitOnString(s: String, sep: String)
    requires sep != []
    ensures Join(sep, SplitOnString(s, sep)) == s
    decreases |s|
  {
    if |s| >= |sep| {
      if s[..|sep|] == sep {
        var rest := SplitOnString(s[|sep|..], sep);
        JoinSplitOnString(s[|sep|..], sep);
        assert ([[]] + rest)[1..] == rest;
        assert s == s[..|sep|] + s[|sep|..];
      } else {
        var rest := SplitOnString(s[1..], sep);
        JoinSplitOnString(s[1..], sep);
        JoinConsHead(sep, s[0], rest);
        assert s == [s[0]] + s[1..];
      }
    }
  }

  /** The body paragraphs of the summary PDF: the non-blank paragraphs, stripped and escaped. */
  function BodyParagraphs(parts: seq<String>): (r: seq<String>)
    ensures |r| <= |parts|
    ensures forall p :: p in r ==> '<' !in p && '>' !in p
  {
    if parts == [] then []
    else
      var p := Strip(parts[0]);
      EscapedNoBracket(p);
      (if p != [] then [Escape(p)] else []) + BodyParagraphs(parts[1..])
  }

  function SummaryParagraphs(summary: String): (r: seq<String>)
    ensures forall p :: p in r ==> '<' !in p && '>' !in p
  {
    BodyParagraphs(SplitOnString(summary, "\n\n"))
  }

  /** A blank summary yields no body paragraph. */
  lemma {:induction false} BlankParagraphsDropped(parts: seq<String>)
    requires forall i :: 0 <= i < |parts| ==> AllSpace(parts[i])
    ensures BodyParagraphs(parts) == []
  {
    if parts != [] {
      StripEmptyIffAllSpace(parts[0]);
      BlankParagraphsDropped(parts[1..]);
    }
  }
}
