/**
 * The documents of the question-answering service (LangChain's `Document`:
 * page content plus a metadata dict), the ranking of scored documents that
 * its retrieval steps share, and `RAG._clean_pdf_text`, which both versions
 * of the service carry in identical form.
 */
module Documents {
  import opened Wrappers
  import opened Text
  import opened Tally
  import opened Sorting

  /** A metadata value: a string, an integer, or a float (modelled as a real). */
  datatype Value = Str(s: String) | Int(i: int) | Real(r: real)

  /** `Document(page_content=content, metadata=metadata)` */
  datatype Doc = Doc(content: String, metadata: map<String, Value>)

  /** `metadata.get(name)` */
  function Get(d: Doc, name: String): Option<Value> {
    if name in d.metadata then Some(d.metadata[name]) else None
  }

  /**
   * `f"{v}"`.  The text form of a float is Python's `repr`, which is not part
   * of this model and enters as `realText`.
   */
  function Show(v: Value, realText: real -> String): String {
    match v
    case Str(s) => s
    case Int(i) => IntToString(i)
    case Real(r) => realText(r)
  }

  /** `(doc.metadata.get("source"), doc.metadata.get("chunk_index"))`: the key a chunk is known by. */
  datatype ChunkKey = ChunkKey(source: Option<Value>, chunkIndex: Option<Value>)

  function KeyOf(d: Doc): ChunkKey {
    ChunkKey(Get(d, "source"), Get(d, "chunk_index"))
  }

  /** No two documents share a chunk key. */
  predicate DistinctKeys(docs: seq<Doc>) {
    forall i, j :: 0 <= i < j < |docs| ==> KeyOf(docs[i]) != KeyOf(docs[j])
  }

  /** `f"doc{i}"`: the id the prompt gives the `i`-th document. */
  function DocId(i: nat): String {
    "doc" + NatToString(i)
  }

  /** Documents at different positions get different ids. */
  lemma DocIdInjective(i: nat, j: nat)
    requires DocId(i) == DocId(j)
    ensures i == j
  {
    assert NatToString(i) == DocId(i)[3..];
    assert NatToString(j) == DocId(j)[3..];
    NatToStringInjective(i, j);
  }

  /** `f"[id: doc{i} | {tag}]\n{content}\n\n"`: one document's block of a prompt context. */
  function Block(i: nat, tag: String, content: String): String {
    "[id: " + DocId(i) + " | " + tag + "]\n" + content + "\n\n"
  }

  // ------------------------------------------------------------ ranking

  /** A document with its score, ranked by the score (`key=lambda x: x[1]`). */
  function ScoreRank(p: (Doc, real)): Rank {
    Rank(p.1, 0.0)
  }

  /**
   * `pairs.sort(key=lambda x: x[1], reverse=True)` followed by `[:k]`: the
   * `k` best-scored pairs, best first; a pair left out scores no higher
   * than any kept one.
   */
  function TopScored(pairs: seq<(Doc, real)>, k: nat): (r: seq<(Doc, real)>)
    ensures |r| == if |pairs| <= k then |pairs| else k
    ensures multiset(r) <= multiset(pairs)
    ensures SortedDesc(r, ScoreRank)
    ensures forall p :: p in pairs && p !in r ==> |r| == k && forall q :: q in r ==> p.1 <= q.1
  {
    var r := Top(pairs, ScoreRank, k);
    assert forall p, q :: RankLe(ScoreRank(p), ScoreRank(q)) ==> p.1 <= q.1;
    r
  }

  function PairKey(p: (Doc, real)): ChunkKey {
    KeyOf(p.0)
  }

  /** Ranking and cutting keeps documents with distinct chunk keys distinct. */
  lemma TopScoredDistinct(pairs: seq<(Doc, real)>, k: nat)
    requires InjectiveOn(pairs, PairKey)
    ensures DistinctKeys(DocsOf(TopScored(pairs, k)))
  {
    SortDescInjective(pairs, ScoreRank, PairKey);
    var sorted := SortDesc(pairs, ScoreRank);
    var docs := DocsOf(TopScored(pairs, k));
    forall i, j | 0 <= i < j < |docs|
      ensures KeyOf(docs[i]) != KeyOf(docs[j])
    {
      assert docs[i] == sorted[i].0 && docs[j] == sorted[j].0;
      assert PairKey(sorted[i]) != PairKey(sorted[j]);
    }
  }

  /** `[doc for doc, _ in pairs]` */
  function DocsOf(pairs: seq<(Doc, real)>): (docs: seq<Doc>)
    ensures |docs| == |pairs|
    ensures forall i :: 0 <= i < |pairs| ==> docs[i] == pairs[i].0
    ensures forall p :: p in pairs ==> p.0 in docs
  {
    assert forall i :: 0 <= i < |pairs| ==> pairs[i].0 == seq(|pairs|, i requires 0 <= i < |pairs| => pairs[i].0)[i];
    seq(|pairs|, i requires 0 <= i < |pairs| => pairs[i].0)
  }

  /** `[(doc, score(doc.page_content)) for doc in docs]` */
  function ScoredBy(docs: seq<Doc>, score: String -> real): (pairs: seq<(Doc, real)>)
    ensures |pairs| == |docs|
    ensures forall i :: 0 <= i < |docs| ==> pairs[i] == (docs[i], score(docs[i].content))
  {
    seq(|docs|, i requires 0 <= i < |docs| => (docs[i], score(docs[i].content)))
  }

  /** Each document stands with its own score. */
  predicate ScoredByContent(pairs: seq<(Doc, real)>, score: String -> real) {
    forall p :: p in pairs ==> p.1 == score(p.0.content)
  }

  /** How often a document occurs is how often its scored pair does. */
  lemma DocsOfCount(pairs: seq<(Doc, real)>, score: String -> real, d: Doc)
    requires ScoredByContent(pairs, score)
    ensures multiset(DocsOf(pairs))[d] == multiset(pairs)[(d, score(d.content))]
  {
    var f := (d': Doc) => score(d'.content);
    forall i | 0 <= i < |pairs| ensures pairs[i].1 == f(pairs[i].0) {
      assert pairs[i] in pairs;
    }
    FirstsCount(pairs, f, d);
    assert DocsOf(pairs) == Firsts(pairs);
  }

  /** The top-`k` documents by a score of their content, best first (a stable sort). */
  function RankedByContent(docs: seq<Doc>, score: String -> real, k: nat): (r: seq<(Doc, real)>)
    ensures |r| == if |docs| <= k then |docs| else k
    ensures SortedDesc(r, ScoreRank)
    ensures forall p :: p in r ==> p.0 in docs && p.1 == score(p.0.content)
    ensures forall i, j :: 0 <= i < j < |r| ==> score(r[j].0.content) <= score(r[i].0.content)
  {
    var pairs := ScoredBy(docs, score);
    var r := TopScored(pairs, k);
    ScoredByScores(docs, score);
    TopScoredFromDocs(docs, score, pairs, r);
    SortedByContent(r, score);
    r
  }

  /** Pairs sorted by score and scored by content are sorted by content score. */
  lemma SortedByContent(r: seq<(Doc, real)>, score: String -> real)
    requires SortedDesc(r, ScoreRank) && ScoredByContent(r, score)
    ensures forall i, j :: 0 <= i < j < |r| ==> score(r[j].0.content) <= score(r[i].0.content)
  {
    forall i, j | 0 <= i < j < |r| ensures score(r[j].0.content) <= score(r[i].0.content) {
      assert r[i] in r && r[j] in r;
      assert RankLe(ScoreRank(r[j]), ScoreRank(r[i]));
    }
  }

  /**
   * The ranked documents repeat none beyond its occurrences, and a document
   * left out was cut by the limit and scores no higher than any kept one.
   */
  lemma RankedByContentCut(docs: seq<Doc>, score: String -> real, k: nat)
    ensures var r := RankedByContent(docs, score, k);
            multiset(DocsOf(r)) <= multiset(docs)
            && forall d :: d in docs && d !in DocsOf(r) ==> |r| == k && forall p :: p in r ==> score(d.content) <= p.1
  {
    var pairs := ScoredBy(docs, score);
    var r := TopScored(pairs, k);
    ScoredByScores(docs, score);
    TopScoredFromDocs(docs, score, pairs, r);
    TopScoredDocCounts(docs, score, pairs, r);
    forall d | d in docs && d !in DocsOf(r)
      ensures |r| == k && forall p :: p in r ==> score(d.content) <= p.1
    {
      var i :| 0 <= i < |docs| && docs[i] == d;
      assert pairs[i] == (d, score(d.content));
    }
  }

  lemma ScoredByScores(docs: seq<Doc>, score: String -> real)
    ensures ScoredByContent(ScoredBy(docs, score), score)
    ensures DocsOf(ScoredBy(docs, score)) == docs
  {
    var pairs := ScoredBy(docs, score);
    forall p | p in pairs ensures p.1 == score(p.0.content) {
      var i :| 0 <= i < |pairs| && pairs[i] == p;
    }
  }

  lemma TopScoredFromDocs(docs: seq<Doc>, score: String -> real, pairs: seq<(Doc, real)>, r: seq<(Doc, real)>)
    requires ScoredByContent(pairs, score) && DocsOf(pairs) == docs
    requires multiset(r) <= multiset(pairs)
    ensures forall p :: p in r ==> p.0 in docs && p.1 == score(p.0.content)
  {
    forall p | p in r
      ensures p.0 in docs && p.1 == score(p.0.content)
    {
      assert p in multiset(pairs);
    }
  }

  lemma TopScoredDocCounts(docs: seq<Doc>, score: String -> real, pairs: seq<(Doc, real)>, r: seq<(Doc, real)>)
    requires ScoredByContent(pairs, score) && DocsOf(pairs) == docs
    requires multiset(r) <= multiset(pairs) && ScoredByContent(r, score)
    ensures multiset(DocsOf(r)) <= multiset(docs)
  {
    forall d ensures multiset(DocsOf(r))[d] <= multiset(docs)[d] {
      DocsOfCount(r, score, d);
      DocsOfCount(pairs, score, d);
    }
  }

  // -------------------------------------------------------- _clean_pdf_text

  /** `text.replace('\r\n', '\n').replace('\r', '\n')` */
  function NormalizeNewlines(s: String): String {
    ReplaceAll(ReplaceAll(s, "\r\n", "\n"), "\r", "\n")
  }

  /** `re.sub(r'\n{2,}', '\n', s)`: every run of newlines becomes one newline. */
  function SqueezeNewlineRuns(s: String): String
    decreases |s|
  {
    if s == [] then []
    else if s[0] == '\n' then "\n" + SqueezeNewlineRuns(s[RunOf(s, '\n')..])
    else [s[0]] + SqueezeNewlineRuns(s[1..])
  }

  /** A newline with no newline on either side (`(?<!\n)\n(?!\n)`). */
  predicate LoneNewline(s: String, i: nat)
    requires i < |s|
  {
    s[i] == '\n' && (i == 0 || s[i - 1] != '\n') && (i + 1 == |s| || s[i + 1] != '\n')
  }

  /** `re.sub(r'(?<!\n)\n(?!\n)', ' ', s)` */
  function LoneNewlinesToSpace(s: String): (r: String)
    ensures |r| == |s|
  {
    seq(|s|, i requires 0 <= i < |s| => if LoneNewline(s, i) then ' ' else s[i])
  }

  /** The regular-expression steps of the cleaning, up to and including `\s+` → one space. */
  function CollapsedPdfText(text: String): String {
    CollapseSpaces(LoneNewlinesToSpace(ReplaceAll(SqueezeNewlineRuns(NormalizeNewlines(text)), "-\n", "")))
  }

  /** The dedup loop: each distinct stripped non-blank line once, at its first occurrence. */
  function UniqueLines(lines: seq<String>): (r: seq<String>)
    ensures NoDup(r)
  {
    FirstAppearance(NonBlankLines(lines))
  }

  /** A line is kept exactly when it is the non-empty stripped form of some line. */
  lemma UniqueLinesMembers(lines: seq<String>, l: String)
    ensures l in UniqueLines(lines) <==> l != [] && exists i :: 0 <= i < |lines| && Strip(lines[i]) == l
  {
    NonBlankLinesMembers(lines, l);
  }

  lemma UniqueLinesSingle(t: String)
    ensures UniqueLines([t]) == if Strip(t) != [] then [Strip(t)] else []
  {
    NonBlankLinesStep([t], 0);
    assert [t][..1] == [t] && [t][..0] == [];
    var kept := NonBlankLines([t]);
    if Strip(t) != [] {
      assert kept == [Strip(t)];
      assert kept[..0] == [];
    }
  }

  /** `_clean_pdf_text` */
  function CleanedPdfText(text: String): String {
    Join(" ", UniqueLines(SplitOn(CollapsedPdfText(text), '\n')))
  }

  /** One more line through the dedup loop. */
  lemma UniqueLinesStep(lines: seq<String>, i: nat)
    requires i < |lines|
    ensures UniqueLines(lines[..i + 1]) ==
              var l := Strip(lines[i]);
              if l != [] && l !in UniqueLines(lines[..i]) then UniqueLines(lines[..i]) + [l]
              else UniqueLines(lines[..i])
  {
    NonBlankLinesStep(lines, i);
    var kept := NonBlankLines(lines[..i]);
    var l := Strip(lines[i]);
    if l != [] {
      var s := kept + [l];
      assert s[..|s| - 1] == kept;
    } else {
      assert kept + [] == kept;
    }
  }

  /**
   * White space has been collapsed before the text is split on newlines, so
   * there is a single line and the dedup loop returns it stripped.
   */
  lemma CleanedIsOneLine(text: String)
    ensures CleanedPdfText(text) == Strip(CollapsedPdfText(text))
  {
    var t := CollapsedPdfText(text);
    CollapsedPlainSpaces(LoneNewlinesToSpace(ReplaceAll(SqueezeNewlineRuns(NormalizeNewlines(text)), "-\n", "")), false);
    PlainSpacesNoNewline(t);
    SplitOnAbsent(t, '\n');
    UniqueLinesSingle(t);
  }

  /** The cleaned text has no newline, no double white space and no white space at either end. */
  lemma CleanedPdfTextTidy(text: String)
    ensures Tidy(CleanedPdfText(text))
  {
    CleanedIsOneLine(text);
    CollapseStripTidy(LoneNewlinesToSpace(ReplaceAll(SqueezeNewlineRuns(NormalizeNewlines(text)), "-\n", "")));
  }

  /** One line through the dedup loop body: kept when non-empty and not yet in `lines_seen`. */
  method Keep(cleaned: seq<String>, seen: set<String>, line: String) returns (cleaned': seq<String>, seen': set<String>)
    requires forall l :: l in seen <==> l in cleaned
    ensures cleaned' == if line != [] && line !in cleaned then cleaned + [line] else cleaned
    ensures forall l :: l in seen' <==> l in cleaned'
  {
    if line != [] && line !in seen {
      cleaned', seen' := cleaned + [line], seen + {line};
    } else {
      cleaned', seen' := cleaned, seen;
    }
  }

  /** The dedup loop of `_clean_pdf_text`, with its `lines_seen` set. */
  method KeepFirstLines(lines: seq<String>) returns (cleaned: seq<String>)
    ensures cleaned == UniqueLines(lines)
  {
    var seen: set<String> := {};
    cleaned := [];
    for i := 0 to |lines|
      invariant cleaned == UniqueLines(lines[..i])
      invariant forall l :: l in seen <==> l in cleaned
    {
      UniqueLinesStep(lines, i);
      cleaned, seen := Keep(cleaned, seen, Strip(lines[i]));
    }
    assert lines[..|lines|] == lines;
  }

  /** `RAG._clean_pdf_text`: the regular-expression steps, then the dedup loop over the lines. */
  method CleanPdfText(text: String) returns (r: String)
    ensures r == CleanedPdfText(text)
    ensures Tidy(r)
  {
    var cleaned := KeepFirstLines(SplitOn(CollapsedPdfText(text), '\n'));
    r := Join(" ", cleaned);
    CleanedPdfTextTidy(text);
  }

  // ------------------------------------------- a word broken over a line

  /** Replacement changes nothing where the pattern does not occur. */
  lemma {:induction false} ReplaceNoOccurrence(s: String, pat: String, rep: String)
    requires pat != [] && !Contains(s, pat)
    ensures ReplaceAll(s, pat, rep) == s
    decreases |s|
  {
    if |s| >= |pat| {
      assert !OccursAt(s, pat, 0);
      assert s[..|pat|] == s[0..0 + |pat|];
      forall i: nat | i <= |s[1..]|
        ensures !OccursAt(s[1..], pat, i)
      {
        OccursAtTail(s, pat, i);
      }
      ReplaceNoOccurrence(s[1..], pat, rep);
      assert [s[0]] + s[1..] == s;
    }
  }

  /** A pattern with a character missing from the text does not occur in it. */
  lemma AbsentPatternChar(s: String, pat: String, j: nat)
    requires j < |pat| && pat[j] !in s
    ensures !Contains(s, pat)
  {
    forall i: nat | i <= |s|
      ensures !OccursAt(s, pat, i)
    {
      if i + |pat| <= |s| {
        assert s[i..i + |pat|][j] == s[i + j];
      }
    }
  }

  lemma SqueezeNewlineRunsNone(s: String)
    requires '\n' !in s
    ensures SqueezeNewlineRuns(s) == s
    decreases |s|
  {
    if s != [] {
      SqueezeNewlineRunsNone(s[1..]);
      assert [s[0]] + s[1..] == s;
    }
  }

  lemma {:induction false} CollapseNoSpace(s: String, h: bool)
    requires forall i :: 0 <= i < |s| ==> !IsSpace(s[i])
    ensures RewriteRuns(AllToSpace, s, h) == s
    decreases |s|
  {
    if s != [] {
      CollapseNoSpace(s[1..], s[0] == '-');
      assert [s[0]] + s[1..] == s;
    }
  }

  /**
   * A word hyphenated over a line break comes out joined:
   * `exam-\nple` becomes `example`.
   */
  lemma DehyphenatesLineBreak(a: String, b: String)
    requires IsWord(a) && IsWord(b)
    ensures CleanedPdfText(a + "-\n" + b) == a + b
  {
    var tail: String := "-\n" + b;
    var s := a + tail;
    assert s == a + "-\n" + b;
    assert '\r' !in s && '\r' !in "\n";
    AbsentPatternChar(s, "\r\n", 0);
    ReplaceNoOccurrence(s, "\r\n", "\n");
    AbsentPatternChar(s, "\r", 0);
    ReplaceNoOccurrence(s, "\r", "\n");
    assert NormalizeNewlines(s) == s;
    SqueezeKeepsBreak(a, b);
    assert '\n' !in a && '\n' !in b;
    AbsentPatternChar(a, "-\n", 1);
    assert "-\n"[1..] == "\n";
    NoOccurrenceBefore(a, tail, "-\n");
    ReplaceSkipsPrefix(a, tail, "-\n", "");
    ReplaceAtFront("-\n", b, "");
    AbsentPatternChar(b, "-\n", 1);
    ReplaceNoOccurrence(b, "-\n", "");
    var ab := a + b;
    assert ReplaceAll(s, "-\n", "") == ab;
    assert forall i :: 0 <= i < |ab| ==> !IsSpace(ab[i]);
    assert LoneNewlinesToSpace(ab) == ab;
    CollapseNoSpace(ab, false);
    assert CollapsedPdfText(s) == ab;
    CleanedIsOneLine(s);
    assert Trimmed(ab);
    StripOfTrimmed(ab);
  }

  /** A single newline between newline-free texts is left alone by the newline squeeze. */
  lemma SqueezeKeepsBreak(a: String, b: String)
    requires '\n' !in a && '\n' !in b
    ensures SqueezeNewlineRuns(a + "-\n" + b) == a + "-\n" + b
  {
    var w := a + "-";
    var nb := "\n" + b;
    assert a + "-\n" + b == w + nb;
    SqueezeSkipsWord(w, nb);
    assert RunOf(nb, '\n') == 1 by {
      assert nb[1..] == b;
    }
    assert nb[1..] == b;
    SqueezeNewlineRunsNone(b);
  }

  /** A prefix without newlines is left alone by the newline squeeze. */
  lemma {:induction false} SqueezeSkipsWord(w: String, rest: String)
    requires '\n' !in w
    ensures SqueezeNewlineRuns(w + rest) == w + SqueezeNewlineRuns(rest)
    decreases |w|
  {
    if w != [] {
      assert (w + rest)[1..] == w[1..] + rest;
      SqueezeSkipsWord(w[1..], rest);
    } else {
      assert w + rest == rest;
    }
  }
}
