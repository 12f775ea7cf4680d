/**
 * Choosing a paper's title from the text lines of its first pages: reject
 * lines that cannot be titles, tidy the text of a line, merge a line with
 * the next similar one, rank the merged lines, and fall back to a title
 * made from the file name.
 */
module Titles {
  import opened Wrappers
  import opened Text
  import opened Sorting
  import opened Tally

  // ------------------------------------------------------ bad candidates

  /** `\b` right after a word character: end of text or a non-word character. */
  predicate NotWordAt(s: String, i: nat) {
    i >= |s| || !IsWordChar(s[i])
  }

  /** `\b` right before a word character. */
  predicate NotWordBefore(s: String, i: nat) {
    i == 0 || i > |s| || !IsWordChar(s[i - 1])
  }

  /** `\d+\b` at the start of the text. */
  predicate DigitsThenBoundary(s: String) {
    DigitRunLen(s) >= 1 && NotWordAt(s, DigitRunLen(s))
  }

  /** The text without its leading white space run (what `\s*` skips). */
  function SkipSpaces(s: String): (r: String)
    ensures |r| <= |s|
  {
    s[SpaceRunLen(s)..]
  }

  /** `^\s*<kw>\b` for a keyword that ends in a word character. */
  predicate KeywordAtStart(s: String, kw: String) {
    var t := SkipSpaces(s);
    StartsWith(t, kw) && NotWordAt(t, |kw|)
  }

  /** `^https?://` */
  predicate IsUrl(l: String) {
    StartsWith(l, "http://") || StartsWith(l, "https://")
  }

  /** `\bdoi\.org\b` at position `i`. */
  predicate DoiOrgAt(l: String, i: nat) {
    OccursAt(l, "doi.org", i) && NotWordBefore(l, i) && NotWordAt(l, i + 7)
  }

  predicate MentionsDoiOrg(l: String) {
    exists i: nat | i < |l| :: DoiOrgAt(l, i)
  }

  /** `^doi\b` */
  predicate StartsWithDoi(l: String) {
    StartsWith(l, "doi") && NotWordAt(l, 3)
  }

  /** `^layout\s*\d+\b` */
  predicate IsLayoutLine(l: String) {
    StartsWith(l, "layout") && DigitsThenBoundary(SkipSpaces(l[6..]))
  }

  predicate IsDashChar(c: char) {
    c == '\U{2013}' || c == '-' || c == '.'
  }

  function DashRunLen(s: String): (n: nat)
    ensures n <= |s|
  {
    if s != [] && IsDashChar(s[0]) then 1 + DashRunLen(s[1..]) else 0
  }

  /** `\s*[–\-\.]{1,2}\s*\d+\b` at the start of the text. */
  predicate PageRangeTail(u: String) {
    var v := SkipSpaces(u);
    var n := DashRunLen(v);
    (n == 1 || n == 2) && DigitsThenBoundary(SkipSpaces(v[n..]))
  }

  /** `\bpp?\s*\d+(\s*[–\-\.]{1,2}\s*\d+)?\b` at position `i`. */
  predicate PageRefAt(l: String, i: nat) {
    i < |l| && l[i] == 'p' && NotWordBefore(l, i) &&
    var j := if i + 1 < |l| && l[i + 1] == 'p' then i + 2 else i + 1;
    var t := SkipSpaces(l[j..]);
    var d := DigitRunLen(t);
    d >= 1 && (NotWordAt(t, d) || PageRangeTail(t[d..]))
  }

  predicate MentionsPages(l: String) {
    exists i: nat | i < |l| :: PageRefAt(l, i)
  }

  /** Length of the separator of a numeric range: `–`, `-`, `..` or `to`. */
  function RangeSepLen(v: String): nat {
    if StartsWith(v, "\U{2013}") || StartsWith(v, "-") then 1
    else if StartsWith(v, "..") || StartsWith(v, "to") then 2
    else 0
  }

  /** `^\s*\d+\s*(–|-|\.\.|to)\s*\d+\s*$` */
  predicate IsNumericRange(l: String) {
    var t := SkipSpaces(l);
    var d1 := DigitRunLen(t);
    d1 >= 1 &&
    var v := SkipSpaces(t[d1..]);
    var n := RangeSepLen(v);
    n > 0 &&
    var x := SkipSpaces(v[n..]);
    var d2 := DigitRunLen(x);
    d2 >= 1 && AllSpace(x[d2..])
  }

  /** `^\s*figure\s+\d+\b` and `^\s*table\s+\d+\b` */
  predicate IsCaption(l: String, word: String) {
    var t := SkipSpaces(l);
    StartsWith(t, word) &&
    var r := t[|word|..];
    SpaceRunLen(r) >= 1 && DigitsThenBoundary(SkipSpaces(r))
  }

  /** Some entry of the list of bad patterns matches the text, ignoring case. */
  predicate MatchesBadPattern(s: String) {
    var l := LowerStr(s);
    IsUrl(l) || MentionsDoiOrg(l) || StartsWithDoi(l) || IsLayoutLine(l)
    || MentionsPages(l) || IsNumericRange(l)
    || IsCaption(l, "figure") || IsCaption(l, "table")
    || KeywordAtStart(l, "contents") || KeywordAtStart(l, "references")
    || KeywordAtStart(l, "correction") || KeywordAtStart(l, "erratum")
  }

  /** The share of digits exceeds a quarter: `digits / max(1, len) > 0.25`. */
  predicate TooManyDigits(n: String) {
    (CountDigits(n) as real) / ((if |n| < 1 then 1 else |n|) as real) > 0.25
  }

  lemma RatioAboveQuarter(d: real, l: real)
    requires l > 0.0
    ensures d / l > 0.25 <==> 4.0 * d > l
  {
    var q := d / l;
    assert q * l == d;
    if q > 0.25 {
      assert (q - 0.25) * l > 0.0;
    } else {
      assert (0.25 - q) * l >= 0.0;
    }
  }

  /** The ratio test in integers. */
  lemma TooManyDigitsInt(n: String)
    ensures |n| >= 1 ==> (TooManyDigits(n) <==> 4 * CountDigits(n) > |n|)
  {
    if |n| >= 1 {
      RatioAboveQuarter(CountDigits(n) as real, |n| as real);
    }
  }

  function IsBadCandidate(s: String): (bad: bool)
    ensures |NormalizeSpaces(s)| < 10 ==> bad
    ensures |NormalizeSpaces(s)| >= 10 ==>
      (bad <==> 4 * CountDigits(NormalizeSpaces(s)) > |NormalizeSpaces(s)|
                || MatchesBadPattern(NormalizeSpaces(s)))
  {
    var n := NormalizeSpaces(s);
    TooManyDigitsInt(n);
    |n| < 10 || TooManyDigits(n) || MatchesBadPattern(n)
  }

  /** The verdict depends only on the normalised text. */
  lemma IsBadCandidateNormalized(s: String)
    ensures IsBadCandidate(NormalizeSpaces(s)) == IsBadCandidate(s)
  {
    NormalizeSpacesIdempotent(s);
  }

  // ---------------------------------------------------------- clean_title

  predicate IsTrailingPunct(c: char) {
    c == '\U{2022}' || c == '\U{B7}' || c == '|' || c == ':' || c == ';' || c == ','
    || c == '-' || c == '\U{2013}' || c == '\U{2014}'
  }

  /** `re.sub(r"[•·|:;,\-–—]+$", "", t)`: drop the trailing run of punctuation. */
  function DropTrailingPunct(s: String): (r: String)
    ensures |r| <= |s| && r == s[..|r|]
    ensures r != [] ==> !IsTrailingPunct(r[|r| - 1])
    ensures forall i :: |r| <= i < |s| ==> IsTrailingPunct(s[i])
  {
    if s != [] && IsTrailingPunct(s[|s| - 1]) then
      var r := DropTrailingPunct(s[..|s| - 1]);
      assert forall i :: |r| <= i < |s| - 1 ==> s[..|s| - 1][i] == s[i];
      r
    else s
  }

  lemma PrefixKeeps(s: String, r: String, c: char)
    requires |r| <= |s| && r == s[..|r|]
    ensures NoDoubleSpace(s) ==> NoDoubleSpace(r)
    ensures c !in s ==> c !in r
  {
    assert forall i :: 0 <= i < |r| ==> r[i] == s[i];
  }

  /**
   * `clean_title`: a cleaned title has no newline, no soft hyphen, no double
   * white space and no white space at either end.
   */
  function CleanTitle(t: String): (r: String)
    ensures Tidy(r)
    ensures '\U{AD}' !in r
  {
    var t1 := ReplaceAll(t, "\U{AD}", "");
    ReplaceRemovesChar(t, '\U{AD}', "");
    CleanedTitleTidy(t1);
    Strip(DropTrailingPunct(Strip(CollapseBreaks(t1))))
  }

  /** Join words hyphenated across lines, then turn line breaks and long white-space runs into one space. */
  function CollapseBreaks(t: String): String {
    RewriteRuns(LongRunToSpace, RewriteRuns(NewlineRunToSpace, RewriteRuns(JoinHyphenated, t, false), false), false)
  }

  /** Once soft hyphens are gone, the rest of the cleaning leaves tidy text without them. */
  lemma CleanedTitleTidy(t1: String)
    requires '\U{AD}' !in t1
    ensures var r := Strip(DropTrailingPunct(Strip(CollapseBreaks(t1))));
            Tidy(r) && '\U{AD}' !in r
  {
    var t2 := RewriteRuns(JoinHyphenated, t1, false);
    var t3 := RewriteRuns(NewlineRunToSpace, t2, false);
    var long := RewriteRuns(LongRunToSpace, t3, false);
    var t4 := Strip(long);
    var t5 := DropTrailingPunct(t4);
    NewlineRunsRemoved(t2, false);
    ShortRunsNoDoubleSpace(LongRunToSpace, t3, false);
    StripKeepsNoDoubleSpace(long);
    if '\n' in long {
      RewriteRunsChars(LongRunToSpace, t3, false, '\n');
    }
    StripKeepsAbsent(long, '\n');
    if '\U{AD}' in t2 { RewriteRunsChars(JoinHyphenated, t1, false, '\U{AD}'); }
    if '\U{AD}' in t3 { RewriteRunsChars(NewlineRunToSpace, t2, false, '\U{AD}'); }
    if '\U{AD}' in long { RewriteRunsChars(LongRunToSpace, t3, false, '\U{AD}'); }
    StripKeepsAbsent(long, '\U{AD}');
    PrefixKeeps(t4, t5, '\U{AD}');
    StripKeepsAbsent(t5, '\U{AD}');
    PrefixKeeps(t4, t5, '\n');
    StripKeepsNoDoubleSpace(t5);
    StripKeepsAbsent(t5, '\n');
  }

  // ------------------------------------------------------ group_and_score

  datatype LineCand = LineCand(text: String, fontsize: real, yTop: real, boxId: int)

  /** A merged line with its score. */
  datatype Scored = Scored(score: real, text: String)

  /** Which sorted lines make up one entry: a leading line and at most one absorbed line. */
  datatype Group = Group(lead: nat, partner: Option<nat>)

  function LineRank(c: LineCand): Rank { Rank(c.fontsize, c.yTop) }

  function ScoreRank(s: Scored): Rank { Rank(s.score, 0.0) }

  function Abs(x: real): real { if x < 0.0 then -x else x }

  /** Same text box, font sizes less than 1.0 apart, tops less than 28 apart. */
  predicate Compatible(c: LineCand, d: LineCand) {
    d.boxId == c.boxId && Abs(d.fontsize - c.fontsize) < 1.0 && Abs(d.yTop - c.yTop) < 28.0
  }

  /** The text of a line that absorbed the line below it. */
  function Merged(c: LineCand, d: LineCand): String {
    CleanTitle(c.text + " " + d.text)
  }

  predicate GroupFits(cands: seq<LineCand>, g: Group) {
    g.lead < |cands|
    && (g.partner.Some? ==>
          g.lead < g.partner.value < g.lead + 6 && g.partner.value < |cands|
          && Compatible(cands[g.lead], cands[g.partner.value]))
  }

  /** The text and score of a group of sorted lines. */
  function Entry(cands: seq<LineCand>, g: Group): Scored
    requires GroupFits(cands, g)
  {
    var c := cands[g.lead];
    var txt := if g.partner.Some? then Merged(c, cands[g.partner.value]) else c.text;
    Scored(c.fontsize * 3.0 + c.yTop / 100.0, txt)
  }

  /** The line indices a list of groups consumes. */
  function Consumed(groups: seq<Group>): seq<nat> {
    if groups == [] then []
    else
      var g := groups[|groups| - 1];
      Consumed(groups[..|groups| - 1]) + [g.lead] + (if g.partner.Some? then [g.partner.value] else [])
  }

  /** The text and score of each group, in group order. */
  function Entries(cands: seq<LineCand>, groups: seq<Group>): (r: seq<Scored>)
    requires forall i :: 0 <= i < |groups| ==> GroupFits(cands, groups[i])
    ensures |r| == |groups|
    ensures forall i :: 0 <= i < |groups| ==> r[i] == Entry(cands, groups[i])
  {
    seq(|groups|, i requires 0 <= i < |groups| => Entry(cands, groups[i]))
  }

  /** The entries that are not bad candidates, in their order. */
  function GoodOnly(es: seq<Scored>): (r: seq<Scored>)
    ensures |r| <= |es|
    ensures forall e :: e in r <==> e in es && !IsBadCandidate(e.text)
  {
    if es == [] then []
    else
      var n := |es| - 1;
      assert forall e :: e in es <==> e in es[..n] || e == es[n];
      GoodOnly(es[..n]) + if IsBadCandidate(es[n].text) then [] else [es[n]]
  }

  /** Filtering keeps the order: two runs of entries are filtered one after the other. */
  lemma {:induction false} GoodOnlyAppend(a: seq<Scored>, b: seq<Scored>)
    ensures GoodOnly(a + b) == GoodOnly(a) + GoodOnly(b)
    decreases |b|
  {
    if b == [] {
      assert a + b == a;
    } else {
      var n := |b| - 1;
      var last := if IsBadCandidate(b[n].text) then [] else [b[n]];
      assert (a + b)[..|a + b| - 1] == a + b[..n];
      assert (a + b)[|a + b| - 1] == b[n];
      assert GoodOnly(a + b) == GoodOnly(a + b[..n]) + last;
      assert GoodOnly(b) == GoodOnly(b[..n]) + last;
      GoodOnlyAppend(a, b[..n]);
      SeqAssoc(GoodOnly(a), GoodOnly(b[..n]), last);
    }
  }

  /** The entries of the groups whose text is not a bad candidate, in group order. */
  function GoodEntries(cands: seq<LineCand>, groups: seq<Group>): (r: seq<Scored>)
    requires forall i :: 0 <= i < |groups| ==> GroupFits(cands, groups[i])
    ensures |r| <= |groups|
    ensures forall e :: e in r <==> e in Entries(cands, groups) && !IsBadCandidate(e.text)
  {
    GoodOnly(Entries(cands, groups))
  }

  /**
   * The inner loop of `group_and_score`: the first unused compatible line
   * among the next five, if any.
   */
  method FindPartner(cands: seq<LineCand>, i: nat, used: set<nat>) returns (partner: Option<nat>)
    requires i < |cands|
    ensures partner.Some? ==>
              i < partner.value < Min(i + 6, |cands|) && partner.value !in used
              && Compatible(cands[i], cands[partner.value])
    ensures partner.Some? ==> forall j :: i < j < partner.value && j !in used ==> !Compatible(cands[i], cands[j])
    ensures partner.None? ==> forall j :: i < j < Min(i + 6, |cands|) && j !in used ==> !Compatible(cands[i], cands[j])
  {
    var j := i + 1;
    while j < Min(i + 6, |cands|)
      invariant i + 1 <= j <= Min(i + 6, |cands|)
      invariant forall k :: i < k < j && k !in used ==> !Compatible(cands[i], cands[k])
    {
      if j !in used && Compatible(cands[i], cands[j]) {
        return Some(j);
      }
      j := j + 1;
    }
    return None;
  }

  /**
   * One step of the greedy grouping, given the lines already used: the
   * group is led by the first unused line and takes the first unused line
   * among the next five that is compatible with it, if any.
   */
  predicate GreedyStep(cands: seq<LineCand>, used: seq<nat>, g: Group) {
    g.lead < |cands| && g.lead !in used
    && (forall k :: 0 <= k < g.lead ==> k in used)
    && (g.partner.Some? ==>
          var p := g.partner.value;
          g.lead < p < Min(g.lead + 6, |cands|) && p !in used && Compatible(cands[g.lead], cands[p])
          && forall j :: g.lead < j < p && j !in used ==> !Compatible(cands[g.lead], cands[j]))
    && (g.partner.None? ==>
          forall j :: g.lead < j < Min(g.lead + 6, |cands|) && j !in used ==> !Compatible(cands[g.lead], cands[j]))
  }

  /** Every group is the greedy choice given the groups before it. */
  predicate Greedy(cands: seq<LineCand>, groups: seq<Group>) {
    forall t {:trigger Consumed(groups[..t])} :: 0 <= t < |groups| ==> GreedyStep(cands, Consumed(groups[..t]), groups[t])
  }

  /**
   * The grouping loop of `group_and_score` over the lines already sorted by
   * font size and position: every line not yet used leads a group and
   * absorbs the first unused compatible line among the next five, if any.
   */
  method GroupLines(cands: seq<LineCand>) returns (groups: seq<Group>)
    ensures forall g :: g in groups ==> GroupFits(cands, g)
    ensures NoDup(Consumed(groups))
    ensures forall k :: 0 <= k < |cands| <==> k in Consumed(groups)
    ensures |groups| <= |cands|
    ensures Greedy(cands, groups)
  {
    var n := |cands|;
    var used: set<nat> := {};
    groups := [];
    var i: nat := 0;
    while i < n
      invariant 0 <= i <= n
      invariant forall g :: g in groups ==> GroupFits(cands, g)
      invariant NoDup(Consumed(groups))
      invariant forall k :: k in used <==> k in Consumed(groups)
      invariant forall k :: k in used ==> k < n
      invariant forall k :: 0 <= k < i ==> k in used
      invariant |groups| <= i
      invariant Greedy(cands, groups)
    {
      if i !in used {
        var partner := FindPartner(cands, i, used);
        var g := Group(i, partner);
        GroupStep(cands, groups, used, g);
        PartnerIsGreedy(cands, groups, used, g);
        GreedySnoc(cands, groups, g);
        groups := groups + [g];
        used := used + (if partner.Some? then {i, partner.value} else {i});
      }
      CoverStep(used, i);
      i := i + 1;
    }
    forall k | k in Consumed(groups) ensures 0 <= k < n {
      assert k in used;
    }
  }

  /**
   * `group_and_score`: the lines sorted by font size and position, grouped,
   * each group turned into its cleaned text and score, the bad candidates
   * dropped, and the rest sorted best score first.
   */
  method GroupAndScore(input: seq<LineCand>) returns (ranked: seq<Scored>, ghost groups: seq<Group>)
    ensures |ranked| <= |input|
    ensures forall g :: g in groups ==> GroupFits(SortDesc(input, LineRank), g)
    ensures NoDup(Consumed(groups))
    ensures forall k :: 0 <= k < |input| <==> k in Consumed(groups)
    ensures Greedy(SortDesc(input, LineRank), groups)
    ensures ranked == SortDesc(GoodEntries(SortDesc(input, LineRank), groups), ScoreRank)
    ensures SortedDesc(ranked, ScoreRank)
    ensures forall e :: e in ranked ==> !IsBadCandidate(e.text)
  {
    var cands := SortDesc(input, LineRank);
    var gs := GroupLines(cands);
    groups := gs;
    var scored := GoodEntries(cands, gs);
    ranked := SortDesc(scored, ScoreRank);
    SortDescSameElements(scored, ScoreRank);
  }

  lemma GreedySnoc(cands: seq<LineCand>, groups: seq<Group>, g: Group)
    requires Greedy(cands, groups) && GreedyStep(cands, Consumed(groups), g)
    ensures Greedy(cands, groups + [g])
  {
    var gs := groups + [g];
    forall t | 0 <= t < |gs| ensures GreedyStep(cands, Consumed(gs[..t]), gs[t]) {
      if t < |groups| {
        assert gs[..t] == groups[..t];
      } else {
        assert gs[..t] == groups;
      }
    }
  }

  /** The partner `FindPartner` picks for the first unused line is the greedy step. */
  lemma PartnerIsGreedy(cands: seq<LineCand>, groups: seq<Group>, used: set<nat>, g: Group)
    requires forall k :: k in used <==> k in Consumed(groups)
    requires g.lead < |cands| && g.lead !in used && forall k :: 0 <= k < g.lead ==> k in used
    requires g.partner.Some? ==>
               g.lead < g.partner.value < Min(g.lead + 6, |cands|) && g.partner.value !in used
               && Compatible(cands[g.lead], cands[g.partner.value])
    requires g.partner.Some? ==>
               forall j :: g.lead < j < g.partner.value && j !in used ==> !Compatible(cands[g.lead], cands[j])
    requires g.partner.None? ==>
               forall j :: g.lead < j < Min(g.lead + 6, |cands|) && j !in used ==> !Compatible(cands[g.lead], cands[j])
    ensures GreedyStep(cands, Consumed(groups), g)
  {
  }

  /** The greedy step leaves no choice. */
  lemma GreedyStepUnique(cands: seq<LineCand>, used: seq<nat>, g: Group, h: Group)
    requires GreedyStep(cands, used, g) && GreedyStep(cands, used, h)
    ensures g == h
  {
    assert g.lead == h.lead;
  }


  /**
   * The grouping is determined: two greedy groupings that both use every
   * line are the same, so the contract of `GroupLines` fixes its result.
   */
  lemma {:induction false} GreedyUnique(cands: seq<LineCand>, a: seq<Group>, b: seq<Group>)
    requires Greedy(cands, a) && Greedy(cands, b)
    requires forall k :: 0 <= k < |cands| ==> k in Consumed(a) && k in Consumed(b)
    ensures a == b
  {
    var t := 0;
    while t < |a| && t < |b|
      invariant 0 <= t <= |a| && t <= |b|
      invariant forall q :: 0 <= q < t ==> a[q] == b[q]
    {
      SamePrefix(a, b, t);
      assert GreedyStep(cands, Consumed(a[..t]), a[t]);
      assert GreedyStep(cands, Consumed(b[..t]), b[t]);
      GreedyStepUnique(cands, Consumed(a[..t]), a[t], b[t]);
      t := t + 1;
    }
    SamePrefix(a, b, t);
    assert a[..|a|] == a && b[..|b|] == b;
    GreedyNext(cands, a, t);
    GreedyNext(cands, b, t);
  }

  /** A group after the first `t` leads with a line those groups have not used. */
  lemma GreedyNext(cands: seq<LineCand>, groups: seq<Group>, t: nat)
    requires Greedy(cands, groups) && t <= |groups|
    ensures t < |groups| ==> groups[t].lead < |cands| && groups[t].lead !in Consumed(groups[..t])
  {
    if t < |groups| {
      assert GreedyStep(cands, Consumed(groups[..t]), groups[t]);
    }
  }

  lemma SamePrefix(a: seq<Group>, b: seq<Group>, t: nat)
    requires t <= |a| && t <= |b| && forall q :: 0 <= q < t ==> a[q] == b[q]
    ensures a[..t] == b[..t]
  {
  }

  lemma CoverStep(used: set<nat>, i: nat)
    requires forall k :: 0 <= k < i ==> k in used
    requires i in used
    ensures forall k :: 0 <= k < i + 1 ==> k in used
  {
  }

  /** Adding a group of unused lines keeps the consumed indices distinct. */
  lemma GroupStep(cands: seq<LineCand>, groups: seq<Group>, used: set<nat>, g: Group)
    requires forall k :: k in used <==> k in Consumed(groups)
    requires NoDup(Consumed(groups))
    requires g.lead !in used && (g.partner.Some? ==> g.partner.value !in used && g.partner.value != g.lead)
    requires forall h :: h in groups ==> GroupFits(cands, h)
    requires GroupFits(cands, g)
    ensures Consumed(groups + [g]) == Consumed(groups) + [g.lead] + (if g.partner.Some? then [g.partner.value] else [])
    ensures NoDup(Consumed(groups + [g]))
    ensures forall k ::
              (k in used || k == g.lead || (g.partner.Some? && k == g.partner.value))
              <==> k in Consumed(groups + [g])
    ensures forall h :: h in groups + [g] ==> GroupFits(cands, h)
  {
    assert (groups + [g])[..|groups|] == groups;
    var a := Consumed(groups) + [g.lead];
    NoDupSnoc(Consumed(groups), g.lead);
    if g.partner.Some? {
      NoDupSnoc(a, g.partner.value);
    }
  }

  function Min(a: int, b: int): int { if a <= b then a else b }

  // ---------------------------------------------------------- file names

  /** `PurePath.stem`: the name without its last suffix. */
  function Stem(name: String): (r: String)
    ensures |r| <= |name| && r == name[..|r|]
    ensures |r| < |name| ==> 0 < |r| < |name| - 1 && name[|r|] == '.'
    ensures forall j :: |r| < j < |name| ==> name[j] != '.'
    ensures |r| == |name| <==> forall j :: 0 < j < |name| - 1 ==> name[j] != '.' || '.' in name[j + 1..]
  {
    var i := LastIndexOf(name, '.');
    if i.Some? && 0 < i.value < |name| - 1 then name[..i.value] else name
  }

  predicate IsUnderscoreOrDash(c: char) { c == '_' || c == '-' }

  function UnderscoreRunLen(s: String): (n: nat)
    ensures 1 <= n <= |s| || (n == 0 && (s == [] || !IsUnderscoreOrDash(s[0])))
    ensures n < |s| ==> !IsUnderscoreOrDash(s[n])
  {
    if s != [] && IsUnderscoreOrDash(s[0]) then 1 + UnderscoreRunLen(s[1..]) else 0
  }

  /** `re.sub(r"[_\-]+", " ", s)` */
  function DashesToSpace(s: String): (r: String)
    ensures '_' !in r && '-' !in r
    ensures forall c :: c in r ==> c in s || c == ' '
    ensures |r| <= |s|
    ensures '_' !in s && '-' !in s ==> r == s
    ensures s != [] && (forall i :: 0 <= i < |s| ==> IsUnderscoreOrDash(s[i])) ==> r == " "
    decreases |s|
  {
    if s == [] then []
    else if IsUnderscoreOrDash(s[0]) then
      var n := UnderscoreRunLen(s);
      " " + DashesToSpace(s[n..])
    else [s[0]] + DashesToSpace(s[1..])
  }

  /** Two pieces that do not split a run of `_` and `-` are rewritten independently. */
  predicate RunBoundary(u: String, v: String) {
    u == [] || v == [] || !IsUnderscoreOrDash(u[|u| - 1]) || !IsUnderscoreOrDash(v[0])
  }

  lemma {:induction false} RunLenConcat(u: String, v: String)
    requires u != [] && RunBoundary(u, v)
    ensures UnderscoreRunLen(u + v) == UnderscoreRunLen(u)
    decreases |u|
  {
    if IsUnderscoreOrDash(u[0]) {
      assert (u + v)[1..] == u[1..] + v;
      if |u| > 1 {
        RunLenConcat(u[1..], v);
      }
    }
  }

  /**
   * Rewriting is compositional at run boundaries: with `DashesToSpace`
   * of a whole run being `" "` and of a run-free piece being itself, this
   * determines the result as "each run becomes one space".
   */
  lemma {:induction false} DashesToSpaceConcat(u: String, v: String)
    requires RunBoundary(u, v)
    ensures DashesToSpace(u + v) == DashesToSpace(u) + DashesToSpace(v)
    decreases |u|
  {
    if u == [] {
      assert u + v == v;
    } else {
      RunLenConcat(u, v);
      var m := if IsUnderscoreOrDash(u[0]) then UnderscoreRunLen(u) else 1;
      var head := if IsUnderscoreOrDash(u[0]) then " " else [u[0]];
      var rest := u[m..];
      assert (u + v)[0] == u[0] && (u + v)[m..] == rest + v;
      assert RunBoundary(rest, v) by {
        assert rest != [] ==> rest[|rest| - 1] == u[|u| - 1];
      }
      DashesToSpaceConcat(rest, v);
      assert DashesToSpace(u + v) == head + DashesToSpace(rest + v);
      assert DashesToSpace(u) == head + DashesToSpace(rest);
      SeqAssoc(head, DashesToSpace(rest), DashesToSpace(v));
    }
  }


  /** `str.title`: a letter is upper-cased after a non-letter and lower-cased after a letter. */
  function TitleFrom(s: String, afterLetter: bool): (r: String)
    ensures |r| == |s|
    ensures forall i :: 0 <= i < |s| ==> (IsLetter(r[i]) <==> IsLetter(s[i]))
    ensures forall i :: 0 <= i < |s| && !IsLetter(s[i]) ==> r[i] == s[i]
    ensures forall i :: 0 <= i < |s| && IsLetter(s[i]) ==>
      r[i] == if (if i == 0 then afterLetter else IsLetter(s[i - 1])) then Lower(s[i]) else Upper(s[i])
  {
    if s == [] then []
    else
      var c := if IsLetter(s[0]) then (if afterLetter then Lower(s[0]) else Upper(s[0])) else s[0];
      [c] + TitleFrom(s[1..], IsLetter(s[0]))
  }

  function Title(s: String): (r: String)
    ensures |r| == |s|
  {
    TitleFrom(s, false)
  }

  /** Title-casing changes no white space. */
  lemma TitleSameSpaces(s: String)
    ensures forall i :: 0 <= i < |s| ==> (IsSpace(Title(s)[i]) <==> IsSpace(s[i]))
  {
    var r := Title(s);
    forall i | 0 <= i < |s| ensures IsSpace(r[i]) <==> IsSpace(s[i]) {
      if !IsLetter(s[i]) {
        assert r[i] == s[i];
      } else {
        assert IsLetter(r[i]);
      }
    }
  }

  /** Two strings with white space at the same places share the layout predicates. */
  lemma SameSpacesLayout(s: String, r: String)
    requires |r| == |s| && forall i :: 0 <= i < |s| ==> (IsSpace(r[i]) <==> IsSpace(s[i]))
    ensures NoDoubleSpace(s) ==> NoDoubleSpace(r)
    ensures Trimmed(s) ==> Trimmed(r)
  {
  }

  /** Title-casing keeps every character that is not a letter where it was. */
  lemma TitleKeepsLayout(s: String)
    ensures NoDoubleSpace(s) ==> NoDoubleSpace(Title(s))
    ensures Trimmed(s) ==> Trimmed(Title(s))
    ensures forall c :: !IsLetter(c) ==> (c in Title(s) <==> c in s)
  {
    var r := Title(s);
    TitleSameSpaces(s);
    SameSpacesLayout(s, r);
    forall c | !IsLetter(c) ensures c in r <==> c in s {
      if c in r {
        var i :| 0 <= i < |r| && r[i] == c;
        assert s[i] == c;
      }
      if c in s {
        var i :| 0 <= i < |s| && s[i] == c;
        assert r[i] == c;
      }
    }
  }

  /** Title-casing twice changes nothing more. */
  lemma TitleIdempotent(s: String)
    ensures Title(Title(s)) == Title(s)
  {
    var r := Title(s);
    var rr := Title(r);
    forall i | 0 <= i < |s| ensures rr[i] == r[i] {
      if IsLetter(s[i]) && i > 0 {
        assert IsLetter(r[i - 1]) <==> IsLetter(s[i - 1]);
      }
    }
  }

  function FilenameFallback(name: String): (r: String)
    ensures '_' !in r && '-' !in r
    ensures NoDoubleSpace(r) && Trimmed(r)
  {
    var spaced := DashesToSpace(Stem(name));
    var stripped := Strip(RewriteRuns(LongRunToSpace, spaced, false));
    SpacedTidy(spaced);
    TitleTidy(stripped);
    Title(stripped)
  }

  /** Title-casing a tidy name without `_` and `-` keeps it so. */
  lemma TitleTidy(t: String)
    requires '_' !in t && '-' !in t && NoDoubleSpace(t) && Trimmed(t)
    ensures var r := Title(t); '_' !in r && '-' !in r && NoDoubleSpace(r) && Trimmed(r)
  {
    TitleKeepsLayout(t);
    assert !IsLetter('_') && !IsLetter('-');
  }

  /** After `re.sub(r"\s{2,}", " ", ...)` and `strip`, a name without `_` and `-` is tidy. */
  lemma SpacedTidy(spaced: String)
    requires '_' !in spaced && '-' !in spaced
    ensures var t := Strip(RewriteRuns(LongRunToSpace, spaced, false));
            '_' !in t && '-' !in t && NoDoubleSpace(t) && Trimmed(t)
  {
    var single := RewriteRuns(LongRunToSpace, spaced, false);
    ShortRunsNoDoubleSpace(LongRunToSpace, spaced, false);
    StripKeepsNoDoubleSpace(single);
    LongRunsKeepAbsent(spaced, '_');
    LongRunsKeepAbsent(spaced, '-');
    StripKeepsAbsent(single, '_');
    StripKeepsAbsent(single, '-');
  }

  lemma LongRunsKeepAbsent(s: String, c: char)
    requires c != ' ' && c !in s
    ensures c !in RewriteRuns(LongRunToSpace, s, false)
  {
    if c in RewriteRuns(LongRunToSpace, s, false) {
      RewriteRunsChars(LongRunToSpace, s, false, c);
    }
  }

  /**
   * `extract_title_from_pdf`: the best ranked line, or the file-name title
   * when nothing is ranked or extraction failed (`None`).
   */
  function ExtractTitle(ranked: Option<seq<Scored>>, name: String): (t: String)
    ensures ranked.Some? && ranked.value != [] ==> t == ranked.value[0].text
    ensures ranked.None? || ranked.value == [] ==> t == FilenameFallback(name)
  {
    if ranked.Some? && ranked.value != [] then ranked.value[0].text else FilenameFallback(name)
  }

  /** The title `main` records for one file. */
  function ChooseTitle(extracted: String, name: String): (t: String)
    ensures !IsBadCandidate(extracted) ==> t == extracted
    ensures IsBadCandidate(extracted) ==> t == FilenameFallback(name)
  {
    if IsBadCandidate(extracted) then FilenameFallback(name) else extracted
  }

  /** A ranked list of good lines always decides the title; the file name is not consulted. */
  lemma RankedTitleKept(ranked: seq<Scored>, name: String)
    requires ranked != [] && forall e :: e in ranked ==> !IsBadCandidate(e.text)
    ensures ChooseTitle(ExtractTitle(Some(ranked), name), name) == ranked[0].text
  {
    assert ranked[0] in ranked;
  }
}
