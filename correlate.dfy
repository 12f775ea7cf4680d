/**
 * The bookkeeping of the correlation builder: which summary files are
 * loaded and what paper each stands for, the text prepared for the
 * embedder, the number of clusters asked of k-means and the fallback when
 * k-means fails, the grouping of papers by cluster, the context of the
 * correlation prompt, and the per-cluster loop that skips small clusters and
 * survives a failing cluster.
 *
 * The embedder, k-means, the language model and the file system are outside
 * the model: their results enter as parameters.
 */
module Correlate {
  import opened Wrappers
  import opened Text
  import opened Tally
  import opened Sorting
  import Summarize

  /** `min_cluster_size` */
  const MinClusterSize: nat := 3
  /** `max_clusters` */
  const MaxClusters: int := 20
  /** Characters of a summary shown in the prompt. */
  const PreviewLength: nat := 1200

  function Min(a: int, b: int): int { if a <= b then a else b }

  function Max(a: int, b: int): int { if a >= b then a else b }

  // ------------------------------------------------ determine_optimal_clusters

  /**
   * `determine_optimal_clusters` for `n` samples: at least two clusters when
   * the cap allows two, never more than the larger of 8 and the cap, and from
   * three samples on (the only counts clustering admits) fewer clusters than samples.
   */
  function OptimalClusters(n: nat, maxClusters: int): (k: int)
    ensures Min(2, maxClusters) <= k <= Max(8, maxClusters)
    ensures n >= 3 ==> k < n
  {
    if n <= 5 then Max(2, n - 1)
    else if n < 10 then 3
    else if n < 30 then assert n / 3 >= 3; Min(5, n / 3)
    else if n < 100 then assert n / 5 >= 6; Min(8, n / 5)
    else assert n / 10 >= 10; Min(maxClusters, n / 10)
  }

  /** The fallback of `cluster_summaries`: summary `i` goes to cluster `i % min(5, n)`. */
  function FallbackLabels(n: nat): (labels: seq<int>)
    ensures |labels| == n
    ensures forall i :: 0 <= i < n ==> 0 <= labels[i] < Min(5, n)
  {
    var m := Min(5, n);
    assert n > 0 ==> m > 0;
    seq(n, i requires 0 <= i < n => i % m)
  }

  /** Each fallback cluster below `min(5, n)` receives a summary. */
  lemma FallbackClustersNonEmpty(n: nat, c: int)
    requires 0 <= c < Min(5, n)
    ensures c in FallbackLabels(n)
  {
    assert FallbackLabels(n)[c] == c;
  }

  /** The labels `cluster_summaries` assigns: k-means' when it succeeds, the fallback's otherwise. */
  function Assigned(kmeans: Option<seq<int>>, n: nat): (labels: seq<int>)
    requires kmeans.Some? ==> |kmeans.value| == n
    ensures |labels| == n
    ensures kmeans.None? ==> forall i :: 0 <= i < n ==> 0 <= labels[i] < Min(5, n)
  {
    if kmeans.Some? then kmeans.value else FallbackLabels(n)
  }

  /** The sum of the counts stored for the given keys. */
  function SumCounts(keys: seq<int>, counts: map<int, nat>): nat
    requires forall i :: 0 <= i < |keys| ==> keys[i] in counts
  {
    if keys == [] then 0 else counts[keys[0]] + SumCounts(keys[1..], counts)
  }

  lemma {:induction false} SumCountsTotal(keys: seq<int>, counts: map<int, nat>, m: multiset<int>)
    requires forall i :: 0 <= i < |keys| ==> keys[i] in counts && counts[keys[i]] == m[keys[i]]
    ensures SumCounts(keys, counts) == Total(keys, m)
  {
    if keys != [] {
      SumCountsTotal(keys[1..], counts, m);
    }
  }

  /** The cluster distribution loop: the counts per cluster add up to the number of summaries. */
  method ClusterCounts(labels: seq<int>) returns (keys: seq<int>, counts: map<int, nat>)
    ensures forall k :: k in counts <==> k in labels
    ensures forall i :: 0 <= i < |keys| ==> keys[i] in counts
    ensures forall k :: k in counts ==> counts[k] == multiset(labels)[k]
    ensures SumCounts(keys, counts) == |labels|
  {
    keys, counts := CountOccurrences(labels);
    SumCountsTotal(keys, counts, multiset(labels));
    TotalOfFirstAppearance(labels);
  }

  // ------------------------------------------------------- summary records

  /** An entry of `summaries_data`; the embedding is not part of the model. */
  datatype Summary = Summary(
    summaryFile: String,
    originalPaper: String,
    summaryText: String,
    cleanedText: String,
    cluster: Option<int>)

  /** Every summary has been given a cluster. */
  predicate AllClustered(papers: seq<Summary>) {
    forall i :: 0 <= i < |papers| ==> papers[i].cluster.Some?
  }

  function Labels(papers: seq<Summary>): (labels: seq<int>)
    requires AllClustered(papers)
    ensures |labels| == |papers|
    ensures forall i :: 0 <= i < |papers| ==> labels[i] == papers[i].cluster.value
  {
    seq(|papers|, i requires 0 <= i < |papers| && AllClustered(papers) => papers[i].cluster.value)
  }

  /** The summaries with the `i`-th one given cluster `labels[i]`. */
  function WithLabels(papers: seq<Summary>, labels: seq<int>): (r: seq<Summary>)
    requires |labels| == |papers|
    ensures |r| == |papers| && AllClustered(r)
    ensures forall i :: 0 <= i < |r| ==> r[i] == papers[i].(cluster := Some(labels[i]))
  {
    seq(|papers|, i requires 0 <= i < |papers| => papers[i].(cluster := Some(labels[i])))
  }

  lemma LabelsOfWithLabels(papers: seq<Summary>, labels: seq<int>)
    requires |labels| == |papers|
    ensures Labels(WithLabels(papers, labels)) == labels
  {
  }

  // ------------------------------------------------------ summary file names

  /** A file of the summaries directory that is loaded. */
  predicate IsSummaryFile(f: String) {
    StartsWith(f, "summary_") && EndsWith(f, ".pdf")
  }

  /** The summary files of a directory listing, in listing order. */
  function SummaryFiles(listing: seq<String>): (r: seq<String>)
    ensures |r| <= |listing|
    ensures forall f :: f in r <==> f in listing && IsSummaryFile(f)
  {
    if listing == [] then []
    else
      var last := listing[|listing| - 1];
      assert listing == listing[..|listing| - 1] + [last];
      SummaryFiles(listing[..|listing| - 1]) + (if IsSummaryFile(last) then [last] else [])
  }

  /** `filename.replace("summary_", "").replace(".pdf", "") + ".pdf"` */
  function OriginalPaper(f: String): (r: String)
    ensures EndsWith(r, ".pdf")
  {
    ReplaceAll(ReplaceAll(f, "summary_", ""), ".pdf", "") + ".pdf"
  }

  /**
   * The paper a summary stands for is the name the summary was saved for,
   * with `.pdf`, as long as that name contains neither `summary_` nor `.pdf`.
   */
  lemma OriginalPaperOfSummary(filename: String)
    requires !Contains(Summarize.SplitExtRoot(filename), "summary_")
    requires !Contains(Summarize.SplitExtRoot(filename), ".pdf")
    ensures OriginalPaper(Summarize.SummaryFileName(filename)) == Summarize.SplitExtRoot(filename) + ".pdf"
  {
    var root := Summarize.SplitExtRoot(filename);
    var f := Summarize.SummaryFileName(filename);
    var tail: String := ".pdf";
    assert f == "summary_" + (root + tail);
    ReplaceAtFront("summary_", root + tail, "");
    assert "summary_"[1..] == "ummary_";
    NoOccurrenceBefore(root, tail, "summary_");
    ReplaceSkipsPrefix(root, tail, "summary_", "");
    assert ReplaceAll(tail, "summary_", "") == tail;
    assert ReplaceAll(f, "summary_", "") == root + tail;
    assert ".pdf"[1..] == "pdf";
    NoOccurrenceBefore(root, tail, ".pdf");
    ReplaceSkipsPrefix(root, tail, ".pdf", "");
    ReplaceWhole(".pdf", "");
    assert ReplaceAll(root + tail, ".pdf", "") == root + [];
    assert root + [] == root;
  }

  /** For a plain `<name>.pdf` the summary leads back to the same file name. */
  lemma OriginalPaperOfPdf(base: String)
    requires '/' !in base
    requires exists i :: 0 <= i < |base| && base[i] != '.'
    requires !Contains(base, "summary_") && !Contains(base, ".pdf")
    ensures OriginalPaper(Summarize.SummaryFileName(base + ".pdf")) == base + ".pdf"
  {
    Summarize.SplitExtPdf(base);
    OriginalPaperOfSummary(base + ".pdf");
  }

  // ------------------------------------------------ clean_text_for_embedding

  /** `re.sub(r'Summary of:.*?\n', '', s)`: each `Summary of:` up to the next newline goes. */
  function DropSummaryHeaders(s: String): (r: String)
    ensures |r| <= |s|
    decreases |s|
  {
    if s == [] then []
    else if StartsWith(s, "Summary of:") then
      match FirstIndexOf(s[11..], '\n')
      case Some(j) => DropSummaryHeaders(s[11 + j + 1..])
      case None => [s[0]] + DropSummaryHeaders(s[1..])
    else [s[0]] + DropSummaryHeaders(s[1..])
  }

  /** A header line ending in a newline disappears. */
  lemma DropHeaderLine(title: String, rest: String)
    requires '\n' !in title
    ensures DropSummaryHeaders("Summary of:" + title + "\n" + rest) == DropSummaryHeaders(rest)
  {
    var s := "Summary of:" + title + "\n" + rest;
    assert s[..11] == "Summary of:";
    var t := s[11..];
    assert t == title + "\n" + rest;
    assert t[|title|] == '\n';
    var j := FirstIndexOf(t, '\n');
    assert j == Some(|title|) by {
      assert forall i :: 0 <= i < |title| ==> t[i] == title[i];
    }
    assert s[11 + |title| + 1..] == rest;
  }

  /** The characters `[\w\s.,;:!?()-]` that survive the second substitution. */
  predicate KeptForEmbedding(c: char) {
    IsWordChar(c) || IsSpace(c) || c == '.' || c == ',' || c == ';' || c == ':'
    || c == '!' || c == '?' || c == '(' || c == ')' || c == '-'
  }

  /** `re.sub(r'[^\w\s.,;:!?()-]', ' ', s)` */
  function MaskChars(s: String): (r: String)
    ensures |r| == |s|
    ensures forall i :: 0 <= i < |s| ==> r[i] == (if KeptForEmbedding(s[i]) then s[i] else ' ')
  {
    seq(|s|, i requires 0 <= i < |s| => if KeptForEmbedding(s[i]) then s[i] else ' ')
  }

  /**
   * `clean_text_for_embedding`: the embedder's text is tidy and keeps only
   * word characters, spaces and basic punctuation.
   */
  function CleanTextForEmbedding(text: String): (r: String)
    ensures Tidy(r)
    ensures forall c :: c in r ==> KeptForEmbedding(c)
  {
    var masked := MaskChars(DropSummaryHeaders(text));
    CollapsedKeepsKept(masked);
    Strip(CollapseSpaces(masked))
  }

  /** Collapsing and stripping text of kept characters leaves tidy text of kept characters. */
  lemma CollapsedKeepsKept(m: String)
    requires forall c :: c in m ==> KeptForEmbedding(c)
    ensures Tidy(Strip(CollapseSpaces(m)))
    ensures forall c :: c in Strip(CollapseSpaces(m)) ==> KeptForEmbedding(c)
  {
    CollapseStripTidy(m);
    var c := CollapseSpaces(m);
    StripIsSlice(c);
    forall x | x in Strip(c)
      ensures KeptForEmbedding(x)
    {
      assert x in c;
      RewriteRunsChars(AllToSpace, m, false, x);
    }
  }

  // ------------------------------------------------------------ load_summaries

  /** The record `load_summaries` keeps for a file and its text, not yet clustered. */
  function LoadedSummary(f: String, text: String): Summary {
    Summary(f, OriginalPaper(f), text, CleanTextForEmbedding(text), None)
  }

  /** A file is loaded when its text was extracted and is longer than 100 characters. */
  predicate Loadable(extract: String -> Option<String>, f: String) {
    extract(f).Some? && |extract(f).value| > 100
  }

  function LoadableUnder(extract: String -> Option<String>): String -> bool {
    f => Loadable(extract, f)
  }

  function LoadUnder(extract: String -> Option<String>): String --> Summary {
    (f: String) requires Loadable(extract, f) => LoadedSummary(f, extract(f).value)
  }

  /** The summaries loaded from the given files: those whose extracted text is longer than 100 characters. */
  function LoadedFrom(files: seq<String>, extract: String -> Option<String>): (r: seq<Summary>)
    ensures |r| <= |files|
    ensures forall s :: s in r ==>
              s.summaryFile in files && extract(s.summaryFile) == Some(s.summaryText)
              && |s.summaryText| > 100 && s.cluster.None?
              && s.originalPaper == OriginalPaper(s.summaryFile)
              && s.cleanedText == CleanTextForEmbedding(s.summaryText)
  {
    LoadedFields(files, extract);
    FilterMap(files, LoadableUnder(extract), LoadUnder(extract))
  }

  lemma LoadedFields(files: seq<String>, extract: String -> Option<String>)
    ensures forall s :: s in FilterMap(files, LoadableUnder(extract), LoadUnder(extract)) ==>
              s.summaryFile in files && extract(s.summaryFile) == Some(s.summaryText)
              && |s.summaryText| > 100 && s.cluster.None?
              && s.originalPaper == OriginalPaper(s.summaryFile)
              && s.cleanedText == CleanTextForEmbedding(s.summaryText)
  {
    var keep, load := LoadableUnder(extract), LoadUnder(extract);
    forall s: Summary | s in FilterMap(files, keep, load)
      ensures s.summaryFile in files && extract(s.summaryFile) == Some(s.summaryText)
              && |s.summaryText| > 100 && s.cluster.None?
              && s.originalPaper == OriginalPaper(s.summaryFile)
              && s.cleanedText == CleanTextForEmbedding(s.summaryText)
    {
      FilterMapMembers(files, keep, load, s);
      var i :| 0 <= i < |files| && keep(files[i]) && s == load(files[i]);
      assert s == LoadedSummary(files[i], extract(files[i]).value);
    }
  }

  /** Every file whose text is longer than 100 characters is loaded. */
  lemma LoadedFromComplete(files: seq<String>, extract: String -> Option<String>, i: nat)
    requires i < |files| && Loadable(extract, files[i])
    ensures LoadedSummary(files[i], extract(files[i]).value) in LoadedFrom(files, extract)
  {
    var keep, load := LoadableUnder(extract), LoadUnder(extract);
    FilterMapMembers(files, keep, load, load(files[i]));
  }

  /** Loading keeps the order of the files: two runs of files are loaded one after the other. */
  lemma LoadedFromAppend(a: seq<String>, b: seq<String>, extract: String -> Option<String>)
    ensures LoadedFrom(a + b, extract) == LoadedFrom(a, extract) + LoadedFrom(b, extract)
  {
    FilterMapAppend(a, b, LoadableUnder(extract), LoadUnder(extract));
  }

  /** Every loaded summary comes from a `summary_*.pdf` file. */
  lemma LoadedAreSummaryFiles(listing: seq<String>, extract: String -> Option<String>)
    ensures forall s :: s in LoadedFrom(SummaryFiles(listing), extract) ==>
              IsSummaryFile(s.summaryFile) && s.summaryFile in listing
  {
  }

  // ------------------------------------------------------------ grouping

  /** The papers of cluster `c`, in their order. */
  function Members(papers: seq<Summary>, c: int): (r: seq<Summary>)
    ensures |r| <= |papers|
    ensures forall p :: p in r ==> p in papers && p.cluster == Some(c)
  {
    if papers == [] then []
    else
      var last := papers[|papers| - 1];
      Members(papers[..|papers| - 1], c) + (if last.cluster == Some(c) then [last] else [])
  }

  /** A cluster's group has as many papers as the cluster has labels. */
  lemma {:induction false} MembersCount(papers: seq<Summary>, c: int)
    requires AllClustered(papers)
    ensures |Members(papers, c)| == multiset(Labels(papers))[c]
  {
    if papers != [] {
      var init := papers[..|papers| - 1];
      MembersCount(init, c);
      assert Labels(papers) == Labels(init) + [papers[|papers| - 1].cluster.value];
    }
  }

  function GroupSizes(keys: seq<int>, papers: seq<Summary>): nat {
    if keys == [] then 0 else |Members(papers, keys[0])| + GroupSizes(keys[1..], papers)
  }

  lemma {:induction false} GroupSizesTotal(keys: seq<int>, papers: seq<Summary>)
    requires AllClustered(papers)
    ensures GroupSizes(keys, papers) == Total(keys, multiset(Labels(papers)))
  {
    if keys != [] {
      MembersCount(papers, keys[0]);
      GroupSizesTotal(keys[1..], papers);
    }
  }

  /** Every paper lands in exactly one group: the group sizes add up to the number of papers. */
  lemma GroupsPartition(papers: seq<Summary>)
    requires AllClustered(papers)
    ensures GroupSizes(FirstAppearance(Labels(papers)), papers) == |papers|
  {
    GroupSizesTotal(FirstAppearance(Labels(papers)), papers);
    TotalOfFirstAppearance(Labels(papers));
  }

  /** A paper is in the group of its own cluster. */
  lemma {:induction false} InOwnGroup(papers: seq<Summary>, i: nat)
    requires i < |papers| && papers[i].cluster.Some?
    ensures papers[i] in Members(papers, papers[i].cluster.value)
  {
    var init := papers[..|papers| - 1];
    if i < |papers| - 1 {
      assert init[i] == papers[i];
      InOwnGroup(init, i);
    }
  }

  lemma MembersSnoc(papers: seq<Summary>, i: nat, c: int)
    requires i < |papers|
    ensures Members(papers[..i + 1], c) ==
              Members(papers[..i], c) + (if papers[i].cluster == Some(c) then [papers[i]] else [])
  {
    assert papers[..i + 1][..i] == papers[..i];
  }

  /** Each recorded cluster holds exactly the members of that cluster in `papers`. */
  ghost predicate ListsMatch(papers: seq<Summary>, clusters: map<int, seq<Summary>>) {
    forall c :: c in clusters ==> clusters[c] == Members(papers, c)
  }

  /** A cluster that has not been recorded has no members in `papers`. */
  ghost predicate NoneMissing(papers: seq<Summary>, clusters: map<int, seq<Summary>>) {
    forall c :: c !in clusters ==> Members(papers, c) == []
  }

  /** The state of the grouping loop after the first `i` papers. */
  ghost predicate Grouped(papers: seq<Summary>, i: nat, keys: seq<int>, clusters: map<int, seq<Summary>>)
    requires AllClustered(papers) && i <= |papers|
  {
    keys == FirstAppearance(Labels(papers)[..i])
    && (forall c :: c in clusters <==> c in keys)
    && ListsMatch(papers[..i], clusters)
    && NoneMissing(papers[..i], clusters)
  }

  /** `clusters.setdefault(c, []).append(p)` on the map, for the cluster `c` of `p`. */
  function AddPaper(clusters: map<int, seq<Summary>>, p: Summary): map<int, seq<Summary>>
    requires p.cluster.Some?
  {
    var c := p.cluster.value;
    clusters[c := (if c in clusters then clusters[c] else []) + [p]]
  }

  lemma ListsMatchStep(papers: seq<Summary>, i: nat, clusters: map<int, seq<Summary>>)
    requires i < |papers| && papers[i].cluster.Some?
    requires ListsMatch(papers[..i], clusters) && NoneMissing(papers[..i], clusters)
    ensures ListsMatch(papers[..i + 1], AddPaper(clusters, papers[i]))
  {
    var clusters' := AddPaper(clusters, papers[i]);
    forall d | d in clusters'
      ensures clusters'[d] == Members(papers[..i + 1], d)
    {
      MembersSnoc(papers, i, d);
    }
  }

  lemma NoneMissingStep(papers: seq<Summary>, i: nat, clusters: map<int, seq<Summary>>)
    requires i < |papers| && papers[i].cluster.Some?
    requires NoneMissing(papers[..i], clusters)
    ensures NoneMissing(papers[..i + 1], AddPaper(clusters, papers[i]))
  {
    var clusters' := AddPaper(clusters, papers[i]);
    forall d | d !in clusters'
      ensures Members(papers[..i + 1], d) == []
    {
      MembersSnoc(papers, i, d);
    }
  }

  /** One step of the grouping loop: the paper is appended to its cluster's list, which is created on first sight. */
  lemma GroupStep(papers: seq<Summary>, i: nat, keys: seq<int>, clusters: map<int, seq<Summary>>)
    requires AllClustered(papers) && i < |papers|
    requires Grouped(papers, i, keys, clusters)
    ensures Grouped(papers, i + 1,
                    if papers[i].cluster.value in clusters then keys else keys + [papers[i].cluster.value],
                    AddPaper(clusters, papers[i]))
  {
    var labels := Labels(papers);
    assert labels[i] == papers[i].cluster.value;
    CountStep(labels, i, keys);
    ListsMatchStep(papers, i, clusters);
    NoneMissingStep(papers, i, clusters);
  }

  /** The grouping loop of `generate_all_correlations`: a dict from cluster to its papers, keyed in first-appearance order. */
  method GroupByCluster(papers: seq<Summary>) returns (keys: seq<int>, clusters: map<int, seq<Summary>>)
    requires AllClustered(papers)
    ensures keys == FirstAppearance(Labels(papers))
    ensures forall c :: c in clusters <==> c in keys
    ensures forall c :: c in clusters ==> clusters[c] == Members(papers, c)
  {
    keys, clusters := [], map[];
    var i := 0;
    while i < |papers|
      invariant 0 <= i <= |papers|
      invariant Grouped(papers, i, keys, clusters)
    {
      GroupStep(papers, i, keys, clusters);
      if papers[i].cluster.value !in clusters {
        keys := keys + [papers[i].cluster.value];
      }
      clusters := AddPaper(clusters, papers[i]);
      i := i + 1;
    }
    assert papers[..i] == papers;
    assert Labels(papers)[..i] == Labels(papers);
    assert ListsMatch(papers, clusters);
  }

  // ------------------------------------------------------- the prompt context

  /** `"─" * n` */
  function Repeat(c: char, n: nat): (r: String)
    ensures |r| == n && forall i :: 0 <= i < n ==> r[i] == c
  {
    seq(n, _ => c)
  }

  /** The summary as shown in the prompt: cut to 1200 characters with `...` when longer. */
  function Preview(text: String): (p: String)
    ensures |text| <= PreviewLength ==> p == text
    ensures |text| > PreviewLength ==> |p| == PreviewLength + 3 && p[..PreviewLength] == text[..PreviewLength] && EndsWith(p, "...")
  {
    if |text| > PreviewLength then text[..PreviewLength] + "..." else text
  }

  /** The block of paper number `i`. */
  function PaperBlock(i: nat, p: Summary): String {
    "PAPER " + NatToString(i) + ": " + p.originalPaper + "\n"
    + "SUMMARY: " + Preview(p.summaryText) + "\n"
    + Repeat('─', 60) + "\n"
  }

  /** The blocks of the papers, numbered from 1. */
  function Blocks(papers: seq<Summary>): String {
    if papers == [] then []
    else Blocks(papers[..|papers| - 1]) + PaperBlock(|papers|, papers[|papers| - 1])
  }

  const ContextHeader: String := "CORRELATE THESE RELATED RESEARCH PAPERS:\n\n"

  /** The first block is paper number 1. */
  lemma FirstBlockIsPaperOne(papers: seq<Summary>)
    requires papers != []
    ensures StartsWith(Blocks(papers), PaperBlock(1, papers[0]))
  {
    if |papers| == 1 {
      assert Blocks(papers) == [] + PaperBlock(1, papers[0]);
    } else {
      var init := papers[..|papers| - 1];
      FirstBlockIsPaperOne(init);
      assert init[0] == papers[0];
      BlocksKeepPrefix(papers, PaperBlock(1, papers[0]));
    }
  }

  /** Appending a block keeps every prefix of the blocks before it. */
  lemma BlocksKeepPrefix(papers: seq<Summary>, b: String)
    requires papers != [] && StartsWith(Blocks(papers[..|papers| - 1]), b)
    ensures StartsWith(Blocks(papers), b)
  {
    StartsWithExtension(Blocks(papers[..|papers| - 1]), b, PaperBlock(|papers|, papers[|papers| - 1]));
  }

  lemma BlocksSnoc(papers: seq<Summary>, i: nat)
    requires i < |papers|
    ensures Blocks(papers[..i + 1]) == Blocks(papers[..i]) + PaperBlock(i + 1, papers[i])
  {
    assert papers[..i + 1][..i] == papers[..i];
  }

  /** The context loop of `generate_correlation_prompt`. */
  method CorrelationContext(papers: seq<Summary>) returns (context: String)
    ensures context == ContextHeader + Blocks(papers)
    ensures StartsWith(context, ContextHeader)
  {
    context := ContextHeader;
    var i := 0;
    while i < |papers|
      invariant 0 <= i <= |papers|
      invariant context == ContextHeader + Blocks(papers[..i])
    {
      BlocksSnoc(papers, i);
      context := ContextHeader + (Blocks(papers[..i]) + PaperBlock(i + 1, papers[i]));
      i := i + 1;
    }
    assert papers[..i] == papers;
    assert context[..|ContextHeader|] == ContextHeader;
  }

  // --------------------------------------------- generate_all_correlations

  /** What the loop records for a cluster whose correlation was saved. */
  datatype CorrelationResult = CorrelationResult(clusterId: int, paperCount: nat, jsonFile: String, txtFile: String)

  function OutputName(clusterId: int, count: nat, ext: String): String {
    "correlation_cluster_" + IntToString(clusterId) + "_" + NatToString(count) + "_papers." + ext
  }

  /**
   * The results for the clusters in `keys`: a cluster with fewer than
   * `min_cluster_size` papers is skipped, and a cluster whose processing
   * fails (`fails` on its id, paper count and analysis) is dropped while the
   * loop goes on. `analyze` stands for the language model.
   */
  function Outcomes(keys: seq<int>, papers: seq<Summary>, analyze: String -> String,
                    fails: (int, nat, String) -> bool): (r: seq<CorrelationResult>)
    ensures |r| <= |keys|
    ensures forall x :: x in r ==> x.clusterId in keys && x.paperCount >= MinClusterSize
  {
    if keys == [] then []
    else
      var c := keys[|keys| - 1];
      var group := Members(papers, c);
      var init := Outcomes(keys[..|keys| - 1], papers, analyze, fails);
      if |group| < MinClusterSize then init
      else
        var text := analyze(ContextHeader + Blocks(group));
        if fails(c, |group|, text) then init
        else init + [CorrelationResult(c, |group|, OutputName(c, |group|, "json"), OutputName(c, |group|, "txt"))]
  }

  /** The cluster has enough papers and its processing does not fail. */
  ghost predicate Succeeds(papers: seq<Summary>, analyze: String -> String, fails: (int, nat, String) -> bool, c: int) {
    var group := Members(papers, c);
    |group| >= MinClusterSize && !fails(c, |group|, analyze(ContextHeader + Blocks(group)))
  }

  ghost predicate HasResult(r: seq<CorrelationResult>, c: int) {
    exists x :: x in r && x.clusterId == c
  }

  lemma HasResultConcat(a: seq<CorrelationResult>, b: seq<CorrelationResult>, c: int)
    ensures HasResult(a + b, c) <==> HasResult(a, c) || HasResult(b, c)
  {
    if HasResult(a + b, c) {
      var x :| x in a + b && x.clusterId == c;
      assert x in a || x in b;
    }
  }

  /** One more cluster adds its result when it succeeds, and nothing otherwise. */
  lemma OutcomesSnoc(keys: seq<int>, papers: seq<Summary>, analyze: String -> String, fails: (int, nat, String) -> bool)
    requires keys != []
    ensures var last := keys[|keys| - 1];
            var init := Outcomes(keys[..|keys| - 1], papers, analyze, fails);
            HasResult(Outcomes(keys, papers, analyze, fails), last) <==> HasResult(init, last) || Succeeds(papers, analyze, fails, last)
    ensures forall c :: c != keys[|keys| - 1] ==>
              (HasResult(Outcomes(keys, papers, analyze, fails), c) <==> HasResult(Outcomes(keys[..|keys| - 1], papers, analyze, fails), c))
  {
    var last := keys[|keys| - 1];
    var group := Members(papers, last);
    var init := Outcomes(keys[..|keys| - 1], papers, analyze, fails);
    var tail := if Succeeds(papers, analyze, fails, last)
                then [CorrelationResult(last, |group|, OutputName(last, |group|, "json"), OutputName(last, |group|, "txt"))]
                else [];
    assert Outcomes(keys, papers, analyze, fails) == init + tail;
    HasResultConcat(init, tail, last);
    forall c | c != last
      ensures HasResult(init + tail, c) <==> HasResult(init, c)
    {
      HasResultConcat(init, tail, c);
    }
  }

  /**
   * A cluster has a result exactly when it has enough papers and its own
   * processing does not fail, whatever happens to the other clusters.
   */
  lemma {:induction false} OutcomesIff(keys: seq<int>, papers: seq<Summary>, analyze: String -> String,
                                       fails: (int, nat, String) -> bool, c: int)
    requires c in keys
    ensures (exists x :: x in Outcomes(keys, papers, analyze, fails) && x.clusterId == c) <==>
              var group := Members(papers, c);
              |group| >= MinClusterSize && !fails(c, |group|, analyze(ContextHeader + Blocks(group)))
  {
    var init := keys[..|keys| - 1];
    var last := keys[|keys| - 1];
    assert keys == init + [last];
    OutcomesSnoc(keys, papers, analyze, fails);
    if c in init {
      OutcomesIff(init, papers, analyze, fails, c);
    } else {
      assert c == last;
      assert !HasResult(Outcomes(init, papers, analyze, fails), c);
    }
  }

  /** No two results name the same cluster. */
  predicate DistinctClusters(r: seq<CorrelationResult>) {
    forall i, j :: 0 <= i < j < |r| ==> r[i].clusterId != r[j].clusterId
  }

  /** Each cluster is reported at most once. */
  lemma {:induction false} OutcomesDistinct(keys: seq<int>, papers: seq<Summary>, analyze: String -> String,
                                            fails: (int, nat, String) -> bool)
    requires NoDup(keys)
    ensures DistinctClusters(Outcomes(keys, papers, analyze, fails))
  {
    if keys != [] {
      var init := keys[..|keys| - 1];
      var last := keys[|keys| - 1];
      assert keys == init + [last];
      assert NoDup(init);
      OutcomesDistinct(init, papers, analyze, fails);
      var r := Outcomes(keys, papers, analyze, fails);
      var r0 := Outcomes(init, papers, analyze, fails);
      if r != r0 {
        assert last !in init;
        assert r == r0 + [r[|r| - 1]] && r[|r| - 1].clusterId == last;
        forall i, j | 0 <= i < j < |r|
          ensures r[i].clusterId != r[j].clusterId
        {
          if j == |r| - 1 {
            assert r[i] == r0[i] && r0[i] in r0;
          } else {
            assert r[i] == r0[i] && r[j] == r0[j];
          }
        }
      }
    }
  }

  // ------------------------------------------------------------ the builder

  class CorrelationBuilder {
    /** `summaries_data` */
    var summaries: seq<Summary>

    constructor ()
      ensures summaries == []
    {
      summaries := [];
    }

    /**
     * `load_summaries`: `dirExists` and `listing` stand for the summaries
     * directory, `extract` for the text extraction of a file (None when it
     * fails). Returns false when the directory is missing or holds no
     * summary file.
     */
    method LoadSummaries(dirExists: bool, listing: seq<String>, extract: String -> Option<String>) returns (ok: bool)
      modifies this
      ensures ok <==> dirExists && SummaryFiles(listing) != []
      ensures ok ==> summaries == old(summaries) + LoadedFrom(SummaryFiles(listing), extract)
      ensures !ok ==> summaries == old(summaries)
    {
      if !dirExists {
        return false;
      }
      var files := SummaryFiles(listing);
      if files == [] {
        return false;
      }
      var loaded := LoadFiles(files, extract);
      summaries := summaries + loaded;
      ok := true;
    }

    /**
     * `cluster_summaries`: `kmeans` is the label list k-means returns, or
     * None when it raises; then summary `i` goes to cluster `i % min(5, n)`.
     * Fewer than three summaries are not clustered.
     */
    method ClusterSummaries(kmeans: Option<seq<int>>) returns (labels: Option<seq<int>>)
      requires kmeans.Some? ==> |kmeans.value| == |summaries|
      requires kmeans.Some? ==> forall i :: 0 <= i < |summaries| ==>
                 0 <= kmeans.value[i] < OptimalClusters(|summaries|, MaxClusters)
      modifies this
      ensures |old(summaries)| < 3 ==> labels.None? && summaries == old(summaries)
      ensures |old(summaries)| >= 3 ==>
                labels == Some(Assigned(kmeans, |old(summaries)|))
                && summaries == WithLabels(old(summaries), Assigned(kmeans, |old(summaries)|))
      ensures labels.Some? ==>
                var bound := if kmeans.Some? then OptimalClusters(|old(summaries)|, MaxClusters) else Min(5, |old(summaries)|);
                forall i :: 0 <= i < |labels.value| ==> 0 <= labels.value[i] < bound
    {
      if |summaries| < 3 {
        return None;
      }
      var chosen: seq<int>;
      if kmeans.Some? {
        chosen := kmeans.value;
      } else {
        chosen := FallbackLabels(|summaries|);
      }
      assert chosen == Assigned(kmeans, |summaries|);
      summaries := WithLabels(summaries, chosen);
      labels := Some(chosen);
    }

    /**
     * `generate_all_correlations`: group the papers, then process each
     * cluster in first-appearance order.
     */
    method GenerateAllCorrelations(analyze: String -> String, fails: (int, nat, String) -> bool)
      returns (results: seq<CorrelationResult>)
      requires AllClustered(summaries)
      ensures results == Outcomes(FirstAppearance(Labels(summaries)), summaries, analyze, fails)
    {
      var keys, clusters := GroupByCluster(summaries);
      results := ProcessClusters(keys, clusters, summaries, analyze, fails);
    }
  }

  /** The loop over the summary files of `load_summaries`. */
  method LoadFiles(files: seq<String>, extract: String -> Option<String>) returns (loaded: seq<Summary>)
    ensures loaded == LoadedFrom(files, extract)
  {
    loaded := [];
    var i := 0;
    while i < |files|
      invariant 0 <= i <= |files|
      invariant loaded == LoadedFrom(files[..i], extract)
    {
      FilterMapSnoc(files, i, LoadableUnder(extract), LoadUnder(extract));
      var f := files[i];
      var text := extract(f);
      if text.Some? && |text.value| > 100 {
        loaded := loaded + [LoadedSummary(f, text.value)];
      }
      i := i + 1;
    }
    assert files[..i] == files;
  }

  /** The loop over the clusters of `generate_all_correlations`. */
  method ProcessClusters(keys: seq<int>, clusters: map<int, seq<Summary>>, papers: seq<Summary>,
                         analyze: String -> String, fails: (int, nat, String) -> bool)
    returns (results: seq<CorrelationResult>)
    requires forall c :: c in keys ==> c in clusters && clusters[c] == Members(papers, c)
    ensures results == Outcomes(keys, papers, analyze, fails)
  {
    results := [];
    var i := 0;
    while i < |keys|
      invariant 0 <= i <= |keys|
      invariant results == Outcomes(keys[..i], papers, analyze, fails)
    {
      assert keys[..i + 1][..i] == keys[..i];
      var c := keys[i];
      assert keys[..i + 1][i] == c;
      assert c in keys;
      var group := clusters[c];
      assert group == Members(papers, c);
      if |group| >= MinClusterSize {
        var context := CorrelationContext(group);
        var text := analyze(context);
        if !fails(c, |group|, text) {
          results := results + [CorrelationResult(c, |group|, OutputName(c, |group|, "json"), OutputName(c, |group|, "txt"))];
        }
      }
      i := i + 1;
    }
    assert keys[..i] == keys;
  }
}
