/**
 * The article store of the similarity service: a table of articles keyed
 * by id, the list of ids in insertion order, lazily rebuilt embeddings and
 * neighbour index, and the selections built on top of them (top-k
 * neighbours, id subsets, cluster summaries, under-explored clusters).
 *
 * The sentence encoder, the nearest-neighbour search, PCA and k-means are
 * foreign code; they enter as function values whose only assumed property
 * is the shape of what they return.
 */
module Similarity {
  import opened Wrappers
  import opened Text
  import opened Tally
  import opened Sorting

  type Vector = seq<real>

  datatype Article = Article(
    id: String, title: String, abstractText: String,
    year: Option<int>, authors: seq<String>, keywords: seq<String>)

  /** An upsert request; `None` stands for a key that is absent from the dict. */
  datatype Item = Item(
    id: String, title: Option<String>, abstractText: String,
    year: Option<int>, authors: Option<seq<String>>, keywords: Option<seq<String>>)

  /** One answer row of a neighbour query (`_result_row`). */
  datatype Row = Row(id: String, title: String, year: Option<int>, score: real)

  /** One neighbour as returned by the index: a position in `ids` and a cosine distance. */
  datatype Hit = Hit(index: nat, distance: real)

  /** An id paired with its cosine distance (`zip(d, id_list)`). */
  datatype Neighbour = Neighbour(id: String, distance: real)

  datatype Point = Point(
    id: String, x: real, y: real, title: String,
    year: Option<int>, authors: seq<String>, keywords: seq<String>)

  datatype LabelRow = LabelRow(id: String, cluster: int)
  datatype ClusterSize = ClusterSize(cluster: int, size: nat)

  datatype Underexplored = Underexplored(
    cluster: int, size: nat, percentage: real, yearRange: Option<(int, int)>,
    topKeywords: seq<String>, samples: seq<(String, String)>, exploration: real)

  /** `NearestNeighbors.kneighbors`: fitted points, a query and a count. */
  type Search = (seq<Vector>, Vector, nat) -> seq<Hit>

  /** The shape of a neighbour search's answer: exactly `m` hits, all valid positions. */
  ghost predicate IsSearch(search: Search) {
    (forall pts: seq<Vector>, q: Vector, m: nat :: m <= |pts| ==> |search(pts, q, m)| == m)
    && (forall pts: seq<Vector>, q: Vector, m: nat, j: nat ::
          j < |search(pts, q, m)| ==> search(pts, q, m)[j].index < |pts|)
  }

  /** `KMeans(n_clusters=c).fit_predict(X)`: one label per row. */
  type Clustering = (seq<Vector>, nat) -> seq<int>

  ghost predicate IsClustering(kmeans: Clustering) {
    forall xs: seq<Vector>, c: nat :: |kmeans(xs, c)| == |xs|
  }

  /**
   * `PCA(n_components=n).fit_transform(X)`: `None` when PCA raises (a
   * component count out of range for the rows, say), otherwise one row of
   * `n` coordinates per input row.
   */
  type Projector = (seq<Vector>, int) -> Option<seq<seq<real>>>

  ghost predicate IsProjector(reduce: Projector) {
    forall xs: seq<Vector>, n: int :: reduce(xs, n).Some? ==>
      |reduce(xs, n).value| == |xs|
      && forall i :: 0 <= i < |xs| ==> |reduce(xs, n).value[i]| == n
  }

  function Min(a: int, b: int): int { if a <= b then a else b }

  // ---------------------------------------------------------------- upserts

  /** The article an item describes, with the source's defaults filled in. */
  function ToArticle(it: Item): Article {
    Article(
      it.id,
      if it.title.Some? then it.title.value else "Article " + it.id,
      it.abstractText,
      it.year,
      if it.authors.Some? then it.authors.value else [],
      if it.keywords.Some? then it.keywords.value else [])
  }

  function ItemIds(items: seq<Item>): (r: seq<String>)
    ensures |r| == |items| && forall j :: 0 <= j < |items| ==> r[j] == items[j].id
  {
    if items == [] then [] else ItemIds(items[..|items| - 1]) + [items[|items| - 1].id]
  }

  /** The table after storing each item in turn (`_articles[art.id] = art`). */
  function StoreAll(m: map<String, Article>, items: seq<Item>): map<String, Article> {
    if items == [] then m
    else
      var last := items[|items| - 1];
      StoreAll(m, items[..|items| - 1])[last.id := ToArticle(last)]
  }

  /** The dict's key order after the same stores: unseen ids go to the end. */
  function AppendNew(order: seq<String>, items: seq<Item>): seq<String> {
    if items == [] then order
    else
      var o := AppendNew(order, items[..|items| - 1]);
      var id := items[|items| - 1].id;
      if id in o then o else o + [id]
  }

  /** Upserting never moves an id that was already there. */
  lemma {:induction false} AppendNewKeepsOrder(order: seq<String>, items: seq<Item>)
    ensures |AppendNew(order, items)| >= |order|
    ensures AppendNew(order, items)[..|order|] == order
  {
    if items != [] {
      AppendNewKeepsOrder(order, items[..|items| - 1]);
    }
  }

  /** The ids after upserting are the old ones plus the upserted ones. */
  lemma {:induction false} AppendNewMembers(order: seq<String>, items: seq<Item>)
    ensures forall x :: x in AppendNew(order, items) <==> x in order || x in ItemIds(items)
  {
    if items != [] {
      var init := items[..|items| - 1];
      AppendNewMembers(order, init);
    }
  }

  /** Each id is listed once. */
  lemma {:induction false} AppendNewNoDup(order: seq<String>, items: seq<Item>)
    requires NoDup(order)
    ensures NoDup(AppendNew(order, items))
  {
    if items != [] {
      AppendNewNoDup(order, items[..|items| - 1]);
    }
  }

  /** The stored ids are the old ones plus the upserted ones. */
  lemma {:induction false} StoreAllKeys(m: map<String, Article>, items: seq<Item>)
    ensures forall x :: x in StoreAll(m, items) <==> x in m || x in ItemIds(items)
  {
    if items != [] {
      var init := items[..|items| - 1];
      StoreAllKeys(m, init);
    }
  }

  /** An id no item mentions keeps its article. */
  lemma {:induction false} StoreAllOthers(m: map<String, Article>, items: seq<Item>, x: String)
    requires x in m && x !in ItemIds(items)
    ensures x in StoreAll(m, items) && StoreAll(m, items)[x] == m[x]
  {
    if items != [] {
      var init := items[..|items| - 1];
      var last := items[|items| - 1];
      assert x != last.id && x !in ItemIds(init);
      StoreAllOthers(m, init, x);
      assert StoreAll(m, items) == StoreAll(m, init)[last.id := ToArticle(last)];
    }
  }

  /** The last item with a given id decides the stored article. */
  lemma {:induction false} StoreAllLastWins(m: map<String, Article>, items: seq<Item>, j: nat)
    requires j < |items|
    requires forall l :: j < l < |items| ==> items[l].id != items[j].id
    ensures items[j].id in StoreAll(m, items)
    ensures StoreAll(m, items)[items[j].id] == ToArticle(items[j])
  {
    if j < |items| - 1 {
      StoreAllLastWins(m, items[..|items| - 1], j);
    }
  }

  // ------------------------------------------------------------- selection

  /** `list.index`: the first position of `x`. */
  function IndexOf(s: seq<String>, x: String): (i: nat)
    requires x in s
    ensures i < |s| && s[i] == x
    ensures forall j :: 0 <= j < i ==> s[j] != x
  {
    if s[0] == x then 0 else 1 + IndexOf(s[1..], x)
  }

  /** `ids if ids else self._ids` */
  function Requested(requested: seq<String>, ids: seq<String>): seq<String> {
    if requested == [] then ids else requested
  }

  /** `[self._ids.index(i) for i in sel_ids if i in self._ids]` */
  function KnownIndices(sel: seq<String>, ids: seq<String>): (r: seq<nat>)
    ensures |r| <= |sel|
    ensures forall j :: 0 <= j < |r| ==> r[j] < |ids|
  {
    if sel == [] then []
    else (if sel[0] in ids then [IndexOf(ids, sel[0])] else []) + KnownIndices(sel[1..], ids)
  }

  /** The requested ids that are known, in request order (duplicates kept). */
  function KnownIds(sel: seq<String>, ids: seq<String>): (r: seq<String>)
    ensures forall x :: x in r <==> x in sel && x in ids
  {
    if sel == [] then []
    else
      assert forall x :: x in sel <==> x == sel[0] || x in sel[1..] by {
        assert sel == [sel[0]] + sel[1..];
      }
      (if sel[0] in ids then [sel[0]] else []) + KnownIds(sel[1..], ids)
  }

  /** Mapping the selected positions back through `ids` gives the known requested ids. */
  lemma {:induction false} KnownIndicesIds(sel: seq<String>, ids: seq<String>)
    ensures |KnownIndices(sel, ids)| == |KnownIds(sel, ids)|
    ensures forall j :: 0 <= j < |KnownIds(sel, ids)| ==>
      ids[KnownIndices(sel, ids)[j]] == KnownIds(sel, ids)[j]
  {
    if sel != [] {
      KnownIndicesIds(sel[1..], ids);
    }
  }

  /** Nothing is selected from an empty store. */
  lemma {:induction false} KnownIdsNoIds(sel: seq<String>)
    ensures KnownIds(sel, []) == []
  {
    if sel != [] {
      KnownIdsNoIds(sel[1..]);
    }
  }

  /** With every requested id known, nothing is dropped. */
  lemma {:induction false} KnownIdsAll(sel: seq<String>, ids: seq<String>)
    requires forall x :: x in sel ==> x in ids
    ensures KnownIds(sel, ids) == sel
  {
    if sel != [] {
      KnownIdsAll(sel[1..], ids);
      assert sel == [sel[0]] + sel[1..];
    }
  }

  /** An unknown requested id makes the selection shorter than the request. */
  lemma {:induction false} KnownIdsShorter(sel: seq<String>, ids: seq<String>, unknown: String)
    requires unknown in sel && unknown !in ids
    ensures |KnownIds(sel, ids)| < |sel|
  {
    assert sel == [sel[0]] + sel[1..];
    if sel[0] != unknown {
      KnownIdsShorter(sel[1..], ids, unknown);
    } else {
      KnownIdsAtMost(sel[1..], ids);
    }
  }

  lemma {:induction false} KnownIdsAtMost(sel: seq<String>, ids: seq<String>)
    ensures |KnownIds(sel, ids)| <= |sel|
  {
    if sel != [] {
      KnownIdsAtMost(sel[1..], ids);
    }
  }

  /** `k = max(1, min(k, X.shape[0]))` */
  function ClampClusters(k: int, n: nat): (r: nat)
    ensures 1 <= r
    ensures n >= 1 ==> r <= n
    ensures 1 <= k <= n ==> r == k
    ensures n >= 1 && k >= n ==> r == n
  {
    if Min(k, n) < 1 then 1 else Min(k, n)
  }

  // --------------------------------------------------------- neighbour rows

  /** `[self._ids[i] for i in idxs[0]]` zipped with the distances. */
  function Neighbours(hits: seq<Hit>, ids: seq<String>): (r: seq<Neighbour>)
    requires forall j :: 0 <= j < |hits| ==> hits[j].index < |ids|
    ensures |r| == |hits|
    ensures forall j :: 0 <= j < |r| ==> r[j].id in ids
    ensures forall j :: 0 <= j < |r| ==> r[j].id == ids[hits[j].index] && r[j].distance == hits[j].distance
  {
    seq(|hits|, j requires 0 <= j < |hits| => Neighbour(ids[hits[j].index], hits[j].distance))
  }

  /** `_result_row(id, 1.0 - distance)` */
  function ResultRow(articles: map<String, Article>, n: Neighbour): Row
    requires n.id in articles
  {
    Row(n.id, articles[n.id].title, articles[n.id].year, 1.0 - n.distance)
  }

  /** Result rows of the neighbours other than `idRef`, in order. */
  function OtherRows(pairs: seq<Neighbour>, idRef: String, articles: map<String, Article>): (r: seq<Row>)
    requires forall p :: p in pairs ==> p.id in articles
    ensures |r| <= |pairs|
    ensures forall row :: row in r ==>
      (row.id != idRef && row.id in articles
       && row.title == articles[row.id].title && row.year == articles[row.id].year)
  {
    if pairs == [] then []
    else
      (if pairs[0].id == idRef then [] else [ResultRow(articles, pairs[0])])
      + OtherRows(pairs[1..], idRef, articles)
  }

  lemma {:induction false} OtherRowsAppend(a: seq<Neighbour>, b: seq<Neighbour>, idRef: String,
                                           articles: map<String, Article>)
    requires forall p :: p in a + b ==> p.id in articles
    ensures OtherRows(a + b, idRef, articles) == OtherRows(a, idRef, articles) + OtherRows(b, idRef, articles)
  {
    if a != [] {
      assert (a + b)[0] == a[0];
      assert (a + b)[1..] == a[1..] + b;
      OtherRowsAppend(a[1..], b, idRef, articles);
    } else {
      assert a + b == b;
    }
  }

  /**
   * The row-collecting loop of `topk_by_id`: skip the query article, stop
   * as soon as `k` rows are collected.
   */
  method CollectOthers(pairs: seq<Neighbour>, idRef: String, k: nat, articles: map<String, Article>)
    returns (rows: seq<Row>)
    requires k >= 1
    requires forall p :: p in pairs ==> p.id in articles
    ensures rows == Take(OtherRows(pairs, idRef, articles), k)
    ensures |rows| <= k
    ensures forall r :: r in rows ==> r.id != idRef && r.id in articles
  {
    rows := [];
    var i := 0;
    while i < |pairs|
      invariant 0 <= i <= |pairs|
      invariant rows == OtherRows(pairs[..i], idRef, articles)
      invariant |rows| < k
    {
      OtherRowsSnoc(pairs, i, idRef, articles);
      if pairs[i].id != idRef {
        rows := rows + [ResultRow(articles, pairs[i])];
        if |rows| >= k {
          OtherRowsPrefixTake(pairs, i + 1, idRef, k, articles);
          return;
        }
      }
      i := i + 1;
    }
    assert pairs[..i] == pairs;
  }

  lemma OtherRowsSnoc(pairs: seq<Neighbour>, i: nat, idRef: String, articles: map<String, Article>)
    requires i < |pairs|
    requires forall p :: p in pairs ==> p.id in articles
    ensures OtherRows(pairs[..i + 1], idRef, articles) ==
      OtherRows(pairs[..i], idRef, articles) + (if pairs[i].id == idRef then [] else [ResultRow(articles, pairs[i])])
  {
    assert pairs[..i + 1] == pairs[..i] + [pairs[i]];
    OtherRowsAppend(pairs[..i], [pairs[i]], idRef, articles);
  }

  lemma OtherRowsPrefixTake(pairs: seq<Neighbour>, i: nat, idRef: String, k: nat,
                            articles: map<String, Article>)
    requires i <= |pairs|
    requires forall p :: p in pairs ==> p.id in articles
    requires |OtherRows(pairs[..i], idRef, articles)| == k
    ensures Take(OtherRows(pairs, idRef, articles), k) == OtherRows(pairs[..i], idRef, articles)
  {
    assert pairs == pairs[..i] + pairs[i..];
    OtherRowsAppend(pairs[..i], pairs[i..], idRef, articles);
  }

  /** `labels` as the source builds it: positions of the REQUESTED ids. */
  function LabelRowsAsWritten(sel: seq<String>, lab: seq<int>): (r: Option<seq<LabelRow>>)
    ensures r.None? <==> |sel| > |lab|
    ensures r.Some? ==> |r.value| == |sel|
  {
    if |sel| > |lab| then None  // IndexError at lab[i]
    else Some(seq(|sel|, i requires 0 <= i < |sel| => LabelRow(sel[i], lab[i])))
  }

  /** `labels` pairing each label with the id it was computed for. */
  function LabelRows(found: seq<String>, lab: seq<int>): (r: seq<LabelRow>)
    requires |found| == |lab|
    ensures |r| == |lab|
    ensures forall i :: 0 <= i < |r| ==> r[i].id == found[i] && r[i].cluster == lab[i]
  {
    seq(|found|, i requires 0 <= i < |found| => LabelRow(found[i], lab[i]))
  }

  /** The cluster of each label row. */
  function ClusterIds(labels: seq<LabelRow>): (r: seq<int>)
    ensures |r| == |labels| && forall i :: 0 <= i < |labels| ==> r[i] == labels[i].cluster
  {
    seq(|labels|, i requires 0 <= i < |labels| => labels[i].cluster)
  }

  /** The sizes `clusters` reports for given labels: the label counts, largest first. */
  function SizesFor(labels: seq<LabelRow>): seq<ClusterSize> {
    SortDesc(SizesOf(FirstAppearance(ClusterIds(labels)), ClusterIds(labels)), SizeRank)
  }

  /**
   * The labels `clusters` computes for the selected ids: k-means over their
   * embeddings with the clamped cluster count, one label per id.
   */
  function ClusterLabels(sel: seq<String>, articles: map<String, Article>, encode: String -> Vector,
                         k: int, kmeans: Clustering): (r: seq<LabelRow>)
    requires IsClustering(kmeans)
    requires forall x :: x in sel ==> x in articles
    ensures |r| == |sel|
    ensures forall i :: 0 <= i < |r| ==> r[i].id == sel[i]
    ensures sel != [] ==> ClusterIds(r) == kmeans(EncodeAbstracts(sel, articles, encode), ClampClusters(k, |sel|))
  {
    if sel == [] then []
    else
      var r := LabelRows(sel, kmeans(EncodeAbstracts(sel, articles, encode), ClampClusters(k, |sel|)));
      assert ClusterIds(r) == kmeans(EncodeAbstracts(sel, articles, encode), ClampClusters(k, |sel|));
      r
  }

  /**
   * The reported sizes count every label once, largest first, and name only
   * clusters that some label carries.
   */
  lemma SizesForFacts(labels: seq<LabelRow>)
    ensures SumOf(SizesFor(labels), Size) == |labels|
    ensures SortedDesc(SizesFor(labels), SizeRank)
    ensures forall z :: z in SizesFor(labels) ==> exists l :: l in labels && l.cluster == z.cluster
  {
    var lab := ClusterIds(labels);
    var unsorted := SizesOf(FirstAppearance(lab), lab);
    SumOfSort(unsorted, SizeRank, Size);
    SumOfSizes(FirstAppearance(lab), lab);
    TotalOfFirstAppearance(lab);
    SortDescSameElements(unsorted, SizeRank);
    SizesOfMembers(FirstAppearance(lab), lab);
    forall z | z in SizesFor(labels) ensures exists l :: l in labels && l.cluster == z.cluster {
      var i :| 0 <= i < |lab| && lab[i] == z.cluster;
      assert labels[i] in labels;
    }
  }

  /**
   * The body of `clusters` once the index is fresh: select the known ids,
   * cluster their embeddings, pair the labels with the ids and count them.
   */
  method ClusterSelection(sel: seq<String>, ids: seq<String>, articles: map<String, Article>,
                          embeddings: Option<seq<Vector>>, encode: String -> Vector, k: int, kmeans: Clustering)
    returns (labels: seq<LabelRow>, sizes: seq<ClusterSize>)
    requires IsClustering(kmeans)
    requires forall x :: x in ids ==> x in articles
    requires ids == [] <==> embeddings.None?
    requires embeddings.Some? ==> embeddings.value == EncodeAbstracts(ids, articles, encode)
    ensures forall x :: x in KnownIds(sel, ids) ==> x in articles
    ensures labels == ClusterLabels(KnownIds(sel, ids), articles, encode, k, kmeans)
    ensures sizes == SizesFor(labels)
  {
    var known := KnownIds(sel, ids);
    if embeddings.None? {
      KnownIdsNoIds(sel);
      return [], [];
    }
    var idx := KnownIndices(sel, ids);
    KnownIndicesIds(sel, ids);
    if idx == [] {
      return [], [];
    }
    var es := embeddings.value;
    var xs := seq(|idx|, j requires 0 <= j < |idx| => es[idx[j]]);
    assert xs == EncodeAbstracts(known, articles, encode);
    var c := ClampClusters(k, |xs|);
    var lab := kmeans(xs, c);
    sizes := ClusterSizes(lab);
    labels := LabelRows(known, lab);
    assert ClusterIds(labels) == lab;
  }

  /** A request naming an unknown id, wherever it stands, makes the label indexing raise. */
  lemma UnknownIdRaises(sel: seq<String>, ids: seq<String>, lab: seq<int>, unknown: String)
    requires unknown in sel && unknown !in ids
    requires |lab| == |KnownIds(sel, ids)|
    ensures LabelRowsAsWritten(sel, lab).None?
  {
    KnownIdsShorter(sel, ids, unknown);
  }

  /** When every requested id is known the corrected labels are the source's. */
  lemma LabelRowsAgree(sel: seq<String>, ids: seq<String>, lab: seq<int>)
    requires forall x :: x in sel ==> x in ids
    requires |lab| == |KnownIds(sel, ids)|
    ensures LabelRowsAsWritten(sel, lab) == Some(LabelRows(KnownIds(sel, ids), lab))
  {
    KnownIdsAll(sel, ids);
  }

  // ------------------------------------------------------ cluster summaries

  function SizeRank(c: ClusterSize): Rank { Rank(c.size as real, 0.0) }

  function Size(c: ClusterSize): int { c.size }

  /** `[{"cluster": c, "size": n} for c, n in counts.items()]` */
  function SizesOf(keys: seq<int>, lab: seq<int>): (r: seq<ClusterSize>)
    ensures |r| == |keys|
    ensures forall i :: 0 <= i < |r| ==> r[i] == ClusterSize(keys[i], multiset(lab)[keys[i]])
  {
    if keys == [] then [] else [ClusterSize(keys[0], multiset(lab)[keys[0]])] + SizesOf(keys[1..], lab)
  }

  lemma {:induction false} SizesOfMembers(keys: seq<int>, lab: seq<int>)
    ensures forall z :: z in SizesOf(keys, lab) <==> z.cluster in keys && z.size == multiset(lab)[z.cluster]
  {
    if keys != [] {
      SizesOfMembers(keys[1..], lab);
      assert keys == [keys[0]] + keys[1..];
    }
  }

  lemma {:induction false} SumOfSizes(keys: seq<int>, lab: seq<int>)
    ensures SumOf(SizesOf(keys, lab), Size) == Total(keys, multiset(lab))
  {
    if keys != [] {
      SumOfSizes(keys[1..], lab);
    }
  }

  /**
   * The summary part of `clusters`: count labels in a dict, list its items,
   * sort by size, largest first.
   */
  method ClusterSizes(lab: seq<int>) returns (sizes: seq<ClusterSize>)
    ensures sizes == SortDesc(SizesOf(FirstAppearance(lab), lab), SizeRank)
    ensures SumOf(sizes, Size) == |lab|
    ensures SortedDesc(sizes, SizeRank)
    ensures forall z :: z in sizes ==> z.cluster in lab && z.size == multiset(lab)[z.cluster]
    ensures forall c :: c in lab ==> ClusterSize(c, multiset(lab)[c]) in sizes
  {
    var unsorted := CountClusters(lab);
    sizes := SortDesc(unsorted, SizeRank);
    SumOfSort(unsorted, SizeRank, Size);
    SumOfSizes(FirstAppearance(lab), lab);
    TotalOfFirstAppearance(lab);
    SortDescSameElements(unsorted, SizeRank);
    SizesOfMembers(FirstAppearance(lab), lab);
  }

  /** The label counts as a list of `{"cluster": c, "size": n}` in first-appearance order. */
  method CountClusters(lab: seq<int>) returns (unsorted: seq<ClusterSize>)
    ensures unsorted == SizesOf(FirstAppearance(lab), lab)
  {
    var keys, counts := CountOccurrences(lab);
    unsorted := seq(|keys|, i requires 0 <= i < |keys| => ClusterSize(keys[i], counts[keys[i]]));
  }

  // ------------------------------------------------ under-explored clusters

  function CountRank(kws: seq<String>): String -> Rank {
    w => Rank(multiset(kws)[w] as real, 0.0)
  }

  /**
   * `[k for k, _ in Counter(keywords).most_common(5)]`: the distinct
   * keywords, most frequent first, at most five; a keyword left out occurs
   * no more often than any kept one.
   */
  function TopKeywords(kws: seq<String>): (r: seq<String>)
    ensures |r| == if |FirstAppearance(kws)| <= 5 then |FirstAppearance(kws)| else 5
    ensures NoDup(r)
    ensures forall w :: w in r ==> w in kws
    ensures SortedDesc(r, CountRank(kws))
    ensures forall w :: w in kws && w !in r ==> |r| == 5 && forall v :: v in r ==> multiset(kws)[w] <= multiset(kws)[v]
  {
    var keys := FirstAppearance(kws);
    var r := Top(keys, CountRank(kws), 5);
    NoDupSub(r, keys);
    forall w | w in r ensures w in kws {
      assert w in multiset(keys);
    }
    r
  }

  /**
   * Among equally frequent keywords `most_common` keeps those seen first:
   * the kept keywords with a given count are the first ones with that count
   * in order of first appearance.
   */
  lemma TopKeywordsTies(kws: seq<String>, n: nat)
    ensures var kept := WithKey(TopKeywords(kws), CountRank(kws), Rank(n as real, 0.0));
            var all := WithKey(FirstAppearance(kws), CountRank(kws), Rank(n as real, 0.0));
            |kept| <= |all| && all[..|kept|] == kept
  {
    TopStable(FirstAppearance(kws), CountRank(kws), 5, Rank(n as real, 0.0));
  }

  /** Truthy years of the papers: `[p.year for p in papers if p.year]`. */
  function Years(papers: seq<Article>): (r: seq<int>)
    ensures |r| <= |papers|
    ensures forall y :: y in r <==> y != 0 && exists p :: p in papers && p.year == Some(y)
  {
    if papers == [] then []
    else
      assert forall p :: p in papers <==> p == papers[0] || p in papers[1..] by {
        assert papers == [papers[0]] + papers[1..];
      }
      (if papers[0].year.Some? && papers[0].year.value != 0 then [papers[0].year.value] else [])
      + Years(papers[1..])
  }

  /** The years keep the papers' order. */
  lemma {:induction false} YearsAppend(a: seq<Article>, b: seq<Article>)
    ensures Years(a + b) == Years(a) + Years(b)
  {
    if a == [] {
      assert a + b == b;
    } else {
      assert (a + b)[0] == a[0] && (a + b)[1..] == a[1..] + b;
      YearsAppend(a[1..], b);
    }
  }

  function MinOf(s: seq<int>): (m: int)
    requires s != []
    ensures m in s && forall x :: x in s ==> m <= x
  {
    if |s| == 1 then s[0]
    else
      assert s == [s[0]] + s[1..];
      var r := MinOf(s[1..]);
      if s[0] <= r then s[0] else r
  }

  function MaxOf(s: seq<int>): (m: int)
    requires s != []
    ensures m in s && forall x :: x in s ==> x <= m
  {
    if |s| == 1 then s[0]
    else
      assert s == [s[0]] + s[1..];
      var r := MaxOf(s[1..]);
      if r <= s[0] then s[0] else r
  }

  /** `[kw for p in papers for kw in p.keywords]` */
  function AllKeywords(papers: seq<Article>): seq<String> {
    if papers == [] then [] else papers[0].keywords + AllKeywords(papers[1..])
  }

  /** The ids labelled with cluster `c`, in label order. */
  function MembersOf(labels: seq<LabelRow>, c: int): (r: seq<String>)
    ensures |r| <= |labels|
    ensures forall x :: x in r <==> exists l :: l in labels && l.id == x && l.cluster == c
  {
    if labels == [] then []
    else
      assert forall l :: l in labels <==> l == labels[0] || l in labels[1..] by {
        assert labels == [labels[0]] + labels[1..];
      }
      (if labels[0].cluster == c then [labels[0].id] else []) + MembersOf(labels[1..], c)
  }

  /** The members keep the label order. */
  lemma {:induction false} MembersOfAppend(a: seq<LabelRow>, b: seq<LabelRow>, c: int)
    ensures MembersOf(a + b, c) == MembersOf(a, c) + MembersOf(b, c)
  {
    if a == [] {
      assert a + b == b;
    } else {
      var head := if a[0].cluster == c then [a[0].id] else [];
      assert (a + b)[0] == a[0] && (a + b)[1..] == a[1..] + b;
      MembersOfAppend(a[1..], b, c);
      assert MembersOf(a + b, c) == head + MembersOf(a[1..] + b, c);
      assert MembersOf(a, c) == head + MembersOf(a[1..], c);
      SeqAssoc(head, MembersOf(a[1..], c), MembersOf(b, c));
    }
  }

  function ExplorationRank(u: Underexplored): Rank { Rank(u.exploration, 0.0) }

  /** `papers = [self._articles[pid] for pid in paper_ids]` */
  function Papers(paperIds: seq<String>, articles: map<String, Article>): (r: seq<Article>)
    requires forall x :: x in paperIds ==> x in articles
    ensures |r| == |paperIds|
    ensures forall i :: 0 <= i < |r| ==> r[i] == articles[paperIds[i]]
  {
    if paperIds == [] then [] else [articles[paperIds[0]]] + Papers(paperIds[1..], articles)
  }

  /** `[{"id": pid, "title": ...} for pid in paper_ids[:3]]` */
  function Samples(paperIds: seq<String>, articles: map<String, Article>): (r: seq<(String, String)>)
    requires forall x :: x in paperIds ==> x in articles
    ensures |r| == |paperIds|
    ensures forall i :: 0 <= i < |r| ==> r[i] == (paperIds[i], articles[paperIds[i]].title)
  {
    if paperIds == [] then []
    else [(paperIds[0], articles[paperIds[0]].title)] + Samples(paperIds[1..], articles)
  }

  /** The entry `underexplored_clusters` reports for one small cluster. */
  function Report(c: ClusterSize, total: nat, paperIds: seq<String>, articles: map<String, Article>)
    : (u: Underexplored)
    requires total > 0
    requires forall x :: x in paperIds ==> x in articles
    ensures u.cluster == c.cluster && u.size == c.size
    ensures u.percentage == (c.size as real) / (total as real) * 100.0
    ensures u.exploration == 1.0 / ((c.size + 1) as real)
    ensures |u.samples| <= 3 && |u.topKeywords| <= 5
    ensures u.yearRange.Some? ==> u.yearRange.value.0 <= u.yearRange.value.1
  {
    var papers := Papers(paperIds, articles);
    var years := Years(papers);
    Underexplored(
      c.cluster, c.size,
      (c.size as real) / (total as real) * 100.0,
      if years == [] then None else Some((MinOf(years), MaxOf(years))),
      TopKeywords(AllKeywords(papers)),
      Samples(Take(paperIds, 3), articles),
      1.0 / ((c.size + 1) as real))
  }

  /**
   * The fields of a report: the first three members with their titles, the
   * five commonest keywords of the members' papers, and the smallest and
   * largest truthy year among them (`None` when no paper has one).
   */
  lemma ReportFields(c: ClusterSize, total: nat, paperIds: seq<String>, articles: map<String, Article>)
    requires total > 0
    requires forall x :: x in paperIds ==> x in articles
    ensures var u := Report(c, total, paperIds, articles);
            |u.samples| == (if |paperIds| <= 3 then |paperIds| else 3)
            && (forall i :: 0 <= i < |u.samples| ==> u.samples[i] == (paperIds[i], articles[paperIds[i]].title))
            && u.topKeywords == TopKeywords(AllKeywords(Papers(paperIds, articles)))
    ensures var u := Report(c, total, paperIds, articles);
            var years := Years(Papers(paperIds, articles));
            (u.yearRange.Some? <==> exists i :: 0 <= i < |paperIds| && articles[paperIds[i]].year.Some? && articles[paperIds[i]].year.value != 0)
            && (u.yearRange.Some? ==>
                  u.yearRange.value.0 in years && u.yearRange.value.1 in years
                  && forall y :: y in years ==> u.yearRange.value.0 <= y <= u.yearRange.value.1)
  {
    SamplesOfFirst(paperIds, articles);
    YearsPresent(paperIds, articles);
  }

  lemma SamplesOfFirst(paperIds: seq<String>, articles: map<String, Article>)
    requires forall x :: x in paperIds ==> x in articles
    ensures forall x :: x in Take(paperIds, 3) ==> x in articles
    ensures var samples := Samples(Take(paperIds, 3), articles);
            |samples| == (if |paperIds| <= 3 then |paperIds| else 3)
            && forall i :: 0 <= i < |samples| ==> samples[i] == (paperIds[i], articles[paperIds[i]].title)
  {
    var first := Take(paperIds, 3);
    assert forall x :: x in first ==> x in paperIds;
    var samples := Samples(first, articles);
    forall i | 0 <= i < |samples| ensures samples[i] == (paperIds[i], articles[paperIds[i]].title) {
      assert first[i] == paperIds[i];
    }
  }

  lemma YearsPresent(paperIds: seq<String>, articles: map<String, Article>)
    requires forall x :: x in paperIds ==> x in articles
    ensures Years(Papers(paperIds, articles)) != [] <==>
              exists i :: 0 <= i < |paperIds| && articles[paperIds[i]].year.Some? && articles[paperIds[i]].year.value != 0
  {
    var papers := Papers(paperIds, articles);
    var years := Years(papers);
    if years != [] {
      var y := years[0];
      assert y in years;
      var p :| p in papers && p.year == Some(y);
      var i :| 0 <= i < |papers| && papers[i] == p;
      assert articles[paperIds[i]].year.Some? && articles[paperIds[i]].year.value != 0;
    }
    forall i | 0 <= i < |paperIds| && articles[paperIds[i]].year.Some? && articles[paperIds[i]].year.value != 0
      ensures years != []
    {
      assert papers[i] in papers;
      assert articles[paperIds[i]].year.value in years;
    }
  }

  /** `percentage > min_size_threshold` is false: the cluster counts as small. */
  predicate Small(c: ClusterSize, total: nat, threshold: real) {
    total > 0 && (c.size as real) / (total as real) <= threshold
  }

  /** The report of a cluster, its members read from the labels. */
  function ReportFor(labels: seq<LabelRow>, total: nat, articles: map<String, Article>): ClusterSize --> Underexplored {
    (c: ClusterSize) requires total > 0 && (forall l :: l in labels ==> l.id in articles) =>
      Report(c, total, MembersOf(labels, c.cluster), articles)
  }

  /** The reports of the small clusters, in the order of `sizes` (the list before its sort). */
  function SmallReports(sizes: seq<ClusterSize>, labels: seq<LabelRow>, total: nat, threshold: real,
                        articles: map<String, Article>): (r: seq<Underexplored>)
    requires total > 0
    requires forall l :: l in labels ==> l.id in articles
    ensures |r| <= |sizes|
  {
    FilterMap(sizes, c => Small(c, total, threshold), ReportFor(labels, total, articles))
  }

  /** Exactly the small clusters are reported, each by its own report. */
  lemma SmallReportsMembers(sizes: seq<ClusterSize>, labels: seq<LabelRow>, total: nat,
                            threshold: real, articles: map<String, Article>, u: Underexplored)
    requires total > 0
    requires forall l :: l in labels ==> l.id in articles
    ensures u in SmallReports(sizes, labels, total, threshold, articles) <==>
              exists i :: 0 <= i < |sizes| && Small(sizes[i], total, threshold)
                          && u == Report(sizes[i], total, MembersOf(labels, sizes[i].cluster), articles)
  {
    FilterMapMembers(sizes, c => Small(c, total, threshold), ReportFor(labels, total, articles), u);
  }

  /** The loop of `underexplored_clusters` that reports each small cluster in turn. */
  method CollectSmall(sizes: seq<ClusterSize>, labels: seq<LabelRow>, total: nat, threshold: real,
                      articles: map<String, Article>) returns (found: seq<Underexplored>)
    requires total > 0
    requires forall l :: l in labels ==> l.id in articles
    ensures found == SmallReports(sizes, labels, total, threshold, articles)
  {
    found := [];
    var i := 0;
    while i < |sizes|
      invariant 0 <= i <= |sizes|
      invariant found == SmallReports(sizes[..i], labels, total, threshold, articles)
    {
      FilterMapSnoc(sizes, i, c => Small(c, total, threshold), ReportFor(labels, total, articles));
      var c := sizes[i];
      if (c.size as real) / (total as real) <= threshold {
        var paperIds := MembersOf(labels, c.cluster);
        found := found + [Report(c, total, paperIds, articles)];
      }
      i := i + 1;
    }
    assert sizes[..i] == sizes;
  }

  /** Every report is of a small cluster, with at most three samples and five keywords. */
  lemma SmallReportsFacts(sizes: seq<ClusterSize>, labels: seq<LabelRow>, total: nat, threshold: real,
                          articles: map<String, Article>)
    requires total > 0
    requires forall l :: l in labels ==> l.id in articles
    ensures forall u :: u in SmallReports(sizes, labels, total, threshold, articles) ==>
              (u.size as real) / (total as real) <= threshold && |u.samples| <= 3 && |u.topKeywords| <= 5
  {
    forall u | u in SmallReports(sizes, labels, total, threshold, articles)
      ensures (u.size as real) / (total as real) <= threshold && |u.samples| <= 3 && |u.topKeywords| <= 5
    {
      SmallReportsMembers(sizes, labels, total, threshold, articles, u);
    }
  }

  // ------------------------------------------------------------ the engine

  /** The embedding of every stored abstract, in id order. */
  function EncodeAbstracts(ids: seq<String>, articles: map<String, Article>, encode: String -> Vector): (r: seq<Vector>)
    requires forall x :: x in ids ==> x in articles
    ensures |r| == |ids|
    ensures forall i :: 0 <= i < |ids| ==> r[i] == encode(articles[ids[i]].abstractText)
  {
    seq(|ids|, i requires 0 <= i < |ids| => encode(articles[ids[i]].abstractText))
  }

  /**
   * The loop of `projection` that builds the points: point i is the i-th
   * id with the first two coordinates of row i and its article's title,
   * year, authors and keywords.
   */
  method PlacePoints(known: seq<String>, articles: map<String, Article>, coords: seq<seq<real>>)
    returns (points: seq<Point>)
    requires forall x :: x in known ==> x in articles
    requires |coords| == |known| && forall i :: 0 <= i < |coords| ==> |coords[i]| >= 2
    ensures |points| == |known|
    ensures forall i :: 0 <= i < |points| ==>
              var a := articles[known[i]];
              points[i].id == known[i] && points[i].x == coords[i][0] && points[i].y == coords[i][1]
              && points[i].title == a.title && points[i].year == a.year
              && points[i].authors == a.authors && points[i].keywords == a.keywords
  {
    points := [];
    var i := 0;
    while i < |known|
      invariant 0 <= i <= |known|
      invariant |points| == i
      invariant forall j :: 0 <= j < i ==>
        var a := articles[known[j]];
        points[j] == Point(known[j], coords[j][0], coords[j][1], a.title, a.year, a.authors, a.keywords)
    {
      var art := articles[known[i]];
      points := points + [Point(known[i], coords[i][0], coords[i][1], art.title, art.year, art.authors, art.keywords)];
      i := i + 1;
    }
  }

  class ArticleSimilarityEngine {
    /** The sentence encoder (`SentenceTransformer(model_name).encode`). */
    const encode: String -> Vector
    const neighborsDefault: nat
    var articles: map<String, Article>
    var ids: seq<String>
    var embeddings: Option<seq<Vector>>
    /** The fitted neighbour index, represented by the points it was fitted on. */
    var knn: Option<seq<Vector>>
    var dirty: bool

    /** The embeddings the index has when it is up to date. */
    function Fresh(): Option<seq<Vector>>
      reads this
      requires forall x :: x in ids ==> x in articles
    {
      if ids == [] then None else Some(EncodeAbstracts(ids, articles, encode))
    }

    ghost predicate Valid()
      reads this
    {
      NoDup(ids)
      && (forall x :: x in articles <==> x in ids)
      && (forall x :: x in articles ==> articles[x].id == x)
      && knn == embeddings
      && (!dirty ==> embeddings == Fresh())
    }

    constructor (encode: String -> Vector, neighborsDefault: nat)
      requires neighborsDefault >= 1
      ensures Valid() && dirty
      ensures this.encode == encode && this.neighborsDefault == neighborsDefault
      ensures articles == map[] && ids == [] && embeddings.None? && knn.None?
    {
      this.encode := encode;
      this.neighborsDefault := neighborsDefault;
      articles := map[];
      ids := [];
      embeddings := None;
      knn := None;
      dirty := true;
    }

    /** `k = k or self.n_neighbors_default` */
    function NeighbourCount(k: Option<int>): (kk: int)
      reads this
      ensures k.Some? && k.value != 0 ==> kk == k.value
      ensures k.None? || k.value == 0 ==> kk == neighborsDefault
    {
      if k.None? || k.value == 0 then neighborsDefault else k.value
    }

    method EnsureIndex()
      requires Valid()
      modifies this
      ensures Valid() && !dirty
      ensures articles == old(articles) && ids == old(ids)
      ensures !old(dirty) ==> embeddings == old(embeddings) && knn == old(knn)
      ensures ids == [] <==> embeddings.None?
      ensures embeddings.Some? ==> |embeddings.value| == |ids|
    {
      if !dirty {
        return;
      }
      if ids == [] {
        embeddings := None;
        knn := None;
        dirty := false;
        return;
      }
      embeddings := Some(EncodeAbstracts(ids, articles, encode));
      knn := embeddings;
      dirty := false;
    }

    method UpsertMany(items: seq<Item>)
      requires Valid()
      modifies this
      ensures Valid() && dirty
      ensures articles == StoreAll(old(articles), items)
      ensures ids == AppendNew(old(ids), items)
      ensures embeddings == old(embeddings) && knn == old(knn)
    {
      var order := ids;  // the key order of the dict
      var i := 0;
      while i < |items|
        invariant 0 <= i <= |items|
        invariant articles == StoreAll(old(articles), items[..i])
        invariant order == AppendNew(old(ids), items[..i])
        invariant NoDup(order)
        invariant forall x :: x in articles <==> x in order
        invariant forall x :: x in articles ==> articles[x].id == x
        invariant embeddings == old(embeddings) && knn == old(knn)
      {
        assert items[..i + 1][..i] == items[..i];
        var art := ToArticle(items[i]);
        if art.id !in articles {
          order := order + [art.id];
        }
        articles := articles[art.id := art];
        i := i + 1;
      }
      assert items[..i] == items;
      ids := order;
      dirty := true;
    }

    method UpsertOne(item: Item)
      requires Valid()
      modifies this
      ensures Valid() && dirty
      ensures articles == old(articles)[item.id := ToArticle(item)]
      ensures ids == if item.id in old(ids) then old(ids) else old(ids) + [item.id]
    {
      UpsertMany([item]);
      assert [item][..0] == [];
    }

    function AllArticles(): (r: seq<Article>)
      reads this
      requires Valid()
      ensures |r| == |ids|
      ensures forall i :: 0 <= i < |r| ==> r[i].id == ids[i] && r[i] == articles[ids[i]]
    {
      var ids, articles := this.ids, this.articles;
      seq(|ids|, i requires 0 <= i < |ids| => articles[ids[i]])
    }

    function GetArticle(id: String): (r: Option<Article>)
      reads this
      requires Valid()
      ensures r.None? <==> id !in ids
      ensures r.Some? ==> r.value == articles[id] && r.value.id == id
    {
      if id in articles then Some(articles[id]) else None
    }

    method Clear()
      modifies this
      ensures Valid() && !dirty
      ensures articles == map[] && ids == [] && embeddings.None? && knn.None?
    {
      articles := map[];
      ids := [];
      embeddings := None;
      knn := None;
      dirty := false;
    }

    /**
     * `topk_by_text`: the `min(k, len(ids))` nearest stored abstracts to the
     * encoded query, as the index returns them, each with similarity
     * `1 - distance`; `hits` is the index's answer. A negative `k` asks the
     * index for no neighbours, which it rejects: `None`.
     */
    method TopkByText(text: String, k: Option<int>, search: Search) returns (rows: Option<seq<Row>>, ghost hits: seq<Hit>)
      requires Valid() && IsSearch(search) && neighborsDefault >= 1
      modifies this
      ensures Valid() && !dirty && articles == old(articles) && ids == old(ids)
      ensures ids == [] ==> rows == Some([]) && hits == []
      ensures rows.None? <==> ids != [] && NeighbourCount(k) < 0
      ensures ids != [] && NeighbourCount(k) > 0 ==>
                hits == search(EncodeAbstracts(ids, articles, encode), encode(text), Min(NeighbourCount(k), |ids|))
      ensures rows.Some? && ids != [] ==> |rows.value| == Min(NeighbourCount(k), |ids|)
      ensures forall j :: 0 <= j < |hits| ==> hits[j].index < |ids|
      ensures rows.Some? ==> |rows.value| == |hits|
      ensures rows.Some? ==> forall i :: 0 <= i < |rows.value| ==> rows.value[i] == ResultRow(articles, Neighbours(hits, ids)[i])
      ensures rows.Some? ==> forall r :: r in rows.value ==> r.id in ids && r.title == articles[r.id].title
    {
      EnsureIndex();
      if embeddings.None? || knn.None? {
        return Some([]), [];
      }
      var kk := NeighbourCount(k);
      var m := Min(kk, |ids|);
      if m <= 0 {
        return None, [];
      }
      var q := encode(text);
      var found := search(knn.value, q, m);
      hits := found;
      var pairs := Neighbours(found, ids);
      var table := articles;
      rows := Some(seq(|pairs|, i requires 0 <= i < |pairs| => ResultRow(table, pairs[i])));
    }

    /**
     * `topk_by_id`: the index is asked for `min(k + 1, len(ids))` neighbours
     * of the stored article's own embedding; the rows are those of the
     * neighbours other than the article itself, in the index's order, cut at
     * `k`; `hits` is the index's answer. A negative `k` asks the index for no
     * neighbours, which it rejects: `None`.
     */
    method TopkById(idRef: String, k: Option<int>, search: Search) returns (rows: Option<seq<Row>>, ghost hits: seq<Hit>)
      requires Valid() && IsSearch(search) && neighborsDefault >= 1
      modifies this
      ensures Valid() && !dirty && articles == old(articles) && ids == old(ids)
      ensures idRef !in ids ==> rows == Some([]) && hits == []
      ensures rows.None? <==> idRef in ids && NeighbourCount(k) < 0
      ensures idRef in ids && NeighbourCount(k) > 0 ==>
                hits == search(EncodeAbstracts(ids, articles, encode), encode(articles[idRef].abstractText),
                               Min(NeighbourCount(k) + 1, |ids|))
      ensures forall j :: 0 <= j < |hits| ==> hits[j].index < |ids|
      ensures rows.Some? && idRef in ids ==>
                NeighbourCount(k) > 0 && rows.value == Take(OtherRows(Neighbours(hits, ids), idRef, articles), NeighbourCount(k))
      ensures rows.Some? && idRef in ids ==> |rows.value| <= NeighbourCount(k)
      ensures rows.Some? ==> forall r :: r in rows.value ==> r.id != idRef && r.id in ids && r.title == articles[r.id].title
    {
      EnsureIndex();
      if idRef !in articles || embeddings.None? {
        return Some([]), [];
      }
      var kk := NeighbourCount(k);
      var m := Min(kk + 1, |ids|);
      if m <= 0 {
        return None, [];
      }
      var idx := IndexOf(ids, idRef);
      var vec := embeddings.value[idx];
      var found := search(knn.value, vec, m);
      hits := found;
      var pairs := Neighbours(found, ids);
      var others := CollectOthers(pairs, idRef, kk, articles);
      rows := Some(others);
    }

    /** The vectors of the selected positions (`self._embeddings[sel_idx]`). */
    function Rows(sel: seq<nat>): (xs: seq<Vector>)
      reads this
      requires embeddings.Some? && forall j :: 0 <= j < |sel| ==> sel[j] < |embeddings.value|
      ensures |xs| == |sel|
      ensures forall j :: 0 <= j < |sel| ==> xs[j] == embeddings.value[sel[j]]
    {
      var es := embeddings.value;
      seq(|sel|, j requires 0 <= j < |sel| => es[sel[j]])
    }

    method SimilarityMatrix(requested: seq<String>, cosine: (Vector, Vector) -> real)
      returns (selected: seq<String>, matrix: seq<seq<real>>)
      requires Valid()
      modifies this
      ensures Valid() && !dirty && articles == old(articles) && ids == old(ids)
      ensures selected == KnownIds(Requested(requested, ids), ids)
      ensures |matrix| == |selected|
      ensures forall i :: 0 <= i < |matrix| ==> |matrix[i]| == |selected|
    {
      EnsureIndex();
      if embeddings.None? {
        KnownIdsNoIds(Requested(requested, ids));
        return [], [];
      }
      var sel := Requested(requested, ids);
      var idx := KnownIndices(sel, ids);
      KnownIndicesIds(sel, ids);
      if idx == [] {
        return [], [];
      }
      var xs := Rows(idx);
      matrix := seq(|xs|, i requires 0 <= i < |xs| =>
                  seq(|xs|, j requires 0 <= j < |xs| => cosine(xs[i], xs[j])));
      var order := ids;
      selected := seq(|idx|, j requires 0 <= j < |idx| => order[idx[j]]);
    }

    /**
     * `projection`: the known requested ids' embeddings reduced to
     * `nComponents` coordinates; point i carries the first two coordinates of
     * row i and the id, title, year, authors and keywords of its article.
     * `None` when PCA raises or a row has fewer than two coordinates
     * (`XY[i, 1]` raises); `xy` is the projector's answer.
     */
    method Projection(nComponents: int, requested: seq<String>, reduce: Projector)
      returns (points: Option<seq<Point>>, ghost xy: Option<seq<seq<real>>>)
      requires Valid() && IsProjector(reduce)
      modifies this
      ensures Valid() && !dirty && articles == old(articles) && ids == old(ids)
      ensures forall x :: x in KnownIds(Requested(requested, ids), ids) ==> x in articles
      ensures KnownIds(Requested(requested, ids), ids) == [] ==> points == Some([])
      ensures KnownIds(Requested(requested, ids), ids) != [] ==>
                xy == reduce(EncodeAbstracts(KnownIds(Requested(requested, ids), ids), articles, encode), nComponents)
      ensures points.None? <==> KnownIds(Requested(requested, ids), ids) != [] && (xy.None? || nComponents < 2)
      ensures points.Some? ==> |points.value| == |KnownIds(Requested(requested, ids), ids)|
      ensures points.Some? ==> forall i :: 0 <= i < |points.value| ==>
                var id := KnownIds(Requested(requested, ids), ids)[i];
                var p := points.value[i];
                p.id == id && p.title == articles[id].title && p.year == articles[id].year
                && p.authors == articles[id].authors && p.keywords == articles[id].keywords
                && xy.Some? && i < |xy.value| && |xy.value[i]| >= 2
                && p.x == xy.value[i][0] && p.y == xy.value[i][1]
    {
      EnsureIndex();
      var sel := Requested(requested, ids);
      var known := KnownIds(sel, ids);
      if embeddings.None? {
        KnownIdsNoIds(sel);
        return Some([]), None;
      }
      var idx := KnownIndices(sel, ids);
      KnownIndicesIds(sel, ids);
      if idx == [] {
        return Some([]), None;
      }
      var xs := Rows(idx);
      assert xs == EncodeAbstracts(known, articles, encode);
      var reduced := reduce(xs, nComponents);
      xy := reduced;
      if reduced.None? || nComponents < 2 {
        return None, xy;
      }
      var coords := reduced.value;
      var ps := PlacePoints(known, articles, coords);
      points := Some(ps);
    }

    /**
     * `clusters`, with each label paired with the id it was computed for;
     * `LabelRowsAsWritten` is the source's pairing.
     */
    method Clusters(k: int, requested: seq<String>, kmeans: Clustering)
      returns (labels: seq<LabelRow>, sizes: seq<ClusterSize>)
      requires Valid() && IsClustering(kmeans)
      modifies this
      ensures Valid() && !dirty && articles == old(articles) && ids == old(ids)
      ensures forall x :: x in KnownIds(Requested(requested, ids), ids) ==> x in articles
      ensures labels == ClusterLabels(KnownIds(Requested(requested, ids), ids), articles, encode, k, kmeans)
      ensures |labels| == |KnownIds(Requested(requested, ids), ids)|
      ensures forall i :: 0 <= i < |labels| ==> labels[i].id == KnownIds(Requested(requested, ids), ids)[i]
      ensures forall l :: l in labels ==> l.id in ids
      ensures sizes == SizesFor(labels)
      ensures SumOf(sizes, Size) == |labels|
      ensures SortedDesc(sizes, SizeRank)
      ensures forall z :: z in sizes ==> exists l :: l in labels && l.cluster == z.cluster
    {
      EnsureIndex();
      labels, sizes := ClusterSelection(Requested(requested, ids), ids, articles, embeddings, encode, k, kmeans);
      SizesForFacts(labels);
    }

    /**
     * `underexplored_clusters`: cluster the whole store, keep the clusters
     * holding at most `threshold` of the articles, report each, and order the
     * reports by exploration score, highest first; `labels` and `sizes` are
     * the clustering it worked from.
     */
    method UnderexploredClusters(nClusters: int, threshold: real, kmeans: Clustering)
      returns (report: seq<Underexplored>, ghost labels: seq<LabelRow>, ghost sizes: seq<ClusterSize>)
      requires Valid() && IsClustering(kmeans)
      modifies this
      ensures Valid() && !dirty && articles == old(articles) && ids == old(ids)
      ensures ids == [] ==> report == []
      ensures ids != [] ==> labels == ClusterLabels(ids, articles, encode, nClusters, kmeans) && sizes == SizesFor(labels)
      ensures forall l :: l in labels ==> l.id in articles
      ensures ids != [] ==> report == SortDesc(SmallReports(sizes, labels, |ids|, threshold, articles), ExplorationRank)
      ensures SortedDesc(report, ExplorationRank)
      ensures forall u :: u in report ==> (u.size as real) / (|ids| as real) <= threshold
      ensures forall u :: u in report ==> |u.samples| <= 3 && |u.topKeywords| <= 5
    {
      EnsureIndex();
      if embeddings.None? {
        report, labels, sizes := [], [], [];
      } else {
        var labelRows, clusterSizes := Clusters(nClusters, [], kmeans);
        KnownIdsAll(ids, ids);
        labels, sizes := labelRows, clusterSizes;
        var total := |ids|;
        var small := CollectSmall(clusterSizes, labelRows, total, threshold, articles);
        report := SortDesc(small, ExplorationRank);
        SmallReportsFacts(clusterSizes, labelRows, total, threshold, articles);
        forall u | u in report ensures (u.size as real) / (total as real) <= threshold && |u.samples| <= 3 && |u.topKeywords| <= 5 {
          assert u in multiset(small);
        }
      }
    }
  }
}
