/**
 * The question-answering service of `ragcontext/rag/rag.py`: the hand-made
 * ensemble of the vector-store and BM25 retrievers, the reranking cut, the
 * prompt context with its `docN` → title map, the matching of the source
 * ids the model returns, and the lookup of publication metadata in the
 * publications table.
 *
 * The retrievers, the embedding model and the answer model are foreign
 * code: their results enter as parameters.
 */
module RagContext {
  import opened Wrappers
  import opened Text
  import opened Tally
  import opened Sorting
  import opened Documents

  // ------------------------------------------------------- _manual_ensemble

  /** Which of the two scores of an entry a retriever's pass sets. */
  datatype Retriever = Faiss | Bm25

  /** A value of `merged`: the first document seen under its key and its two scores. */
  datatype Entry = Entry(doc: Doc, faiss: real, bm25: real)

  /** The dict `merged`: its keys in insertion order and its entries. */
  datatype Merged = Merged(keys: seq<ChunkKey>, entries: map<ChunkKey, Entry>)

  /** The shape of `merged`: each key once, every entry filed under its document's key. */
  ghost predicate WellFormed(m: Merged) {
    NoDup(m.keys)
    && (forall k :: k in m.entries <==> k in m.keys)
    && (forall k :: k in m.entries ==> KeyOf(m.entries[k].doc) == k)
  }

  /** The score the dict holds for `k` from retriever `r`; 0 for a key it lacks (the default entry). */
  function ScoreOf(m: Merged, k: ChunkKey, r: Retriever): real {
    if k !in m.entries then 0.0
    else if r == Faiss then m.entries[k].faiss
    else m.entries[k].bm25
  }

  function Other(r: Retriever): Retriever {
    if r == Faiss then Bm25 else Faiss
  }

  /** `merged.setdefault(key, {"doc": d, "faiss": 0.0, "bm25": 0.0})[r] = s` */
  function SetScore(m: Merged, d: Doc, s: real, r: Retriever): Merged {
    var k := KeyOf(d);
    var e := if k in m.entries then m.entries[k] else Entry(d, 0.0, 0.0);
    Merged(if k in m.entries then m.keys else m.keys + [k],
           m.entries[k := if r == Faiss then e.(faiss := s) else e.(bm25 := s)])
  }

  /** One assignment keeps the dict's shape, and touches only its own key's score of its own retriever. */
  lemma SetScoreEffect(m: Merged, d: Doc, s: real, r: Retriever)
    ensures WellFormed(m) ==> WellFormed(SetScore(m, d, s, r))
    ensures forall k :: k in SetScore(m, d, s, r).entries <==> k in m.entries || k == KeyOf(d)
    ensures forall k :: ScoreOf(SetScore(m, d, s, r), k, r) == if k == KeyOf(d) then s else ScoreOf(m, k, r)
    ensures forall k :: ScoreOf(SetScore(m, d, s, r), k, Other(r)) == ScoreOf(m, k, Other(r))
  {
    var k := KeyOf(d);
    if WellFormed(m) && k !in m.entries {
      NoDupSnoc(m.keys, k);
    }
  }

  /** One retriever's loop: its (document, score) pairs assigned in order. */
  function MergeAll(m: Merged, scored: seq<(Doc, real)>, r: Retriever): Merged {
    if scored == [] then m
    else
      var n := |scored| - 1;
      SetScore(MergeAll(m, scored[..n], r), scored[n].0, scored[n].1, r)
  }

  /** The score of the last pair whose document has key `k`: the assignment that stands. */
  function LastScore(scored: seq<(Doc, real)>, k: ChunkKey): Option<real> {
    if scored == [] then None
    else if KeyOf(scored[|scored| - 1].0) == k then Some(scored[|scored| - 1].1)
    else LastScore(scored[..|scored| - 1], k)
  }

  /**
   * After a retriever's loop a key is present when it was before or one of
   * the retriever's documents has it; its score from that retriever is the
   * last one assigned, and its other score is as before.
   */
  lemma {:induction false} MergeAllEffect(m: Merged, scored: seq<(Doc, real)>, r: Retriever, k: ChunkKey)
    ensures WellFormed(m) ==> WellFormed(MergeAll(m, scored, r))
    ensures k in MergeAll(m, scored, r).entries <==> k in m.entries || LastScore(scored, k).Some?
    ensures ScoreOf(MergeAll(m, scored, r), k, r) ==
              if LastScore(scored, k).Some? then LastScore(scored, k).value else ScoreOf(m, k, r)
    ensures ScoreOf(MergeAll(m, scored, r), k, Other(r)) == ScoreOf(m, k, Other(r))
  {
    if scored != [] {
      var n := |scored| - 1;
      MergeAllEffect(m, scored[..n], r, k);
      SetScoreEffect(MergeAll(m, scored[..n], r), scored[n].0, scored[n].1, r);
    }
  }

  /** `[(doc, 1.0/(1.0+abs(score))) for doc, score in faiss_results]` */
  function FaissScored(results: seq<(Doc, real)>): (r: seq<(Doc, real)>)
    ensures |r| == |results|
    ensures forall i :: 0 <= i < |r| ==> r[i].0 == results[i].0 && 0.0 < r[i].1 <= 1.0
  {
    seq(|results|, i requires 0 <= i < |results| =>
      var d := if results[i].1 < 0.0 then -results[i].1 else results[i].1;
      (results[i].0, 1.0 / (1.0 + d)))
  }

  /** `[(doc, 1.0/(i+1)) for i, doc in enumerate(bm25_docs)]` */
  function Bm25Ranked(docs: seq<Doc>): (r: seq<(Doc, real)>)
    ensures |r| == |docs|
    ensures forall i :: 0 <= i < |r| ==> r[i] == (docs[i], 1.0 / (i + 1) as real)
  {
    seq(|docs|, i requires 0 <= i < |docs| => (docs[i], 1.0 / (i + 1) as real))
  }

  /** `merged` after both loops. */
  function MergedOf(faissResults: seq<(Doc, real)>, bm25Results: seq<Doc>, k: nat): Merged {
    var afterFaiss := MergeAll(Merged([], map[]), FaissScored(faissResults), Faiss);
    MergeAll(afterFaiss, Bm25Ranked(Take(bm25Results, k)), Bm25)
  }

  /** The merged dict is well formed: each key once, each entry under its document's key. */
  lemma MergedOfWellFormed(faissResults: seq<(Doc, real)>, bm25Results: seq<Doc>, k: nat)
    ensures WellFormed(MergedOf(faissResults, bm25Results, k))
  {
    var empty := Merged([], map[]);
    var key: ChunkKey :| true;
    MergeAllEffect(empty, FaissScored(faissResults), Faiss, key);
    MergeAllEffect(MergeAll(empty, FaissScored(faissResults), Faiss), Bm25Ranked(Take(bm25Results, k)), Bm25, key);
  }

  /**
   * Each merged score is the one its retriever last gave the key, and 0
   * for a retriever that did not return the key at all.
   */
  lemma EnsembleScores(faissResults: seq<(Doc, real)>, bm25Results: seq<Doc>, k: nat, key: ChunkKey)
    ensures key in MergedOf(faissResults, bm25Results, k).entries <==>
              LastScore(FaissScored(faissResults), key).Some? || LastScore(Bm25Ranked(Take(bm25Results, k)), key).Some?
    ensures ScoreOf(MergedOf(faissResults, bm25Results, k), key, Faiss) ==
              OrZero(LastScore(FaissScored(faissResults), key))
    ensures ScoreOf(MergedOf(faissResults, bm25Results, k), key, Bm25) ==
              OrZero(LastScore(Bm25Ranked(Take(bm25Results, k)), key))
  {
    var empty := Merged([], map[]);
    var faiss := FaissScored(faissResults);
    var bm25 := Bm25Ranked(Take(bm25Results, k));
    MergeAllEffect(empty, faiss, Faiss, key);
    MergeAllEffect(MergeAll(empty, faiss, Faiss), bm25, Bm25, key);
  }

  function OrZero(o: Option<real>): real {
    if o.Some? then o.value else 0.0
  }

  /** The ensemble score `w_faiss * faiss + w_bm25 * bm25`. */
  function Weighted(wFaiss: real, faiss: real, wBm25: real, bm25: real): real {
    wFaiss * faiss + wBm25 * bm25
  }

  /** `[(v["doc"], w_faiss*v["faiss"] + w_bm25*v["bm25"]) for v in merged.values()]` */
  function Combined(m: Merged, wFaiss: real, wBm25: real): (r: seq<(Doc, real)>)
    requires forall i :: 0 <= i < |m.keys| ==> m.keys[i] in m.entries
    ensures |r| == |m.keys|
  {
    seq(|m.keys|, i requires 0 <= i < |m.keys| && m.keys[i] in m.entries =>
      var e := m.entries[m.keys[i]];
      (e.doc, Weighted(wFaiss, e.faiss, wBm25, e.bm25)))
  }

  /** In a well-formed dict the combined pairs carry the keys in order, so they are distinct. */
  lemma CombinedKeys(m: Merged, wFaiss: real, wBm25: real)
    requires WellFormed(m)
    ensures forall i :: 0 <= i < |m.keys| ==> m.keys[i] in m.entries
    ensures forall i :: 0 <= i < |m.keys| ==> PairKey(Combined(m, wFaiss, wBm25)[i]) == m.keys[i]
    ensures InjectiveOn(Combined(m, wFaiss, wBm25), PairKey)
  {
    assert forall i :: 0 <= i < |m.keys| ==> m.keys[i] in m.entries;
    var c := Combined(m, wFaiss, wBm25);
    forall i | 0 <= i < |m.keys|
      ensures PairKey(c[i]) == m.keys[i]
    {
      assert m.keys[i] in m.entries;
    }
  }

  /** The combined pairs, best first, cut at `k` (`combined.sort(...)`, `combined[:k]`). */
  function RankedEnsemble(faissResults: seq<(Doc, real)>, bm25Results: seq<Doc>,
                          wFaiss: real, wBm25: real, k: nat): (r: seq<(Doc, real)>)
    ensures |r| <= k
    ensures SortedDesc(r, ScoreRank)
    ensures DistinctKeys(DocsOf(r))
  {
    var m := MergedOf(faissResults, bm25Results, k);
    MergedOfWellFormed(faissResults, bm25Results, k);
    CombinedKeys(m, wFaiss, wBm25);
    TopScoredDistinct(Combined(m, wFaiss, wBm25), k);
    TopScored(Combined(m, wFaiss, wBm25), k)
  }

  /**
   * The ranking keeps `min(k, len(merged))` of the combined pairs, none
   * beyond its occurrences, and a pair left out was cut by `k` and scores no
   * higher than any kept one.
   */
  lemma RankedEnsembleCut(faissResults: seq<(Doc, real)>, bm25Results: seq<Doc>,
                          wFaiss: real, wBm25: real, k: nat)
    ensures var m := MergedOf(faissResults, bm25Results, k);
            var r := RankedEnsemble(faissResults, bm25Results, wFaiss, wBm25, k);
            WellFormed(m)
            && |r| == (if |m.keys| <= k then |m.keys| else k)
            && multiset(r) <= multiset(Combined(m, wFaiss, wBm25))
            && forall p :: p in Combined(m, wFaiss, wBm25) && p !in r ==>
                 |r| == k && forall q :: q in r ==> p.1 <= q.1
  {
    var m := MergedOf(faissResults, bm25Results, k);
    MergedOfWellFormed(faissResults, bm25Results, k);
    CombinedKeys(m, wFaiss, wBm25);
    assert RankedEnsemble(faissResults, bm25Results, wFaiss, wBm25, k) == TopScored(Combined(m, wFaiss, wBm25), k);
  }

  /** Each combined pair is an entry's document with its two scores weighted. */
  lemma CombinedAt(m: Merged, wFaiss: real, wBm25: real, i: nat)
    requires WellFormed(m) && i < |m.keys|
    ensures forall j :: 0 <= j < |m.keys| ==> m.keys[j] in m.entries
    ensures KeyOf(Combined(m, wFaiss, wBm25)[i].0) == m.keys[i]
    ensures Combined(m, wFaiss, wBm25)[i].1 == Weighted(wFaiss, ScoreOf(m, m.keys[i], Faiss), wBm25, ScoreOf(m, m.keys[i], Bm25))
  {
    CombinedKeys(m, wFaiss, wBm25);
  }

  /**
   * Every ranked document stands with its weighted score, made of the two
   * retrievers' last scores for its key (0 for a retriever that missed it).
   */
  lemma RankedEnsembleScores(faissResults: seq<(Doc, real)>, bm25Results: seq<Doc>,
                             wFaiss: real, wBm25: real, k: nat, p: (Doc, real))
    requires p in RankedEnsemble(faissResults, bm25Results, wFaiss, wBm25, k)
    ensures p.1 == Weighted(wFaiss, OrZero(LastScore(FaissScored(faissResults), KeyOf(p.0))),
                            wBm25, OrZero(LastScore(Bm25Ranked(Take(bm25Results, k)), KeyOf(p.0))))
  {
    var m := MergedOf(faissResults, bm25Results, k);
    MergedOfWellFormed(faissResults, bm25Results, k);
    CombinedKeys(m, wFaiss, wBm25);
    var c := Combined(m, wFaiss, wBm25);
    var r := TopScored(c, k);
    assert RankedEnsemble(faissResults, bm25Results, wFaiss, wBm25, k) == r;
    assert p in multiset(r);
    assert p in c;
    var i :| 0 <= i < |c| && c[i] == p;
    var key := m.keys[i];
    CombinedAt(m, wFaiss, wBm25, i);
    EnsembleScores(faissResults, bm25Results, k, key);
    var f, b := ScoreOf(m, key, Faiss), ScoreOf(m, key, Bm25);
    assert KeyOf(p.0) == key;
    assert f == OrZero(LastScore(FaissScored(faissResults), KeyOf(p.0)));
    assert b == OrZero(LastScore(Bm25Ranked(Take(bm25Results, k)), KeyOf(p.0)));
  }

  /** `_manual_ensemble`: the two loops that fill `merged`, then the ranking. */
  method ManualEnsemble(faissResults: seq<(Doc, real)>, bm25Results: seq<Doc>,
                        wFaiss: real, wBm25: real, k: nat) returns (docs: seq<Doc>)
    ensures docs == DocsOf(RankedEnsemble(faissResults, bm25Results, wFaiss, wBm25, k))
    ensures |docs| <= k && DistinctKeys(docs)
  {
    var faissDocs := FaissScored(faissResults);
    var bm25Ranked := Bm25Ranked(Take(bm25Results, k));
    var merged := Merged([], map[]);
    for i := 0 to |faissDocs|
      invariant merged == MergeAll(Merged([], map[]), faissDocs[..i], Faiss)
    {
      assert faissDocs[..i + 1][..i] == faissDocs[..i];
      merged := SetScore(merged, faissDocs[i].0, faissDocs[i].1, Faiss);
    }
    assert faissDocs[..|faissDocs|] == faissDocs;
    ghost var afterFaiss := merged;
    for i := 0 to |bm25Ranked|
      invariant merged == MergeAll(afterFaiss, bm25Ranked[..i], Bm25)
    {
      assert bm25Ranked[..i + 1][..i] == bm25Ranked[..i];
      merged := SetScore(merged, bm25Ranked[i].0, bm25Ranked[i].1, Bm25);
    }
    assert bm25Ranked[..|bm25Ranked|] == bm25Ranked;
    MergedOfWellFormed(faissResults, bm25Results, k);
    CombinedKeys(merged, wFaiss, wBm25);
    var combined := Combined(merged, wFaiss, wBm25);
    docs := DocsOf(TopScored(combined, k));
  }

  // ------------------------------------------------------ _rerank_documents

  /**
   * `_rerank_documents`: the documents ordered by the cosine similarity of
   * their content to the query, best first, at most `topK` of them.
   */
  function Reranked(docs: seq<Doc>, similarity: String -> real, topK: nat): (r: seq<Doc>)
    ensures |r| == if |docs| <= topK then |docs| else topK
    ensures forall d :: d in r ==> d in docs
    ensures forall i, j :: 0 <= i < j < |r| ==> similarity(r[j].content) <= similarity(r[i].content)
  {
    RankedDocs(RankedByContent(docs, similarity, topK), docs, similarity);
    DocsOf(RankedByContent(docs, similarity, topK))
  }

  /** The documents of pairs drawn from `docs` and sorted by content score. */
  lemma RankedDocs(ranked: seq<(Doc, real)>, docs: seq<Doc>, similarity: String -> real)
    requires forall p :: p in ranked ==> p.0 in docs
    requires forall i, j :: 0 <= i < j < |ranked| ==> similarity(ranked[j].0.content) <= similarity(ranked[i].0.content)
    ensures forall d :: d in DocsOf(ranked) ==> d in docs
    ensures forall i, j :: 0 <= i < j < |DocsOf(ranked)| ==> similarity(DocsOf(ranked)[j].content) <= similarity(DocsOf(ranked)[i].content)
  {
    assert forall i :: 0 <= i < |ranked| ==> ranked[i] in ranked;
  }

  /**
   * The reranked documents repeat none beyond its occurrences, and a
   * document left out was cut by `top_k` and is no more similar than any
   * kept one.
   */
  lemma RerankedCut(docs: seq<Doc>, similarity: String -> real, topK: nat)
    ensures var r := Reranked(docs, similarity, topK);
            multiset(r) <= multiset(docs)
            && forall d :: d in docs && d !in r ==>
                 |r| == topK && forall i :: 0 <= i < |r| ==> similarity(d.content) <= similarity(r[i].content)
  {
    var ranked := RankedByContent(docs, similarity, topK);
    RankedByContentCut(docs, similarity, topK);
    assert forall i :: 0 <= i < |ranked| ==> ranked[i] in ranked;
  }

  /** `_rerank_documents`, with its loop scoring each document. */
  method RerankDocuments(docs: seq<Doc>, similarity: String -> real, topK: nat) returns (r: seq<Doc>)
    ensures r == Reranked(docs, similarity, topK)
  {
    if docs == [] {
      return [];
    }
    var docScores: seq<(Doc, real)> := [];
    for i := 0 to |docs|
      invariant docScores == ScoredBy(docs[..i], similarity)
    {
      docScores := docScores + [(docs[i], similarity(docs[i].content))];
    }
    assert docs[..|docs|] == docs;
    r := DocsOf(TopScored(docScores, topK));
  }

  // ---------------------------------------- _generate_context_from_documents

  /** `doc.metadata.get('title', doc.metadata.get('file_id', 'Unknown'))` */
  function TitleOf(d: Doc): Value {
    if "title" in d.metadata then d.metadata["title"]
    else if "file_id" in d.metadata then d.metadata["file_id"]
    else Str("Unknown")
  }

  /** The context: one `[id: doc{i} | title: {title}]` block per document, in order. */
  function ContextText(docs: seq<Doc>, realText: real -> String): String {
    if docs == [] then []
    else
      var n := |docs| - 1;
      ContextText(docs[..n], realText) + TitleBlock(n, docs[n], realText)
  }

  /** The block of the `i`-th document, `d`. */
  function TitleBlock(i: nat, d: Doc, realText: real -> String): String {
    Block(i, "title: " + Show(TitleOf(d), realText), d.content)
  }

  /** `doc_id_to_title` */
  function TitleMap(docs: seq<Doc>): map<String, Value> {
    if docs == [] then map[]
    else
      var n := |docs| - 1;
      TitleMap(docs[..n])[DocId(n) := TitleOf(docs[n])]
  }

  /** `doc{i}` holds the title of document `i`. */
  lemma {:induction false} TitleMapAt(docs: seq<Doc>, i: nat)
    requires i < |docs|
    ensures DocId(i) in TitleMap(docs) && TitleMap(docs)[DocId(i)] == TitleOf(docs[i])
  {
    var n := |docs| - 1;
    if i < n {
      TitleMapAt(docs[..n], i);
      if DocId(i) == DocId(n) {
        DocIdInjective(i, n);
      }
    }
  }

  /** The map holds no key but `doc0` … `doc{n-1}`. */
  lemma {:induction false} TitleMapOnlyDocIds(docs: seq<Doc>, id: String)
    requires id in TitleMap(docs)
    ensures exists i :: 0 <= i < |docs| && id == DocId(i)
  {
    var n := |docs| - 1;
    if id != DocId(n) {
      TitleMapOnlyDocIds(docs[..n], id);
      var i :| 0 <= i < n && id == DocId(i);
      assert 0 <= i < |docs| && id == DocId(i);
    }
  }

  /** The context of the first `j` documents begins the context of all of them. */
  lemma {:induction false} ContextPrefix(docs: seq<Doc>, realText: real -> String, j: nat)
    requires j <= |docs|
    ensures ContextText(docs[..j], realText) <= ContextText(docs, realText)
  {
    if j == |docs| {
      assert docs[..j] == docs;
    } else {
      var n := |docs| - 1;
      ContextPrefix(docs[..n], realText, j);
      assert docs[..n][..j] == docs[..j];
      PrefixOfExtension(ContextText(docs[..j], realText), ContextText(docs[..n], realText), TitleBlock(n, docs[n], realText));
    }
  }

  /** The block of document `i` follows the blocks of the documents before it. */
  lemma ContextHoldsBlock(docs: seq<Doc>, realText: real -> String, i: nat)
    requires i < |docs|
    ensures ContextText(docs[..i], realText) + TitleBlock(i, docs[i], realText) <= ContextText(docs, realText)
  {
    var upTo := docs[..i + 1];
    assert upTo[..i] == docs[..i] && upTo[i] == docs[i];
    assert ContextText(upTo, realText) == ContextText(docs[..i], realText) + TitleBlock(i, docs[i], realText);
    ContextPrefix(docs, realText, i + 1);
  }

  /** `_generate_context_from_documents`: the context and the id-to-title map, built in one loop. */
  method GenerateContext(docs: seq<Doc>, realText: real -> String) returns (context: String, titles: map<String, Value>)
    ensures context == ContextText(docs, realText)
    ensures titles == TitleMap(docs)
  {
    context, titles := [], map[];
    for i := 0 to |docs|
      invariant context == ContextText(docs[..i], realText)
      invariant titles == TitleMap(docs[..i])
    {
      assert docs[..i + 1][..i] == docs[..i];
      var docId := DocId(i);
      var title := TitleOf(docs[i]);
      context := context + Block(i, "title: " + Show(title, realText), docs[i].content);
      titles := titles[docId := title];
    }
    assert docs[..|docs|] == docs;
  }

  // ------------------------------------------------ source-id matching

  /** What a returned source id stands for: its document's title, or `Unknown document (<id>)`. */
  function SourceTitle(titles: map<String, Value>, id: String): Value {
    var cleaned := Strip(id);
    if cleaned in titles then titles[cleaned] else Str("Unknown document (" + cleaned + ")")
  }

  /** An id naming a document of the context, up to surrounding white space, gives that document's title. */
  lemma SourceOfKnownId(docs: seq<Doc>, id: String, i: nat)
    requires i < |docs| && Strip(id) == DocId(i)
    ensures SourceTitle(TitleMap(docs), id) == TitleOf(docs[i])
  {
    TitleMapAt(docs, i);
  }

  /** Any other id is reported as an unknown document. */
  lemma SourceOfUnknownId(docs: seq<Doc>, id: String)
    requires forall i :: 0 <= i < |docs| ==> Strip(id) != DocId(i)
    ensures SourceTitle(TitleMap(docs), id) == Str("Unknown document (" + Strip(id) + ")")
  {
    if Strip(id) in TitleMap(docs) {
      TitleMapOnlyDocIds(docs, Strip(id));
    }
  }

  /** The `source_titles` loop: one title per returned id, in order. */
  method MatchSources(ids: seq<String>, titles: map<String, Value>) returns (sources: seq<Value>)
    ensures |sources| == |ids|
    ensures forall i :: 0 <= i < |ids| ==> sources[i] == SourceTitle(titles, ids[i])
  {
    sources := [];
    for i := 0 to |ids|
      invariant |sources| == i
      invariant forall j :: 0 <= j < i ==> sources[j] == SourceTitle(titles, ids[j])
    {
      sources := sources + [SourceTitle(titles, ids[i])];
    }
  }

  // ------------------------------------------- _generate_context_based_answer

  /** What `json.loads` made of the model's reply, reduced to the two fields read from it. */
  datatype Reply = Reply(answer: Option<String>, sourceIds: Option<seq<String>>)

  /**
   * The answer and the ids read from the stripped reply: the parsed fields
   * (`""` and `[]` when absent), or the raw text and no ids when the reply
   * is not JSON.
   */
  function ReadReply(raw: String, parsed: Option<Reply>): (String, seq<String>) {
    match parsed
    case None => (raw, [])
    case Some(reply) =>
      (if reply.answer.Some? then reply.answer.value else [],
       if reply.sourceIds.Some? then reply.sourceIds.value else [])
  }

  /**
   * `_generate_context_based_answer` for the model's reply `response`;
   * `parse` stands for `json.loads` (`None` when it raises).
   */
  method GenerateContextBasedAnswer(docs: seq<Doc>, response: String, parse: String -> Option<Reply>,
                                    realText: real -> String)
    returns (answer: String, sources: seq<Value>)
    ensures answer == ReadReply(Strip(response), parse(Strip(response))).0
    ensures var ids := ReadReply(Strip(response), parse(Strip(response))).1;
            |sources| == |ids| && forall i :: 0 <= i < |ids| ==> sources[i] == SourceTitle(TitleMap(docs), ids[i])
  {
    var context, titles := GenerateContext(docs, realText);
    var raw := Strip(response);
    var read := ReadReply(raw, parse(raw));
    answer := read.0;
    sources := MatchSources(read.1, titles);
  }

  /** A reply that is not JSON becomes the answer, with no sources. */
  lemma NonJsonReplyFallback(response: String, parse: String -> Option<Reply>)
    requires parse(Strip(response)) == None
    ensures ReadReply(Strip(response), parse(Strip(response))) == (Strip(response), [])
  {
  }

  // ------------------------------------------------ _get_publication_metadata

  /** A cell of the publications table: a value, or pandas' NaN. */
  datatype Cell = NaN | Cell(value: Value)

  /** A row of the publications table, by column name; a column the file lacks is absent. */
  type Row = map<String, Cell>

  /** The row's title, when it is text. */
  function TitleText(row: Row): Option<String> {
    if "Title" in row && row["Title"].Cell? && row["Title"].value.Str? then Some(row["Title"].value.s) else None
  }

  /** `publications_df['Title'].str.strip()` at load: text titles are stripped, others become NaN. */
  function StripTitles(table: seq<Row>): (r: seq<Row>)
    ensures |r| == |table|
    ensures forall i :: 0 <= i < |r| ==> TitleText(r[i]).Some? ==> Trimmed(TitleText(r[i]).value)
  {
    seq(|table|, i requires 0 <= i < |table| =>
      var row := table[i];
      if "Title" !in row then row
      else if TitleText(row).Some? then row["Title" := Cell(Str(Strip(TitleText(row).value)))]
      else row["Title" := NaN])
  }

  /** The three ways a title is looked up, tried in this order. */
  datatype Tier = Exact | CaseInsensitive | Substring

  /**
   * `Title == title`; `Title.str.lower() == title.lower()`;
   * `Title.str.contains(title, case=False, na=False)` with the title taken literally.
   * A NaN title matches nothing.
   */
  predicate Matches(row: Row, title: String, tier: Tier) {
    TitleText(row).Some? &&
    match tier
    case Exact => TitleText(row).value == title
    case CaseInsensitive => LowerStr(TitleText(row).value) == LowerStr(title)
    case Substring => Contains(LowerStr(TitleText(row).value), LowerStr(title))
  }

  /** Each tier admits at least the rows of the tier before it. */
  lemma TiersWiden(row: Row, title: String)
    ensures Matches(row, title, Exact) ==> Matches(row, title, CaseInsensitive)
    ensures Matches(row, title, CaseInsensitive) ==> Matches(row, title, Substring)
  {
    if Matches(row, title, CaseInsensitive) {
      var t := LowerStr(TitleText(row).value);
      assert t[0..0 + |t|] == t;
      assert OccursAt(t, LowerStr(title), 0);
    }
  }

  /** The first row that matches at the given tier (`match.iloc[0]`). */
  function FirstMatch(table: seq<Row>, title: String, tier: Tier): (r: Option<nat>)
    ensures r.Some? ==> r.value < |table| && Matches(table[r.value], title, tier)
    ensures r.Some? ==> forall i :: 0 <= i < r.value ==> !Matches(table[i], title, tier)
    ensures r.None? ==> forall i :: 0 <= i < |table| ==> !Matches(table[i], title, tier)
  {
    if table == [] then None
    else if Matches(table[0], title, tier) then Some(0)
    else
      var r := FirstMatch(table[1..], title, tier);
      assert forall i :: 1 <= i < |table| ==> table[1..][i - 1] == table[i];
      if r.Some? then Some(r.value + 1) else None
  }

  /** The row used: the first exact match, else the first case-insensitive one, else the first containing one. */
  function MatchedRow(table: seq<Row>, title: String): Option<nat> {
    var exact := FirstMatch(table, title, Exact);
    if exact.Some? then exact
    else
      var folded := FirstMatch(table, title, CaseInsensitive);
      if folded.Some? then folded else FirstMatch(table, title, Substring)
  }

  /** `row.get(column, 'N/A')` with NaN replaced by `'N/A'`. */
  function FieldValue(row: Row, column: String): Value {
    if column in row && row[column].Cell? then row[column].value else Str("N/A")
  }

  /** The metadata keys and the table column each one is read from. */
  const FieldColumns: map<String, String> := map[
    "title" := "Title",
    "link" := "Link",
    "journal" := "Journal Title",
    "year" := "Publication Year",
    "authors" := "Authors",
    "keywords" := "Keywords",
    "tldr" := "TLDR Summary",
    "doi" := "DOI"]

  /** The metadata dict built from a row. */
  function MetadataOf(row: Row): (r: map<String, Value>)
    ensures r.Keys == FieldColumns.Keys
  {
    map k | k in FieldColumns :: FieldValue(row, FieldColumns[k])
  }

  /**
   * Every field holds its column's cell, and reads `'N/A'` exactly when the
   * column is missing, is NaN, or itself holds the text `'N/A'`.
   */
  lemma MetadataField(row: Row, key: String)
    requires key in FieldColumns
    ensures key in MetadataOf(row)
    ensures var column := FieldColumns[key];
            column in row && row[column].Cell? ==> MetadataOf(row)[key] == row[column].value
    ensures var column := FieldColumns[key];
            MetadataOf(row)[key] == Str("N/A") <==> column !in row || row[column] == NaN || row[column] == Cell(Str("N/A"))
  {
  }

  /** `_get_publication_metadata`: the metadata of the matched row, `None` when no row matches. */
  function PublicationMetadata(table: seq<Row>, title: String): (r: Option<map<String, Value>>)
    ensures r.None? ==> forall i :: 0 <= i < |table| ==> !Matches(table[i], title, Substring)
    ensures r.Some? ==> r.value.Keys == {"title", "link", "journal", "year", "authors", "keywords", "tldr", "doi"}
  {
    var m := MatchedRow(table, title);
    if m.None? then None else Some(MetadataOf(table[m.value]))
  }

  /** No row of the table matches at the tier. */
  predicate NoRowAt(table: seq<Row>, title: String, tier: Tier) {
    forall k :: 0 <= k < |table| ==> !Matches(table[k], title, tier)
  }

  /** Every tier before `tier` found nothing. */
  predicate EarlierTiersEmpty(table: seq<Row>, title: String, tier: Tier) {
    (tier != Exact ==> NoRowAt(table, title, Exact)) &&
    (tier == Substring ==> NoRowAt(table, title, CaseInsensitive))
  }

  /**
   * When every earlier tier is empty and row `i` matches at `tier`, the
   * metadata is that of the first row matching at `tier`: an exact match
   * beats a case-insensitive one, which beats a containing one.
   */
  lemma PublicationMetadataTier(table: seq<Row>, title: String, tier: Tier, i: nat) returns (j: nat)
    requires i < |table| && Matches(table[i], title, tier)
    requires EarlierTiersEmpty(table, title, tier)
    ensures j <= i && Matches(table[j], title, tier)
    ensures forall k :: 0 <= k < j ==> !Matches(table[k], title, tier)
    ensures PublicationMetadata(table, title) == Some(MetadataOf(table[j]))
  {
    j := FirstMatch(table, title, tier).value;
    if tier != Exact {
      assert FirstMatch(table, title, Exact).None?;
    }
    if tier == Substring {
      assert FirstMatch(table, title, CaseInsensitive).None?;
    }
  }

  /** Conversely, metadata found always comes from the first row of the first tier that matches. */
  lemma PublicationMetadataSource(table: seq<Row>, title: String) returns (tier: Tier, j: nat)
    requires PublicationMetadata(table, title).Some?
    ensures j < |table| && Matches(table[j], title, tier)
    ensures EarlierTiersEmpty(table, title, tier)
    ensures forall k :: 0 <= k < j ==> !Matches(table[k], title, tier)
    ensures PublicationMetadata(table, title) == Some(MetadataOf(table[j]))
  {
    if FirstMatch(table, title, Exact).Some? {
      tier := Exact;
    } else if FirstMatch(table, title, CaseInsensitive).Some? {
      tier := CaseInsensitive;
    } else {
      tier := Substring;
    }
    j := FirstMatch(table, title, tier).value;
  }

  /** A table with a row containing the title always yields metadata, the first exact match winning. */
  lemma PublicationMetadataFound(table: seq<Row>, title: String, i: nat)
    requires i < |table| && Matches(table[i], title, Substring)
    ensures PublicationMetadata(table, title).Some?
    ensures Matches(table[i], title, Exact) ==>
              exists j :: 0 <= j <= i && PublicationMetadata(table, title) == Some(MetadataOf(table[j]))
                          && Matches(table[j], title, Exact)
  {
    var m := MatchedRow(table, title);
    assert FirstMatch(table, title, Substring).Some?;
    if Matches(table[i], title, Exact) {
      var j := FirstMatch(table, title, Exact).value;
      assert PublicationMetadata(table, title) == Some(MetadataOf(table[j]));
    }
  }
}
