/**
 * The second copy of the question-answering service, `src/rag/rag.py`: the
 * reranking by a cross-encoder that records each document's score in its
 * metadata, the `source:` prompt context, and the chunk documents its PDF
 * loader produces.
 *
 * The cross-encoder, the PDF reader, the directory listing and the text
 * splitter are foreign code: their results enter as parameters.
 */
module RagSrc {
  import opened Wrappers
  import opened Text
  import opened Tally
  import opened Sorting
  import opened Documents

  // ------------------------------------------------------ _rerank_documents

  /** `Document(page_content=doc.page_content, metadata={**doc.metadata, 'rerank_score': float(score)})` */
  function WithScore(d: Doc, score: real): (r: Doc)
    ensures r.content == d.content
    ensures "rerank_score" in r.metadata && r.metadata["rerank_score"] == Real(score)
    ensures forall key :: key != "rerank_score" ==> (key in r.metadata <==> key in d.metadata)
    ensures forall key :: key != "rerank_score" && key in d.metadata ==> r.metadata[key] == d.metadata[key]
  {
    Doc(d.content, d.metadata["rerank_score" := Real(score)])
  }

  /** The reranked documents of a ranking: each one carrying its score. */
  function Rescored(ranked: seq<(Doc, real)>): (r: seq<Doc>)
    ensures |r| == |ranked|
    ensures forall i :: 0 <= i < |r| ==> r[i] == WithScore(ranked[i].0, ranked[i].1)
  {
    seq(|ranked|, i requires 0 <= i < |ranked| => WithScore(ranked[i].0, ranked[i].1))
  }

  /**
   * `_rerank_documents`: the documents ordered by their cross-encoder score
   * against the query (`score` stands for `reranker.predict` on the pair
   * of query and content), best first, at most `topK` of them, each a copy
   * carrying its score as `rerank_score`.
   */
  function Reranked(docs: seq<Doc>, score: String -> real, topK: nat): (r: seq<Doc>)
    ensures |r| == if |docs| <= topK then |docs| else topK
    ensures forall i :: 0 <= i < |r| ==> exists d :: d in docs && r[i] == WithScore(d, score(d.content))
    ensures forall i, j :: 0 <= i < j < |r| ==> score(r[j].content) <= score(r[i].content)
  {
    RescoredPicked(RankedByContent(docs, score, topK), docs, score);
    Rescored(RankedByContent(docs, score, topK))
  }

  /**
   * The reranked copies are those of a sub-multiset of the documents, and a
   * document without a copy was cut by the limit and scores no higher than
   * any kept one.
   */
  lemma RerankedFacts(docs: seq<Doc>, score: String -> real, topK: nat)
    ensures var r := Reranked(docs, score, topK);
            (exists picked: seq<Doc> ::
               |picked| == |r| && multiset(picked) <= multiset(docs)
               && forall i :: 0 <= i < |r| ==> r[i] == WithScore(picked[i], score(picked[i].content)))
            && forall d :: d in docs && WithScore(d, score(d.content)) !in r ==>
                 |r| == topK && forall i :: 0 <= i < |r| ==> score(d.content) <= score(r[i].content)
  {
    var ranked := RankedByContent(docs, score, topK);
    RankedByContentCut(docs, score, topK);
    RescoredPicked(ranked, docs, score);
    RescoredDropped(ranked, docs, score, topK);
  }

  /** Each rescored copy is the copy of the document ranked at its place, and they keep the ranking's order. */
  lemma RescoredPicked(ranked: seq<(Doc, real)>, docs: seq<Doc>, score: String -> real)
    requires forall p :: p in ranked ==> p.0 in docs && p.1 == score(p.0.content)
    requires forall i, j :: 0 <= i < j < |ranked| ==> score(ranked[j].0.content) <= score(ranked[i].0.content)
    ensures forall i :: 0 <= i < |ranked| ==> DocsOf(ranked)[i] in docs
    ensures forall i :: 0 <= i < |ranked| ==> Rescored(ranked)[i] == WithScore(DocsOf(ranked)[i], score(DocsOf(ranked)[i].content))
    ensures forall i, j :: 0 <= i < j < |ranked| ==> score(Rescored(ranked)[j].content) <= score(Rescored(ranked)[i].content)
  {
    forall i | 0 <= i < |ranked|
      ensures DocsOf(ranked)[i] in docs
      ensures Rescored(ranked)[i] == WithScore(DocsOf(ranked)[i], score(DocsOf(ranked)[i].content))
    {
      assert ranked[i] in ranked;
    }
  }

  /** A document whose copy is missing was cut, and scores no higher than any kept one. */
  lemma RescoredDropped(ranked: seq<(Doc, real)>, docs: seq<Doc>, score: String -> real, topK: nat)
    requires forall p :: p in ranked ==> p.0 in docs && p.1 == score(p.0.content)
    requires forall d :: d in docs && d !in DocsOf(ranked) ==> |ranked| == topK && forall p :: p in ranked ==> score(d.content) <= p.1
    ensures forall d :: d in docs && WithScore(d, score(d.content)) !in Rescored(ranked) ==>
              |ranked| == topK && forall i :: 0 <= i < |ranked| ==> score(d.content) <= score(Rescored(ranked)[i].content)
  {
    var r := Rescored(ranked);
    var picked := DocsOf(ranked);
    forall d | d in docs && WithScore(d, score(d.content)) !in r
      ensures |ranked| == topK && forall i :: 0 <= i < |ranked| ==> score(d.content) <= score(r[i].content)
    {
      forall j | 0 <= j < |picked| ensures picked[j] != d {
        assert ranked[j] in ranked;
        assert r[j] in r;
      }
      forall i | 0 <= i < |r| ensures score(d.content) <= score(r[i].content) {
        assert ranked[i] in ranked;
      }
    }
  }

  /** A reranked document's recorded score is its cross-encoder score. */
  lemma RerankScoreRecorded(docs: seq<Doc>, score: String -> real, topK: nat, i: nat)
    requires i < |Reranked(docs, score, topK)|
    ensures Reranked(docs, score, topK)[i].metadata["rerank_score"] == Real(score(Reranked(docs, score, topK)[i].content))
  {
    var d :| d in docs && Reranked(docs, score, topK)[i] == WithScore(d, score(d.content));
  }

  /** `_rerank_documents`, with its loop building the rescored copies. */
  method RerankDocuments(docs: seq<Doc>, score: String -> real, topK: nat) returns (reranked: seq<Doc>)
    ensures reranked == Reranked(docs, score, topK)
  {
    if docs == [] {
      return [];
    }
    var docScorePairs := ScoredBy(docs, score);
    var top := TopScored(docScorePairs, topK);
    reranked := [];
    for i := 0 to |top|
      invariant reranked == Rescored(top[..i])
    {
      reranked := reranked + [WithScore(top[i].0, top[i].1)];
    }
    assert top[..|top|] == top;
  }

  // ---------------------------------------- _generate_context_from_documents

  /** The prompt context, one `[id: doc{i} | source: {source}]` block per document; `None` for the `KeyError` of a document without a source. */
  function SourceContext(docs: seq<Doc>, realText: real -> String): (r: Option<String>)
    ensures r.Some? <==> forall i :: 0 <= i < |docs| ==> "source" in docs[i].metadata
  {
    if docs == [] then Some([])
    else
      var n := |docs| - 1;
      var init := SourceContext(docs[..n], realText);
      assert forall i :: 0 <= i < n ==> docs[..n][i] == docs[i];
      if init.None? || "source" !in docs[n].metadata then None
      else Some(init.value + SourceBlock(docs, n, realText))
  }

  /** The block of document `i`. */
  function SourceBlock(docs: seq<Doc>, i: nat, realText: real -> String): String
    requires i < |docs| && "source" in docs[i].metadata
  {
    Block(i, "source: " + Show(docs[i].metadata["source"], realText), docs[i].content)
  }

  /** The block of document `i` follows the blocks of the documents before it. */
  lemma {:induction false} SourceContextHoldsBlock(docs: seq<Doc>, realText: real -> String, i: nat)
    requires i < |docs| && SourceContext(docs, realText).Some?
    ensures "source" in docs[i].metadata
    ensures SourceContext(docs[..i], realText).Some?
    ensures SourceContext(docs[..i], realText).value + SourceBlock(docs, i, realText)
              <= SourceContext(docs, realText).value
    decreases |docs|
  {
    var n := |docs| - 1;
    var before := SourceContext(docs[..n], realText);
    assert before.Some? && "source" in docs[n].metadata;
    assert SourceContext(docs, realText).value == before.value + SourceBlock(docs, n, realText);
    if i < n {
      assert docs[..n][..i] == docs[..i];
      assert docs[..n][i] == docs[i];
      SourceContextHoldsBlock(docs[..n], realText, i);
      assert SourceBlock(docs[..n], i, realText) == SourceBlock(docs, i, realText);
      PrefixOfExtension(SourceContext(docs[..i], realText).value + SourceBlock(docs, i, realText),
                        before.value, SourceBlock(docs, n, realText));
    } else {
      PrefixOfExtension(before.value, before.value, SourceBlock(docs, n, realText));
    }
  }

  /** `_generate_context_from_documents`: the blocks built in one loop, `None` where `metadata['source']` raises. */
  method GenerateContext(docs: seq<Doc>, realText: real -> String) returns (context: Option<String>)
    ensures context == SourceContext(docs, realText)
  {
    var text: String := [];
    for i := 0 to |docs|
      invariant SourceContext(docs[..i], realText) == Some(text)
    {
      assert docs[..i + 1][..i] == docs[..i];
      if "source" !in docs[i].metadata {
        return None;
      }
      text := text + Block(i, "source: " + Show(docs[i].metadata["source"], realText), docs[i].content);
    }
    assert docs[..|docs|] == docs;
    context := Some(text);
  }

  // ------------------------------------------------------ _load_and_clean_pdfs

  /** What the PDF reader yields for one directory entry: its name, the `title` of its metadata, its pages' text. */
  datatype PdfFile = PdfFile(filename: String, title: Option<String>, pages: seq<String>)

  /** `full_text`: each page's text followed by a newline. */
  function FullText(pages: seq<String>): String {
    if pages == [] then []
    else FullText(pages[..|pages| - 1]) + pages[|pages| - 1] + "\n"
  }

  /** `pdf.metadata.get('title', filename)` */
  function TitleOfPdf(f: PdfFile): Value {
    if f.title.Some? then Str(f.title.value) else Str(f.filename)
  }

  /** The documents of one file's chunks. */
  function ChunkDocs(title: Value, chunks: seq<String>, totalPages: nat): (r: seq<Doc>)
    ensures |r| == |chunks|
  {
    seq(|chunks|, i requires 0 <= i < |chunks| =>
      Doc(chunks[i], map[
        "source" := title,
        "chunk_index" := Int(i),
        "total_chunks" := Int(|chunks|),
        "total_pages" := Int(totalPages)]))
  }

  /**
   * Chunk `i` of a file holds the chunk's text, its file's title, `i` as its
   * index and the number of chunks as the total, so its index is below the total.
   */
  lemma ChunkDocsMetadata(title: Value, chunks: seq<String>, totalPages: nat, i: nat)
    requires i < |chunks|
    ensures ChunkDocs(title, chunks, totalPages)[i].content == chunks[i]
    ensures Get(ChunkDocs(title, chunks, totalPages)[i], "source") == Some(title)
    ensures Get(ChunkDocs(title, chunks, totalPages)[i], "chunk_index") == Some(Int(i))
    ensures Get(ChunkDocs(title, chunks, totalPages)[i], "total_chunks") == Some(Int(|chunks|))
    ensures Get(ChunkDocs(title, chunks, totalPages)[i], "total_pages") == Some(Int(totalPages))
  {
  }

  /** The chunks of one file are told apart by their chunk key. */
  lemma ChunkKeysDistinct(title: Value, chunks: seq<String>, totalPages: nat)
    ensures DistinctKeys(ChunkDocs(title, chunks, totalPages))
  {
    var r := ChunkDocs(title, chunks, totalPages);
    forall i, j | 0 <= i < j < |r|
      ensures KeyOf(r[i]) != KeyOf(r[j])
    {
      assert KeyOf(r[i]).chunkIndex == Some(Int(i));
      assert KeyOf(r[j]).chunkIndex == Some(Int(j));
    }
  }

  /** A directory entry the loader reads: a name ending in `.pdf`, in any case. */
  predicate IsPdf(f: PdfFile) {
    EndsWith(LowerStr(f.filename), ".pdf")
  }

  /** The documents of one listed file: its chunks when it is a PDF, nothing otherwise. */
  function FileDocs(f: PdfFile, split: String -> seq<String>): (r: seq<Doc>)
    ensures !IsPdf(f) ==> r == []
  {
    if IsPdf(f) then ChunkDocs(TitleOfPdf(f), split(CleanedPdfText(FullText(f.pages))), |f.pages|) else []
  }

  /**
   * The documents of the listed files, in listing order: the chunks of each
   * PDF's cleaned text; `split` stands for the text splitter.
   */
  function LoadedDocs(files: seq<PdfFile>, split: String -> seq<String>): seq<Doc> {
    if files == [] then []
    else
      LoadedDocs(files[..|files| - 1], split) + FileDocs(files[|files| - 1], split)
  }

  /** A file that is not a PDF contributes nothing. */
  lemma SkipsNonPdf(files: seq<PdfFile>, f: PdfFile, split: String -> seq<String>)
    requires !IsPdf(f)
    ensures LoadedDocs(files + [f], split) == LoadedDocs(files, split)
  {
    assert (files + [f])[..|files|] == files;
  }

  /** A document of one file carries an index below the file's chunk count and the file's title. */
  lemma FileDocsIndexed(f: PdfFile, split: String -> seq<String>, d: Doc)
    requires d in FileDocs(f, split)
    ensures exists i: nat, n: nat :: i < n && Get(d, "chunk_index") == Some(Int(i)) && Get(d, "total_chunks") == Some(Int(n))
    ensures IsPdf(f) && Get(d, "source") == Some(TitleOfPdf(f))
  {
    var chunks := split(CleanedPdfText(FullText(f.pages)));
    var docs := ChunkDocs(TitleOfPdf(f), chunks, |f.pages|);
    assert docs == FileDocs(f, split);
    var i :| 0 <= i < |docs| && docs[i] == d;
    ChunkDocsMetadata(TitleOfPdf(f), chunks, |f.pages|, i);
    assert i < |chunks|;
  }

  /** Every loaded document is a chunk with an index below its file's chunk count, titled after a PDF of the listing. */
  lemma {:induction false} LoadedDocsIndexed(files: seq<PdfFile>, split: String -> seq<String>, d: Doc)
    requires d in LoadedDocs(files, split)
    ensures exists i: nat, n: nat :: i < n && Get(d, "chunk_index") == Some(Int(i)) && Get(d, "total_chunks") == Some(Int(n))
    ensures exists f :: f in files && IsPdf(f) && Get(d, "source") == Some(TitleOfPdf(f))
  {
    var n := |files| - 1;
    var init := files[..n];
    if d in LoadedDocs(init, split) {
      LoadedDocsIndexed(init, split, d);
      var g :| g in init && IsPdf(g) && Get(d, "source") == Some(TitleOfPdf(g));
      assert g in files;
    } else {
      FileDocsIndexed(files[n], split, d);
    }
  }

  /** The page loop: `full_text += page_text + "\n"`. */
  method ReadFullText(pages: seq<String>) returns (fullText: String)
    ensures fullText == FullText(pages)
  {
    fullText := [];
    for i := 0 to |pages|
      invariant fullText == FullText(pages[..i])
    {
      assert pages[..i + 1][..i] == pages[..i];
      fullText := fullText + pages[i] + "\n";
    }
    assert pages[..|pages|] == pages;
  }

  /** `_load_and_clean_pdfs`: the files' chunk documents, appended file by file. */
  method LoadAndCleanPdfs(files: seq<PdfFile>, split: String -> seq<String>) returns (allDocuments: seq<Doc>)
    ensures allDocuments == LoadedDocs(files, split)
  {
    allDocuments := [];
    for k := 0 to |files|
      invariant allDocuments == LoadedDocs(files[..k], split)
    {
      var f := files[k];
      assert files[..k + 1][..k] == files[..k];
      if IsPdf(f) {
        var fullText := ReadFullText(f.pages);
        var cleaned := CleanPdfText(fullText);
        var chunks := split(cleaned);
        allDocuments := allDocuments + ChunkDocs(TitleOfPdf(f), chunks, |f.pages|);
      }
    }
    assert files[..|files|] == files;
  }
}
