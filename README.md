# ResearchOrbit bookkeeping, modelled in Dafny

ResearchOrbit collects research papers, summarises them, groups related
ones, and answers questions about them. Much of it is calls into models:
sentence embeddings, k-nearest neighbours, k-means, PCA, local language
models, and PDF parsing. Around those calls sits deterministic Python that
filters, counts, groups, ranks and rewrites text. That code is modelled
here and proved correct against stated contracts:

- **`similaritycontext/similarity/knn.py`** is the article store behind the
  similarity API. It keeps a keyed table of articles and their ids in
  insertion order, plus a lazily rebuilt nearest-neighbour index. It answers
  neighbour queries that exclude the query article, and it selects ids for
  the heat-map, projection and cluster views. It also summarises clusters
  and reports the small ones (class `Similarity.ArticleSimilarityEngine`).
- **`http/research-orbits/src/assets/titles.py`** extracts paper titles: the
  bad-candidate test, title cleaning, the greedy pairing of candidate lines,
  and the file-name fallback (module `Titles`).
- **`correlation/summarize.py`** covers summary text hygiene:
  - the token estimate and the chunking threshold;
  - PDF text cleaning and the header/footer majority rule;
  - repetition detection and summary post-processing;
  - the summary file name and the HTML escaping of the summary PDF
  (module `Summarize`).
- **`correlation/correlate.py`** covers cluster bookkeeping:
  - the cluster-count heuristic and the sequential fallback;
  - grouping by cluster with the minimum-size skip and per-cluster failure
    isolation;
  - the correlation prompt context and the summary-file parsing
  (module `Correlate`, class `Correlate.CorrelationBuilder`).
- **`ragcontext/rag/rag.py`** is the question-answering service:
  - PDF text cleaning (module `Documents`);
  - the hand-made BM25 + vector ensemble, reranking, and the prompt context
    with its `docN` → title map;
  - source-id matching, the non-JSON fallback, and the publication metadata
    lookup (module `RagContext`).
- **`src/rag/rag.py`** is the earlier copy of the service: the
  cross-encoder rerank that records `rerank_score`, the `source:` context,
  and the chunk metadata of the PDF loader (module `RagSrc`).

Shared modules:
- `Text` holds string primitives with Python semantics: `strip`, `split`,
  `lower`, `replace`, run rewriting for the `re.sub` patterns used, and
  integer formatting.
- `Sorting` is Python's stable descending sort, on lexicographic real keys.
- `Tally` is the insertion-ordered counting dict.
- `Wrappers` holds `Option`.

Every model call, file access and clock enters as a parameter: an encoder
function, a neighbour search, a clustering, a projector, a scoring function,
a text splitter, a JSON parser, or a listing of files. Floating-point scores
are modelled as reals.

## Model

| member | source | states |
|---|---|---|
| Similarity.ArticleSimilarityEngine.constructor | similaritycontext/similarity/knn.py:25-46 | a new engine has an empty table and id list, no embeddings or index, and is dirty |
| Similarity.ArticleSimilarityEngine.EnsureIndex | similaritycontext/similarity/knn.py:48-62 | afterwards the engine is not dirty; nothing changes when it was clean; with no ids embeddings are absent, otherwise one per id; table and ids untouched |
| Similarity.ArticleSimilarityEngine.UpsertMany | similaritycontext/similarity/knn.py:65-78 | the table becomes `StoreAll` of the items, the id list `AppendNew` (old ids keep their place, new ones are appended once), the engine is dirty, the index is untouched |
| Similarity.ArticleSimilarityEngine.UpsertOne | similaritycontext/similarity/knn.py:80-81 | one item replaces or adds its article; its id is appended only when new; the engine is dirty |
| Similarity.ArticleSimilarityEngine.AllArticles | similaritycontext/similarity/knn.py:83-84 | one article per id, in id order, each the stored one |
| Similarity.ArticleSimilarityEngine.GetArticle | similaritycontext/similarity/knn.py:86-89 | `None` exactly for an unknown id, otherwise the stored article with that id |
| Similarity.ArticleSimilarityEngine.Clear | similaritycontext/similarity/knn.py:91-96 | empties table and ids, drops embeddings and index, leaves the engine clean |
| Similarity.ArticleSimilarityEngine.NeighbourCount | similaritycontext/similarity/knn.py:104 | `k or default`: a non-zero `k`, negative ones included, is kept; a missing or zero one becomes the default |
| Similarity.ArticleSimilarityEngine.TopkByText | similaritycontext/similarity/knn.py:99-111 | `[]` for an empty store; a failure exactly when the store is not empty and `k` is negative (the index is asked for fewer than one neighbour); otherwise the hits are the search over the encoded abstracts for min(k, number of ids) neighbours of the encoded text, and row i is the stored article of hit i with its distance |
| Similarity.ArticleSimilarityEngine.TopkById | similaritycontext/similarity/knn.py:113-134 | `[]` for an unknown id; a failure exactly when the id is known and `k` is negative (the index is asked for fewer than one neighbour); otherwise the search asks for min(k + 1, number of ids) neighbours of the query's abstract, and the rows are the first k hits other than the query article, in hit order |
| Similarity.ArticleSimilarityEngine.Rows | similaritycontext/similarity/knn.py:147 | one embedding row per selected position: row j is `embeddings[sel[j]]` |
| Similarity.ArticleSimilarityEngine.SimilarityMatrix | similaritycontext/similarity/knn.py:136-148 | the selected ids are the known requested ids in request order; the matrix is square over them |
| Similarity.ArticleSimilarityEngine.Projection | similaritycontext/similarity/knn.py:151-179 | `[]` when no requested id is stored; otherwise the projector gets the known ids' embeddings and `n_components`, and the call fails exactly when PCA fails or `n_components` < 2 (`XY[i, 1]` raises); point i carries id i, its first two coordinates and the article's title, year, authors and keywords |
| Similarity.PlacePoints | similaritycontext/similarity/knn.py:169-179 | point i is id i with the first two coordinates of row i and its article's title, year, authors and keywords |
| Similarity.ArticleSimilarityEngine.Clusters | similaritycontext/similarity/knn.py:182-208 | one label per selected id, paired with that id; cluster sizes sum to the number of labels, are in non-increasing order, and each names a cluster that some label carries |
| Similarity.ArticleSimilarityEngine.UnderexploredClusters | similaritycontext/similarity/knn.py:310-362 | `[]` for an empty store; otherwise the labels are the clustering of all stored ids and the report is the stable sort, by descending exploration score, of the reports of the clusters whose share is at most the threshold, taken in cluster-size order |
| Similarity.AppendNewKeepsOrder | similaritycontext/similarity/knn.py:76-77 | upserting never moves an id already listed |
| Similarity.AppendNewMembers | similaritycontext/similarity/knn.py:76-77 | the ids after upserting are the old ones plus the upserted ones |
| Similarity.AppendNewNoDup | similaritycontext/similarity/knn.py:76-77 | each id is listed once |
| Similarity.StoreAllKeys | similaritycontext/similarity/knn.py:67-76 | the stored ids are the old ones plus the upserted ones |
| Similarity.StoreAllOthers | similaritycontext/similarity/knn.py:67-76 | an id no item mentions keeps its article |
| Similarity.StoreAllLastWins | similaritycontext/similarity/knn.py:67-76 | the last item with a given id decides its article, with the defaults filled in |
| Similarity.IndexOf | similaritycontext/similarity/knn.py:143 | `list.index`: the first position holding the id |
| Similarity.KnownIndices | similaritycontext/similarity/knn.py:143 | no more positions than requested ids, each a valid position |
| Similarity.KnownIds | similaritycontext/similarity/knn.py:143 | an id is selected exactly when it is both requested and stored |
| Similarity.KnownIndicesIds | similaritycontext/similarity/knn.py:143-147 | mapping the selected positions back through the id list gives the known requested ids, in order |
| Similarity.KnownIdsNoIds | similaritycontext/similarity/knn.py:143-145 | nothing is selected from an empty store |
| Similarity.KnownIdsAll | similaritycontext/similarity/knn.py:143 | with every requested id stored, the selection is the request |
| Similarity.KnownIdsShorter | similaritycontext/similarity/knn.py:190-191 | an unknown requested id makes the selection shorter than the request |
| Similarity.KnownIdsAtMost | similaritycontext/similarity/knn.py:143 | the selection is never longer than the request |
| Similarity.ClampClusters | similaritycontext/similarity/knn.py:196 | the cluster count is between 1 and the number of rows, and equals `k` when `k` is already in range |
| Similarity.Neighbours | similaritycontext/similarity/knn.py:125 | one neighbour per hit: entry j is `ids[hits[j].index]` with hit j's distance |
| Similarity.OtherRows | similaritycontext/similarity/knn.py:128-131 | no row for the query id; every row carries its stored title and year |
| Similarity.OtherRowsAppend | similaritycontext/similarity/knn.py:128-131 | the filtered rows of a concatenation are the concatenation of the filtered rows |
| Similarity.OtherRowsSnoc | similaritycontext/similarity/knn.py:128-131 | one more neighbour adds its row unless it is the query article |
| Similarity.OtherRowsPrefixTake | similaritycontext/similarity/knn.py:132-133 | stopping once k rows are collected yields the first k rows of the full filtering |
| Similarity.CollectOthers | similaritycontext/similarity/knn.py:127-134 | the loop with `continue` and `break` returns the first k rows of the neighbours other than the query article |
| Similarity.LabelRowsAsWritten | similaritycontext/similarity/knn.py:205 | the source's pairing raises exactly when more ids are requested than labels exist |
| Similarity.LabelRows | similaritycontext/similarity/knn.py:205 | label `i` pairs the `i`-th selected id with the `i`-th label |
| Similarity.UnknownIdRaises | similaritycontext/similarity/knn.py:191-205 | a request naming an unknown id makes the source's pairing raise |
| Similarity.LabelRowsAgree | similaritycontext/similarity/knn.py:205 | when every requested id is known, the corrected pairing is the source's |
| Similarity.ClusterLabels | similaritycontext/similarity/knn.py:190-205 | one label row per selected id, paired with that id; the clusters are the clustering of the encoded abstracts with the clamped cluster count |
| Similarity.ClusterSelection | similaritycontext/similarity/knn.py:188-207 | the labels are those of the known requested ids and the sizes are their tally |
| Similarity.SizesOf | similaritycontext/similarity/knn.py:206 | one entry per distinct label, carrying that label's count |
| Similarity.SizesOfMembers | similaritycontext/similarity/knn.py:206 | an entry is present exactly for a listed cluster with its count |
| Similarity.SumOfSizes | similaritycontext/similarity/knn.py:201-206 | the entry sizes add up to the counted total |
| Similarity.CountClusters | similaritycontext/similarity/knn.py:201-206 | the counting loop yields the sizes in first-appearance order of the labels |
| Similarity.ClusterSizes | similaritycontext/similarity/knn.py:201-207 | sizes sum to the number of labels, are sorted by size, largest first, and list each label once with its count |
| Similarity.SizesForFacts | similaritycontext/similarity/knn.py:201-207 | the sizes sum to the number of labels, are in non-increasing order, and each names a cluster some label carries |
| Similarity.TopKeywords | similaritycontext/similarity/knn.py:346 | min(5, distinct keywords) keywords, no repeats, all from the input, most frequent first; a keyword left out occurs no more often than every kept one |
| Similarity.TopKeywordsTies | similaritycontext/similarity/knn.py:346 | among keywords with equal counts the kept ones are the first in first-appearance order, as `Counter.most_common` keeps them |
| Similarity.Years | similaritycontext/similarity/knn.py:343 | exactly the truthy years of the papers |
| Similarity.YearsAppend | similaritycontext/similarity/knn.py:343 | the years keep the order of the papers |
| Similarity.YearsPresent | similaritycontext/similarity/knn.py:343-352 | the year list is non-empty exactly when some paper has a truthy year |
| Similarity.MinOf | similaritycontext/similarity/knn.py:352 | the least year, taken from the list |
| Similarity.MaxOf | similaritycontext/similarity/knn.py:352 | the greatest year, taken from the list |
| Similarity.MembersOf | similaritycontext/similarity/knn.py:339 | exactly the ids labelled with the cluster |
| Similarity.MembersOfAppend | similaritycontext/similarity/knn.py:339 | the members keep the order of the labels |
| Similarity.Papers | similaritycontext/similarity/knn.py:340 | paper i is the stored article of paper id i |
| Similarity.Samples | similaritycontext/similarity/knn.py:354-357 | sample i is paper id i with its stored title |
| Similarity.Report | similaritycontext/similarity/knn.py:348-359 | the cluster's id and size; percentage = size / total · 100; exploration score = 1 / (size + 1); at most 3 samples and 5 keywords; an ordered year range |
| Similarity.ReportFields | similaritycontext/similarity/knn.py:348-359 | the samples are the first three ids with their titles; the keywords are the top keywords of the papers; a year range exists exactly when some paper has a truthy year, and it spans the least to the greatest of them |
| Similarity.SamplesOfFirst | similaritycontext/similarity/knn.py:354-357 | `paper_ids[:3]` gives the first min(3, n) ids with their titles |
| Similarity.SmallReports | similaritycontext/similarity/knn.py:336-359 | no more reports than cluster sizes |
| Similarity.SmallReportsMembers | similaritycontext/similarity/knn.py:336-359 | a report is listed exactly when it is the report of a cluster whose share is at most the threshold |
| Similarity.CollectSmall | similaritycontext/similarity/knn.py:336-359 | the loop over the cluster sizes builds exactly `SmallReports` |
| Similarity.SmallReportsFacts | similaritycontext/similarity/knn.py:336-359 | every report has share at most the threshold, at most 3 samples and at most 5 keywords |
| Similarity.EncodeAbstracts | similaritycontext/similarity/knn.py:58-59 | embedding i is the encoding of the abstract of id i |
| Titles.RatioAboveQuarter | http/research-orbits/src/assets/titles.py:38 | the digit ratio exceeds a quarter exactly when 4 · digits > length |
| Titles.TooManyDigitsInt | http/research-orbits/src/assets/titles.py:38 | the real-valued ratio test agrees with the integer test |
| Titles.IsBadCandidate | http/research-orbits/src/assets/titles.py:34-43 | bad when the normalised text is shorter than 10; otherwise bad exactly when 4 · digits > length or a bad pattern matches |
| Titles.IsBadCandidateNormalized | http/research-orbits/src/assets/titles.py:35 | the verdict depends only on the whitespace-normalised text |
| Titles.CleanTitle | http/research-orbits/src/assets/titles.py:45-51 | a cleaned title has no newline, no soft hyphen, no double white space and no white space at either end |
| Titles.DropTrailingPunct | http/research-orbits/src/assets/titles.py:50 | the longest prefix not ending in trailing punctuation: everything cut off is one of `•·|:;,-–—` and what is kept does not end in one |
| Titles.FindPartner | http/research-orbits/src/assets/titles.py:85-92 | the partner is the first unused compatible line among the next five; none when no such line exists |
| Titles.Entries | http/research-orbits/src/assets/titles.py:93-95 | entry i is the cleaned text and score of group i |
| Titles.GoodOnly | http/research-orbits/src/assets/titles.py:94 | exactly the entries that are not bad candidates |
| Titles.GoodOnlyAppend | http/research-orbits/src/assets/titles.py:93-95 | the filter keeps the group order |
| Titles.GreedySnoc | http/research-orbits/src/assets/titles.py:78-96 | a greedy step extends a greedy grouping |
| Titles.GreedyUnique | http/research-orbits/src/assets/titles.py:78-96 | two greedy groupings that both use every line are equal: the lines determine the grouping |
| Titles.GroupLines | http/research-orbits/src/assets/titles.py:78-96 | every line is used exactly once, in groups that fit; each group is the greedy step: led by the first unused line, taking the first unused compatible line among the next five, if any |
| Titles.GoodEntries | http/research-orbits/src/assets/titles.py:93-95 | exactly the entries of the groups whose text is not a bad candidate |
| Titles.GroupAndScore | http/research-orbits/src/assets/titles.py:72-97 | the groups are the greedy grouping of the lines sorted by font size and position; the result is the good entries of those groups, sorted best score first |
| Titles.Stem | http/research-orbits/src/assets/titles.py:100 | the name without its last `.suffix`: cut at the last dot when that dot is neither the first nor the last character, otherwise the whole name |
| Titles.DashesToSpace | http/research-orbits/src/assets/titles.py:100 | no `_` or `-` left and no other character introduced; text without them is unchanged; a run of them on its own becomes one space |
| Titles.DashesToSpaceConcat | http/research-orbits/src/assets/titles.py:100 | at a run boundary the replacement works piece by piece, so each `[_-]+` run becomes one space |
| Titles.TitleFrom | http/research-orbits/src/assets/titles.py:101 | `str.title` letter by letter: upper case after a non-letter, lower case after a letter; other characters unchanged |
| Titles.Title | http/research-orbits/src/assets/titles.py:101 | `str.title` keeps the length |
| Titles.TitleKeepsLayout | http/research-orbits/src/assets/titles.py:101 | `str.title` keeps white space, non-letters and trimming as they were |
| Titles.TitleIdempotent | http/research-orbits/src/assets/titles.py:101 | applying `str.title` twice changes nothing more |
| Titles.FilenameFallback | http/research-orbits/src/assets/titles.py:99-101 | no `_` or `-`, no double space, no surrounding white space |
| Titles.ExtractTitle | http/research-orbits/src/assets/titles.py:110-118 | the best-ranked title when there is one, otherwise the file-name fallback (also after an error) |
| Titles.ChooseTitle | http/research-orbits/src/assets/titles.py:130-132 | a bad extracted title is replaced by the file-name fallback; a good one is kept |
| Titles.RankedTitleKept | http/research-orbits/src/assets/titles.py:110-132 | the top ranked title survives the check in `main` |
| Summarize.EstimateTokens | correlation/summarize.py:68-70 | the estimate is floor(1.3 · words): 10 · n ≤ 13 · words < 10 · n + 10 |
| Summarize.EstimateTokensZero | correlation/summarize.py:68-70 | the estimate is 0 exactly for blank text |
| Summarize.ChunkDocument | correlation/summarize.py:139-155 | exactly `[content]` at or below the limit, the splitter's chunks above it |
| Summarize.LongDocumentsAreSplit | correlation/summarize.py:409-413 | a document estimated above 32000 tokens always reaches the splitter |
| Summarize.Dehyphenate | correlation/summarize.py:49 | de-hyphenation never lengthens the text |
| Summarize.DehyphenateChars | correlation/summarize.py:49 | it introduces no character |
| Summarize.DehyphenateNoHyphen | correlation/summarize.py:49 | text without a hyphen is unchanged |
| Summarize.DehyphenateJoins | correlation/summarize.py:49 | for any word characters `a` and `b`, `a-\nb` becomes `ab` |
| Summarize.DehyphenateConsumes | correlation/summarize.py:49 | a match consumes the following word, so for word characters `a`, `b` and any `c`, `a-\nb-\nc` becomes `ab-\nc` |
| Summarize.DehyphenateJoinsOnce | correlation/summarize.py:49 | right after a word character, `-\nb-\nc` becomes `b-\nc`: the joined word is consumed |
| Summarize.DehyphenateUnjoinable | correlation/summarize.py:49 | a hyphen that does not follow a word character is kept with its line break |
| Summarize.SqueezeNewlinesNone | correlation/summarize.py:63 | text without a newline is unchanged |
| Summarize.CleanedPdfTextTidy | correlation/summarize.py:46-65 | cleaned text has no newline, no double white space, no surrounding white space |
| Summarize.CleanPdfText | correlation/summarize.py:46-65 | the line-joining loop computes the cleaned text, which is tidy |
| Summarize.StrippedLines | correlation/summarize.py:101-104 | only non-empty lines |
| Summarize.StrippedLinesMembers | correlation/summarize.py:101-104 | a line is listed exactly when it is non-empty and the stripped form of a line of some page |
| Summarize.CommonLines | correlation/summarize.py:100-108 | a line is common exactly when it occurs more than pages/2 times and is shorter than 100 characters |
| Summarize.PagesWithCounted | correlation/summarize.py:100-105 | a line's count is at least the number of pages carrying it |
| Summarize.RepeatedLineIsCommon | correlation/summarize.py:100-108 | a short line on more than half the pages is removed as header or footer |
| Summarize.KeepNotCommon | correlation/summarize.py:113-114 | exactly the lines whose stripped form is not common |
| Summarize.KeepNotCommonAppend | correlation/summarize.py:113-114 | the kept lines keep the page order |
| Summarize.FindCommonLines | correlation/summarize.py:100-108 | the counting loops compute exactly the common lines |
| Summarize.KeepLines | correlation/summarize.py:113-114 | the filtering loop computes the kept lines |
| Summarize.CleanPage | correlation/summarize.py:113-116 | a page's cleaned text, which is tidy |
| Summarize.DocumentTextStep | correlation/summarize.py:118-119 | a page adds `"\n\n" + cleaned` when it cleans to something, nothing otherwise |
| Summarize.AddPage | correlation/summarize.py:113-119 | one page of the loop appends `"\n\n"` and the page's cleaned text exactly when that text is not blank |
| Summarize.AssemblePages | correlation/summarize.py:111-119 | the page loop builds the document text |
| Summarize.CleanPages | correlation/summarize.py:99-119 | the document text with the common lines of its own pages removed |
| Summarize.SplitSentences | correlation/summarize.py:161 | at least one part; no part holds `.`, `!` or `?`; a text without them is a single part |
| Summarize.SplitSentencesJoin | correlation/summarize.py:161 | joining the parts gives the text without its sentence ends: the split loses nothing else |
| Summarize.LongSentences | correlation/summarize.py:162 | exactly the stripped sentences longer than 20 characters |
| Summarize.LongOnly | correlation/summarize.py:162 | exactly the strings longer than 20 characters |
| Summarize.Fingerprints | correlation/summarize.py:168 | fingerprint i is the first min(50, length) characters of sentence i, lower-cased |
| Summarize.MaxCount | correlation/summarize.py:172 | the largest count, reached by some key |
| Summarize.MaxCountReaches | correlation/summarize.py:169-173 | the verdict on the fingerprints is true exactly when some fingerprint occurs at least `threshold` times (none when there are no fingerprints) |
| Summarize.MaxCountReachesNonEmpty | correlation/summarize.py:169-173 | over non-empty fingerprints, the largest count reaches the threshold exactly when some fingerprint's count does |
| Summarize.DetectRepetition | correlation/summarize.py:158-173 | repetition is reported exactly when some fingerprint of a sentence longer than 20 characters occurs at least `threshold` times |
| Summarize.NoLongSentenceNoRepetition | correlation/summarize.py:164-165 | no long sentence means no repetition |
| Summarize.DigitRunsToHash | correlation/summarize.py:185 | no digit is left and the text never grows |
| Summarize.DigitRunsToHashPlain | correlation/summarize.py:185 | text without digits is unchanged |
| Summarize.DigitRunsToHashRun | correlation/summarize.py:185 | a run of digits on its own becomes one `#` |
| Summarize.DigitRunsToHashConcat | correlation/summarize.py:185 | at a digit-run boundary the replacement works piece by piece, so each `\d+` run becomes one `#` |
| Summarize.LineKey | correlation/summarize.py:185 | at most 60 characters and no digit |
| Summarize.LineKeyPlain | correlation/summarize.py:185 | when the cut holds no digit, the key is the stripped line lower-cased and cut to 60 characters |
| Summarize.Deduplicated | correlation/summarize.py:179-190 | kept lines come from the input, in order, never more of them |
| Summarize.KeptLastDiffers | correlation/summarize.py:188 | a kept line with a long key differs in key from every earlier line |
| Summarize.DeduplicatedDistinct | correlation/summarize.py:183-190 | no two kept lines share a key of length 10 or more |
| Summarize.DroppedHasEarlierTwin | correlation/summarize.py:188-190 | a line is dropped only when its key has length ≥ 10 and an earlier line has the same key |
| Summarize.DedupLines | correlation/summarize.py:179-192 | the `seen` loop computes the deduplicated lines |
| Summarize.DropEmptyBullets | correlation/summarize.py:195 | never lengthens the text |
| Summarize.BulletLineEnd | correlation/summarize.py:195 | a match runs from a newline to a newline, at least 3 characters, with a bullet strictly inside; no bullet means no match |
| Summarize.DropEmptyBulletsSub | correlation/summarize.py:195 | only characters of the input remain (as a multiset) |
| Summarize.DropEmptyBulletsPlain | correlation/summarize.py:195 | text without bullets is unchanged |
| Summarize.DropsEmptyBulletLine | correlation/summarize.py:195 | a newline, white space, a bullet, white space and a newline, followed by the end or a non-space, become one newline and the scan goes on after them |
| Summarize.BulletLineEndAt | correlation/summarize.py:195 | such a line is matched up to and including its closing newline |
| Summarize.DropEmptyBulletsExample | correlation/summarize.py:195 | `a\n- \nb` becomes `a\nb` |
| Summarize.DropBulletLine | correlation/summarize.py:195 | `"\n- \nb"` becomes `"\nb"` |
| Summarize.NoTripleAfterNewlines | correlation/summarize.py:196 | at most two newlines before a non-newline keep the text free of three newlines in a row |
| Summarize.NoTripleAfterChar | correlation/summarize.py:196 | a non-newline in front keeps the text free of three newlines in a row |
| Summarize.SqueezeBlankLines | correlation/summarize.py:196 | no three newlines in a row remain |
| Summarize.StripKeepsNoTriple | correlation/summarize.py:198 | stripping keeps that property |
| Summarize.CleanSummaryOutput | correlation/summarize.py:176-198 | the cleaned summary has no three newlines in a row and no surrounding white space |
| Summarize.SplitExtRoot | correlation/summarize.py:39 | the root is a prefix of the name |
| Summarize.SplitExtPdf | correlation/summarize.py:39 | `splitext` of `base.pdf` is `base` |
| Summarize.SummaryFileName | correlation/summarize.py:40 | `summary_`, then a prefix of the file name, then `.pdf` |
| Summarize.SummaryFileNameOfPdf | correlation/summarize.py:39-40 | for `<base>.pdf` the name is `summary_<base>.pdf` |
| Summarize.IsAlreadySummarized | correlation/summarize.py:33-43 | false for an empty file name; otherwise true exactly when the summary name is present |
| Summarize.SavedSummaryIsFound | correlation/summarize.py:33-43 | once its summary is saved, a document counts as summarised |
| Summarize.ReplaceOne | correlation/summarize.py:344 | replacing in a one-character string |
| Summarize.ReplaceAbsent | correlation/summarize.py:344 | replacing an absent character changes nothing |
| Summarize.EscapeOne | correlation/summarize.py:344 | the three replacements on one character |
| Summarize.EscapeIsCharwise | correlation/summarize.py:344 | `&` first, then `<` and `>`, escapes character by character |
| Summarize.UnescapeEscapeEach | correlation/summarize.py:344 | unescaping the per-character escape gives the text back |
| Summarize.UnescapeEscape | correlation/summarize.py:344 | the escape loses nothing: unescaping gives the paragraph back |
| Summarize.UnescapeEscapeChar | correlation/summarize.py:344 | unescaping reads one escaped character back and continues after it |
| Summarize.EscapeEachNoBracket | correlation/summarize.py:344 | no `<` or `>` remains |
| Summarize.EscapedNoBracket | correlation/summarize.py:344 | an escaped paragraph contains no `<` or `>` |
| Summarize.SplitOnString | correlation/summarize.py:340 | `split('\n\n')` yields at least one part |
| Summarize.JoinSplitOnString | correlation/summarize.py:340 | joining the parts with the separator gives the text back |
| Summarize.BodyParagraphs | correlation/summarize.py:341-345 | at most one paragraph per part, none with `<` or `>` |
| Summarize.SummaryParagraphs | correlation/summarize.py:340-345 | no paragraph of the summary PDF contains `<` or `>` |
| Summarize.BlankParagraphsDropped | correlation/summarize.py:341-342 | blank parts produce no paragraph |
| Correlate.OptimalClusters | correlation/correlate.py:160-171 | at least two clusters when the cap allows two, at most max(8, cap), and fewer clusters than samples from 3 samples on |
| Correlate.FallbackLabels | correlation/correlate.py:210-212 | one label per summary, each below min(5, n) |
| Correlate.FallbackClustersNonEmpty | correlation/correlate.py:211 | every fallback cluster below min(5, n) gets a summary |
| Correlate.Assigned | correlation/correlate.py:185-212 | one label per summary; the fallback's labels are below min(5, n) |
| Correlate.ClusterCounts | correlation/correlate.py:195-198 | one count per distinct label, equal to its multiplicity; the counts add up to the number of summaries |
| Correlate.SumCountsTotal | correlation/correlate.py:195-198 | the dict's counts add up to the multiset total |
| Correlate.Labels | correlation/correlate.py:212 | one label per summary, in order |
| Correlate.WithLabels | correlation/correlate.py:191-192 | summary `i` gets label `i` and is otherwise unchanged |
| Correlate.LabelsOfWithLabels | correlation/correlate.py:191-192 | the stored labels read back as assigned |
| Correlate.SummaryFiles | correlation/correlate.py:100-101 | exactly the listed names starting `summary_` and ending `.pdf` |
| Correlate.OriginalPaper | correlation/correlate.py:113 | the derived paper name ends with `.pdf` |
| Correlate.OriginalPaperOfSummary | correlation/correlate.py:113 | the summary of `root.*` maps back to `root.pdf` when the root contains neither `summary_` nor `.pdf` |
| Correlate.OriginalPaperOfPdf | correlation/correlate.py:113 | the summary of `base.pdf` maps back to `base.pdf` |
| Correlate.DropSummaryHeaders | correlation/correlate.py:87 | header removal never lengthens the text |
| Correlate.DropHeaderLine | correlation/correlate.py:87 | a `Summary of:` line is removed up to its newline |
| Correlate.MaskChars | correlation/correlate.py:88 | each character outside word characters, white space and `.,;:!?()-` becomes a space |
| Correlate.CleanTextForEmbedding | correlation/correlate.py:84-90 | the embedding text is tidy and holds only word characters, white space and `.,;:!?()-` |
| Correlate.LoadedFrom | correlation/correlate.py:107-122 | every loaded summary comes from a listed file whose text is longer than 100 characters, with its original paper name, its cleaned text and no cluster |
| Correlate.LoadedFromComplete | correlation/correlate.py:107-122 | every listed file whose text is longer than 100 characters is loaded |
| Correlate.LoadedFromAppend | correlation/correlate.py:107-122 | summaries are loaded in listing order |
| Correlate.LoadedAreSummaryFiles | correlation/correlate.py:100-122 | every loaded summary comes from a listed summary file |
| Correlate.Members | correlation/correlate.py:336-340 | a cluster's list holds only that cluster's papers, in order |
| Correlate.MembersCount | correlation/correlate.py:336-340 | a cluster's list is as long as its label's multiplicity |
| Correlate.GroupSizesTotal | correlation/correlate.py:336-340 | the group sizes add up to the label total |
| Correlate.GroupsPartition | correlation/correlate.py:336-340 | the groups together hold every paper exactly once |
| Correlate.InOwnGroup | correlation/correlate.py:336-340 | every paper is in its own cluster's group |
| Correlate.MembersSnoc | correlation/correlate.py:340 | one more paper extends only its own cluster's list |
| Correlate.ListsMatchStep | correlation/correlate.py:338-340 | one step keeps every present list equal to its cluster's members |
| Correlate.NoneMissingStep | correlation/correlate.py:338-340 | one step keeps absent clusters memberless |
| Correlate.GroupStep | correlation/correlate.py:336-340 | one step of the grouping loop keeps the dict equal to the grouping of the papers seen |
| Correlate.GroupByCluster | correlation/correlate.py:335-340 | keys in first-appearance order; each cluster's list is exactly its members in order |
| Correlate.Repeat | correlation/correlate.py:224 | `"─" * 60`: n copies of the character |
| Correlate.Preview | correlation/correlate.py:220 | short texts unchanged; long ones cut to 1200 characters plus `...` |
| Correlate.FirstBlockIsPaperOne | correlation/correlate.py:218-224 | numbering starts at 1 |
| Correlate.BlocksSnoc | correlation/correlate.py:218-224 | paper `i` adds block `i + 1` after the earlier ones |
| Correlate.CorrelationContext | correlation/correlate.py:214-224 | the context is the header followed by one block per paper |
| Correlate.Outcomes | correlation/correlate.py:344-384 | results only for listed clusters with at least 3 papers |
| Correlate.OutcomesIff | correlation/correlate.py:344-384 | a cluster has a result exactly when it has at least 3 papers and its analysis does not fail |
| Correlate.OutcomesDistinct | correlation/correlate.py:344-384 | no cluster has two results |
| Correlate.OutcomesSnoc | correlation/correlate.py:344-384 | one more cluster gains a result exactly when its analysis succeeds, and no other cluster's result changes |
| Correlate.HasResultConcat | correlation/correlate.py:344-384 | appending results: a cluster has a result in the whole list exactly when it has one in either part |
| Correlate.ProcessClusters | correlation/correlate.py:344-386 | the per-cluster loop with `continue` on skip and on error computes the outcomes |
| Correlate.LoadFiles | correlation/correlate.py:107-122 | the loading loop computes the loaded summaries |
| Correlate.CorrelationBuilder.constructor | correlation/correlate.py:59-63 | no summaries yet |
| Correlate.CorrelationBuilder.LoadSummaries | correlation/correlate.py:92-125 | false when the directory is missing or has no summary file; otherwise the loaded summaries are appended |
| Correlate.CorrelationBuilder.ClusterSummaries | correlation/correlate.py:173-212 | nothing for fewer than 3 summaries; otherwise the k-means labels, or the sequential fallback, are stored and returned; stored labels lie below `OptimalClusters(n, 20)` for k-means and below min(5, n) for the fallback |
| Correlate.CorrelationBuilder.GenerateAllCorrelations | correlation/correlate.py:328-386 | the outcomes over the clusters in first-appearance order |
| Documents.DocIdInjective | ragcontext/rag/rag.py:238 | different positions get different `docN` ids |
| Documents.TopScored | ragcontext/rag/rag.py:196-197 | exactly min(k, n) pairs, a sub-multiset of the input, best first; a pair left out scores no higher than every kept pair |
| Documents.TopScoredDistinct | ragcontext/rag/rag.py:196-197 | sorting and cutting keep chunk keys distinct |
| Documents.DocsOf | ragcontext/rag/rag.py:197 | the documents of the pairs, in order |
| Documents.ScoredBy | ragcontext/rag/rag.py:216-222 | each document paired with the score of its content |
| Documents.RankedByContent | ragcontext/rag/rag.py:216-224 | exactly min(k, n) pairs, best first, each an input document with its own score |
| Documents.RankedByContentCut | ragcontext/rag/rag.py:216-224 | the documents kept are a sub-multiset of the input; a document left out scores no higher than every kept one, and only when k were kept |
| Documents.ScoredByScores | ragcontext/rag/rag.py:216-222 | each document paired with its own score, in input order |
| Documents.LoneNewlinesToSpace | ragcontext/rag/rag.py:53 | the lookaround substitution keeps the length |
| Documents.UniqueLines | ragcontext/rag/rag.py:59-67 | no line twice |
| Documents.UniqueLinesMembers | ragcontext/rag/rag.py:59-67 | a line is kept exactly when it is the non-empty strip of some input line |
| Documents.UniqueLinesSingle | ragcontext/rag/rag.py:59-67 | one input line yields its strip, or nothing when blank |
| Documents.UniqueLinesStep | ragcontext/rag/rag.py:62-66 | a line is appended when non-empty and unseen |
| Documents.KeepFirstLines | ragcontext/rag/rag.py:59-67 | the `lines_seen` loop computes the unique lines |
| Documents.Keep | ragcontext/rag/rag.py:62-66 | one line through the loop is kept exactly when it is non-empty and unseen, and `lines_seen` stays the set of kept lines |
| Documents.CleanedIsOneLine | ragcontext/rag/rag.py:56-67 | since line 56 removes every newline, the result is the one stripped line |
| Documents.CleanedPdfTextTidy | ragcontext/rag/rag.py:38-69 | the result has no newline, no double white space, no surrounding white space |
| Documents.CleanPdfText | ragcontext/rag/rag.py:38-69 | `_clean_pdf_text`, identical in src/rag/rag.py:23-54; the result is tidy |
| Documents.ReplaceNoOccurrence | ragcontext/rag/rag.py:50 | replacing an absent pattern changes nothing |
| Documents.AbsentPatternChar | ragcontext/rag/rag.py:46-50 | a pattern with a character the text lacks does not occur |
| Documents.SqueezeNewlineRunsNone | ragcontext/rag/rag.py:47 | text without newlines is unchanged |
| Documents.CollapseNoSpace | ragcontext/rag/rag.py:56 | text without white space is unchanged |
| Documents.DehyphenatesLineBreak | ragcontext/rag/rag.py:38-69 | `word-\nword` cleans to the two words joined |
| Documents.SqueezeKeepsBreak | ragcontext/rag/rag.py:47 | a single line break is not squeezed |
| Documents.SqueezeSkipsWord | ragcontext/rag/rag.py:47 | squeezing passes over a newline-free prefix |
| RagContext.SetScoreEffect | ragcontext/rag/rag.py:190-193 | `setdefault(...)[r] = s` keeps each key once and filed under its document's key; it sets only that key's score for that retriever |
| RagContext.MergeAllEffect | ragcontext/rag/rag.py:189-193 | after a retriever's loop a key is present iff it was before or the retriever returned it; its score is the last one assigned; the other score is unchanged |
| RagContext.FaissScored | ragcontext/rag/rag.py:185 | one pair per result, with a score in (0, 1] |
| RagContext.Bm25Ranked | ragcontext/rag/rag.py:187 | document i of the BM25 list gets score 1 / (i + 1) |
| RagContext.MergedOfWellFormed | ragcontext/rag/rag.py:188-194 | the merged dict holds each chunk key once, under its own document |
| RagContext.EnsembleScores | ragcontext/rag/rag.py:185-194 | a key is merged iff a retriever returned it; each component is that retriever's last score, 0 when it missed the key |
| RagContext.Combined | ragcontext/rag/rag.py:195 | one pair per merged key |
| RagContext.CombinedKeys | ragcontext/rag/rag.py:195 | the combined pairs carry the keys in order, so no key twice |
| RagContext.CombinedAt | ragcontext/rag/rag.py:195 | each pair is an entry's document with its weighted score |
| RagContext.RankedEnsemble | ragcontext/rag/rag.py:195-197 | at most k documents, best first, no two sharing a (source, chunk_index) key |
| RagContext.RankedEnsembleCut | ragcontext/rag/rag.py:185-197 | exactly min(k, merged documents) results, a sub-multiset of the combined scores; a combined pair left out scores no higher than every kept one |
| RagContext.RankedEnsembleScores | ragcontext/rag/rag.py:185-197 | every returned document's score is w_faiss · its vector score + w_bm25 · its BM25 score, 0 for a retriever that missed it |
| RagContext.ManualEnsemble | ragcontext/rag/rag.py:183-197 | the two `setdefault` loops and the ranking return the ranked ensemble: at most k documents with distinct keys |
| RagContext.Reranked | ragcontext/rag/rag.py:214-224 | exactly min(top_k, n) input documents, by non-increasing similarity |
| RagContext.RerankedCut | ragcontext/rag/rag.py:214-224 | the kept documents are a sub-multiset of the input; a document left out is no more similar than every kept one, and only when top_k were kept |
| RagContext.RerankDocuments | ragcontext/rag/rag.py:214-224 | the scoring loop computes the reranking |
| RagContext.TitleMapAt | ragcontext/rag/rag.py:236-256 | `doc{i}` maps to document i's title: `title`, else `file_id`, else `Unknown` |
| RagContext.TitleMapOnlyDocIds | ragcontext/rag/rag.py:236-256 | the map has no key other than `doc0` … `doc{n-1}` |
| RagContext.ContextPrefix | ragcontext/rag/rag.py:253 | the context of the first j documents begins the whole context |
| RagContext.ContextHoldsBlock | ragcontext/rag/rag.py:253 | block i, `[id: doc{i} | title: …]`, follows the blocks before it |
| RagContext.GenerateContext | ragcontext/rag/rag.py:226-261 | the loop builds the context and the id-to-title map |
| RagContext.SourceOfKnownId | ragcontext/rag/rag.py:339-344 | an id naming document i, up to surrounding white space, yields its title |
| RagContext.SourceOfUnknownId | ragcontext/rag/rag.py:339-348 | any other id yields `Unknown document (<id>)` |
| RagContext.MatchSources | ragcontext/rag/rag.py:337-348 | one title per returned id, in order |
| RagContext.GenerateContextBasedAnswer | ragcontext/rag/rag.py:263-355 | the answer and sources are read from the stripped reply; one source per returned id |
| RagContext.NonJsonReplyFallback | ragcontext/rag/rag.py:314-324 | a non-JSON reply becomes the answer, with no sources |
| RagContext.StripTitles | ragcontext/rag/rag.py:162 | one row per row; every text title is stripped |
| RagContext.TiersWiden | ragcontext/rag/rag.py:363-375 | an exact match is a case-insensitive one, which is a containing one |
| RagContext.FirstMatch | ragcontext/rag/rag.py:379 | the first matching row; `None` exactly when no row matches |
| RagContext.PublicationMetadata | ragcontext/rag/rag.py:357-400 | `None` only when no row contains the title; otherwise a dict with exactly the eight fields |
| RagContext.PublicationMetadataFound | ragcontext/rag/rag.py:363-379 | a row containing the title always yields metadata; when a row matches exactly, the first exact match at or before it is used |
| RagContext.PublicationMetadataTier | ragcontext/rag/rag.py:362-380 | when every earlier tier finds nothing and a row matches at this tier, the dict is `MetadataOf` the first row matching at this tier: exact beats case-insensitive beats containing |
| RagContext.PublicationMetadataSource | ragcontext/rag/rag.py:362-380 | conversely, a dict found is `MetadataOf` the first row of the first tier that matches |
| RagContext.MetadataOf | ragcontext/rag/rag.py:382-391 | exactly the eight keys |
| RagContext.MetadataField | ragcontext/rag/rag.py:382-396 | each field holds its column's cell, and reads `'N/A'` exactly when the column is missing, NaN, or holds the text `'N/A'` |
| RagSrc.WithScore | src/rag/rag.py:213-219 | the copy keeps content and every other metadata entry and adds `rerank_score` |
| RagSrc.Rescored | src/rag/rag.py:211-220 | copy i is document i with its score recorded as `rerank_score` |
| RagSrc.Reranked | src/rag/rag.py:184-222 | exactly min(top_k, n) documents, each an input document rescored with its own score, in non-increasing score order |
| RagSrc.RerankedFacts | src/rag/rag.py:184-222 | the results are rescored copies of a sub-multiset of the input; a document left out scores no higher than every kept one, and only when top_k were kept |
| RagSrc.RescoredPicked | src/rag/rag.py:211-220 | copy i is ranked document i with its own score, in non-increasing score order |
| RagSrc.RescoredDropped | src/rag/rag.py:211-220 | a document not among the copies scores no higher than every copy, and only when top_k were ranked |
| RagSrc.RerankScoreRecorded | src/rag/rag.py:217 | the recorded `rerank_score` is the document's score |
| RagSrc.RerankDocuments | src/rag/rag.py:184-222 | the copying loop computes the reranking |
| RagSrc.SourceContext | src/rag/rag.py:224-232 | fails (the `KeyError`) exactly when some document lacks `source` |
| RagSrc.SourceContextHoldsBlock | src/rag/rag.py:230 | block i, `[id: doc{i} | source: …]`, follows the blocks before it |
| RagSrc.GenerateContext | src/rag/rag.py:224-232 | the loop builds the context, or fails like the source |
| RagSrc.ChunkDocs | src/rag/rag.py:92-102 | one document per chunk |
| RagSrc.ChunkDocsMetadata | src/rag/rag.py:92-102 | chunk i carries its text, the file's title, `chunk_index` i, `total_chunks` and `total_pages` |
| RagSrc.ChunkKeysDistinct | src/rag/rag.py:92-102 | the chunks of one file have distinct (source, chunk_index) keys |
| RagSrc.SkipsNonPdf | src/rag/rag.py:64-65 | a file not ending in `.pdf`, in any case, contributes nothing |
| RagSrc.LoadedDocsIndexed | src/rag/rag.py:61-104 | every loaded document has `chunk_index` < `total_chunks` and is titled after a listed PDF |
| RagSrc.FileDocsIndexed | src/rag/rag.py:91-103 | each document of one PDF carries an index below the file's chunk count and the file's title |
| RagSrc.ReadFullText | src/rag/rag.py:77-78 | the page loop computes the full text |
| RagSrc.LoadAndCleanPdfs | src/rag/rag.py:56-104 | the file loop computes the loaded documents |
| Sorting.SortDesc | similaritycontext/similarity/knn.py:207 | the descending sort keeps the elements, as a multiset, and orders them by non-increasing key |
| Sorting.SortDescStable | similaritycontext/similarity/knn.py:207 | the sort is stable: the elements with any one key keep their input order |
| Sorting.SortDescSameElements | similaritycontext/similarity/knn.py:207 | the sorted list has exactly the input's elements |
| Sorting.Top | ragcontext/rag/rag.py:196-197 | `sorted(...)[:k]`: min(k, n) elements, a sub-multiset, best first; an element left out ranks no higher than every kept one |
| Sorting.TopStable | ragcontext/rag/rag.py:196-197 | among elements with equal keys the kept ones are the first in input order |
| Sorting.Take | similaritycontext/similarity/knn.py:357 | `s[:k]`: the prefix of length min(k, n) |
| Sorting.SortDescInjective | ragcontext/rag/rag.py:196 | sorting keeps distinct keys distinct |
| Tally.FirstAppearance | similaritycontext/similarity/knn.py:201-203 | a dict's keys: each value once, exactly the values of the list |
| Tally.TotalOfFirstAppearance | similaritycontext/similarity/knn.py:201-203 | the counts over the keys add up to the list's length |
| Tally.CountOccurrences | correlation/correlate.py:195-198 | the counting loop yields the keys in first-appearance order and each one's multiplicity |
| Tally.Record | correlation/correlate.py:196-198 | one element through the counting loop: its count goes up by one and its key is recorded on first sight, keeping the counts equal to the multiplicities |

## Left out

- Model calls are parameters: the sentence encoder, `NearestNeighbors`, `KMeans`, `PCA`, `cosine_similarity`, the cross-encoder, the embedding similarity, Ollama and MLX generation, `json.loads`, PDF reading and the text splitters. Their documented result shapes are preconditions, for example one label per row.
- Floating-point scores, distances and ratios are reals. Rounding and NaN are not modelled. The text form of a float (`repr`) enters as a function.
- Summarize.EstimateTokens: computes floor(13 · words / 10) exactly; `int(words * 1.3)` in binary floating point may round a product that should be an integer down by one, which is not modelled.
- Character classes `\s`, `\w` and `\d`, and `lower`/`upper`/`title`, are ASCII only: white space is tab to carriage return, `\x1c` to `\x1f` and space, as `str.isspace` has it for ASCII. Unicode white space, letters, digits and case mapping are not modelled.
- Regular expressions are modelled one by one as scanners for the patterns used. `str.contains(title, case=False)` in the metadata lookup treats the title as a regular expression; the model treats it as a literal substring.
- Titles.IsBadCandidate: the bad patterns are matched by a hand-written matcher for the eleven expressions; `–` inside the character classes is treated like `-`.
- `find_semantic_gaps` (similaritycontext/similarity/knn.py:238-308) is a density grid over PCA coordinates in floating point. It is not modelled.
- `load_mock`, `_as_public` (a field-for-field copy), the FastAPI apps, the settings files, `main_for_test.py`, the singleton `__new__` and the Ollama polling loop are plumbing and are not modelled.
- Similarity.ArticleSimilarityEngine.UpsertMany: an item without `id` or `abstract` raises `KeyError` in the middle of the loop, after the earlier items are stored and before `_ids` and `_dirty` are updated, so the engine is left inconsistent; the item type always has both fields, so this path is not modelled.
- Similarity.ArticleSimilarityEngine.constructor: requires `n_neighbors_default` ≥ 1, the default being 3; with 0, `k or 0` would ask the index for no neighbours.
- Similarity.ArticleSimilarityEngine.Projection: `explained_variance` is not modelled; which inputs PCA rejects, and the coordinates it computes, come from the projector and are not constrained beyond one row of `n_components` coordinates per embedding.
- Similarity.ArticleSimilarityEngine.SimilarityMatrix: the matrix entries are the cosine function's values and are not constrained beyond the shape.
- The `embedding` field of a summary, the TF-IDF `SimpleEmbedder` and `create_embeddings` are not modelled; k-means labels enter directly.
- Correlate.CorrelationBuilder.ClusterSummaries: the printed cluster distribution (sorted by cluster id) is output only and is not modelled.
- The prompt texts sent to the language models, `run_complete_pipeline`, the summarisation main loop beyond its chunking threshold, `save_correlation_document` and the JSON and text files it writes, timing and printing are not modelled. A failing analysis or save is the `fails` parameter.
- Titles.GroupAndScore: the score `fontsize * 3 + y_top / 100` is computed on reals; the greedy pairing's filtering is applied after the pairing loop, which yields the same list.
- Summarize.CleanPages: header and footer lines are counted over the pages' stripped lines as one list, which gives the same counts as the nested loops.
- The `prompt` orchestration of ragcontext/rag/rag.py, HyDE prompt generation and `_retrieve_documents` chain the modelled steps around model calls and are not modelled separately. The ragcontext PDF loader (`_load_and_clean_pdfs`) is modelled in its src/rag/rag.py form only.
- RagContext.GenerateContextBasedAnswer: a reply that parses to JSON other than an object, a non-string answer, or non-string ids (`str(source_id)`) are not modelled. The reply is reduced to an optional answer string and an optional list of id strings.
- RagContext.PublicationMetadata: a table read from a missing CSV (an empty frame without a `Title` column, whose `str.strip` raises) is not modelled. A title that is not a string matches no tier.
- RagSrc.LoadAndCleanPdfs: a PDF whose metadata `title` is the empty string keeps that empty title, as `dict.get` does. The order of the directory listing is whatever the parameter gives.

## Findings

| source | as written | input that shows it | evidently intended | confidence | as-written member | corrected member |
|---|---|---|---|---|---|---|
| similaritycontext/similarity/knn.py:205 | `labels` indexes the requested ids `sel_ids` by position, while `lab` has one label per id that was found (line 191) | `clusters(ids=["zzz", "a"])` with only `"a"` stored: `lab` has one label, `sel_ids` two entries, so `lab[1]` raises `IndexError`; the same holds with `["a", "zzz"]`, since any unknown id, wherever it stands, leaves `lab` shorter than `sel_ids` | pair each label with the id it was computed for, `self._ids[sel_idx[i]]` | not executed | Similarity.UnknownIdRaises | Similarity.LabelRowsAgree |
