# Medical document pipeline — a Dafny model

This project models the text pipeline of `prognosis_validation`. It turns
scanned medical PDFs into sections, packs the sections into chunks, stores the
chunks in a vector store without duplicates, and shapes the results of
similarity queries into a context for a language model. The model covers:

- **Section extraction from OCR tokens** (module `ParallelProcessor`, file
  `parallel_processor.dfy`). This is the first-match, case-insensitive marker
  lookup `identify_section_type` and the bounding-box arithmetic
  `get_text_bbox`. It also covers the left-to-right token loop
  `extract_sections`: blank tokens are skipped, tokens before the first header
  are dropped, and a header with no body emits nothing. Finally, the
  `process_pdf` merge collects per-page results into a dictionary in completion
  order and concatenates them in ascending page order.
- **The sequential processor** (module `PdfProcessor`, file
  `pdf_processor.dfy`). Its three helper methods are line for line the
  parallel processor's functions, so they are defined by them over the
  processor's own marker table. Its `process_pdf` numbers pages from 1 and
  concatenates them in document order. A lemma shows that when every page
  task succeeds, the parallel processor returns the same sections whatever
  order the tasks complete in.
- **Chunking** (module `Chunker`, file `chunker.dfy`). `chunk_section`
  greedily packs the stripped, non-empty segments into chunks of at most
  `max_chunk_size` characters. A single segment longer than the limit gets a
  chunk of its own. `_create_chunk` builds each chunk's metadata.
  `_restore_patterns` turns every `__PROTECT_i__` placeholder into a space.
- **Query shaping** (module `QueryRag`, file `query_rag.dfy`). This covers
  `_enhance_medical_query`, the case-insensitive section filter and the
  projection of `search`, and `format_context`. That last function groups hits
  by section type in first-seen order, numbers the entries of each group from
  1, and puts an upper-cased header before each group.
- **The document store** (module `BuildRag`, file `build_rag.dfy`).
  `add_documents` walks the chunks in batches of `batch_size`. It gives each
  chunk an id that is the digest of its formatted content, section type and
  page. It skips every id already stored or already seen in the same call,
  makes one `collection.add` call per batch with something new, and counts the
  additions. `get_similar_chunks` returns nothing for an empty collection,
  clamps `top_k` to the collection size, and filters hits by similarity.
- Support modules: `Wrappers` (`Option`, `Result`), `Text` (Python's `strip`,
  `lower`, `upper`, `in`, `join`, `replace` and `str(int)` on strings) and
  `Metadata` (the values of metadata dictionaries).

The loops of the source are `method`s with loop invariants, each proved
against a recursive function of its inputs. The functions' properties are
proved as lemmas. The store's collection is a `class` whose `Add` is the only
way its state changes. A section's bounding box is taken from the token at
which the section is closed: the next header, or the last token of the page
(even when that token is blank). The model keeps this behaviour as the source
has it.

## Model

| member | source | states |
|---|---|---|
| Text.StripRemovesOnlyBlankEnds | prognosis_validation/chunking/chunker.py:63 | `strip()` keeps one contiguous slice of the string, and only whitespace lies before and after it |
| Text.StripEmptyIffBlank | prognosis_validation/chunking/chunker.py:60-61 | `s.strip()` is empty exactly when every character of `s` is whitespace, which is the test `not s.strip()` makes |
| Text.StripIdempotent | prognosis_validation/chunking/chunker.py:63 | stripping a stripped segment changes nothing |
| Text.StripOfStripped | prognosis_validation/rag/build_rag.py:107-111 | a string whose first and last characters are not whitespace is its own `strip()` |
| Text.StripBounds | prognosis_validation/chunking/chunker.py:63 | gives the slice bounds `strip()` keeps; the kept slice, if not empty, starts and ends with a non-whitespace character |
| Text.Lower | prognosis_validation/rag/query_rag.py:106 | `lower()` keeps the length and lower-cases each character |
| Text.Upper | prognosis_validation/rag/query_rag.py:128 | `upper()` keeps the length and upper-cases each character |
| Text.LowerIdempotent | prognosis_validation/chunking/parallel_processor.py:84-86 | lower-casing twice is lower-casing once |
| Text.ContainsIffOccurs | prognosis_validation/chunking/parallel_processor.py:86 | `p in s` holds exactly when `p` occurs in `s` at some index |
| Text.LowerKeepsOccurrence | prognosis_validation/rag/query_rag.py:106 | an occurrence of a lower-case term survives lower-casing of the text around it |
| Text.JoinLength | prognosis_validation/chunking/chunker.py:73 | `' '.join(parts)` is as long as the parts plus one separator between each two |
| Text.JoinStartsWithFirst | prognosis_validation/chunking/chunker.py:73 | the joined string begins with the first part |
| Text.ReplaceRemoves | prognosis_validation/chunking/chunker.py:56 | after replacing a non-empty, space-free placeholder by a space, the placeholder no longer occurs |
| Text.ReplaceKeepsAbsence | prognosis_validation/chunking/chunker.py:55-56 | replacing one placeholder by a space cannot create another space-free placeholder |
| Text.ReplaceAbsent | prognosis_validation/chunking/chunker.py:56 | replacing a string that does not occur leaves the text unchanged |
| Text.NatToStringDigits | prognosis_validation/rag/build_rag.py:110 | `str(n)` is a non-empty run of decimal digits |
| Chunker.Placeholder | prognosis_validation/chunking/chunker.py:35 | the placeholder `__PROTECT_i__` is non-empty and contains no space |
| Chunker.MedicalDocumentChunker.CreateChunk | prognosis_validation/chunking/chunker.py:95-116 | the chunk keeps its content, section and page; its metadata has exactly the six keys, with `chunk_length == len(content)` and the section and page copied |
| Chunker.MedicalDocumentChunker.ChunksOf | prognosis_validation/chunking/chunker.py:72-91 | one chunk is created per closed group of segments |
| Chunker.MedicalDocumentChunker.ChunkSection | prognosis_validation/chunking/chunker.py:59-93 | the packing loop returns the greedy packing of the segments, one chunk per group; blank content gives no chunks |
| Chunker.MedicalDocumentChunker.RestorePatterns | prognosis_validation/chunking/chunker.py:53-57 | each placeholder, in pattern order, becomes a space, and none of the four placeholders is left |
| Chunker.Segments | prognosis_validation/chunking/chunker.py:63 | the segments are at most as many as the pieces, each non-empty and already stripped |
| Chunker.SegmentsOfPieces | prognosis_validation/chunking/chunker.py:63 | every segment is some stripped piece, and every piece that is not blank appears stripped among the segments |
| Chunker.SegmentsIdempotent | prognosis_validation/chunking/chunker.py:63 | segmenting the segments again changes nothing |
| Chunker.SegmentsAppend | prognosis_validation/chunking/chunker.py:63 | segmenting two piece lists one after the other is segmenting their concatenation, so order is kept |
| Chunker.PackFromFlatten | prognosis_validation/chunking/chunker.py:69-91 | the closed groups concatenate back to the group being built followed by the remaining segments |
| Chunker.PackFlatten | prognosis_validation/chunking/chunker.py:69-91 | every segment lands in exactly one chunk: the groups concatenate back to the segments, in order |
| Chunker.PackFromGroupsNonEmpty | prognosis_validation/chunking/chunker.py:72-91 | no closed group is empty, so no chunk is built from nothing |
| Chunker.PackWithinLimit | prognosis_validation/chunking/chunker.py:72-83 | a group of two or more segments has total length at most `max_chunk_size`; only a single segment may exceed it |
| Chunker.PackFromWithinLimit | prognosis_validation/chunking/chunker.py:72-83 | the same bound, from any point of the loop at which the group being built respects it |
| Chunker.PackFromFirst | prognosis_validation/chunking/chunker.py:79-83 | the group being built is the start of the first group closed |
| Chunker.PackGreedy | prognosis_validation/chunking/chunker.py:72 | a group is closed only when the next segment would take it over the limit |
| Chunker.PackFromGreedy | prognosis_validation/chunking/chunker.py:72 | the same, from any point of the loop |
| Chunker.PackNonEmpty | prognosis_validation/chunking/chunker.py:85-91 | there is some chunk exactly when there is some segment: the last group is always flushed |
| Chunker.ChunksOfAppend | prognosis_validation/chunking/chunker.py:74-78 | closing one more group adds one chunk, created at the next clock reading |
| Chunker.ChunksOfAt | prognosis_validation/chunking/chunker.py:73-78 | the k-th chunk is the k-th group joined by single spaces, created at the k-th clock reading |
| Chunker.ChunksWellFormed | prognosis_validation/chunking/chunker.py:72-116 | every chunk has non-empty content, the section's title and page, and metadata describing those and its length |
| Chunker.ChunksArePackedSegments | prognosis_validation/chunking/chunker.py:59-93 | for non-blank content, the chunks are the groups of the greedy packing in order, each joined by spaces, none empty, multi-segment groups within the limit, none at all exactly when no segment survives |
| Chunker.ChunkContentLength | prognosis_validation/chunking/chunker.py:72-73 | a multi-segment chunk's content is at most the limit plus its separating spaces |
| Chunker.RestoredHasNoPlaceholder | prognosis_validation/chunking/chunker.py:55-56 | after the first `n` replacements, none of the first `n` placeholders is left |
| Chunker.RestoredOfClean | prognosis_validation/chunking/chunker.py:55-56 | text holding no placeholder is returned unchanged |
| Chunker.RestoreIdempotent | prognosis_validation/chunking/chunker.py:53-57 | restoring twice is restoring once |
| ParallelProcessor.IdentifySectionTypeFirstMatch | prognosis_validation/chunking/parallel_processor.py:82-88 | the result is None exactly when no type has a marker in the lower-cased, stripped text; otherwise it is the first such type in table order |
| ParallelProcessor.GetTextBbox | prognosis_validation/chunking/parallel_processor.py:90-97 | the box is `(left, top, left + width, top + height)` of the token at the index |
| ParallelProcessor.Classify | prognosis_validation/chunking/parallel_processor.py:49-55 | a token is skipped exactly when it is blank; it is a header exactly when it is not blank and its identified type is a non-empty string |
| ParallelProcessor.ClassifyToken | prognosis_validation/chunking/parallel_processor.py:49-55 | the loop's per-token decision is the classification above |
| ParallelProcessor.HeaderTypeInTable | prognosis_validation/chunking/parallel_processor.py:53-66 | a header's section type is a key of the marker table |
| ParallelProcessor.ExtractSections | prognosis_validation/chunking/parallel_processor.py:42-80 | the token loop returns the page's sections: one per header with a body, holding the body tokens up to the next header joined by spaces, boxed at the next header or at the last token |
| ParallelProcessor.BodyTokensNotBlank | prognosis_validation/chunking/parallel_processor.py:49-69 | a section's body holds neither blank tokens nor header tokens |
| ParallelProcessor.JoinOfBodyIsNotBlank | prognosis_validation/chunking/parallel_processor.py:60 | a section's content is never blank |
| ParallelProcessor.SectionsFromWellFormed | prognosis_validation/chunking/parallel_processor.py:55-78 | every section from a header on has a title from the table, the page's number and non-blank content |
| ParallelProcessor.PageSectionsWellFormed | prognosis_validation/chunking/parallel_processor.py:42-80 | every section of a page has a title from the table, the page's number and non-blank content |
| ParallelProcessor.ConsecutiveHeaders | prognosis_validation/chunking/parallel_processor.py:55-67 | a header followed directly by another header emits no section of its own |
| ParallelProcessor.BodyTokensFromRange | prognosis_validation/chunking/parallel_processor.py:66-69 | each token of a section's body is a body token between its header and the next, at its own position |
| ParallelProcessor.PrefixBeforeFirstHeaderIgnored | prognosis_validation/chunking/parallel_processor.py:48-69 | the tokens before the first header do not affect the result: replacing them by any non-header tokens gives the same sections |
| ParallelProcessor.NoHeaderNoSections | prognosis_validation/chunking/parallel_processor.py:72-80 | a page without a header token has no sections |
| ParallelProcessor.Results | prognosis_validation/chunking/parallel_processor.py:144-148 | each completed task yields its page number and, unless it raised, the sections of its page |
| ParallelProcessor.CollectStep | prognosis_validation/chunking/parallel_processor.py:145-151 | collecting one more result writes its page's sections into the dictionary, or skips a failed task |
| ParallelProcessor.CollectedKeysAreKeys | prognosis_validation/chunking/parallel_processor.py:143-151 | the key list holds exactly the dictionary's keys, each once |
| ParallelProcessor.Insert | prognosis_validation/chunking/parallel_processor.py:154 | insertion adds one element and keeps the others |
| ParallelProcessor.Sorted | prognosis_validation/chunking/parallel_processor.py:154 | `sorted` keeps the length and the elements |
| ParallelProcessor.SortedAscending | prognosis_validation/chunking/parallel_processor.py:154 | sorting distinct page numbers gives them in strictly ascending order |
| ParallelProcessor.ProcessPdf | prognosis_validation/chunking/parallel_processor.py:143-158 | collecting the completed tasks and merging gives the merged result of the tasks' outcomes |
| ParallelProcessor.CombineInPageOrder | prognosis_validation/chunking/parallel_processor.py:153-155 | the final loop concatenates the sections of the pages in sorted key order |
| ParallelProcessor.AscendingIsPagesInRange | prognosis_validation/chunking/parallel_processor.py:153-155 | concatenating in the ascending key list's order is concatenating over the page range in ascending page number |
| ParallelProcessor.CollectedPages | prognosis_validation/chunking/parallel_processor.py:144-151 | a page is in the dictionary exactly when some task succeeded on it, and it maps to that task's sections |
| ParallelProcessor.PagesInRangeOfCollected | prognosis_validation/chunking/parallel_processor.py:143-155 | over any page range, the dictionary in page order gives the successful tasks' sections in page order |
| ParallelProcessor.MergedInPageOrder | prognosis_validation/chunking/parallel_processor.py:143-158 | the merged result is the successful pages' sections concatenated in ascending page number; a failed page contributes nothing |
| PdfProcessor.DocumentProcessor.IdentifyType | prognosis_validation/ocr/pdf_processor.py:114-120 | None exactly when no type of the processor's table has a marker in the normalised text; otherwise the first such type |
| PdfProcessor.DocumentProcessor.TextBbox | prognosis_validation/ocr/pdf_processor.py:122-129 | right is left plus width, bottom is top plus height |
| PdfProcessor.DocumentProcessor.ExtractPageSections | prognosis_validation/ocr/pdf_processor.py:73-112 | the page's sections, computed by the same token loop, each well formed for the page and the table |
| PdfProcessor.DocumentProcessor.ProcessPdf | prognosis_validation/ocr/pdf_processor.py:41-71 | the sections of page 1, then page 2 and so on, each page's in extraction order |
| PdfProcessor.DocumentPages | prognosis_validation/ocr/pdf_processor.py:50-62 | one section list per page image |
| PdfProcessor.DocumentPagesAt | prognosis_validation/ocr/pdf_processor.py:50-62 | the k-th list holds the sections of the k-th image numbered `k + 1` |
| PdfProcessor.DocumentSectionsWellFormed | prognosis_validation/ocr/pdf_processor.py:50-63 | every section of the document is well formed and carries the number of a page of the document |
| PdfProcessor.ParallelMatchesSequential | prognosis_validation/ocr/pdf_processor.py:41-71 | when the parallel processor's tasks run each page of the document once, on that page's OCR output, and none raises, its merged result equals the sequential `process_pdf` result, whatever the completion order |
| QueryRag.EnhanceMedicalQuery | prognosis_validation/rag/query_rag.py:98-109 | a query mentioning one of the eight terms is returned unchanged; any other is wrapped in the fixed prefix and suffix |
| QueryRag.WrappedMentionsSymptoms | prognosis_validation/rag/query_rag.py:106-107 | the wrapping mentions a medical term whatever it wraps |
| QueryRag.EnhancedMentionsTerm | prognosis_validation/rag/query_rag.py:98-109 | every enhanced query mentions a medical term |
| QueryRag.EnhanceIdempotent | prognosis_validation/rag/query_rag.py:106-107 | enhancing an enhanced query changes nothing |
| QueryRag.Kept | prognosis_validation/rag/query_rag.py:79-82 | the filter keeps at most the hits it is given |
| QueryRag.FilterBySection | prognosis_validation/rag/query_rag.py:78-82 | with no filter (None or empty) every hit is kept; with one, the comprehension succeeds exactly when every hit has a string section type |
| QueryRag.KeptExactly | prognosis_validation/rag/query_rag.py:79-82 | a hit is kept exactly when it is a hit whose section type equals the filter up to case |
| QueryRag.KeptAppend | prognosis_validation/rag/query_rag.py:79-82 | the filter of a concatenation is the concatenation of the filters, so the comprehension keeps order and repetitions |
| QueryRag.KeptAll | prognosis_validation/rag/query_rag.py:79-82 | when every hit is of the wanted section, all are kept in order |
| QueryRag.Processed | prognosis_validation/rag/query_rag.py:86-90 | the projection keeps content and metadata and gives a missing similarity the value 0.0 |
| QueryRag.ProcessResults | prognosis_validation/rag/query_rag.py:84-90 | one projected hit per hit, in order |
| QueryRag.Search | prognosis_validation/rag/query_rag.py:56-96 | the enhanced query goes to the store; the search fails exactly when the filter fails, and otherwise returns the filtered hits projected in order |
| QueryRag.Entries | prognosis_validation/rag/query_rag.py:129-133 | one entry per hit of a group |
| QueryRag.FormatContext | prognosis_validation/rag/query_rag.py:111-135 | the grouping and rendering loops give the formatted context; no results give exactly "No relevant medical documents found." |
| QueryRag.GroupBySection | prognosis_validation/rag/query_rag.py:119-124 | the dictionary's keys, in insertion order, are the section keys in first-seen order ('general' when missing), and each maps to its hits in input order |
| QueryRag.RenderGroup | prognosis_validation/rag/query_rag.py:127-133 | a group renders as its upper-cased header and then its numbered entries |
| QueryRag.GroupStep | prognosis_validation/rag/query_rag.py:120-124 | one more hit adds its key at the end if unseen and appends the hit to its group only |
| QueryRag.FirstSeenKeys | prognosis_validation/rag/query_rag.py:119-124 | the group keys are pairwise distinct and are exactly the keys some hit has |
| QueryRag.FirstSeenInOrder | prognosis_validation/rag/query_rag.py:119-127 | groups come in order of first appearance: an earlier group's first hit comes before every hit of a later group |
| QueryRag.GroupsPartition | prognosis_validation/rag/query_rag.py:119-127 | every hit lands in exactly one group: the groups together are the hits, rearranged |
| QueryRag.EntriesAt | prognosis_validation/rag/query_rag.py:129-133 | the i-th entry of a group is numbered `i + 1` and renders the i-th hit |
| QueryRag.SectionPartsCount | prognosis_validation/rag/query_rag.py:127-133 | the rendered parts are one header per group plus one entry per grouped hit |
| QueryRag.PartsPerHit | prognosis_validation/rag/query_rag.py:127-135 | the context has one header per section and exactly one entry per result |
| BuildRag.DocIdOf | prognosis_validation/rag/build_rag.py:72-77 | a chunk's id is the digest of its formatted content followed by its section type and page number; two chunks that agree on content, section type and page number get the same id, whatever their `chunk_id` and metadata |
| BuildRag.FormattedContentIsStripped | prognosis_validation/rag/build_rag.py:107-111 | the stored text is the stripped f-string: the content line, then the indented section and page lines |
| BuildRag.DocumentMetadataSpread | prognosis_validation/rag/build_rag.py:121-127 | the stored metadata has the four base keys and the chunk's own keys; the chunk's own values win, and the base values hold where not overridden |
| BuildRag.Admitted | prognosis_validation/rag/build_rag.py:105-118 | the chunks admitted among the first `hi` are indices below `hi` |
| BuildRag.AdmittedIncreasing | prognosis_validation/rag/build_rag.py:97-105 | chunks are added in the order they come in |
| BuildRag.AdmitStep | prognosis_validation/rag/build_rag.py:116-129 | a chunk is admitted exactly when its id is not among the existing ids and the ids added so far |
| BuildRag.AdmittedIds | prognosis_validation/rag/build_rag.py:116-129 | an id is added exactly when it is the id of one of the chunks and not an existing id |
| BuildRag.AdmittedExactly | prognosis_validation/rag/build_rag.py:116-118 | a chunk is added exactly when its id is neither stored nor the id of an earlier chunk |
| BuildRag.AdmittedIdsFresh | prognosis_validation/rag/build_rag.py:116-129 | the ids passed to the store are pairwise distinct and none was stored before |
| BuildRag.AdmittedCount | prognosis_validation/rag/build_rag.py:129-139 | the id set afterwards is the old set plus the chunks' ids, and the number added is the number of new distinct ids |
| BuildRag.RepeatedChunkAddsNothing | prognosis_validation/rag/build_rag.py:113-118 | a chunk with the content, section and page of an earlier one adds nothing, whatever its chunk id and metadata |
| BuildRag.BatchStarts | prognosis_validation/rag/build_rag.py:91 | `range(0, n, size)`: the b-th start is `b * size` and below `n`; none exist for a negative step, and for a positive one none exist exactly when `n == 0` |
| BuildRag.BatchNext | prognosis_validation/rag/build_rag.py:98 | a batch ends where the next one starts, or at the end of the chunks |
| BuildRag.ChunkInSomeBatch | prognosis_validation/rag/build_rag.py:91-98 | every chunk lies in some batch |
| BuildRag.ChunkInOneBatch | prognosis_validation/rag/build_rag.py:91-98 | no chunk lies in two batches |
| BuildRag.BatchStateLists | prognosis_validation/rag/build_rag.py:105-129 | the lists a batch builds are the ids, formatted texts and metadata of the chunks it takes, in order |
| BuildRag.BatchStateAdmits | prognosis_validation/rag/build_rag.py:105-129 | walking a batch takes exactly the next admitted chunks, and leaves the id set as the existing ids plus all ids added |
| BuildRag.AdmitSkipped | prognosis_validation/rag/build_rag.py:116-118 | a chunk whose id was already seen is skipped and the id set stays |
| BuildRag.AdmitTaken | prognosis_validation/rag/build_rag.py:120-129 | a chunk with a new id is admitted and its id joins the id set |
| BuildRag.CommitBatch | prognosis_validation/rag/build_rag.py:131-139 | after a batch, the store still holds exactly the chunks admitted so far: a batch with something new is stored by one `add` call of its lists and adds their count, and a batch with nothing new changes nothing |
| BuildRag.AboveThreshold | prognosis_validation/rag/build_rag.py:183-195 | the filter keeps at most as many hits as it examines |
| BuildRag.AboveThresholdExactly | prognosis_validation/rag/build_rag.py:184-195 | a hit is kept exactly when `1 - distance / 2` reaches the threshold, with its document, metadata and that similarity |
| BuildRag.Collection.Count | prognosis_validation/rag/build_rag.py:94 | the count is the number of stored documents |
| BuildRag.Collection.Add | prognosis_validation/rag/build_rag.py:134-138 | the ids, documents and metadata are appended, and the call is recorded |
| BuildRag.DocumentStore.GenerateDocumentId | prognosis_validation/rag/build_rag.py:72-77 | called with a chunk's formatted content, as `add_documents` calls it, the id is the chunk's id, and it is also the id of every chunk with the same content, section type and page number |
| BuildRag.DocumentStore.BatchToAdd | prognosis_validation/rag/build_rag.py:98-129 | the inner loop builds the lists and the id set of the batch specification |
| BuildRag.DocumentStore.AddDocuments | prognosis_validation/rag/build_rag.py:79-145 | a zero batch size fails before any change; otherwise the admitted chunks' ids, texts and metadata are appended in order, the store calls add exactly those ids, each call is non-empty, there is at most one call per batch, and the count `add_documents` logs (the model's result) is the number admitted |
| BuildRag.DocumentStore.GetSimilarChunks | prognosis_validation/rag/build_rag.py:164-198 | an empty collection gives no hits; otherwise `min(top_k, count)` neighbours are requested and those reaching the threshold are returned in order |

## Left out

- The regular-expression split by `combined_break_pattern` (chunking/chunker.py:25-31) is not modelled. Its result, the list of pieces before stripping, is a parameter of `ChunkSection`.
- `_protect_patterns` and its regex substitutions are not modelled, because nothing in the chunker calls them. The `lru_cache` decorators do not change results and are left out.
- Chunker.MedicalDocumentChunker.CreateChunk: the two regex searches behind `contains_measurements` and `contains_dates` are function-typed fields of the chunker. The clock behind `chunk_id` and `created_at` is a parameter.
- OCR and PDF rasterisation (pytesseract, pdf2image, numpy) are not modelled. A page's OCR output is given as the parallel lists `text`, `left`, `top`, `width` and `height`.
- The process pool and `as_completed` in the parallel `process_pdf` are not modelled as concurrency. The completion order of the page tasks, and the outcome of each, is a parameter.
- Logging, the output directory and the marker table's construction inside `__init__` are left out, except that the table is a constant.
- The embedding model, the device selection and ChromaDB are not modelled. The collection is its id, document and metadata lists, and the nearest-neighbour query is a function parameter.
- BuildRag.DocIdOf: md5 is an uninterpreted `hash` function, so the model does not capture collisions between distinct id strings.
- BuildRag.DocumentStore.GetSimilarChunks: similarities are exact `real`s rather than floats, and the query's exceptions and their re-raise are not modelled.
- BuildRag.DocumentStore.AddDocuments: the source returns None and only logs `added_count` (build_rag.py:145); the model returns that count. An exception from `collection.add` is not modelled. The `timestamp` of each stored chunk is a clock parameter.
- QueryRag.FormatContext: the `.2%` rendering of a similarity is a parameter.
- QueryRag.Search: the store lookup is a function parameter taking the enhanced query, `top_k` and `min_similarity`. The source also passes a `query_embedding` argument that `get_similar_chunks` does not declare, and the engine constructs `DocumentStore` with two arguments it does not accept (query_rag.py:43-49, 71-76). The model takes the store as intended and does not reconcile these signatures.
- The engine's singleton set-up, `initialize` and the OpenAI call in `get_answer` are not modelled.
- Text.Lower: only ASCII letters change case. Python's `lower()` also maps other Unicode letters.
- Text.Upper: only ASCII letters change case. Python's `upper()` also maps other Unicode letters and can lengthen a string ('ß' becomes 'SS'), which the length-preserving contract cannot express; this affects the section headers built by `format_context` (query_rag.py:128).
- Other files of the repository (server, database managers, atlas storage, debugging tools) are not part of this model.
- A `metadata` value that is present but None is not modelled. The source raises TypeError on it when spreading a chunk's metadata (build_rag.py:125) and when reading a hit's `section_type` (query_rag.py:81); the model's chunk metadata is absent or a dictionary, and a hit's metadata is always a dictionary.
