# StockCircularBot core, modelled in Dafny

StockCircularBot answers questions about NSE (National Stock Exchange of India) circulars. It has three stages, and this project models the logic of each one:

1. **Ingestion** (`src/processCirculars.py`). The circular listing is cleaned:
   - listing-only fields are dropped;
   - duplicates are removed by file link;
   - display dates are rewritten as ISO timestamps;
   - `.null` files are dropped.

   Every circular's PDF, or each PDF inside its ZIP, is then read page by page:
   - words that lie inside a table are removed;
   - the remaining words are grouped into lines 3 points apart and sorted;
   - each table's cells are cleaned, and each table gets an id;
   - the circular receives a fresh uuid.
2. **Indexing** (`src/embedding.py`):
   - the hybrid collection is created if it is missing;
   - each page with text becomes a point carrying the same text for its dense and its sparse vector;
   - points are upserted in batches of 100.
3. **Answering** (`src/rag.py`):
   - a hybrid query with a dense prefetch of 16 × limit;
   - every hit's pages are expanded, with at most 5 per id;
   - the result is sorted by date, newest first, with ties ordered by (id, page);
   - the first 5 circulars by file link are kept;
   - the context and the prompt are built;
   - the chat-history window is the last 4 messages;
   - the streamed reply stops at the refusal phrase.

Records are modelled as `map<string, Value>`. `Value` is a small JSON-like datatype. Python errors (`KeyError`, `ValueError`, `TypeError`) become `Result` errors. The following are parameters of the model:
- the file system, the vector store's answers and the LLM's stream;
- `md5` and `uuid4`.

Facts about the code that the model follows:
- Display dates are parsed with `strptime("%B %d, %Y")`:
  - the month name may be in any ASCII case;
  - any whitespace run may separate the fields.

  This is modelled by a staged parser with soundness and completeness lemmas.
- The only filter on the cleaned listing is by file name: names ending in `.null` are dropped.
- The first table of page 1 is skipped for every PDF, including every member of a ZIP. The words of that table still count as "inside a table", so they appear in no text line.
- A missing attachment gives a record whose uuid is not under `'id'`. See Findings.
- Retrieval sorts the hits by date at `src/rag.py:86`, but the sorted list is never used. That sort can only fail, with a `KeyError` or a `TypeError`, and is modelled as a key check.
- The ids used for page expansion are taken from the hits in rank order.
- No code path adds `document_name` to a record; the listing's own fields pass through ingestion and indexing unchanged. Unless the listing carries that field, the context puts all pages into one block named `N/A`; `Context.OneBlockWithoutNames` states this with the absence of `document_name` as its hypothesis.
- `retry` counts files on disk, not missing records. Its count is a parameter.

## Model

| member | source | states |
|---|---|---|
| Records.StripListingFields | src/processCirculars.py:82 | the four listing-only fields are gone and every other field keeps its value |
| Seqs.FirstPerKey | src/processCirculars.py:66-73 | the seen-set loop gives up exactly when some entry lacks the key, and otherwise keeps, in order, the first entry for each key |
| Records.RemoveDuplicateCirculars | src/processCirculars.py:66-73 | fails with `KeyError('circFilelink')` exactly when some entry lacks the link; otherwise returns the first entry for each link, in listing order |
| Records.DedupKeepsFirstLinks | src/processCirculars.py:66-73 | the deduplicated list is a subsequence of the input at exactly the positions where a link appears for the first time |
| Records.ParseRecordDateSpec | src/processCirculars.py:43-48 | succeeds exactly when `cirDisplayDate` is a string that parses; only that field changes; the error is a missing key, a wrong type or a bad date |
| Records.ParseDatesKeepsLinks | src/processCirculars.py:43-48 | rewriting dates keeps the number of records and each record's link |
| Records.CheckNames | src/processCirculars.py:85 | the `.null` filter can run exactly when every `circFilename` is a string |
| Records.DropNullFiles | src/processCirculars.py:85 | succeeds exactly when every file name is a string, and then keeps the records whose name does not end in `.null`, in order |
| Records.ParsedDelivered | src/processCirculars.py:82-85 | a stripped record whose date parsed and whose name passed the filter has an ISO date, a string name not ending in `.null`, and no listing-only field |
| Records.CleanupDelivers | src/processCirculars.py:82-85 | after the whole clean-up every record is delivered, links are pairwise distinct, and no record was added |
| Records.GetAllCirculars | src/processCirculars.py:75-86 | the result is the staged clean-up: strip the listing-only fields, keep the first record per link, rewrite the dates, drop `.null` names; so the records are delivered, links are distinct, there are at most as many as listed, and a missing link is the `KeyError` |
| Dates.MonthNumber | src/processCirculars.py:35 | `%B` accepts an English month name in any ASCII case and rejects everything else |
| Dates.ParseComplete | src/processCirculars.py:35 | every spelling of a valid date that `"%B %d, %Y"` accepts parses to that date |
| Dates.ParseSound | src/processCirculars.py:35 | whatever parses is a valid calendar date, and the text is one of its spellings |
| Dates.MonthNamesDistinct | src/processCirculars.py:35 | the twelve month names differ, so a name determines the month |
| Dates.Iso | src/processCirculars.py:39 | `isoformat()` of a midnight is 19 characters long |
| Dates.IsoFields | src/processCirculars.py:39 | the ISO text consists of zero-padded fields, separated by `-`, `T` and `:`, which read back as the year, month and day, with a zero time |
| Dates.PadValue | src/processCirculars.py:39 | zero padding to a width keeps the number's value |
| Dates.ConvertToRfc | src/processCirculars.py:30-41 | succeeds exactly when the text parses; a text that does not parse is the `ValueError` for that text |
| Tables.ReplaceChar | src/processCirculars.py:179 | `replace` of one character by another keeps the length, removes the old character and moves its count to the new one |
| Tables.RemoveChar | src/processCirculars.py:179 | removing a character drops exactly its occurrences and keeps every other character's count |
| Tables.CleanCell | src/processCirculars.py:179 | a cleaned cell has no line break and no middle dot, line breaks become spaces, other characters are kept, and an empty cell gives `""` |
| Tables.CleanCellIdempotent | src/processCirculars.py:179 | cleaning an already cleaned cell changes nothing |
| Tables.CleanGrid | src/processCirculars.py:179 | the grid keeps its rows and row lengths, and every cell is cleaned |
| Tables.KeyPrefix | src/processCirculars.py:143 | the id text can be formed exactly when `fileDept`, `circNumber` and `circCategory` are all present |
| Tables.TableKeyInjective | src/processCirculars.py:142-147 | within one circular, the hashed text determines both the table number and the page number |
| Tables.GetTables | src/processCirculars.py:168-186 | page 1 drops its first table and later pages keep all tables; the call fails only on a missing id field, and only when a table is kept |
| Tables.GetTablesAlign | src/processCirculars.py:173-182 | kept table k is raw table k + start, with its cells cleaned and its id computed from its raw index and page |
| Tables.TableIdsIgnoreCells | src/processCirculars.py:175 | table ids depend only on the circular's fields, the index and the page, never on the cells |
| Tables.GetTablesDistinctIds | src/processCirculars.py:142-175 | with a collision-free digest, the tables of one page have pairwise distinct ids |
| Layout.OutsideWords | src/processCirculars.py:200-205 | a word is kept exactly when no table box encloses it |
| Layout.FirstNear | src/processCirculars.py:212-216 | finds the first line, in insertion order, whose key is within 3 of the word's top |
| Layout.PlaceWordFirstNear | src/processCirculars.py:209-218 | a word joins the first near line and no other, or else opens a new line keyed by its own top |
| Layout.GroupLinesShape | src/processCirculars.py:207-218 | after grouping, line keys are pairwise at least 3 apart, every word is within 3 of its key, and the words are exactly the input words |
| Layout.SortedLinesAscend | src/processCirculars.py:221 | sorted lines ascend by key, each at least 3 below the previous one |
| Layout.PageLinesShape | src/processCirculars.py:200-229 | the page's lines run strictly top to bottom, with each line's words left to right, and together they hold exactly the words outside every table |
| Layout.RenderLinesCount | src/processCirculars.py:224-229 | when no word holds a line break, the text has exactly one line per line group |
| Extraction.ExtractPage | src/processCirculars.py:196-233 | a page fails exactly when its tables fail, and otherwise keeps its page number |
| Extraction.SkippedTableHidesWords | src/processCirculars.py:198-205 | on page 1, a word inside the skipped first table appears in no text line, and every table the page keeps is the cleaned copy of a later raw table |
| Extraction.ExtractText | src/processCirculars.py:188-239 | an unreadable PDF is an error; otherwise the pages are extracted in order, stopping at the first failure |
| Extraction.BaseName | src/processCirculars.py:254 | the part of a path after its last `/` |
| Extraction.MemberKeyShape | src/processCirculars.py:156-164 | a PDF member's key is its base name minus its last four characters when that name is longer than four, or the whole base name otherwise, followed by `.pdf` |
| Extraction.ZipEntriesLastWins | src/processCirculars.py:149-166 | the ZIP's entries have distinct keys, and each key holds the pages of the last PDF member with that key; non-PDF members leave no entry |
| Extraction.Finish | src/processCirculars.py:255-271 | the record gains `id` = the uuid, loses `circFilename`, and keeps every other field |
| Extraction.ExtractPdfContent | src/processCirculars.py:241-272 | as written: the uuid goes under the builtin `id` exactly when the `.pdf` or `.zip` attachment is missing, and then the record is returned unchanged with no documents; otherwise the record gains `id` and loses `circFilename`; a missing or non-string `circFilename` is the error |
| Extraction.MissingPdfBreaksSave | src/processCirculars.py:249-251 | one circular whose PDF is missing leaves its record without an `'id'` field, and makes `json.dump` in `save` (lines 274-276) fail |
| Extraction.FixedAgrees | src/processCirculars.py:241-272 | the corrected extraction differs from the original only in the key of the uuid on the missing-file paths |
| Extraction.FixedHasId | src/processCirculars.py:250-269 | every record from the corrected extraction carries `'id'` |
| Extraction.SaveFailsIffMissing | src/processCirculars.py:241-276 | after the as-written extraction of every circular, `save` fails exactly when some circular's attachment is missing |
| Extraction.GetAndProcessAsWritten | src/processCirculars.py:278-288 | the pipeline as written: a listing error is the result; otherwise the extraction of every cleaned circular in order, and the final `save` fails exactly when some attachment is missing |
| Extraction.MapProgress | src/processCirculars.py:50-65 | results are collected in submission order; the first failure is the result |
| Extraction.MapAllPrefixErr | src/processCirculars.py:61-63 | a failure among the first n jobs is the failure of the whole run |
| Extraction.Retry | src/processCirculars.py:88-102 | at most four passes; each pass started because fewer files than circulars were found; stopping early means enough files were found |
| Extraction.GetAndProcess | src/processCirculars.py:278-288 | with the corrected extraction: a listing error is the result; otherwise the extraction of every cleaned circular in order; every saved circular has an `'id'`, saving succeeds, and there are no more circulars than listing entries |
| PyRepr.ReprRoundTrip | src/embedding.py:132 | `repr` of a string reads back as the same string, leaving what followed it |
| PyRepr.RowRoundTrip | src/embedding.py:132 | `str()` of a list of cells reads back as the same list |
| Embedding.CreateCollection | src/embedding.py:91-111 | reports success; afterwards the collection exists; an existing collection and every other collection are unchanged; a new one is empty, with the new configuration: 384-dimensional cosine vectors and a BM25 sparse vector |
| Embedding.CreateCollectionIdempotent | src/embedding.py:91-111 | creating the collection twice is the same as creating it once |
| Embedding.TablesRoundTrip | src/embedding.py:128-135 | the tables part of a point's text decodes back to the table contents, so rendering loses no cell |
| Embedding.DocTextDecodes | src/embedding.py:137 | a point's text is the page text, a line break, then the tables part, which decodes to the page's table contents |
| Embedding.PagePayload | src/embedding.py:121-138 | the payload is the circular's fields without `documents`, plus `page_number` and `content` |
| Embedding.CircularUnitsAreSlots | src/embedding.py:120-127 | the nested loops produce one point per page with non-empty text, in file and page order |
| Embedding.MakePoint | src/embedding.py:139-150 | both vectors carry the same page text, with the dense and the BM25 model names |
| Embedding.CreatePointsSpec | src/embedding.py:113-152 | the number of points equals the number of pages with text; point i has the i-th uuid, that page's payload and that page's text in both vectors |
| Embedding.UpsertFinds | src/embedding.py:171-175 | after upserting, ids are distinct, and a lookup finds the last point sent with that id, or else the old point |
| Embedding.Batches | src/embedding.py:165-169 | the batches concatenate to the points; there are ceil(n/100) of them, each of size 1 to 100, and all but the last are full |
| Embedding.UpsertBatchesFlatten | src/embedding.py:167-175 | upserting batch by batch equals upserting the whole list |
| Embedding.WithIndexes | src/embedding.py:154-163 | `circDepartment` gets a keyword index and `cirDisplayDate` a datetime index; the points are untouched |
| Embedding.UpsertPoints | src/embedding.py:153-176 | once Qdrant has applied the batches in order, the loop over `range(0, n, 100)` leaves the store exactly as one upsert of all points would, and equals the batch-wise upsert |
| Embedding.EmbedData | src/embedding.py:178-183 | once Qdrant has applied the batches, the collection exists with its old or the new configuration; its points are the old points with all created points upserted; the two payload indexes are added; other collections are unchanged |
| Embedding.EmbedFindsEveryPage | src/embedding.py:178-183 | in any store with distinct ids, and with distinct uuids, looking up the i-th uuid once the embedding's batches have been applied finds the i-th point |
| Embedding.EmbedKeepsOtherPoints | src/embedding.py:171-183 | an id that no new point uses keeps its old lookup once the embedding's batches have been applied |
| Retrieval.SearchRequest | src/rag.py:58-79 | the dense prefetch asks for 16 × limit candidates, then BM25 reranks them to `limit` |
| Retrieval.HitIds | src/rag.py:82-85 | at most `limit` ids, in rank order, one per hit |
| Retrieval.DateKeys | src/rag.py:86-107 | the date sort can run exactly when every element has a string `cirDisplayDate`; otherwise it reports that key |
| Retrieval.IdPageKeys | src/rag.py:106 | the model accepts the (id, page) sort exactly when every page has a string `id` and an integer `page_number` |
| Retrieval.Scroll | src/rag.py:88-104 | the first min(5, n) of the n stored pages with the requested id |
| Retrieval.ExpandSpec | src/rag.py:87-104 | at most 5 pages per hit, and every page carries one of the hits' ids |
| Retrieval.SortPages | src/rag.py:106-107 | a permutation of the pages, newest date first; pages with equal dates are ordered by (id, page) |
| Retrieval.MultiStageSearchSpec | src/rag.py:57-112 | the search fails exactly when a key that a sort or the filter needs is missing or unusable; otherwise it returns the sorted expansion, at most 5 × limit pages |
| Retrieval.UniqueCircularsSpec | src/rag.py:113-131 | at most n links are chosen, the first n in order of first appearance, and each chosen link keeps all its pages |
| Retrieval.RegroupBlocks | src/rag.py:127-129 | each chosen link's pages sit together in one block, with the blocks in order of first appearance |
| Context.SubjectLine | src/rag.py:208-218 | the body opens with `Subject: ` exactly when the group's first page has a truthy `sub`, and then its first line is that subject |
| Context.Rule | src/rag.py:229 | the separator is sixty `=` characters |
| Context.BlockFrame | src/rag.py:206-229 | each block opens with `=== CIRCULAR idx: name ===` and closes with the separator |
| Context.BlocksAt | src/rag.py:204 | the k-th group, in order of first appearance, becomes block number k + 1 and holds all pages with that name |
| Context.ContextKeepsContent | src/rag.py:196-229 | every retrieved page with non-blank content appears, stripped, in the context |
| Context.OneBlockWithoutNames | src/rag.py:199-201 | when no payload carries `document_name`, the context is one block named `N/A` that holds every page |
| Context.SinglePageBlock | src/rag.py:205-229 | a group of one page has no `[Page k]` marker: its content part is the stripped text and a line break, or nothing when that text is blank |
| Context.BlankPageAddsNothing | src/rag.py:221-226 | a page with blank content adds nothing to its block, and the pages after it keep their numbers |
| Context.MarkedPageInBlock | src/rag.py:221-226 | in a group of several pages, every page with text appears under the marker `[Page k]`, k being its position in the group |
| Context.PromptKeepsParts | src/rag.py:233 | with a template that starts and ends with visible text, the final `strip` removes nothing, and the prompt contains both the context and the question |
| Context.Messages | src/rag.py:241-247 | the last min(`max_history` = 4, n) history messages, in order, followed by the user's prompt |
| Streaming.StreamReply | src/rag.py:256-266 | the chunks sent are a prefix of the non-`None` deltas, and the output is their concatenation; the stream stops right after the first chunk after which the accumulated text contains the refusal phrase, and otherwise passes everything on |
| Streaming.CutUnique | src/rag.py:259-266 | the stopping point of the loop is uniquely determined |
| Streaming.CutIsCutAt | src/rag.py:259-266 | the functional stopping point satisfies the loop's stopping rule |

## Left out

- Network access: `nsefetch`, the NSE listing request, `download_circulars` (including its `.bin` check) and the dates in the listing URL. The listing and the downloaded files are inputs.
- Threads, `tqdm` progress bars and logging. `map_progress` is modelled as sequential submission followed by in-order collection. The progress bar's overcount in `upsertPoints` is not modelled.
- `retry`'s file counting and its repeated downloads. The counts form a parameter.
- The `FileNotFoundError` branch of `extract_text_and_tables`. It needs a file that disappears between the existence check and the open.
- pdfplumber itself. Words, table boxes, cells and page numbers are inputs, and floating-point coordinates are `real`.
- `page.extract_text()`. Its result is never used.
- MD5, `uuid4` and `hexdigest`. They are parameters, and collision freedom is a hypothesis where a lemma needs it.
- `repr` of non-ASCII characters. The model escapes ASCII control characters only; Python also escapes some non-printable Unicode characters.
- `strptime` with non-ASCII digits, and locale-dependent month names.
- The branch of `createPoints` for table content that is not a list. Extraction always produces lists.
- JSON key order and JSON encoding: records are maps. Key order matters in the source only for `documents` entries, and those are kept as ordered sequences.
- Qdrant's embedding models, vector similarity and the ranking itself. The ranked hits and the stored pages are inputs to `MultiStageSearch`.
- The instruction text of the prompt template. It is a `Template` parameter with `head`, `mid` and `tail`.
- `getKey`, `initClient` and API keys. The model name and the LLM call are outside the model.
- Retrieval.DateKeys: values of different kinds are all reported as `TypeError`. Python would accept a homogeneous list of non-string values; the model requires strings. This is stricter than the source, on payloads that ingestion never produces.
- Retrieval.MultiStageSearch: a hit without `id` gives `MatchValue(value=None)`, which the Qdrant client rejects. The model treats that as an error without reproducing the client's message.
- Extraction.SkippedTableHidesWords: table cells are inputs independent of the page's words, so the model does not promise that the skipped table's words are absent from the cells of the tables that are kept.
- Extraction.GetAndProcess: it maps the corrected extraction, so that saving succeeds. The extraction as written is `Extraction.GetAndProcessAsWritten`.
- Retrieval.IdPageKeys: any non-string `id` or non-integer `page_number` is reported as `TypeError`. Python's tuple sort also accepts integer ids, `None` page numbers when the ids differ, and any single page. That is stricter than the source, on payloads that ingestion never produces.
- Dates.MonthNumber: with `IGNORECASE`, `%B` also matches Unicode case equivalents such as `ſ` for `s`, `ı` for `i` and the Kelvin sign for `k`. The model accepts ASCII case variants only.
- Qdrant's `scroll` returns the pages of an id in point-id order. Point ids are random uuid4 values, so `stored` is in point-id order, not page order, and the first five pages per hit are arbitrary pages of the circular.
- Embedding.UpsertPoints: every batch is sent with `wait=False`, so `upsertPoints` may return before Qdrant has applied the points. The modelled store is the state after Qdrant has applied the batches in order; a lookup made before that is not modelled.
- Embedding.EmbedData: the "Collection could not be created" branch is unreachable, because `createCollection` always returns `True`, so it is not modelled.

## Findings

| source | as written | input that shows it | evidently intended | confidence | as-written member | corrected member |
|---|---|---|---|---|---|---|
| src/processCirculars.py:250 | on a missing file (here and at line 261), the uuid is stored under the builtin function `id` as the dict key, and `circFilename` is kept | a circular whose `circFilename` is `a.pdf`, with no such file on disk: the record gets no `'id'` field, and `json.dump` in `save` raises `TypeError` for the non-string key | `{'id': uuid, **json}`, so that every record has a string `'id'` and can be saved | high; not executed | Extraction.MissingPdfBreaksSave | Extraction.FixedHasId |
