# brunosearch core, modelled in Dafny

brunosearch is a semantic search engine for a university course catalogue.
A Python scraper fetches the catalogue's sections, their details and the
department names, and writes one record per course. A Rust backend then has
each record's text embedded by a hosted embedding service. It caches the
embedded records in a second snapshot file and loads them as JSON documents
into a Redis vector index. It answers free-text queries with a KNN search
that can be narrowed by a phrase quoted in the query.

This project models the sequential core of both halves and proves what it
computes:

- `Embed` (`backend/src/embed.rs`): the one-pass extraction of the first
  quoted phrase of a query. It is proved equal to a reference reading, "the
  text between the first two `"`", and that reading is characterised.
- `Corpus` (`backend/src/corpus.rs`): the positional zip of courses and
  embeddings, and the two-file cache. The file system, the embedding service
  and the order of effects are an `Environment` object.
- `CourseRecord` (`backend/src/course.rs`): the course record and its text
  rendering. The six header lines come first, then one sentence per true
  flag, in a fixed order.
- `Vector` (`backend/src/vector.rs`): the vector store, modelled as a class
  holding a key-to-document map and an "index defined" flag. It covers:
  - document keys;
  - `reset`, `create_index` and `populate_database`;
  - the KNN request: pre-filter, query string, byte buffer and options;
  - the handling of the search reply.
- `Server` (`backend/src/main.rs`): the search handler that ties
  extraction, query embedding and store search together.
- `ScrapeCourses` (`scraper/src/scrape_courses.py`): the term database
  string, the details request payload and the details dictionary loop.
- `Scraper` (`scraper/src/main.py`): `structure_course_metadata`. It
  filters, de-duplicates, splits and derives flags, and raises on a missing
  details entry or a malformed code.
- `Text`, `Maps` and `Wrappers` are supporting modules:
  - `Text` provides Python's `split`/`join`, the substring test `in`, and
    decimal rendering and parsing.
  - `Maps` provides a fold of key/value writes into a map with last write
    winning. It serves as the semantics of a Python dict assignment loop and
    of a Redis pipeline of `JSON.SET`s.
  - `Wrappers` provides `Option` and `Result`.

Facts of the code worth noting:

- `embed_courses` zips the two sequences. If they differ in length, the
  output has the shorter length; the code never fails on the mismatch. The
  model follows the code.
- The search handler passes the whole query, untruncated, to quote
  extraction and to the query embedding. The code applies no length cap, and
  neither does the model.
- The store has no "is populated" query.

Exceptions and `?` become `Result` values. Floats are kept as their 32-bit
patterns (`bv32`), since nothing in the core does arithmetic on them.

## Model

| member | source | states |
|---|---|---|
| Embed.ExtractFirstQuote | backend/src/embed.rs:47-69 | The scan with its inside-quote flag and accumulator returns exactly the reference reading `FirstQuote`. Its invariant: outside a quote the accumulator is empty and no quote has been seen. Inside a quote, the accumulator is everything since the opening quote. |
| Embed.FirstPairIsFirstQuote | backend/src/embed.rs:53-63 | Given the first opening and closing quote positions, the result is `Some` of the characters strictly between them. |
| Embed.FirstQuoteIsFirstPair | backend/src/embed.rs:53-63 | The result is `Some(m)` if and only if the input has a first quoted pair whose inside is `m` (both directions). |
| Embed.FirstQuoteHasNoQuote | backend/src/embed.rs:61-64 | The extracted text never contains a `"`. |
| Embed.FirstQuoteNoneIffFewerThanTwoQuotes | backend/src/embed.rs:52-68 | The result is `None` exactly when the input holds fewer than two `"` characters. |
| Embed.FirstQuoteInContext | backend/src/embed.rs:52-64 | Text before the opening quote (itself quote-free) and anything after the closing quote do not affect the result. The scan stops at the second quote. |
| Embed.AdjacentQuotesGiveEmpty | backend/src/embed.rs:54-56 | Two adjacent quotes yield `Some("")`, not `None`. |
| Embed.NoQuoteNoFilter | backend/src/embed.rs:67-68 | A quote-free input yields `None`. |
| Embed.SingleQuoteNoFilter | backend/src/embed.rs:52-68 | An input with a single, unclosed quote yields `None`. |
| Embed.QuotedCodeExample | backend/src/embed.rs:47-69 | Worked example: `find "CSCI 0220" intro` yields `CSCI 0220`. |
| Embed.NoQuoteExample | backend/src/embed.rs:67-68 | Worked example without quotes: `None`. |
| Embed.UnclosedQuoteExample | backend/src/embed.rs:52-68 | Worked example with an unclosed quote: `None`. |
| Corpus.EmbedCourses | backend/src/corpus.rs:26-35 | The output length is the minimum of the two input lengths (zip). Element `i` is course `i` with its embedding set to `Some(embeddings[i])`. |
| Corpus.EmbedCoursesKeepsText | backend/src/corpus.rs:30-33 | Every output course has an embedding, and only the embedding changed: its rendered text equals the raw course's. |
| Corpus.Environment.ReadCourses | backend/src/corpus.rs:38-42 | Reading returns what the file holds, or `NotFound`, and logs one read. |
| Corpus.Environment.EmbedDocuments | backend/src/corpus.rs:17 | One batched request with the rendered text of every course, in order, logged as one effect. |
| Corpus.Environment.WriteCourses | backend/src/corpus.rs:45-49 | A write replaces exactly the one file, or fails with `WriteFailed` and leaves the files unchanged. Either way it logs one write. |
| Corpus.ProcessCourses | backend/src/corpus.rs:8-23 | A readable embedded snapshot is returned unchanged, with no embed call and no write. Otherwise a raw-read error propagates with nothing written. An embedding failure propagates with nothing written. A write comes only after embedding succeeded, and the value written is the value returned. The exact effect trace is given for each path. The raw file, and every other path, is never changed. |
| Corpus.ProcessTwice | backend/src/corpus.rs:9-13 | The first run's trace is pinned: on a cache hit, one read of the embedded snapshot. On a miss that succeeds, the raw file was readable, and the trace is two reads, one embed request with the raw courses' texts, and one write. After a successful first run, the second run returns the same courses, and its only effect is one read of the embedded snapshot: no embed request and no write. |
| Corpus.Texts | backend/src/embed.rs:27-28 | One document per course, in order. Document `i` is the rendering of course `i` without its embedding. |
| Corpus.TextsIgnoreEmbeddings | backend/src/corpus.rs:30-33 | Attaching embeddings to courses does not change the documents sent for embedding. |
| CourseRecord.HeaderLines | backend/src/course.rs:23-37 | The header has six lines. |
| CourseRecord.Fmt | backend/src/course.rs:22-53 | The format string followed by the four conditional `push_str`s produces exactly `Display(c)`: the header lines then the flag sentences, joined by newlines. |
| CourseRecord.DisplayStartsWithDepartment | backend/src/course.rs:23-37 | The text starts with `Department: <full> - <short>` followed by a newline. |
| CourseRecord.DisplayWithoutFlags | backend/src/course.rs:23-52 | With all four flags false, the text is exactly the six header lines, in order, separated by newlines. |
| CourseRecord.DisplayLinesRecovered | backend/src/course.rs:23-50 | If no field holds a newline, splitting the text on newlines gives back the header lines and then the flag sentences in the order writ, soph, fys, rpp. There are 6 plus the number of true flags of them. |
| CourseRecord.SentencesAreSingleLines | backend/src/course.rs:39-50 | No flag sentence contains a newline. |
| CourseRecord.SentencesDistinct | backend/src/course.rs:39-50 | The four flag sentences are pairwise different. |
| CourseRecord.HeaderIsNoSentence | backend/src/course.rs:23-50 | No header line equals a flag sentence. |
| CourseRecord.FlagSentencePresentIffSet | backend/src/course.rs:39-50 | If no field holds a newline, each flag's sentence is a line of the text if and only if that flag is true. |
| CourseRecord.DisplayIgnoresEmbedding | backend/src/course.rs:21-54 | The embedding has no influence on the text. |
| Vector.DocKey | backend/src/vector.rs:106 | Every document key starts with the indexed prefix `courses:`. |
| Vector.DocKeyIdentifiesCourse | backend/src/vector.rs:106 | When department codes hold no `:`, two courses share a key if and only if they share department and code. |
| Vector.DocKeyCollidesAcrossColon | backend/src/vector.rs:106 | Without that proviso, different courses can share a key (`AB:`/`C` and `AB`/`:C`). |
| Vector.FloatBytes | backend/src/vector.rs:35 | Each float becomes four bytes. |
| Vector.FloatBytesRoundTrip | backend/src/vector.rs:35 | The four bytes of a float decode back to that float. |
| Vector.QueryBytes | backend/src/vector.rs:35 | The query buffer has 4 × dimension bytes. Bytes `4i..4i+4` are the bytes of element `i`. |
| Vector.QueryBytesDecode | backend/src/vector.rs:35 | Every element of the embedding can be read back from its slot in the buffer. |
| Vector.PreFilter | backend/src/vector.rs:36 | A quoted text is the pre-filter verbatim. The pre-filter is `*` if and only if there is no quoted text or the quoted text is itself `*`. |
| Vector.QueryString | backend/src/vector.rs:41 | The query string is `(` + pre-filter + `)=>[KNN ` + decimal count + ` @embedding $query_vector AS score]`. The count is a canonical decimal numeral (digits only, no leading zero), as `{}` writes a `usize`, and parses back to the requested count. |
| Vector.ReadsBackAsUnique | backend/src/vector.rs:41 | The pre-filter and the count determine the query string: two queries that both read back to them are equal. |
| Vector.SearchRequest | backend/src/vector.rs:35-46 | The request targets `idx:course_vss`. Its query contains the pre-filter verbatim and a canonical decimal count that parses back to the requested one; by `ReadsBackAsUnique` this fixes the query string. Its buffer has 4 × dimension bytes, and every four-byte group decodes back to the embedding component at that position. It sorts by score ascending, returns keys only, uses offset 0, the requested count as limit, and dialect 4. |
| Vector.ReplyKeys | backend/src/vector.rs:53 | A non-empty reply is its head followed by the keys, so nothing but the leading count is dropped. An empty reply gives no keys. |
| Vector.VectorDB.Reset | backend/src/vector.rs:22-26 | After a reset the store holds no document and no index. |
| Vector.VectorDB.CreateIndex | backend/src/vector.rs:64-97 | The index is defined afterwards, whether or not one existed before, and the documents are unchanged. |
| Vector.VectorDB.PopulateDatabase | backend/src/vector.rs:100-115 | The new store is the old store updated with one write per course, in course order (`PutAll`). The index flag is unchanged. |
| Vector.VectorDB.SearchEmbedding | backend/src/vector.rs:29-60 | A failed search propagates. Otherwise the result is `Ok` exactly when every returned key after the count has a document, and it is then those documents in reply order. |
| Vector.VectorDB.SkipCount | backend/src/vector.rs:52-55 | The loop over the reply builds exactly `ReplyKeys` of the reply: a non-empty reply is its head followed by the pipeline's keys, in order. |
| Vector.VectorDB.FetchDocuments | backend/src/vector.rs:52-57 | Fetching succeeds if and only if every key has a document, and yields one document per key in key order. |
| Vector.PopulatedKeys | backend/src/vector.rs:104-112 | The populated keys are the old keys plus the key of each course (the pipeline of `(key, course)` writes built by the loop). |
| Vector.PopulatedKeysArePrefixed | backend/src/vector.rs:104-112 | Populating an empty store leaves only keys with the `courses:` prefix. |
| Vector.PopulateKeepsLastCourse | backend/src/vector.rs:104-112 | Among courses sharing a key, the store keeps the last one's document. |
| Vector.PopulateKeepsOtherDocuments | backend/src/vector.rs:104-112 | A key that no course of the batch maps to keeps its old document, or stays absent. |
| Vector.PopulateSize | backend/src/vector.rs:104-112 | An empty store populated with a batch holds at most one document per course. |
| Server.Search | backend/src/main.rs:56-66 | A query-embedding failure aborts. Otherwise the store is asked with the first quoted text of the whole, untruncated query and a limit of 20. Its outcome (the documents in reply order, or the error) is passed through. |
| Server.ResultLimitDigits | backend/src/main.rs:62 | The limit of 20 is rendered into the query as `20`. |
| Server.QuotedPhraseFiltersSearch | backend/src/main.rs:58-62 | A query with a quoted phrase sends the KNN query `(<phrase>)=>[KNN 20 ...]`. |
| Server.UnquotedQuerySearchesAll | backend/src/main.rs:58-62 | A query without quotes sends `(*)=>[KNN 20 ...]`. |
| ScrapeCourses.ConstructDbString | scraper/src/scrape_courses.py:12-21 | The term string ends in `20` for spring and `10` for every other season. The rest parses back to the year for fall and to the year minus one otherwise, and is written canonically as `str` writes an integer: no leading zero, and a `-` only before a non-zero magnitude. |
| Text.CanonicalNatIsNatToString | backend/src/vector.rs:41 | A canonical natural numeral is exactly the rendering of the number it denotes, so it is unique. |
| Text.IntToStringCanonical | scraper/src/scrape_courses.py:21 | `str` of an integer is a canonical integer numeral. |
| Text.CanonicalIntIsIntToString | scraper/src/scrape_courses.py:21 | A canonical integer numeral parses, and it is exactly the rendering of the integer it denotes, so it is unique. |
| ScrapeCourses.DbStringSpringExample | scraper/src/scrape_courses.py:15 | spring 2023 gives `202220`. |
| ScrapeCourses.DbStringFallExample | scraper/src/scrape_courses.py:16 | fall 2022 gives `202210`. |
| ScrapeCourses.GetDetailsPayload | scraper/src/scrape_courses.py:44-49 | `group` is `code:` followed by the row's code, `key` is `crn:` followed by its CRN, `matched` equals `key`, and `srcdb` is copied from the row. |
| ScrapeCourses.DetailsPayloadIdentifiesSection | scraper/src/scrape_courses.py:44-49 | Two payloads are equal if and only if the rows agree on code, CRN and term. |
| ScrapeCourses.CollectDetails | scraper/src/scrape_courses.py:54-65 | The loop's dictionary is the fold of one write per successful reply, keyed by the reply's own code. Failed replies are skipped. |
| ScrapeCourses.SuccessPairsFromReplies | scraper/src/scrape_courses.py:55-63 | Every write comes from a successful reply under its own code, every successful reply's code is written, and there are at most as many writes as replies. |
| ScrapeCourses.DetailsKeys | scraper/src/scrape_courses.py:54-65 | The dictionary's keys are exactly the codes of the successful replies, and it is no larger than the number of replies. |
| ScrapeCourses.DetailsLastReplyWins | scraper/src/scrape_courses.py:62-63 | A later successful reply with the same code overwrites an earlier one. The last one with a code is what the dictionary holds. |
| Text.Contains | scraper/src/main.py:41-45 | Python's substring test: true if and only if the pattern occurs at some position. |
| Scraper.SplitCode | scraper/src/main.py:27 | Unpacking `split(" ")` into two names succeeds if and only if the code holds exactly one space. It then gives two space-free halves that rejoin to the code, and otherwise the `MalformedCode` error. |
| Scraper.SplitCodeInjective | scraper/src/main.py:27-31 | For codes that split, equal halves means equal codes. |
| Scraper.CourseDatum | scraper/src/main.py:33-46 | `department_full` is the subjects entry when present, else the short name. Title, professor and time are copied, and the description goes through `clean_description`. `writ` holds if and only if `WRIT` occurs in the attribute HTML or the department is ENGL, COLT, LITA or LITR. `soph`, `fys` and `rpp` are substring tests, and there is no embedding. |
| Scraper.RowError | scraper/src/main.py:18-27 | The error is `MissingDetails` if and only if the row has no details entry, whether or not the row is skipped and whether or not its code splits. It is `MalformedCode` if and only if the entry exists, the row is not skipped and its code does not hold exactly one space. The error names the row's code. |
| Scraper.StructureCourseMetadata | scraper/src/main.py:8-56 | The loop with its `seen_courses` set succeeds if and only if every row has a details entry and every unskipped row's code splits. When some row is the first bad one, the result is exactly that row's error, so a row without a details entry makes the pass fail with `MissingDetails` even if it would be skipped. On success it returns `Structured`. |
| Scraper.KeptIndicesExact | scraper/src/main.py:17-31 | The kept rows are listed in increasing input order. A row is kept if and only if it is not skipped, its code splits, and no earlier unskipped row has its (department, code) pair. |
| Scraper.StructuredFromKept | scraper/src/main.py:17-54 | Output record `k` is the record built from the `k`-th kept row. Output order is input order. |
| Scraper.StructuredRows | scraper/src/main.py:17-54 | Every kept row's record is in the output, and every output record is built from a kept row. |
| Scraper.UniqueCourses | scraper/src/main.py:15-31 | No two output records share a (department, code) pair. |
| Scraper.SkippedRowNeverKept | scraper/src/main.py:20-24 | A row that is online, team-taught or cross-listed is never among the kept rows. |
| Scraper.SkippedRowsAbsent | scraper/src/main.py:21-24 | No output record is online or team-taught, and the output is no longer than the input. Cross-listed rows are excluded by `KeptIndicesExact`. |
| Scraper.FirstOccurrenceWins | scraper/src/main.py:29-31 | For the input `[a, b]` of two unskipped rows with the same code, only `a`'s record is output. The general statement is `KeptIndicesExact`. |
| Scraper.SkippedRowDoesNotBlock | scraper/src/main.py:21-31 | For the input `[a, b]` with `a` skipped and `b` unskipped and of the same code, `b`'s record is output. The general statement is `KeptIndicesExact`. |

## Left out

- The calls to the hosted embedding service (`embed_query`, `embed_documents`; backend/src/embed.rs:10-44) are network calls. They are function parameters of the model; `embed_documents` is `Environment.embedService`.
- Vector similarity, the cosine metric and FT.SEARCH ranking are floating point inside a foreign engine. The store's answer to a request is a function parameter (`knn`).
- Vector.FloatBytes: `f32::to_ne_bytes` uses the machine's byte order; the model fixes little-endian.
- Vector.VectorDB.CreateIndex: the FT.CREATE schema (field list, vector dimension 1536, metric) and the FT.INFO/FT.DROPINDEX commands are not modelled. Only "drop if defined, then define" is.
- Redis connection failures, the pipeline's own transport errors and `dbg!` output are not modelled. A missing document is modelled as a fetch error, and a failed search is the reply's `Err`.
- serde JSON parsing and serialisation (backend/src/corpus.rs:38-49): a snapshot file is modelled as what reading it yields, a course list or an error.
- The HTTP server, routing, CORS, compression and static files, Redis startup, CLI parsing, and the reindex sequence in `main` are framework and process glue.
- Corpus.EmbedCourses: a length mismatch between courses and embeddings truncates, as `zip` does. No error is raised.
- ScrapeCourses.ConstructDbString: the year is an integer. The `int(year)` parse of the string argument, and its failure, are not modelled.
- The catalogue search request and the details requests (`get_course_metadata` and the grequests calls) are network calls. A details reply is modelled as a JSON body or an HTTP error. A failed connection makes `grequests.map` yield `None`, after which the loop raises `AttributeError`; that case is not modelled.
- `clean_description` wraps an HTML parser. It is a function parameter (`clean`), applied to each description.
- `scrape_departments.py` (an HTTP fetch and HTML parsing) is not part of this model. Its result is the `subjects` map parameter.
- The `attributes` lines of `structure_course_metadata` (scraper/src/main.py:47-52) are not valid Python and define no behaviour. The record has no `attributes` key.
- Writing the scraper's JSON output file, and the JSON key order and indentation, are I/O and formatting.
- Scraper.SkippedRowsAbsent: the output record carries no `stat` field. That cross-listed rows are dropped is stated on the rows, in `Scraper.KeptIndicesExact`.
- Server.Search: no bound on the number of results is proved. The store's answer is the unconstrained parameter `knn`, so the model does not promise that a search returns at most 20 courses.
- The scraper's `print` progress messages (scraper/src/main.py:13, scraper/src/scrape_courses.py:43 and 59) are console output. A `KeyError` from a JSON row or reply lacking a field is ruled out by the typed records. A `response.json()` decode failure on a successful reply (scraper/src/scrape_courses.py:62) is not modelled: such a reply is modelled as its decoded body.
