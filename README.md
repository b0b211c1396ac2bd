# Risk-Aware Legal NLP — a verified model of its deterministic core

This project models, in Dafny, the deterministic parts of a small legal
document assistant:

- the FastAPI backend (`backend/main.py`): sentence splitting, fixed-size
  word chunking, the keyword-weighted extractive summariser, and the
  in-memory document store `DOCS` behind the routes `/upload`, `/summarize`,
  `/index` and `/ask`;
- the LED summariser frame (`backend/summarizer_led.py`): the greedy packer
  that fills chunks up to an estimated token budget, the blank-input
  short-circuit, the two summarisation passes and the bullet selection;
- the front end's local fixture facade (`src/lib/mockApi.js`): the risk
  heuristic, the role filter, the token-overlap search and the canned answer;
- the summary-shape normalisation of the summarisation page
  (`src/pages/Summarize.jsx`), the threshold view of the risk page
  (`src/pages/Risk.jsx`) and the risk colour band (`src/ui/RiskPill.jsx`).

Modules: `Seqs` (prefix slices, filtering, subsequences, the stable
descending sort), `Text` (strip, split into words, join), `Sentences`
(the sentence splitter shared by both backend files), `Led`, `Backend`,
`MockApi`, `RiskView`, `RiskPill`, `SummarizePage`.

Conventions:

- Scores (`risk`, search `score`, the risk threshold) are integers in
  hundredths. `toFixed(2)` is modelled as rounding the exact rational value
  to the nearest hundredth, halves upward.
- Strings are sequences of characters. Whitespace follows each language:
  the Python side (`str.split()`, `str.strip()`, the `\s` of `re`) uses the
  characters of `str.isspace()`, which include U+001C to U+001F and U+0085
  (`Text.IsSpace`); JavaScript's `trim()` uses ECMAScript's whitespace and
  line terminators, which leave those five alone and include U+FEFF
  (`SummarizePage.IsJsSpace`). Letters, `\w` and case folding are ASCII.
- The LED model, the answer generator, the retrievers' rankings, the
  generated document id and the extracted, cleaned upload text are
  parameters. The outcomes of the page's three server calls are parameters
  too.
- Python's `s[:k]` and JavaScript's `slice(0, k)` are modelled with their
  negative-`k` behaviour (`Seqs.PyPrefix`).

Imperative code is imperative here. `chunk_by_words`, `extractive_summary`
and `_chunk_by_tokens` are methods with loops. Each is proved equal to a
specification function, and the source's promises are lemmas about that
function. `DOCS` is the field of the class `Backend.DocStore`, and the page's
state slots are the fields of `SummarizePage.SummarizeState`.

## Model

| member | source | states |
|---|---|---|
| Sentences.Pieces | capstone_legal_main/backend/main.py:55 | `re.split` at each whitespace run preceded by `.`, `!` or `?` and followed by a capital letter or `(` yields at least one piece, and every piece is a contiguous slice of the text |
| Sentences.SplitSentences | capstone_legal_main/backend/main.py:54-56 | every sentence is non-empty, has no whitespace at either end, and is a contiguous slice of the input text |
| Sentences.NoBreakOneSentence | capstone_legal_main/backend/summarizer_led.py:35-37 | text in which the separator never matches yields exactly its stripped self, or nothing when it is blank |
| Sentences.BlankHasNoSentences | capstone_legal_main/backend/summarizer_led.py:35-37 | blank text has no sentences |
| Text.Strip | capstone_legal_main/backend/main.py:56 | the stripped string is a slice of the input, only whitespace lies outside it, it has no whitespace at either end, and it is empty exactly when the input is all whitespace |
| Text.StripIdempotent | capstone_legal_main/backend/summarizer_led.py:95 | stripping twice is stripping once |
| Text.Words | capstone_legal_main/backend/main.py:59 | `str.split()` yields only non-empty words without whitespace |
| Text.WordsOfWordSpace | capstone_legal_main/backend/main.py:59 | a word followed by any whitespace character (the separators U+001C to U+001F included) and more text splits into that word and the words of the rest |
| Text.WordsOfJoin | capstone_legal_main/backend/main.py:64 | splitting a space-joined list of words gives the list back |
| Backend.Cap | capstone_legal_main/backend/main.py:63 | the effective group size is at least 1 and equals `max_words` whenever that is positive |
| Backend.ChunkByWords | capstone_legal_main/backend/main.py:58-68 | the loop's chunks are the consecutive groups of `Cap(max_words)` words, each joined with single spaces |
| Backend.ChunkByWordsProps | capstone_legal_main/backend/main.py:58-68 | splitting the chunks again gives the groups back, and laid end to end they give `text.split()` in order; no chunk is empty; each has at most `Cap(max_words)` words and all but the last exactly that many; no words gives no chunks, and there are never more chunks than words |
| Backend.ChunkCount | capstone_legal_main/backend/main.py:60-67 | there are `ceil(len(words) / Cap(max_words))` chunks, stated without division: one chunk fewer would hold fewer words than the text has, and that many hold all of them |
| Backend.GroupCount | capstone_legal_main/backend/main.py:61-67 | `n * (groups - 1) < words <= n * groups` for a non-empty word list |
| Backend.GroupShape | capstone_legal_main/backend/main.py:61-65 | every group is non-empty and at most `n` long; every group but the last is exactly `n` long |
| Backend.GroupFlatten | capstone_legal_main/backend/main.py:61-67 | the groups laid end to end are the word list |
| Backend.Tokens | capstone_legal_main/backend/main.py:74 | every token is a run of at least three ASCII letters |
| Backend.Score | capstone_legal_main/backend/main.py:75 | a sentence scores at least its token count and at most three times it |
| Backend.ExtractiveSummary | capstone_legal_main/backend/main.py:70-78 | the loop's result is the ranked cut of the scored sentences: `min(max_sentences, n)` of the text's `n` sentences (when `max_sentences` is not negative), each a sentence of the text, in non-increasing score order |
| Backend.Ranked | capstone_legal_main/backend/main.py:76-78 | the specification of the sort and cut: `scored` stably sorted by score, largest first, then `[:max_sentences]`; what it keeps is stated by `RankedProps` |
| Backend.SummaryProps | capstone_legal_main/backend/main.py:70-78 | the summary keeps `min(max_sentences, n)` sentences, each a sentence of the text, in non-increasing score order, and no sentence the cut drops scores higher than a kept one |
| Backend.RankedProps | capstone_legal_main/backend/main.py:76-78 | `min(max_sentences, n)` entries are kept, each pairing a sentence of the text with its own score, sorted by score, largest first; every entry the cut drops scores at most every kept entry |
| Backend.ExtractiveStable | capstone_legal_main/backend/main.py:77-78 | for every score, the kept sentences with that score are the first sentences of the text with that score, in text order |
| Backend.DocStore.constructor | capstone_legal_main/backend/main.py:34 | the store starts empty |
| Backend.DocStore.Upload | capstone_legal_main/backend/main.py:99-110 | exactly the entry for the new id is written, with title, text, sentences and 250-word chunks; other entries are unchanged; the reply's `chars` is the text's length; the new entry has no index |
| Backend.DocStore.Summarize | capstone_legal_main/backend/main.py:112-122 | an unknown id is the "Document not found" error and nothing else is; "abstractive" gives the LED paragraph of the stored text (empty for blank text); any other mode gives the extractive summary of at most five sentences |
| Backend.DocStore.BuildIndex | capstone_legal_main/backend/main.py:124-144 | an unknown id and a document without sentences are errors that leave `DOCS` unchanged; otherwise only that entry gains the SBERT index when the encoder works, or else the TF-IDF index, and the reply reports the sentence count and the retriever |
| Backend.DocStore.Ask | capstone_legal_main/backend/main.py:146-176 | an unknown id and an unindexed document are errors; otherwise the hits are the first `k` sentences of the embedding ranking when present, else of the TF-IDF ranking; the answer is generated from the hits joined by newlines; each citation gives the hit's index and exactly its first min(300, length) characters |
| Backend.UploadIndexAsk | capstone_legal_main/backend/main.py:99-176 | right after upload, ask answers "not indexed"; indexing succeeds exactly when the text has sentences; after a successful index ask answers, and after a failed one it still answers "not indexed" |
| Led.Estimate | capstone_legal_main/backend/summarizer_led.py:47 | the estimate is at least one token, so the running estimate grows with every sentence, and it is a quarter of the length rounded down for sentences of four or more characters |
| Led.ChunkByTokens | capstone_legal_main/backend/summarizer_led.py:39-53 | the loop's chunks are the greedy packing of the sentences, each joined with spaces |
| Led.Pack | capstone_legal_main/backend/summarizer_led.py:44-53 | the specification of the greedy packing the loop performs; its properties are stated by `PackFlatten`, `PackShape` and `PackGreedy` |
| Led.PackFlatten | capstone_legal_main/backend/summarizer_led.py:44-53 | the chunks' sentence lists laid end to end are the sentences of the text, in order, so each sentence lands in exactly one chunk |
| Led.PackShape | capstone_legal_main/backend/summarizer_led.py:47-52 | no chunk is empty; a chunk's summed estimate is within the budget unless the chunk is one sentence that alone exceeds it; there are no more chunks than sentences |
| Led.PackGreedy | capstone_legal_main/backend/summarizer_led.py:48-50 | a chunk is closed only when the next sentence would have taken it over the budget |
| Led.SelectBullets | capstone_legal_main/backend/summarizer_led.py:115 | at most six bullets, each longer than 15 characters |
| Led.BulletsSelection | capstone_legal_main/backend/summarizer_led.py:114-116 | the bullets are the first min(6, n) of the `n` sentences longer than 15 characters, in order, an order-preserving subsequence of the sentences, and no long sentence is skipped when fewer than six come back |
| Led.SummarizeEach | capstone_legal_main/backend/summarizer_led.py:101-104 | one first-pass summary per chunk, in chunk order, each made with the per-chunk settings |
| Led.LedSummarize | capstone_legal_main/backend/summarizer_led.py:89-116 | blank text gives "" (or an empty list for bullets) whatever the generator does; otherwise the result is the final pass over the stitched first-pass summaries, or the bullets selected from its sentences; the result is a list exactly when bullets are wanted |
| MockApi.Hits | capstone_legal_main/src/lib/mockApi.js:22-23 | the hit count lies in 0..5, each phrase counting once however often it occurs |
| MockApi.RiskOf | capstone_legal_main/src/lib/mockApi.js:24-25 | the score lies in 0..100 hundredths; below 100 it is the exact value rounded to the nearest hundredth; no hits and at least 300 characters score 0.35 |
| MockApi.RiskScore | capstone_legal_main/src/lib/mockApi.js:21-26 | every text's risk lies in [0, 1] |
| MockApi.RiskMonotone | capstone_legal_main/src/lib/mockApi.js:24-25 | more hits or a longer text never lower the score |
| MockApi.MorePatternsNoLower | capstone_legal_main/src/lib/mockApi.js:21-25 | at equal length, matching every phrase another text matches never scores lower |
| MockApi.ListClauses | capstone_legal_main/src/lib/mockApi.js:30-33 | at most seven rows, each a row of `rows` and no row more often than there |
| MockApi.AllRows | capstone_legal_main/src/lib/mockApi.js:31 | one row per fixture clause, in fixture order, each the clause plus its risk |
| MockApi.ListClausesProps | capstone_legal_main/src/lib/mockApi.js:30-33 | without a role (absent or empty) all seven rows come back; with one, exactly the rows of that role, in fixture order; every row is its clause plus the clause's risk score |
| MockApi.WordRuns | capstone_legal_main/src/lib/mockApi.js:48 | the query tokens are non-empty runs of word characters |
| MockApi.Overlap | capstone_legal_main/src/lib/mockApi.js:50-52 | the overlap score lies in 0..100 hundredths, is the share of query tokens found rounded to the nearest hundredth, and is 0 for a query without tokens |
| MockApi.SemanticSearch | capstone_legal_main/src/lib/mockApi.js:46-55 | at most eight hits |
| MockApi.SearchProps | capstone_legal_main/src/lib/mockApi.js:46-55 | at most eight hits, each a fixture row with its overlap score in (0, 1], in non-increasing score order; when fewer than eight come back, every matching row is among them |
| MockApi.SearchStable | capstone_legal_main/src/lib/mockApi.js:53-54 | hits of equal score keep fixture order and are the first matching rows with that score |
| MockApi.SearchEmptyQuery | capstone_legal_main/src/lib/mockApi.js:48-53 | a query without word tokens finds nothing |
| MockApi.SearchEmptyIff | capstone_legal_main/src/lib/mockApi.js:49-54 | the search finds nothing exactly when no clause's rounded overlap score is positive |
| MockApi.TopHitIsBest | capstone_legal_main/src/lib/mockApi.js:53-54 | the first hit's score is at least every fixture clause's score |
| MockApi.RagAnswer | capstone_legal_main/src/lib/mockApi.js:58-64 | at most three citations, and no more than there are hits |
| MockApi.RagAnswerProps | capstone_legal_main/src/lib/mockApi.js:58-64 | with hits, the answer is "Likely answer: " plus the best clause's text; the canned reply comes exactly when no clause scores; the citations are the `{id, role}` of the first min(3, hits) hits in rank order |
| RiskView.Shown | capstone_legal_main/src/pages/Risk.jsx:11 | the shown rows are sorted by risk, largest first, and are a permutation of the rows that pass the threshold filter |
| RiskView.ShownProps | capstone_legal_main/src/pages/Risk.jsx:11 | exactly the clauses whose risk reaches the threshold are shown, each unmodified and as a sub-multiset of `listClauses()`, in non-increasing risk order |
| RiskView.ShownAll | capstone_legal_main/src/pages/Risk.jsx:10-11 | at threshold 0 every clause is shown |
| RiskView.ShownStable | capstone_legal_main/src/pages/Risk.jsx:11 | shown clauses of equal risk keep fixture order |
| RiskPill.BandOf | capstone_legal_main/src/ui/RiskPill.jsx:2 | red exactly from 0.6, yellow exactly on [0.3, 0.6), green exactly below 0.3 |
| RiskPill.BandMonotone | capstone_legal_main/src/ui/RiskPill.jsx:2 | a higher score never gets a less severe band |
| RiskPill.BandOfRisk | capstone_legal_main/src/ui/RiskPill.jsx:2 | a clause with three or more risky phrases is always red, and one with none is never red |
| SummarizePage.SummaryField | capstone_legal_main/src/pages/Summarize.jsx:23 | `res?.summary` is present exactly when the reply is an object with that key |
| SummarizePage.AsBullet | capstone_legal_main/src/pages/Summarize.jsx:26 | a string becomes `{text: s}`, anything else passes through, and no bullet is a bare string |
| SummarizePage.Bullets | capstone_legal_main/src/pages/Summarize.jsx:26 | the bullets have the array's length and order |
| SummarizePage.Trim | capstone_legal_main/src/pages/Summarize.jsx:28 | `trim()` gives the slice between the leading and trailing JavaScript whitespace: only whitespace lies outside it, it has none at either end, and it is empty exactly when the string is all whitespace |
| SummarizePage.TrimIsNotStrip | capstone_legal_main/src/pages/Summarize.jsx:28 | `trim()` keeps U+001C, which Python's `strip()` removes, and removes U+FEFF, which Python keeps |
| SummarizePage.Normalize | capstone_legal_main/src/pages/Summarize.jsx:23-31 | at most one of paragraph and bullets is filled, and an error leaves both empty |
| SummarizePage.NormalizeShapes | capstone_legal_main/src/pages/Summarize.jsx:23-31 | an array gives bullets of the same length and order, with no paragraph and no error; a string gives its `trim()` as paragraph, with no JavaScript whitespace at either end; any other shape, a missing field included, gives the fixed error and no result |
| SummarizePage.NormalizeExclusive | capstone_legal_main/src/pages/Summarize.jsx:15-31 | at most one of paragraph and bullets is filled, and the error is set exactly when the shape was not recognised |
| SummarizePage.ErrorReplyIsUnexpected | capstone_legal_main/src/pages/Summarize.jsx:23-31 | the backend's `{error}` reply shows the fixed "Unexpected summary format" error and no summary |
| SummarizePage.SummarizeState.constructor | capstone_legal_main/src/pages/Summarize.jsx:5-11 | the slots start empty, not loading, in "abstractive" mode |
| SummarizePage.SummarizeState.Handle | capstone_legal_main/src/pages/Summarize.jsx:13-39 | slots are cleared first; a throwing call ends the run with its text as error; a returned summary is normalised; a failing index call replaces the error but keeps the summary; `loading` ends false either way; at most one of paragraph and bullets is filled |
| Seqs.SortDescSortedPerm | capstone_legal_main/backend/main.py:77 | the sort yields a non-increasing permutation of its input |
| Seqs.SortDescStable | capstone_legal_main/src/lib/mockApi.js:53 | the sort is stable: for every key, the elements with that key keep their order |
| Seqs.PyPrefix | capstone_legal_main/backend/main.py:78 | `s[:k]` is a prefix of `s` of length min(k, len) for non-negative `k`, and drops `-k` elements from the end for negative `k` |
| Seqs.Filter | capstone_legal_main/src/lib/mockApi.js:32 | the filter keeps exactly the elements satisfying the predicate, as a sub-multiset |

## Left out

- Text extraction (`extract_text`) and the cleanup regexes (`clean_text`): the upload route receives the already cleaned text.
- The document id: `str(uuid.uuid4())[:8]` is the `docId` parameter of `Upload`. A collision with an existing id overwrites that entry, as the source does.
- SBERT encoding, TF-IDF vectorising, cosine similarity and `argsort` in `/index` and `/ask`: floating-point numerics in ML libraries. `/index` takes whether the encoder succeeded (`sbertOk`). `/ask` takes each retriever's ranking, which only names the document's sentences. The embedding and TF-IDF matrices are reduced to the flags `hasEmb` and `hasTfidf`.
- Backend.DocStore.Ask: the citation's rounded similarity score is not modelled.
- Backend.DocStore.BuildIndex: a failure of the TF-IDF fallback itself (for example an empty vocabulary) is not modelled. Neither is the `note` field of the TF-IDF reply.
- The LED model (`_led_once`) and FLAN-T5 (`generate_answer`) are function parameters. Tokenizer truncation to 4096 tokens happens inside the model and is not modelled.
- Python's `(text or "")` guard in `led_summarize` against `None`: the model takes strings only.
- Unicode letters and case: letters, `\w` and lower-casing are ASCII here (whitespace is not; see the conventions above). Python's `str.lower()` and JavaScript's `toLowerCase()` also map a few non-ASCII characters (the Kelvin sign, dotted capital I) onto ASCII letters. The model does not follow that.
- MockApi.RiskScore: `text.length` counts UTF-16 code units; the model counts characters, which differ only for characters outside the Basic Multilingual Plane.
- MockApi.RiskOf and MockApi.Overlap: the scores are computed in binary floating point before `toFixed(2)`. Where the exact value lies on a half hundredth, the float may round down; the model always rounds up.
- `getDoc` and `getSummaries` in `src/lib/mockApi.js`: they return constant fixtures and hold no logic.
- The network wrappers of `src/lib/api.js`: the outcomes of their calls are the parameters of `Handle`. Because those wrappers never check the HTTP status, the backend's `{error}` reply reaches the page as a normal reply.
- SummarizePage.SummarizeState.Handle: `uploadDoc` is taken to resolve to a JSON object (its parameter is a map). A `null` reply, which would make `up.doc_id` throw before `summarize` is called, is not modelled.
- SummarizePage.SummarizeState.Handle: the `localStorage` write of the last document id, and the rendering of the slots, are not modelled.
- RiskPill: the label text `risk {score.toFixed(2)}` and the CSS class strings are presentation only. The band is modelled as a three-valued datatype.
- Risk.jsx: the `useEffect` re-run on every threshold change and the slider's step of 0.05 are not modelled. Any integer threshold in hundredths is allowed.
- JSON numbers in `SummarizePage.Json` carry an integer only: the page looks at a value's type alone.
