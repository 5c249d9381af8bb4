# Grant-proposal qualification pipeline: a Dafny model

This project models the logic of a small retrieval-augmented pipeline that judges whether a
company qualifies for grants. It has two parts.

- **Ingestion** (`embed.py`, module `Embed`):
  - `clean_metadata` normalises a profile's metadata: primitive values stay, lists and objects become their JSON text.
  - `ingest_company_profile` inserts the company profile once, under the fixed id `COMPANY_PROFILE`, after checking the file and the store.
  - `ingest_pdf` joins a PDF's page texts with blank lines, splits the result into chunks and stores one record per chunk, tagged with the file's base name.
- **Qualification** (`qualifier.py` and `qualify.py`, modules `Qualifier` and `Qualify`; their shared logic is in module `Evaluation`):
  - `load_company_profile` reads the stored profile text, or raises when it is missing or empty.
  - `evaluate_each_proposal` visits each proposal PDF. When nothing is indexed for a file, it records a fixed "no" verdict without calling the model. Otherwise it joins the retrieved chunks, builds a prompt, calls the model once, and records the parsed JSON answer or a fallback record.
  - The two scripts differ only in the instruction text of the prompt. In the model, that text is a parameter of the shared logic, and each script's module supplies its own.

Supporting modules:

- `Json`: the JSON value type.
- `Text`: Python's `sep.join`, `str.strip` (with `str.isspace`'s character set) and POSIX `os.path.basename`.
- `VectorStore`: the store as a class holding a map from id to record, plus the shapes of `get` and of a similarity search.
- `Wrappers`: `Option` and `Result`.

External services are parameters of the model: the embedding server, the vector database's
ranking, the chat model, `json.dumps`/`json.load`/`json.loads`, PDF page extraction, the text
splitter and `uuid4`. Each chat-model call is recorded in the returned report as an
`Invocation`, so "the model is not called" can be stated and proved.

The model follows the code where it departs from the pipeline's intended behaviour:

- The profile is skipped when the stored `COMPANY_PROFILE` record has non-empty metadata, not when the record merely exists (embed.py:44).
- A profile document that is stored but empty also makes qualification fail (qualifier.py:21).
- Zero pages do not provably give zero chunks. The text is then empty, but what the splitter makes of empty text is not visible.

## Model

| member | source | states |
|---|---|---|
| `Embed.CleanMetadata` | embed.py:20-27 | The result has exactly the input's keys. Primitive values (str, int, float, bool, None) are copied unchanged. Every list or object is replaced by `Str(dumps(value))`. Every result value is primitive. The result equals the key-by-key specification `Cleaned`. |
| `Embed.CleanedIdempotent` | embed.py:23-26 | Normalising metadata that is already normalised changes nothing. |
| `Embed.CleanedRoundTrip` | embed.py:25-26 | Assuming `loads` inverts `dumps` on the value: a replaced list or object is stored as text, and parsing that text gives the original back. `dumps` and `loads` are oracles, so this is the most the model can state. |
| `Embed.IngestCompanyProfile` | embed.py:29-53 | The branch taken and the new store contents are exactly those given by `IngestProfile` applied to the old contents: missing file, failed load, already indexed, no usable description (the raised KeyError), or one insertion. |
| `Embed.ProfileIndexed` | embed.py:42-44 | Definition of the skip test `metas and metas[0]`: `COMPANY_PROFILE` is stored and its metadata map is non-empty. |
| `Embed.Description` | embed.py:50 | Definition of `company["description"]`: the text when the loaded document is an object whose `description` is a string, and nothing otherwise (the raised error). |
| `Embed.IngestProfileFrame` | embed.py:31-53 | Any outcome other than `Indexed` leaves the store unchanged. `Indexed` happens only when the file exists, loads, and no profile with metadata is stored. It adds exactly the id `COMPANY_PROFILE` and leaves every other record unchanged. The new record holds `company["description"]` with metadata `clean_metadata(company)`. |
| `Embed.IngestProfileIdempotent` | embed.py:41-53 | Ingesting the same file twice leaves the store exactly as one ingestion does. After an insertion, the second run reports `AlreadyIndexed`, because the inserted metadata always contains `description`. |
| `Embed.DocumentText` | embed.py:59 | Definition: the PDF text is every page's `extract_text() or ""` joined by "\n\n", in page order. |
| `Embed.DocumentTextLayout` | embed.py:59 | In the PDF text, each page's text follows the earlier pages' text and one blank line, in page order. |
| `Embed.MissingPageIsEmpty` | embed.py:59 | A page that yields no text (`None`) contributes the same as an empty page. |
| `Embed.WithChunksStep` | embed.py:66-71 | One more `add_texts` call extends the store by the next chunk under the next id. |
| `Embed.WithChunksKeys` | embed.py:65-71 | Inserting the chunks adds exactly the drawn ids as keys. |
| `Embed.WithChunksContents` | embed.py:65-71 | With fresh, distinct ids, each id holds its own chunk with metadata `{"source": filename}`, and every earlier record is unchanged. |
| `Embed.WithChunksCount` | embed.py:65-71 | With fresh, distinct ids, the store grows by exactly the number of chunks. Zero chunks means zero insertions. |
| `Embed.ChunkIds` | embed.py:65 | Definition of `[str(uuid4()) for _ in chunks]`: the `j`-th draw of the generator names the `j`-th chunk. |
| `Embed.ChunkIdsFresh` | embed.py:65 | Ids drawn from a generator that never repeats and never hits a stored id are pairwise distinct and fresh. |
| `Embed.ChunksIngested` | embed.py:65-71 | The `j`-th chunk is stored under the `j`-th drawn id. The store grows by the number of chunks, and earlier records are untouched. |
| `Embed.IngestPdf` | embed.py:55-71 | The new store is the old one plus one record per chunk of `split(pages joined by "\n\n")`, each tagged with `basename(path)`. It grows by exactly the number of chunks, pre-existing records are unchanged, and chunk `j` sits under the `j`-th drawn id. |
| `Text.Basename` | embed.py:56 | Definition of POSIX `os.path.basename`: the characters after the last '/', or the whole path when it has none. The same call is at qualifier.py:30 and qualify.py:38. |
| `Text.BasenameIsLastSegment` | embed.py:56 | The base name has no '/'. It is a suffix of the path, and when shorter than the path it is preceded by '/'. So it is exactly the text after the last '/'. |
| `Text.BasenameOfName` | embed.py:56 | A name without '/' is its own base name. |
| `Text.BasenameIdempotent` | embed.py:56 | Taking the base name twice is taking it once. |
| `Text.Join` | qualifier.py:43 | Definition of `sep.join(parts)`: the parts in order with `sep` between neighbours, and "" for no parts. The same join is at embed.py:59 and qualify.py:57. |
| `Text.JoinPlacesPart` | qualifier.py:43 | In `sep.join(parts)`, part `i` comes right after the join of the parts before it and one separator, so every part appears in order. |
| `Text.JoinOfFew` | qualifier.py:43 | Joining no parts gives "", and joining one part gives that part. |
| `Text.StripLeft` | qualifier.py:61 | Gives a suffix of the input that does not start with whitespace. Every character removed is whitespace. |
| `Text.StripRight` | qualifier.py:61 | Gives a prefix of the input that does not end with whitespace. Every character removed is whitespace. |
| `Text.Strip` | qualifier.py:61 | `output.strip()` neither starts nor ends with whitespace. It occurs in the input at some offset, with only whitespace around it. |
| `Text.StripLeftSkipsSpaces` | qualifier.py:61 | Removing leading whitespace from whitespace followed by non-space-led text gives that text. |
| `Text.StripRightSkipsSpaces` | qualifier.py:61 | Removing trailing whitespace from text followed by whitespace gives that text. |
| `Text.StripUnwraps` | qualifier.py:61 | Stripping text that has no edge whitespace, wrapped in whitespace, gives that text back. So `Strip` is the unique trimming. |
| `Text.StripIdempotent` | qualifier.py:61 | Stripping twice is stripping once. |
| `VectorStore.Store.constructor` | embed.py:18 | Opening the client over the persisted collection shows exactly the records stored there by earlier runs. The `records` map given to `EvaluateProposals` is what the client at qualifier.py:15 would see. |
| `VectorStore.Documents` | qualifier.py:19-20 | Definition of `get(ids=[id], include=["documents"])["documents"]`: the one stored text of `id`, or no documents when `id` is not stored. |
| `VectorStore.Store.GetMetadatas` | embed.py:42-43 | `get(ids=[id], include=["metadatas"])` returns at most one metadata map, and one exactly when the id is stored. It changes nothing. |
| `VectorStore.Store.AddText` | embed.py:49-53 | `add_texts` with one id writes that id and no other. |
| `Evaluation.LoadCompanyProfile` | qualifier.py:18-23 | Succeeds exactly when `COMPANY_PROFILE` is stored with non-empty text, and then returns that text. Otherwise it fails with the `ValueError` message. The same function is at qualify.py:22-28. |
| `Evaluation.ProposalQuery` | qualifier.py:31-35 | Definition of the retrieval request: the fixed text "company profile and grant proposals", `k = 5`, and the filter `source` = file name. The same request is at qualify.py:42-46. |
| `Evaluation.VerdictUsesOwnQuery` | qualifier.py:31-35 | A file's verdict depends on retrieval only through the query ("company profile and grant proposals", k=5, source = file name). |
| `Evaluation.ProposalText` | qualifier.py:43 | Definition of `proposal_text`: the retrieved chunks' `page_content`, joined by "\n\n" in retrieval order. |
| `Evaluation.Contents` | qualifier.py:43 | Definition: the `page_content` of each retrieved chunk, in retrieval order. |
| `Evaluation.ProposalTextOrder` | qualifier.py:43 | `proposal_text` has each chunk's content after the earlier ones and one blank line, in retrieval order. The same join is at qualify.py:57. |
| `Evaluation.Prompt` | qualifier.py:44-52 | Definition of the prompt: "SYSTEM:\n", the instructions, "CONTEXT:\nCompany Profile:\n", the company text, a blank line, "Proposal (<file name>):\n", the proposal text, a blank line and "ASSISTANT (JSON only):". |
| `Evaluation.PromptLayout` | qualifier.py:44-52 | The prompt starts with "SYSTEM:\n" followed by the instructions and ends with "ASSISTANT (JSON only):". Between them it contains the company text, then the file name, then `proposal_text`, in that order. This holds for any instruction text, so it covers qualify.py:60-73 too. |
| `Evaluation.NoContentVerdict` | qualifier.py:37-40 | Definition of the verdict recorded without a model call: `{"qualifies": "no", "reason": "No content indexed for this proposal."}`. |
| `Evaluation.Fallback` | qualifier.py:59-62 | Definition of the record stored on a `JSONDecodeError`: `{"qualifies": null, "reason": output.strip()}`. |
| `Evaluation.ParseOrFallback` | qualifier.py:56-62 | Definition of the answer handling: the value `json.loads` returns, or `Fallback(output)` when it raises. |
| `Evaluation.ParseOrFallbackShape` | qualifier.py:56-64 | Output that parses is stored as parsed, whatever its shape, for example a list of section scores (qualify.py:79-88). Unparsable output gives an object with exactly `qualifies` = null and `reason` = the output without surrounding whitespace. |
| `Evaluation.MalformedAnswerExample` | qualifier.py:56-62 | The unparsable answer `not valid json` becomes `{"qualifies": null, "reason": "not valid json"}`. |
| `Evaluation.Verdict` | qualifier.py:31-62 | Definition of the value stored for one file name: the no-content verdict when retrieval returns nothing, otherwise `ParseOrFallback` of the model's answer to the prompt built from the retrieved chunks. |
| `Evaluation.CallFor` | qualifier.py:31-54 | Definition of the model call made for one file name: none when retrieval returns nothing, otherwise one call with the prompt built from the retrieved chunks. |
| `Evaluation.CallOfShape` | qualifier.py:36-54 | A model call is made for a file name exactly when its retrieval returned chunks, and the call is recorded under that same name. |
| `Evaluation.InvocationsIndexed` | qualifier.py:29-54 | Every recorded model call is the call made for one of the visited base names, and there are at most as many calls as paths. |
| `Evaluation.CallRecorded` | qualifier.py:29-54 | When a visited file name gets a model call, that call is in the log. |
| `Evaluation.InvokedIffIndexed` | qualifier.py:36-54 | For a visited file name, the model is called for it exactly when its retrieval returned chunks. A file with nothing indexed never reaches the model. |
| `Evaluation.PromptsUseScopedChunks` | qualifier.py:31-54 | When the search honours its request (at most `k`, only stored records, only the `source` filter), every model call's prompt is built from between one and five chunks, each stored and tagged with that call's own file name. The same request is at qualify.py:42-46. |
| `Evaluation.VisitStep` | qualifier.py:29-64 | Visiting one more path stores its verdict under its base name, replacing any earlier entry for that name. When its retrieval found chunks, it also appends exactly one model call at the end of the log. |
| `Evaluation.VerdictsRecorded` | qualifier.py:29-64 | The results have exactly one key per visited base name. Each entry is that file's verdict, so when two paths share a base name the entry is the verdict of that name. |
| `Evaluation.AssessProposal` | qualifier.py:31-62 | With no chunks: the fixed verdict `{"qualifies": "no", "reason": "No content indexed for this proposal."}` and no model call. Otherwise: exactly one call, whose prompt is built from the joined chunks, and the parsed answer or the fallback record. |
| `Evaluation.VisitProposals` | qualifier.py:29-64 | The loop over the paths builds exactly the results `Verdicts` gives, and makes exactly the model calls `Invocations` gives, in path order. |
| `Evaluation.EvaluateProposals` | qualifier.py:25-64 | Fails exactly when the profile cannot be loaded. Otherwise `results` has exactly one key per visited base name, each holding that file's verdict, and the model calls made are exactly `Invocations`, in path order. |
| `Qualifier.EvaluateEachProposal` | qualifier.py:25-66 | The same as `Evaluation.EvaluateProposals`, with the yes/no prompt of qualifier.py. |
| `Qualify.EvaluateEachProposal` | qualify.py:31-91 | The same, with the per-section score prompt of qualify.py. A parsed list of section scores is stored unchanged, and a decode failure gives the `{qualifies: null, reason}` fallback. |

## Left out

- Environment loading. `.env`, the configured URLs and model names, and the embedding function are configuration only.
- Embedding computation. A record holds its text and metadata, not its vector, because the Ollama embedding server is an external service.
- Chroma's similarity ranking, upsert internals and on-disk format. The records a client opens with are the constructor's parameter. Retrieval is an oracle parameter. `Conforms` states what a search honouring `k` and the filter returns, and `PromptsUseScopedChunks` assumes it.
- `persist_store`. It only reflects on a foreign client object and does best-effort I/O.
- PDF page extraction. A PDF is the sequence of what `extract_text()` returned for each page (`None` for no text).
- The text splitter. It is an oracle, so nothing is claimed about chunk sizes (1000), overlaps (100), or the chunks of empty text.
- `uuid4`. It is a generator parameter, assumed never to repeat and never to hit a stored id.
- The text produced by `json.dumps`, `json.load` and `json.loads`. These are oracle parameters. A failed `open` or `json.load` is a load returning `None`. A path that exists but cannot be opened, such as a directory, is folded into that case.
- The chat model. It is a deterministic function of the prompt. A real model can answer the same prompt differently, and that is not captured.
- The dict insertion order of `clean_metadata`'s result and of `results`. Dafny maps are unordered, so only contents are modelled.
- The order of `glob` results. The PDF paths are a parameter.
- Printing, `tqdm` progress bars, `os.makedirs`, and the `__main__` drivers of the three scripts (the loop over `grant_docs/*.pdf` in embed.py included).
- Network or store exceptions that propagate and end the run.
- PDF read errors. `PdfReader` raises on a missing or corrupt PDF before any insertion and the run ends. The pages are a parameter, so this is not modelled.
- `Embed.IngestCompanyProfile`: when the loaded document is not an object, or its `description` is missing, the source raises a KeyError or TypeError. When `description` is not a string, the failure comes from the embedding client. The model reports all of these as `MissingDescription`, with the store unchanged, and does not distinguish which exception is raised.
- `Embed.IngestCompanyProfile`: a stored profile whose metadata Chroma returns as `None` is represented by an empty metadata map. Both are falsy in the source's check.
- Float values are opaque 64-bit patterns. The code only passes them through, so no float arithmetic is modelled.
