# Real-estate chatbot knowledge base, modelled in Dafny

This project models the ingestion and retrieval core of a retrieval-augmented
real-estate chatbot:

- the DeepSeek embeddings client (`lib/deepseekEmbeddings.ts`), which covers
  - construction defaults,
  - the check `embedQuery` applies to an HTTP reply,
  - the batching loop of `embedDocuments`;
- the knowledge-base orchestration (`lib/knowledgeBase.ts`), which covers
  - the defaults and guard chain of `processKnowledgeBase`,
  - one document per chunk with positional metadata,
  - building and saving the vector store,
  - the conversion of every failure into a result value in `processKnowledgeBase`, `loadVectorStore` and `searchKnowledgeBase`;
- the command-line front end (`scripts/process-knowledge-base.ts`):
  - `getArg`,
  - the configuration defaults,
  - the input path.

Modules, one per concern:

| module | file | contents |
|---|---|---|
| `Wrappers` | `wrappers.dfy` | `Option` and `Result` |
| `Js` | `js.dfy` | the JavaScript semantics the code relies on: JSON values and truthiness, reading a property of `null`/`undefined` (a `TypeError`), `trim`, `parseInt` with no radix, decimal rendering |
| `NodePath` | `node_path.dfy` | POSIX `path.join`, `path.basename`, `path.dirname` |
| `Embeddings` | `embeddings.dfy` | `DeepSeekEmbeddings` |
| `KnowledgeBase` | `knowledge_base.dfy` | `processKnowledgeBase`, `loadVectorStore`, `searchKnowledgeBase` |
| `ProcessScript` | `process_script.dfy` | `getArg` and `main` |

Everything outside the modelled code is a parameter:

- In `Embeddings`:
  - `fetch` is a `Transport` function from a request to a reply or a rejection. The reply's `json()` outcome is part of the reply.
  - `embedDocuments` is stated against an `Embedder`, the single-text call. `QueryOf(client, transport)` is the client's own `embedQuery`.
- In `KnowledgeBase`, an `Env` value holds:
  - the working directory and `DEEPSEEK_API_KEY`;
  - `fs.existsSync`, `readFileSync` and `mkdirSync`;
  - the text splitter;
  - `HNSWLib.fromDocuments`, `save`, `load` and `similaritySearch`.

  `Ingest` returns the writes it made (directory creations and store saves) next to its outcome, so "nothing is saved on failure" can be stated.

`embedDocuments` is an imperative method. Its while loop mirrors the source's `for` loop. Alongside the result it returns:

- the progress lines it prints;
- as ghost outputs, the slices it sent, the number of `embedQuery` calls it started and the number of pauses it made.

Its postcondition ties the result to the specification function `EmbedAll`. The lemmas about `EmbedAll` and the batching functions carry the properties.

Three behaviours of the code that the model keeps as written:

- **`embedQuery` sends any text.** It makes no check on its input (`lib/deepseekEmbeddings.ts:12-24`): the empty text is sent like any other.
- **A failed batch call does not stop the others.** `Promise.all` starts every call of a batch together (`lib/deepseekEmbeddings.ts:53-55`), so when one of them fails, all the calls of that batch have already started. `EmbedDocuments` counts those calls in `calls`. No later batch starts.
- **Chunk parameters are not checked.** `processKnowledgeBase` passes whatever it was given to the splitter, `NaN` included (`lib/knowledgeBase.ts:20-25` and `49-52`). A `NaN` comes from the script's `parseInt`, and the destructuring default does not replace it, because `NaN` is not `undefined`.

## Model

| member | source | states |
|---|---|---|
| Js.FalsyValues | lib/deepseekEmbeddings.ts:32 | both directions: a value is falsy exactly when it is `undefined`, `null`, `false`, `0` or `""`; so every array and every object, even an empty one, is truthy |
| Js.GetField | lib/deepseekEmbeddings.ts:32 | reading `data`/`embedding` throws exactly on `null` or `undefined`; an object yields its own key's value or `undefined`; any other value yields `undefined` |
| Js.GetIndex | lib/deepseekEmbeddings.ts:32 | `v[0]` throws exactly on `null`/`undefined`; an array yields its element or `undefined` past the end; an object yields its key `"0"` |
| Js.Decimal | lib/deepseekEmbeddings.ts:27 | the status code renders as a non-empty string of decimal digits with no leading zero |
| Js.TrimStart | lib/knowledgeBase.ts:42 | the result is a suffix of the input; everything removed is whitespace; the result does not start with whitespace |
| Js.TrimEnd | lib/knowledgeBase.ts:42 | the result is a prefix of the input; everything removed is whitespace; the result does not end with whitespace |
| Js.Trim | lib/knowledgeBase.ts:42 | the result is never longer than the text; a non-empty result neither starts nor ends with whitespace |
| Js.TrimOfTrimmed | lib/knowledgeBase.ts:42 | a text with no whitespace at either end is its own `trim`; `trim` is idempotent |
| Js.TrimOfPadded | lib/knowledgeBase.ts:42 | whitespace added on both sides of such a text is removed again, and nothing else is |
| Js.TrimEmptyIffWhiteSpace | lib/knowledgeBase.ts:42 | `!text.trim()` holds exactly when the text is whitespace only, the empty text included |
| Js.DecimalValue | lib/deepseekEmbeddings.ts:27 | the decimal text of `n` reads back as `n` |
| Js.ParseInt | scripts/process-knowledge-base.ts:24 | a text that is empty or whitespace only gives `NaN`; a negative result comes only from a leading `-`; a text that starts with a decimal digit, other than the prefix `0x`/`0X`, gives a non-negative integer |
| Js.ParseIntSkipsWhiteSpace | scripts/process-knowledge-base.ts:24 | leading whitespace makes no difference |
| Js.ParseIntStopsAtNonDigit | scripts/process-knowledge-base.ts:24 | reading stops at the first character that is not a digit: `200px` and `7.5` give 200 and 7 |
| Js.ParseIntDecimal | scripts/process-knowledge-base.ts:24 | `parseInt` of the decimal text of a non-negative integer gives that integer |
| Js.ParseIntNegative | scripts/process-knowledge-base.ts:24 | `parseInt` of `-` followed by the decimal text of `n > 0` gives `-n` |
| Js.ParseIntNoDigits | scripts/process-knowledge-base.ts:24 | a text with no decimal digit at all gives `NaN`: the empty text, `abc`, `-` |
| NodePath.Join | lib/knowledgeBase.ts:81 | the result is never empty; it is `.` when every segment is empty; a single non-empty segment comes back unchanged |
| NodePath.JoinSkipsEmpty | lib/knowledgeBase.ts:81 | an empty segment anywhere among the arguments makes no difference |
| NodePath.JoinThree | lib/knowledgeBase.ts:81 | `path.join(cwd, 'data', p)` for non-empty segments is `cwd/data/p` |
| NodePath.Basename | lib/knowledgeBase.ts:65 | the file name has no `/` and is the longest `/`-free tail of the path once trailing slashes are gone |
| NodePath.Dirname | lib/knowledgeBase.ts:82 | the result is never empty; a path with no `/` gives `.`; any answer other than `.` and `/` is a proper prefix of the path that stops just before a `/` |
| NodePath.DirnameOfChild | lib/knowledgeBase.ts:82 | the directory of `dir/name` is `dir` |
| Embeddings.OrElse | lib/deepseekEmbeddings.ts:8-9 | `given \|\| fallback`: the given text when present and non-empty, the fallback otherwise |
| Embeddings.NewClient | lib/deepseekEmbeddings.ts:6-10 | the key is kept; a missing options object, an absent option or an empty option each give `https://api.deepseek.com/v1` and `deepseek-embed` |
| Embeddings.DefaultsWhenAbsentOrEmpty | lib/deepseekEmbeddings.ts:8-9 | absent and empty options both give exactly the default client |
| Embeddings.RequestFor | lib/deepseekEmbeddings.ts:14-23 | the request goes to `<baseUrl>/embeddings` with the client's key and model and the text as input |
| Embeddings.ValidateReply | lib/deepseekEmbeddings.ts:26-36 | a reply that is not ok fails with `DeepSeek API error: <status> <statusText>` whatever its body; an accepted embedding is truthy |
| Embeddings.AcceptedShapes | lib/deepseekEmbeddings.ts:26-36 | both directions: the reply is accepted with embedding `e` exactly when it is ok, its body parses, and `data` is a non-empty array or an object with key `"0"` whose first entry is an object with truthy `embedding` `e`; the embedding is returned unchanged |
| Embeddings.RejectionReasons | lib/deepseekEmbeddings.ts:26-34 | every rejection is one of four: the status message, the body's own parse error, the `TypeError` for a `null` body, or `Invalid response format from DeepSeek API` |
| Embeddings.MalformedReply | lib/deepseekEmbeddings.ts:32-34 | an ok reply whose parsed body is an object or primitive carrying no embedding fails with the format message |
| Embeddings.EmptyEmbeddingAccepted | lib/deepseekEmbeddings.ts:32-36 | an empty array is truthy, so `{"data":[{"embedding":[]}]}` is accepted and yields `[]` |
| Embeddings.EmbedQuery | lib/deepseekEmbeddings.ts:12-41 | a rejected `fetch` is rethrown unchanged; a reply that is not ok fails with `DeepSeek API error: <status> <statusText>`; an embedding returned is one carried by the parsed body of an ok reply to the request for this text |
| Embeddings.EmbedQueryAccepts | lib/deepseekEmbeddings.ts:12-41 | both directions: the query yields `e` exactly when the request reaches the server, the reply is ok and its body parses to a shape carrying `e` |
| Embeddings.FirstFailure | lib/deepseekEmbeddings.ts:53-55 | the index of the first failed call: every earlier call succeeded and the call at that index failed |
| Embeddings.CollectSpec | lib/deepseekEmbeddings.ts:53-55 | `Promise.all` over a batch succeeds exactly when no call failed; it then keeps every value in place, and otherwise fails with the first failure |
| Embeddings.CollectAppend | lib/deepseekEmbeddings.ts:53-57 | settling two parts in turn and concatenating equals settling the whole: the first part's failure wins, then the second's |
| Embeddings.FirstFailureAppend | lib/deepseekEmbeddings.ts:53-55 | the first failure of a concatenation lies in the first part if it has one, and is offset into the second otherwise |
| Embeddings.Outcomes | lib/deepseekEmbeddings.ts:54 | one outcome per text, position by position |
| Embeddings.EmbedAllSpec | lib/deepseekEmbeddings.ts:43-70 | `embedDocuments` succeeds exactly when every text embeds; its result then has one embedding per text, `result[i]` being the embedding of `texts[i]`; otherwise it fails with the error of the first text that did not embed |
| Embeddings.BatchCountIsCeiling | lib/deepseekEmbeddings.ts:51 | `Math.ceil(n / 10)` is the least batch count that covers `n` texts, and is 0 exactly for `n = 0` |
| Embeddings.BatchesPartition | lib/deepseekEmbeddings.ts:46-50 | the batches put together give back the input; there are ceil(n/10) of them, each non-empty and of at most ten texts |
| Embeddings.BatchAt | lib/deepseekEmbeddings.ts:49-50 | batch `k` is the slice `[10k, min(10k + 10, n))` |
| Embeddings.SlicesAreBatches | lib/deepseekEmbeddings.ts:49-50 | ceil(n/10) slices laid out at `i = 0, 10, 20, ...` are exactly the batches |
| Embeddings.OutcomesSlice | lib/deepseekEmbeddings.ts:50-54 | embedding a slice gives the slice of the outcomes |
| Embeddings.SettleBatch | lib/deepseekEmbeddings.ts:53-55 | one batch settles as `Promise.all` does; on success it holds one embedding per text of the batch, in order |
| Embeddings.LoopAdvance | lib/deepseekEmbeddings.ts:49-62 | a batch that succeeds: the loop invariant is kept, and a pause is counted exactly when another batch follows |
| Embeddings.LoopFailure | lib/deepseekEmbeddings.ts:49-69 | a batch that fails: the whole call fails with that batch's error; no later batch is started; the progress count is that of the batch holding the first failing text |
| Embeddings.LoopDone | lib/deepseekEmbeddings.ts:49-65 | at loop exit every text embedded in order; the batches sent are exactly the batches; ceil(n/10) progress lines; `n` calls; one pause fewer than batches, or none for empty input |
| Embeddings.EmbedDocuments | lib/deepseekEmbeddings.ts:43-70 | the result equals `EmbedAll`; batch `k` sent is the slice `[10k, min(10k + 10, n))`; progress line `j` is `j+1/ceil(n/10)` and never exceeds the total; success sends every batch, makes `n` calls and pauses `max(0, ceil(n/10) - 1)` times; failure stops after the batch holding the first failing text, with one pause per earlier batch |
| KnowledgeBase.ApplyDefaults | lib/knowledgeBase.ts:20-25 | an option left undefined takes 1000, 200, `vectorstore` or `deepseek-embed`; a given value, even `""` or `NaN`, is kept |
| KnowledgeBase.MakeDocuments | lib/knowledgeBase.ts:58-68 | one document per chunk: document `i` has content `chunks[i]`, chunk index `i`, total `\|chunks\|`, source the file path and file name its basename |
| KnowledgeBase.DocumentsAlignWithChunks | lib/knowledgeBase.ts:58-68 | the documents' contents give back the chunks in order; chunk indices increase and stay below the common total; every document names the same source and file name |
| KnowledgeBase.CheckInputs | lib/knowledgeBase.ts:27-44 | the guards in their order: file missing gives `Knowledge base file not found: <path>`; no key or an empty key gives the key message; a read failure is passed on; whitespace-only text gives `Knowledge base file is empty`; passing all of them yields the text read |
| KnowledgeBase.IngestClient | lib/knowledgeBase.ts:72-74 | the store is built with the environment's key, the default URL, and the configured model (`deepseek-embed` if that is empty) |
| KnowledgeBase.Persist | lib/knowledgeBase.ts:80-87 | the directory of `<cwd>/data/<path>` is created only when it does not exist; the save is attempted only if that creation succeeded; the outcome is clean exactly when both steps are; the error reported is that of `mkdirSync` when it failed and that of `save` otherwise; at most two writes, to that directory and that path only |
| KnowledgeBase.Build | lib/knowledgeBase.ts:49-92 | at most two writes, only the store's directory and saves at `<cwd>/data/<vectorStorePath>`; nothing is written unless the split and `fromDocuments` succeeded; a success reports the number of chunks the splitter produced |
| KnowledgeBase.Ingest | lib/knowledgeBase.ts:27-92 | a failed guard is passed on as thrown, with nothing written; otherwise at most two writes, only the store's directory and saves at `<cwd>/data/<vectorStorePath>` |
| KnowledgeBase.OnlySettingsMatter | lib/knowledgeBase.ts:20-25 | two option objects that resolve to the same settings give the same result |
| KnowledgeBase.ProcessKnowledgeBase | lib/knowledgeBase.ts:15-99 | never throws; success carries the chunk count and no error; every failure is `{success: false, chunkCount: 0}` with the thrown `Error`'s message, or `Unknown error occurred` when something else was thrown |
| KnowledgeBase.GuardOrder | lib/knowledgeBase.ts:27-44 | file, then key, then read, then content: the first guard that fails decides the reported error, and nothing is written when any of the four fires |
| KnowledgeBase.SplitOrEmbedFailure | lib/knowledgeBase.ts:49-98 | once the guards pass, a failing splitter or a failing `fromDocuments` gives `{success: false, chunkCount: 0}` with that failure's message, and nothing is written |
| KnowledgeBase.StoreWriteFailure | lib/knowledgeBase.ts:81-98 | once the store is built, a failing `mkdirSync` gives `{success: false, chunkCount: 0}` with its message after the one directory write; a failing save gives its message after the save, preceded by the directory write when the directory was missing |
| KnowledgeBase.GuardsRunBeforeAnyWork | lib/knowledgeBase.ts:27-54 | when a guard fails, the outcome does not depend on the splitter, the embedder, the store or any other file: two environments that agree on the guards agree on the outcome |
| KnowledgeBase.SavedOnlyWhatWasBuilt | lib/knowledgeBase.ts:54-87 | any store saved is the one built from the documents of the split text, with a client for the configured model, saved at `<cwd>/data/<vectorStorePath>`; so a failed split or embedding leaves no store behind |
| KnowledgeBase.BuildSaves | lib/knowledgeBase.ts:54-87 | the same property for the stage after the guards |
| KnowledgeBase.BuildSucceeds | lib/knowledgeBase.ts:54-92 | a successful stage after the guards reports the split's chunk count, and its last write is a successful save at the configured path |
| KnowledgeBase.SuccessMeansSaved | lib/knowledgeBase.ts:87-92 | success is `{success: true, chunkCount: \|chunks\|}`, and the last write was a successful save at `<cwd>/data/<vectorStorePath>` |
| KnowledgeBase.LoadVectorStore | lib/knowledgeBase.ts:101-125 | a store is returned exactly when the key is set, `<cwd>/data/<path>.index` exists and loading succeeds; it is then the loaded store. The path defaults to `vectorstore`. In every other case the result is `null` |
| KnowledgeBase.SearchKnowledgeBase | lib/knowledgeBase.ts:127-148 | `[]` when no store loads or the search fails; otherwise the store's own answer for the same query and `k`, with `k` defaulting to 5 |
| KnowledgeBase.SaveAndLoadAgreeOnPath | lib/knowledgeBase.ts:81-110 | for the load path only: the path a store is saved at is the path `loadVectorStore(vectorStorePath)` tests and loads from, and with no options on either side both use `vectorstore` |
| ProcessScript.Args | scripts/process-knowledge-base.ts:19 | the arguments after the first two entries of `argv`, or none |
| ProcessScript.Find | scripts/process-knowledge-base.ts:21 | the index of the first argument with the prefix, or none when no argument has it |
| ProcessScript.TakeUntil | scripts/process-knowledge-base.ts:23 | the longest prefix with no `=`, followed by `=` if anything follows |
| ProcessScript.SplitOn | scripts/process-knowledge-base.ts:23 | `split('=')`: at least one piece; the first piece is the text before the first `=`; no piece holds `=`; there are two or more pieces exactly when the text holds `=` |
| ProcessScript.SplitJoin | scripts/process-knowledge-base.ts:23 | splitting loses nothing: joining the pieces with `=` gives the text back |
| ProcessScript.GetArg | scripts/process-knowledge-base.ts:20-27 | no argument with the prefix `--<name>=` gives the default unchanged; otherwise the first such argument's `split('=')[1]` is used, through `parseInt` exactly when the default is a number; the value's kind is the default's kind |
| ProcessScript.ValueIsFirstSegment | scripts/process-knowledge-base.ts:23 | for a name without `=`, the value is the text between the first and the second `=`; anything after a second `=` is dropped |
| ProcessScript.SingleMatch | scripts/process-knowledge-base.ts:20-27 | a lone `--<name>=<rest>` gives the first segment of `rest`, parsed when the default is a number |
| ProcessScript.FirstMatchWins | scripts/process-knowledge-base.ts:21 | when several arguments match, the first one decides, whatever follows |
| ProcessScript.NearMissesAreIgnored | scripts/process-knowledge-base.ts:21 | `--chunk-sizes=5` and a bare `--chunk-size` do not match `chunk-size`, so the default stays |
| ProcessScript.EmptyValues | scripts/process-knowledge-base.ts:23-24 | `--file=` gives `""` and `--chunk-size=` gives `NaN`; an empty value does not bring the default back |
| ProcessScript.NumberRoundTrip | scripts/process-knowledge-base.ts:24 | a first matching argument `--<name>=<decimal n>` yields exactly `n` |
| ProcessScript.TextArg | scripts/process-knowledge-base.ts:33-36 | the string `getArg` returns for a string default |
| ProcessScript.NumberArg | scripts/process-knowledge-base.ts:34-35 | the number `getArg` returns for a number default |
| ProcessScript.Configure | scripts/process-knowledge-base.ts:33-36 | each configuration field is `getArg` of its name with its default: `real-estate-knowledge.md`, 1000, 200, `vectorstore` |
| ProcessScript.OptionsOf | scripts/process-knowledge-base.ts:47-51 | the options passed leave `embedModel` out; they resolve to exactly the configured chunk size, overlap and output path with the default model `deepseek-embed` |
| ProcessScript.Run | scripts/process-knowledge-base.ts:38-51 | `main` processes the configured file under `<cwd>/data`, spelled `<cwd>/data/<file>` when both names are non-empty, with the configured chunk size, overlap and output path and the default embedding model |
| ProcessScript.DefaultRun | scripts/process-knowledge-base.ts:33-51 | with no `--` arguments: the defaults are used; the settings equal what the library picks with no options at all; the run processes `<cwd>/data/real-estate-knowledge.md` |
| ProcessScript.NoOptionNoMatch | scripts/process-knowledge-base.ts:21 | arguments that do not start with `--` match no name |
| ProcessScript.InputPathShape | scripts/process-knowledge-base.ts:38 | for a non-empty working directory and file name, the input path is `<cwd>/data/<file>` |

## Left out

- Console output (progress lines are modelled as data, the rest is not), `process.exit`, the `unhandledRejection` handler and the exit status of the script: process handling, not logic.
- `scripts/test-knowledge-base.ts`: it only runs fixed queries and prints the results.
- The internals of `RecursiveCharacterTextSplitter` and of `HNSWLib` (building the index, `save`, `load`, `similaritySearch`): external libraries, so they are oracles in `Env`. An oracle's result is a value or a thrown exception. `HNSWLib.fromDocuments` calling the client's `embedDocuments` is inside the library and is not connected to `Embeddings.EmbedDocuments` here.
- The shared call order across oracles. The file system, environment and store are all oracles, so two calls to one oracle with equal arguments give equal answers. An existence check is therefore not affected by an earlier `mkdirSync`. Only the order of the writes is tracked.
- HTTP transport: headers, bearer authentication and JSON encoding of the request. `fetch` is an oracle over the `Request` value, which records the URL, key, model and input.
- Concurrency and timing in `embedDocuments`: `Promise.all` runs the calls of a batch concurrently and rejects with the first rejection in time. The model settles a batch in index order. When several calls of a batch fail, it reports the one with the lowest index. The 100 ms delay is a ghost pause counter, not time.
- Embedding values: an embedding is whatever JSON value `data[0].embedding` holds (`JsValue`). No floating-point vectors are modelled.
- Embeddings.EmbedDocuments: an unusual `texts` array is not modelled: no holes, and no `length` changing during the loop. The input is a Dafny sequence.
- NodePath.Join: path normalisation is not modelled. `path.join` also collapses repeated `/` and resolves `.` and `..` segments. The model only drops empty segments and joins the rest with `/`. This matches Node for the paths built here when the segments are plain names and the working directory is not `/`. For a working directory of `/` the model gives `//data/<file>` where Node gives `/data/<file>`.
- Js.ParseInt: JavaScript numbers are doubles. The model does not round integers beyond 2^53 and does not produce `-0` (for `"-0"` it returns `0`).
- NodePath.Dirname: Node keeps a leading `//` as the root, so `path.dirname("//a")` is `//`; the model answers `/`. No path built here starts with `//` unless the working directory is `/`.
- Js.Trim: its own contract states only the length and the two ends of the result. That what is removed is whitespace, and that the result is the middle slice of the text, is stated by the contracts of `Js.TrimStart` and `Js.TrimEnd`, one side each.
- Js.Trim: a character is a Unicode code point, whereas JavaScript strings are UTF-16 code units. Strings here have no unpaired surrogates.
- KnowledgeBase.SearchKnowledgeBase: `k` is an integer. A fractional or `NaN` `k` is passed to the store unchanged in the source and is not modelled.
- KnowledgeBase.SaveAndLoadAgreeOnPath: the agreement covers the path only. `loadVectorStore` first tests `<path>.index` with `existsSync`, and that test is an oracle of its own, unrelated to `save` in the model. Which files `HNSWLib.save` writes is library behaviour and is not part of this model.
- Js.FalsyValues: JSON numbers are modelled as reals, so `NaN` (falsy in JavaScript) has no `JsValue`; a parsed reply body cannot contain it.
- Js.GetField: only own keys of JSON objects are looked up. The names read (`data`, `embedding`) are not properties of any built-in prototype, so inherited properties make no difference.
