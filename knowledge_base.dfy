/**
 * The orchestration in the knowledge-base library: `processKnowledgeBase`
 * (defaults, the guard chain, one document per chunk, building and saving
 * the store, and the conversion of every throw into a failed result), and
 * the query side, `loadVectorStore` and `searchKnowledgeBase`, whose
 * failures become `null` and `[]`. The file system, the environment, the
 * text splitter and the vector-store library are the oracles of `Env`.
 */
module KnowledgeBase {

  import opened Wrappers
  import opened Js
  import NodePath
  import Embeddings

  const DefaultChunkSize := 1000
  const DefaultChunkOverlap := 200
  const DefaultStorePath := "vectorstore"
  const DefaultResultCount := 5
  const NotFoundPrefix := "Knowledge base file not found: "
  const ApiKeyRequired := "DEEPSEEK_API_KEY environment variable is required"
  const EmptyFileMessage := "Knowledge base file is empty"
  const UnknownError := "Unknown error occurred"

  /** `ProcessingOptions`: every member may be left out (`None`). */
  datatype ProcessingOptions = ProcessingOptions(
    chunkSize: Option<Number>,
    chunkOverlap: Option<Number>,
    vectorStorePath: Option<string>,
    embedModel: Option<string>)

  /** The options once the destructuring defaults are applied. */
  datatype Settings = Settings(chunkSize: Number, chunkOverlap: Number, vectorStorePath: string, embedModel: string)

  datatype Metadata = Metadata(source: string, chunkIndex: nat, totalChunks: nat, fileName: string)

  /** A LangChain `Document`: the chunk text and where it came from. */
  datatype Document = Document(pageContent: string, metadata: Metadata)

  /** The handle of an `HNSWLib` store; what a handle holds is up to the store library. */
  type StoreHandle = nat

  /** A change to the file system: a directory created or a store saved. */
  datatype Write = MakeDirectory(path: string) | SaveStore(store: StoreHandle, path: string)

  /**
   * Everything outside the modelled code: the working directory, the
   * `DEEPSEEK_API_KEY` variable, `fs`, the text splitter and `HNSWLib`.
   */
  datatype Env = Env(
    cwd: string,
    apiKey: Option<string>,
    fileExists: string -> bool,
    readFile: string -> Result<string, Exception>,
    mkdir: string -> Option<Exception>,
    split: (string, Number, Number) -> Result<seq<string>, Exception>,
    fromDocuments: (seq<Document>, Embeddings.Client) -> Result<StoreHandle, Exception>,
    save: (StoreHandle, string) -> Option<Exception>,
    load: (string, Embeddings.Client) -> Result<StoreHandle, Exception>,
    similaritySearch: (StoreHandle, string, int) -> Result<seq<Document>, Exception>)

  /** What `processKnowledgeBase` resolves with. */
  datatype ProcessResult = ProcessResult(success: bool, chunkCount: nat, error: Option<string>)

  /** The destructuring `{ chunkSize = 1000, ... } = options`: a default replaces only a missing member. */
  function ApplyDefaults(options: ProcessingOptions): (s: Settings)
    ensures options.chunkSize.None? ==> s.chunkSize == Int(DefaultChunkSize)
    ensures options.chunkOverlap.None? ==> s.chunkOverlap == Int(DefaultChunkOverlap)
    ensures options.vectorStorePath.None? ==> s.vectorStorePath == DefaultStorePath
    ensures options.embedModel.None? ==> s.embedModel == Embeddings.DefaultModel
    ensures options.chunkSize.Some? ==> s.chunkSize == options.chunkSize.value
    ensures options.chunkOverlap.Some? ==> s.chunkOverlap == options.chunkOverlap.value
    ensures options.vectorStorePath.Some? ==> s.vectorStorePath == options.vectorStorePath.value
    ensures options.embedModel.Some? ==> s.embedModel == options.embedModel.value
  {
    Settings(
      if options.chunkSize.Some? then options.chunkSize.value else Int(DefaultChunkSize),
      if options.chunkOverlap.Some? then options.chunkOverlap.value else Int(DefaultChunkOverlap),
      if options.vectorStorePath.Some? then options.vectorStorePath.value else DefaultStorePath,
      if options.embedModel.Some? then options.embedModel.value else Embeddings.DefaultModel)
  }

  /** `!process.env.DEEPSEEK_API_KEY` is false: the variable is set and not empty. */
  predicate HasApiKey(env: Env)
  {
    env.apiKey.Some? && env.apiKey.value != ""
  }

  /** `path.join(process.cwd(), 'data', name)`. */
  function DataPath(cwd: string, name: string): string
  {
    NodePath.Join([cwd, "data", name])
  }

  /** `chunks.map((chunk, index) => new Document(...))`. */
  function MakeDocuments(chunks: seq<string>, filePath: string): (docs: seq<Document>)
    ensures |docs| == |chunks|
    ensures forall i :: 0 <= i < |chunks| ==>
      docs[i] == Document(chunks[i], Metadata(filePath, i, |chunks|, NodePath.Basename(filePath)))
  {
    seq(|chunks|, i requires 0 <= i < |chunks| =>
      Document(chunks[i], Metadata(filePath, i, |chunks|, NodePath.Basename(filePath))))
  }

  function PageContents(docs: seq<Document>): (texts: seq<string>)
    ensures |texts| == |docs|
    ensures forall i :: 0 <= i < |docs| ==> texts[i] == docs[i].pageContent
  {
    seq(|docs|, i requires 0 <= i < |docs| => docs[i].pageContent)
  }

  /**
   * The documents give back the chunks in order, number them 0, 1, 2, ...,
   * agree on the total, and all name the same source file.
   */
  lemma DocumentsAlignWithChunks(chunks: seq<string>, filePath: string)
    ensures PageContents(MakeDocuments(chunks, filePath)) == chunks
    ensures var docs := MakeDocuments(chunks, filePath);
      forall i, j :: 0 <= i < j < |docs| ==> docs[i].metadata.chunkIndex < docs[j].metadata.chunkIndex
    ensures var docs := MakeDocuments(chunks, filePath);
      forall i :: 0 <= i < |docs| ==>
        docs[i].metadata.totalChunks == |docs| && docs[i].metadata.chunkIndex < docs[i].metadata.totalChunks
    ensures var docs := MakeDocuments(chunks, filePath);
      forall i :: 0 <= i < |docs| ==>
        docs[i].metadata.source == filePath && docs[i].metadata.fileName == NodePath.Basename(filePath)
  {
  }

  /**
   * The guards at the top of the `try`, in their order: the file exists, the
   * key is set, and the text read is not whitespace only. The text on success.
   */
  function CheckInputs(env: Env, filePath: string): (r: Result<string, Exception>)
    ensures !env.fileExists(filePath) ==> r == Failure(Error(NotFoundPrefix + filePath))
    ensures env.fileExists(filePath) && !HasApiKey(env) ==> r == Failure(Error(ApiKeyRequired))
    ensures env.fileExists(filePath) && HasApiKey(env) && env.readFile(filePath).Failure? ==>
      r == Failure(env.readFile(filePath).error)
    ensures (env.fileExists(filePath) && HasApiKey(env) && env.readFile(filePath).Success?
             && AllWhiteSpace(env.readFile(filePath).value)) ==>
      r == Failure(Error(EmptyFileMessage))
    ensures r.Success? <==>
      env.fileExists(filePath) && HasApiKey(env) && env.readFile(filePath).Success?
      && !AllWhiteSpace(env.readFile(filePath).value)
    ensures r.Success? ==> env.readFile(filePath) == Success(r.value)
  {
    if !env.fileExists(filePath) then Failure(Error(NotFoundPrefix + filePath))
    else if !HasApiKey(env) then Failure(Error(ApiKeyRequired))
    else
      match env.readFile(filePath)
      case Failure(e) => Failure(e)
      case Success(text) =>
        TrimEmptyIffWhiteSpace(text);
        if Trim(text) == "" then Failure(Error(EmptyFileMessage)) else Success(text)
  }

  /**
   * Splitting the text, one document per chunk, building the store with a
   * client for the configured model, and persisting it: the chunk count or
   * what was thrown, and the writes made.
   */
  function Build(env: Env, filePath: string, text: string, s: Settings): (r: (Result<nat, Exception>, seq<Write>))
    requires HasApiKey(env)
    ensures |r.1| <= 2
    ensures var full := DataPath(env.cwd, s.vectorStorePath);
      forall w :: w in r.1 ==> w == MakeDirectory(NodePath.Dirname(full)) || (w.SaveStore? && w.path == full)
    ensures r.1 != [] ==>
      env.split(text, s.chunkSize, s.chunkOverlap).Success?
      && var chunks := env.split(text, s.chunkSize, s.chunkOverlap).value;
      env.fromDocuments(MakeDocuments(chunks, filePath), IngestClient(env, s)).Success?
    ensures r.0.Success? ==>
      env.split(text, s.chunkSize, s.chunkOverlap).Success?
      && r.0.value == |env.split(text, s.chunkSize, s.chunkOverlap).value|
  {
    match env.split(text, s.chunkSize, s.chunkOverlap)
    case Failure(e) => (Failure(e), [])
    case Success(chunks) =>
      match env.fromDocuments(MakeDocuments(chunks, filePath), IngestClient(env, s))
      case Failure(e) => (Failure(e), [])
      case Success(store) =>
        var (failure, writes) := Persist(env, store, s.vectorStorePath);
        if failure.Some? then (Failure(failure.value), writes) else (Success(|chunks|), writes)
  }

  /**
   * The body of the `try` in `processKnowledgeBase`: the chunk count, or
   * what was thrown, together with the writes made to the file system.
   */
  function Ingest(env: Env, filePath: string, options: ProcessingOptions): (r: (Result<nat, Exception>, seq<Write>))
    ensures CheckInputs(env, filePath).Failure? ==> r == (Failure(CheckInputs(env, filePath).error), [])
    ensures |r.1| <= 2
    ensures var full := DataPath(env.cwd, ApplyDefaults(options).vectorStorePath);
      forall w :: w in r.1 ==> w == MakeDirectory(NodePath.Dirname(full)) || (w.SaveStore? && w.path == full)
  {
    match CheckInputs(env, filePath)
    case Failure(e) => (Failure(e), [])
    case Success(text) => Build(env, filePath, text, ApplyDefaults(options))
  }

  /**
   * Creating the store's directory when it is missing, then saving the store
   * at `<cwd>/data/<vectorStorePath>`: what was thrown, if anything, and the writes made.
   */
  function Persist(env: Env, store: StoreHandle, vectorStorePath: string): (r: (Option<Exception>, seq<Write>))
    ensures var full := DataPath(env.cwd, vectorStorePath);
      var dir := NodePath.Dirname(full);
      r.1 == (if env.fileExists(dir) then [] else [MakeDirectory(dir)])
             + (if !env.fileExists(dir) && env.mkdir(dir).Some? then [] else [SaveStore(store, full)])
    ensures var full := DataPath(env.cwd, vectorStorePath);
      var dir := NodePath.Dirname(full);
      r.0.None? <==> (env.fileExists(dir) || env.mkdir(dir).None?) && env.save(store, full).None?
    ensures var full := DataPath(env.cwd, vectorStorePath);
      var dir := NodePath.Dirname(full);
      r.0.Some? ==> r.0 == (if !env.fileExists(dir) && env.mkdir(dir).Some? then env.mkdir(dir) else env.save(store, full))
    ensures |r.1| <= 2
    ensures var full := DataPath(env.cwd, vectorStorePath);
      forall w :: w in r.1 ==> w == MakeDirectory(NodePath.Dirname(full)) || w == SaveStore(store, full)
  {
    var full := DataPath(env.cwd, vectorStorePath);
    var dir := NodePath.Dirname(full);
    if env.fileExists(dir) then
      (env.save(store, full), [SaveStore(store, full)])
    else
      match env.mkdir(dir)
      case Some(e) => (Some(e), [MakeDirectory(dir)])
      case None => (env.save(store, full), [MakeDirectory(dir), SaveStore(store, full)])
  }

  /** `error instanceof Error ? error.message : 'Unknown error occurred'`. */
  function ErrorMessage(e: Exception): string
  {
    match e
    case Error(message) => message
    case NonError => UnknownError
  }

  /** `processKnowledgeBase(filePath, options)`: never throws; every failure becomes `success: false`. */
  function ProcessKnowledgeBase(env: Env, filePath: string, options: ProcessingOptions): (r: ProcessResult)
    ensures r.success <==> Ingest(env, filePath, options).0.Success?
    ensures r.success ==> r.error.None? && r.chunkCount == Ingest(env, filePath, options).0.value
    ensures !r.success ==>
      r.chunkCount == 0 && r.error == Some(ErrorMessage(Ingest(env, filePath, options).0.error))
  {
    match Ingest(env, filePath, options).0
    case Success(n) => ProcessResult(true, n, None)
    case Failure(e) => ProcessResult(false, 0, Some(ErrorMessage(e)))
  }

  /** Only the settings the options resolve to matter, not how they were given. */
  lemma OnlySettingsMatter(env: Env, filePath: string, o1: ProcessingOptions, o2: ProcessingOptions)
    requires ApplyDefaults(o1) == ApplyDefaults(o2)
    ensures ProcessKnowledgeBase(env, filePath, o1) == ProcessKnowledgeBase(env, filePath, o2)
  {
  }

  /**
   * The guards fire in order (file, key, read, content) and the first one
   * that fails decides the message; nothing is written when one fires.
   */
  lemma GuardOrder(env: Env, filePath: string, options: ProcessingOptions)
    ensures !env.fileExists(filePath) ==>
      ProcessKnowledgeBase(env, filePath, options) == ProcessResult(false, 0, Some(NotFoundPrefix + filePath))
    ensures env.fileExists(filePath) && !HasApiKey(env) ==>
      ProcessKnowledgeBase(env, filePath, options) == ProcessResult(false, 0, Some(ApiKeyRequired))
    ensures (env.fileExists(filePath) && HasApiKey(env) && env.readFile(filePath).Success?
             && AllWhiteSpace(env.readFile(filePath).value)) ==>
      ProcessKnowledgeBase(env, filePath, options) == ProcessResult(false, 0, Some(EmptyFileMessage))
    ensures env.fileExists(filePath) && HasApiKey(env) && env.readFile(filePath).Failure? ==>
      ProcessKnowledgeBase(env, filePath, options)
        == ProcessResult(false, 0, Some(ErrorMessage(env.readFile(filePath).error)))
    ensures (!env.fileExists(filePath) || !HasApiKey(env) || env.readFile(filePath).Failure?
             || AllWhiteSpace(env.readFile(filePath).value)) ==>
      Ingest(env, filePath, options).1 == []
  {
  }

  /**
   * Once the guards pass, a failure of the splitter or of the embedding run
   * is reported with its own message, and nothing has been written.
   */
  lemma SplitOrEmbedFailure(env: Env, filePath: string, options: ProcessingOptions)
    ensures var s := ApplyDefaults(options);
      var checked := CheckInputs(env, filePath);
      checked.Success? && env.split(checked.value, s.chunkSize, s.chunkOverlap).Failure? ==>
        var e := env.split(checked.value, s.chunkSize, s.chunkOverlap).error;
        ProcessKnowledgeBase(env, filePath, options) == ProcessResult(false, 0, Some(ErrorMessage(e)))
        && Ingest(env, filePath, options).1 == []
    ensures var s := ApplyDefaults(options);
      var checked := CheckInputs(env, filePath);
      checked.Success? && env.split(checked.value, s.chunkSize, s.chunkOverlap).Success? ==>
        var chunks := env.split(checked.value, s.chunkSize, s.chunkOverlap).value;
        var built := env.fromDocuments(MakeDocuments(chunks, filePath), IngestClient(env, s));
        built.Failure? ==>
          ProcessKnowledgeBase(env, filePath, options) == ProcessResult(false, 0, Some(ErrorMessage(built.error)))
          && Ingest(env, filePath, options).1 == []
  {
  }

  /**
   * Once the store is built, a failed `mkdir` is reported with its message
   * after the one attempt to create the directory, and a failed save with
   * its message after the save was attempted.
   */
  lemma StoreWriteFailure(env: Env, filePath: string, options: ProcessingOptions)
    ensures var s := ApplyDefaults(options);
      var checked := CheckInputs(env, filePath);
      var full := DataPath(env.cwd, s.vectorStorePath);
      var dir := NodePath.Dirname(full);
      checked.Success? && env.split(checked.value, s.chunkSize, s.chunkOverlap).Success? ==>
        var chunks := env.split(checked.value, s.chunkSize, s.chunkOverlap).value;
        var built := env.fromDocuments(MakeDocuments(chunks, filePath), IngestClient(env, s));
        built.Success? && !env.fileExists(dir) && env.mkdir(dir).Some? ==>
          ProcessKnowledgeBase(env, filePath, options)
            == ProcessResult(false, 0, Some(ErrorMessage(env.mkdir(dir).value)))
          && Ingest(env, filePath, options).1 == [MakeDirectory(dir)]
    ensures var s := ApplyDefaults(options);
      var checked := CheckInputs(env, filePath);
      var full := DataPath(env.cwd, s.vectorStorePath);
      var dir := NodePath.Dirname(full);
      checked.Success? && env.split(checked.value, s.chunkSize, s.chunkOverlap).Success? ==>
        var chunks := env.split(checked.value, s.chunkSize, s.chunkOverlap).value;
        var built := env.fromDocuments(MakeDocuments(chunks, filePath), IngestClient(env, s));
        built.Success? && (env.fileExists(dir) || env.mkdir(dir).None?) && env.save(built.value, full).Some? ==>
          ProcessKnowledgeBase(env, filePath, options)
            == ProcessResult(false, 0, Some(ErrorMessage(env.save(built.value, full).value)))
          && Ingest(env, filePath, options).1
            == (if env.fileExists(dir) then [] else [MakeDirectory(dir)]) + [SaveStore(built.value, full)]
  {
  }

  /** Two environments that differ only in what comes after the guards. */
  predicate SameUpToGuards(env1: Env, env2: Env, filePath: string)
  {
    env1.fileExists(filePath) == env2.fileExists(filePath) && env1.apiKey == env2.apiKey
    && env1.readFile(filePath) == env2.readFile(filePath)
  }

  /**
   * When a guard fires, the splitter, the embedder, the store and the rest of
   * the file system are never consulted: swapping them changes nothing.
   */
  lemma GuardsRunBeforeAnyWork(env1: Env, env2: Env, filePath: string, options: ProcessingOptions)
    requires SameUpToGuards(env1, env2, filePath)
    requires !env1.fileExists(filePath) || !HasApiKey(env1)
      || (env1.readFile(filePath).Success? && AllWhiteSpace(env1.readFile(filePath).value))
    ensures Ingest(env1, filePath, options) == Ingest(env2, filePath, options)
    ensures Ingest(env1, filePath, options).1 == []
  {
  }

  /** The client the store is built with: the environment's key and the configured model, `||`-defaulted. */
  function IngestClient(env: Env, s: Settings): (c: Embeddings.Client)
    requires HasApiKey(env)
    ensures c.apiKey == env.apiKey.value && c.baseUrl == Embeddings.DefaultBaseUrl
    ensures c.model == if s.embedModel == "" then Embeddings.DefaultModel else s.embedModel
  {
    Embeddings.NewClient(env.apiKey.value, Some(Embeddings.ClientOptions(None, Some(s.embedModel))))
  }

  /**
   * Whatever gets saved is the store built from one document per chunk of the
   * file's text, saved at `<cwd>/data/<vectorStorePath>`; a save is attempted
   * only after every earlier stage succeeded, so a failed embedding leaves no
   * store behind.
   */
  lemma SavedOnlyWhatWasBuilt(env: Env, filePath: string, options: ProcessingOptions, w: Write)
    ensures w in Ingest(env, filePath, options).1 && w.SaveStore? ==>
      var s := ApplyDefaults(options);
      env.fileExists(filePath) && HasApiKey(env) && env.readFile(filePath).Success?
      && !AllWhiteSpace(env.readFile(filePath).value)
      && env.split(env.readFile(filePath).value, s.chunkSize, s.chunkOverlap).Success?
      && var chunks := env.split(env.readFile(filePath).value, s.chunkSize, s.chunkOverlap).value;
      env.fromDocuments(MakeDocuments(chunks, filePath), IngestClient(env, s)) == Success(w.store)
      && w.path == DataPath(env.cwd, s.vectorStorePath)
  {
    var checked := CheckInputs(env, filePath);
    if checked.Success? && w in Ingest(env, filePath, options).1 && w.SaveStore? {
      BuildSaves(env, filePath, checked.value, ApplyDefaults(options), w);
    }
  }

  /** A store `Build` saves is one built from the split text's documents, saved at its configured path. */
  lemma BuildSaves(env: Env, filePath: string, text: string, s: Settings, w: Write)
    requires HasApiKey(env)
    requires w in Build(env, filePath, text, s).1 && w.SaveStore?
    ensures env.split(text, s.chunkSize, s.chunkOverlap).Success?
    ensures var chunks := env.split(text, s.chunkSize, s.chunkOverlap).value;
      env.fromDocuments(MakeDocuments(chunks, filePath), IngestClient(env, s)) == Success(w.store)
      && w.path == DataPath(env.cwd, s.vectorStorePath)
  {
  }

  /** When `Build` succeeds, its last write is a save at the configured path that went through. */
  lemma BuildSucceeds(env: Env, filePath: string, text: string, s: Settings)
    requires HasApiKey(env)
    requires Build(env, filePath, text, s).0.Success?
    ensures env.split(text, s.chunkSize, s.chunkOverlap).Success?
    ensures var writes := Build(env, filePath, text, s).1;
      Build(env, filePath, text, s).0.value == |env.split(text, s.chunkSize, s.chunkOverlap).value|
      && |writes| > 0 && writes[|writes| - 1].SaveStore?
      && writes[|writes| - 1].path == DataPath(env.cwd, s.vectorStorePath)
      && env.save(writes[|writes| - 1].store, writes[|writes| - 1].path).None?
  {
  }

  /** Success means the save itself succeeded, and the count is the number of chunks the splitter produced. */
  lemma SuccessMeansSaved(env: Env, filePath: string, options: ProcessingOptions)
    ensures ProcessKnowledgeBase(env, filePath, options).success ==>
      var s := ApplyDefaults(options);
      var writes := Ingest(env, filePath, options).1;
      env.readFile(filePath).Success?
      && env.split(env.readFile(filePath).value, s.chunkSize, s.chunkOverlap).Success?
      && var chunks := env.split(env.readFile(filePath).value, s.chunkSize, s.chunkOverlap).value;
      ProcessKnowledgeBase(env, filePath, options) == ProcessResult(true, |chunks|, None)
      && |writes| > 0 && writes[|writes| - 1].SaveStore?
      && writes[|writes| - 1].path == DataPath(env.cwd, s.vectorStorePath)
      && env.save(writes[|writes| - 1].store, writes[|writes| - 1].path).None?
  {
    if ProcessKnowledgeBase(env, filePath, options).success {
      BuildSucceeds(env, filePath, CheckInputs(env, filePath).value, ApplyDefaults(options));
    }
  }

  // ----- Query side -----

  /** `loadVectorStore(vectorStorePath)`: a store, or `null` for every way it can fail. */
  function LoadVectorStore(env: Env, vectorStorePath: Option<string>): (r: Option<StoreHandle>)
    ensures var full := DataPath(env.cwd, if vectorStorePath.Some? then vectorStorePath.value else DefaultStorePath);
      r.Some? <==>
        HasApiKey(env) && env.fileExists(full + ".index")
        && env.load(full, Embeddings.NewClient(env.apiKey.value, None)).Success?
    ensures r.Some? ==>
      var full := DataPath(env.cwd, if vectorStorePath.Some? then vectorStorePath.value else DefaultStorePath);
      env.load(full, Embeddings.NewClient(env.apiKey.value, None)) == Success(r.value)
  {
    var path := if vectorStorePath.Some? then vectorStorePath.value else DefaultStorePath;
    if !HasApiKey(env) then None
    else
      var embeddings := Embeddings.NewClient(env.apiKey.value, None);
      var full := DataPath(env.cwd, path);
      if !env.fileExists(full + ".index") then None
      else
        match env.load(full, embeddings)
        case Failure(_) => None
        case Success(store) => Some(store)
  }

  /** `searchKnowledgeBase(query, k, vectorStorePath)`: the store's answer, or `[]` for every failure. */
  function SearchKnowledgeBase(env: Env, query: string, k: Option<int>, vectorStorePath: Option<string>): (r: seq<Document>)
    ensures LoadVectorStore(env, vectorStorePath).None? ==> r == []
    ensures LoadVectorStore(env, vectorStorePath).Some? ==>
      var result := env.similaritySearch(LoadVectorStore(env, vectorStorePath).value, query,
                                         if k.Some? then k.value else DefaultResultCount);
      r == if result.Success? then result.value else []
  {
    match LoadVectorStore(env, vectorStorePath)
    case None => []
    case Some(store) =>
      match env.similaritySearch(store, query, if k.Some? then k.value else DefaultResultCount)
      case Failure(_) => []
      case Success(docs) => docs
  }

  /**
   * Ingest and query agree on where the store lives: a store saved for
   * `vectorStorePath` is saved at the path `loadVectorStore(vectorStorePath)`
   * tests and loads from, and with no options on either side both use
   * `vectorstore`.  Whether the `.index` test then passes is up to the file
   * system oracle, which the save does not constrain.
   */
  lemma SaveAndLoadAgreeOnPath(env: Env, filePath: string, options: ProcessingOptions, w: Write)
    ensures w in Ingest(env, filePath, options).1 && w.SaveStore? ==>
      var p := ApplyDefaults(options).vectorStorePath;
      (LoadVectorStore(env, Some(p)).Some? <==>
        env.fileExists(w.path + ".index") && env.load(w.path, Embeddings.NewClient(env.apiKey.value, None)).Success?)
    ensures w in Ingest(env, filePath, options).1 && w.SaveStore? && options.vectorStorePath.None? ==>
      (LoadVectorStore(env, None).Some? <==>
        env.fileExists(w.path + ".index") && env.load(w.path, Embeddings.NewClient(env.apiKey.value, None)).Success?)
  {
    SavedOnlyWhatWasBuilt(env, filePath, options, w);
  }
}
