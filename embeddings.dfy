/**
 * The DeepSeek embeddings client: its construction defaults, the check
 * `embedQuery` applies to the HTTP reply, and the batching loop of
 * `embedDocuments`. The HTTP exchange itself is a `Transport` parameter.
 */
module Embeddings {

  import opened Wrappers
  import opened Js

  const DefaultBaseUrl := "https://api.deepseek.com/v1"
  const DefaultModel := "deepseek-embed"
  const BatchSize := 10
  const ApiErrorPrefix := "DeepSeek API error: "
  const InvalidFormatMessage := "Invalid response format from DeepSeek API"

  datatype ClientOptions = ClientOptions(baseUrl: Option<string>, model: Option<string>)

  /** The three fields the constructor assigns; nothing updates them afterwards. */
  datatype Client = Client(apiKey: string, baseUrl: string, model: string)

  /** `given || fallback` for an optional string: `undefined` and `""` both take the fallback. */
  function OrElse(given: Option<string>, fallback: string): (r: string)
    ensures given.Some? && given.value != "" ==> r == given.value
    ensures given.None? || given.value == "" ==> r == fallback
  {
    if given.Some? && given.value != "" then given.value else fallback
  }

  /** `new DeepSeekEmbeddings(apiKey, options)`. */
  function NewClient(apiKey: string, options: Option<ClientOptions>): (c: Client)
    ensures c.apiKey == apiKey
    ensures options.None? ==> c.baseUrl == DefaultBaseUrl && c.model == DefaultModel
    ensures options.Some? ==> c.baseUrl == OrElse(options.value.baseUrl, DefaultBaseUrl)
    ensures options.Some? ==> c.model == OrElse(options.value.model, DefaultModel)
  {
    var baseUrl := if options.Some? then options.value.baseUrl else None;
    var model := if options.Some? then options.value.model else None;
    Client(apiKey, OrElse(baseUrl, DefaultBaseUrl), OrElse(model, DefaultModel))
  }

  /** An option that is absent or empty leaves the documented default in place. */
  lemma DefaultsWhenAbsentOrEmpty(apiKey: string, baseUrl: Option<string>, model: Option<string>)
    requires baseUrl == None || baseUrl == Some("")
    requires model == None || model == Some("")
    ensures NewClient(apiKey, Some(ClientOptions(baseUrl, model))) == Client(apiKey, DefaultBaseUrl, DefaultModel)
  {
  }

  // ----- One embedding request -----

  /** What `embedQuery` hands to `fetch`: the endpoint, the bearer key, the model and the input text. */
  datatype Request = Request(url: string, apiKey: string, model: string, input: string)

  /** The part of a fetch `Response` that is looked at; `body` is what `response.json()` resolves or rejects with. */
  datatype Reply = Reply(status: nat, statusText: string, body: Result<JsValue, Exception>)

  /** `fetch` itself: a reply, or a rejection (a network failure, say). */
  type Transport = Request -> Result<Reply, Exception>

  /** `response.ok`: the status is in the range 200 to 299. */
  predicate IsOk(reply: Reply)
  {
    200 <= reply.status <= 299
  }

  function ApiErrorMessage(reply: Reply): string
  {
    ApiErrorPrefix + Decimal(reply.status) + " " + reply.statusText
  }

  function RequestFor(client: Client, text: string): (q: Request)
    ensures q.url == client.baseUrl + "/embeddings"
    ensures q.apiKey == client.apiKey && q.model == client.model && q.input == text
  {
    Request(client.baseUrl + "/embeddings", client.apiKey, client.model, text)
  }

  /**
   * The checks `embedQuery` makes once `fetch` has resolved: the status
   * first, then `data`, `data[0]` and `data[0].embedding` must each be truthy.
   * The embedding is returned as it came, whatever its shape.
   */
  function ValidateReply(reply: Reply): (r: Result<JsValue, Exception>)
    ensures !IsOk(reply) ==> r == Failure(Error(ApiErrorMessage(reply)))
    ensures r.Success? ==> Truthy(r.value)
  {
    if !IsOk(reply) then Failure(Error(ApiErrorMessage(reply)))
    else
      match reply.body
      case Failure(e) => Failure(e)
      case Success(json) =>
        match GetField(json, "data")
        case Failure(e) => Failure(e)
        case Success(list) =>
          if !Truthy(list) then Failure(Error(InvalidFormatMessage))
          else
            match GetIndex(list, 0)
            case Failure(e) => Failure(e)
            case Success(item) =>
              if !Truthy(item) then Failure(Error(InvalidFormatMessage))
              else
                match GetField(item, "embedding")
                case Failure(e) => Failure(e)
                case Success(embedding) =>
                  if !Truthy(embedding) then Failure(Error(InvalidFormatMessage))
                  else Success(embedding)
  }

  /** `item` is an object whose `embedding` is the truthy value `e`. */
  predicate HoldsEmbedding(item: JsValue, e: JsValue)
  {
    item.Object? && "embedding" in item.fields && item.fields["embedding"] == e && Truthy(e)
  }

  /**
   * The reply shapes that are accepted, written independently of the check:
   * a top-level object whose `data` is a non-empty array, or an object with
   * key `"0"`, whose first entry is an object holding a truthy `embedding`.
   */
  predicate Carries(json: JsValue, e: JsValue)
  {
    json.Object? && "data" in json.fields &&
    var list := json.fields["data"];
    (list.Array? && |list.elems| > 0 && HoldsEmbedding(list.elems[0], e)) ||
    (list.Object? && "0" in list.fields && HoldsEmbedding(list.fields["0"], e))
  }

  /** A reply is accepted, with embedding `e`, exactly when it is ok and its body parses to a shape carrying `e`. */
  lemma AcceptedShapes(reply: Reply, e: JsValue)
    ensures ValidateReply(reply) == Success(e) <==>
      IsOk(reply) && reply.body.Success? && Carries(reply.body.value, e)
  {
    assert Decimal(0) == "0";
  }

  /** Every rejection is one of four: the status, the body's own parse error, a `null` body (a `TypeError`), or the format message. */
  lemma RejectionReasons(reply: Reply)
    requires ValidateReply(reply).Failure?
    ensures var err := ValidateReply(reply).error;
      (!IsOk(reply) && err == Error(ApiErrorMessage(reply)))
      || (IsOk(reply) && reply.body.Failure? && err == reply.body.error)
      || (IsOk(reply) && reply.body.Success? && (reply.body.value.Null? || reply.body.value.Undefined?)
          && err == Error(ReadPropertyMessage(reply.body.value, "data")))
      || (IsOk(reply) && reply.body.Success? && !reply.body.value.Null? && !reply.body.value.Undefined?
          && err == Error(InvalidFormatMessage))
  {
  }

  /** An ok reply whose body is neither `null` nor `undefined` and carries no embedding is rejected with the format message. */
  lemma MalformedReply(reply: Reply)
    requires IsOk(reply) && reply.body.Success? && !reply.body.value.Null? && !reply.body.value.Undefined?
    requires forall e :: !Carries(reply.body.value, e)
    ensures ValidateReply(reply) == Failure(Error(InvalidFormatMessage))
  {
    if ValidateReply(reply).Success? {
      AcceptedShapes(reply, ValidateReply(reply).value);
    }
    RejectionReasons(reply);
  }

  /** An empty array is truthy, so `{"data": [{"embedding": []}]}` is accepted and yields `[]`. */
  lemma EmptyEmbeddingAccepted(statusText: string)
    ensures ValidateReply(Reply(200, statusText,
      Success(Object(map["data" := Array([Object(map["embedding" := Array([])])])]))))
      == Success(Array([]))
  {
    AcceptedShapes(Reply(200, statusText,
      Success(Object(map["data" := Array([Object(map["embedding" := Array([])])])]))), Array([]));
  }

  /** `embedQuery(text)`: the request, then the reply check; a rejected `fetch` is rethrown unchanged. */
  function EmbedQuery(client: Client, transport: Transport, text: string): (r: Result<JsValue, Exception>)
    ensures var sent := transport(RequestFor(client, text));
      sent.Failure? ==> r == Failure(sent.error)
    ensures var sent := transport(RequestFor(client, text));
      sent.Success? && !IsOk(sent.value) ==> r == Failure(Error(ApiErrorMessage(sent.value)))
    ensures var sent := transport(RequestFor(client, text));
      r.Success? ==>
        (sent.Success? && IsOk(sent.value) && sent.value.body.Success? && Carries(sent.value.body.value, r.value))
  {
    match transport(RequestFor(client, text))
    case Failure(e) => Failure(e)
    case Success(reply) =>
      var v := ValidateReply(reply);
      if v.Success? then
        AcceptedShapes(reply, v.value);
        v
      else v
  }

  /**
   * The query yields `e` exactly when the request for `text` reaches the
   * server, the status is ok and the body parses to a shape carrying `e`.
   */
  lemma EmbedQueryAccepts(client: Client, transport: Transport, text: string, e: JsValue)
    ensures var sent := transport(RequestFor(client, text));
      EmbedQuery(client, transport, text) == Success(e) <==>
        (sent.Success? && IsOk(sent.value) && sent.value.body.Success? && Carries(sent.value.body.value, e))
  {
    var sent := transport(RequestFor(client, text));
    if sent.Success? {
      AcceptedShapes(sent.value, e);
    }
  }

  /** A single-text embedding call: the oracle `embedDocuments` is stated against. */
  type Embedder = string -> Result<JsValue, Exception>

  /** `this.embedQuery` of a client, as the oracle `embedDocuments` calls. */
  function QueryOf(client: Client, transport: Transport): (embed: Embedder)
    ensures forall text :: embed(text) == EmbedQuery(client, transport, text)
  {
    text => EmbedQuery(client, transport, text)
  }

  // ----- Settling several calls -----

  /**
   * Settles a sequence of call outcomes in index order: all values when every
   * call succeeded, the first failure otherwise (`Promise.all`, with the
   * rejection that comes first in index order standing for the one that
   * comes first in time).
   */
  function Collect<T, E>(rs: seq<Result<T, E>>): Result<seq<T>, E>
  {
    if rs == [] then Success([])
    else
      match rs[0]
      case Failure(e) => Failure(e)
      case Success(v) =>
        match Collect(rs[1..])
        case Failure(e) => Failure(e)
        case Success(vs) => Success([v] + vs)
  }

  /** The index of the first failed outcome, or `|rs|` when there is none. */
  function FirstFailure<T, E>(rs: seq<Result<T, E>>): (k: nat)
    ensures k <= |rs|
    ensures forall j :: 0 <= j < k ==> rs[j].Success?
    ensures k < |rs| ==> rs[k].Failure?
  {
    if rs == [] || rs[0].Failure? then 0 else 1 + FirstFailure(rs[1..])
  }

  /** Settling succeeds exactly when no call failed, keeps every value in place, and otherwise reports the first failure. */
  lemma {:induction false} CollectSpec<T, E>(rs: seq<Result<T, E>>)
    ensures Collect(rs).Success? <==> FirstFailure(rs) == |rs|
    ensures Collect(rs).Success? ==>
      |Collect(rs).value| == |rs| && forall i :: 0 <= i < |rs| ==> Collect(rs).value[i] == rs[i].value
    ensures Collect(rs).Failure? ==> Collect(rs) == Failure(rs[FirstFailure(rs)].error)
  {
    if rs != [] && rs[0].Success? {
      CollectSpec(rs[1..]);
      if Collect(rs).Success? {
        forall i | 0 <= i < |rs| ensures Collect(rs).value[i] == rs[i].value {
          if i > 0 { assert rs[i] == rs[1..][i - 1]; }
        }
      }
    }
  }

  /** Settling a concatenation settles the first part and, only if that succeeded, the second. */
  lemma {:induction false} CollectAppend<T, E>(a: seq<Result<T, E>>, b: seq<Result<T, E>>)
    ensures Collect(a).Failure? ==> Collect(a + b) == Collect(a)
    ensures Collect(a).Success? && Collect(b).Failure? ==> Collect(a + b) == Collect(b)
    ensures Collect(a).Success? && Collect(b).Success? ==>
      Collect(a + b) == Success(Collect(a).value + Collect(b).value)
  {
    if a == [] {
      assert a + b == b;
      if Collect(b).Success? { assert [] + Collect(b).value == Collect(b).value; }
    } else {
      var ab := a + b;
      assert ab[0] == a[0];
      assert ab[1..] == a[1..] + b;
      CollectAppend(a[1..], b);
      match a[0]
      case Failure(e) =>
        assert Collect(ab) == Failure(e);
      case Success(v) =>
        var tail := Collect(a[1..]);
        if tail.Success? && Collect(b).Success? {
          var us, ws := tail.value, Collect(b).value;
          assert Collect(ab) == Success([v] + (us + ws));
          assert [v] + (us + ws) == ([v] + us) + ws;
        }
    }
  }

  lemma {:induction false} FirstFailureAppend<T, E>(a: seq<Result<T, E>>, b: seq<Result<T, E>>)
    ensures FirstFailure(a + b) == if FirstFailure(a) < |a| then FirstFailure(a) else |a| + FirstFailure(b)
  {
    if a == [] {
      assert a + b == b;
    } else {
      assert (a + b)[1..] == a[1..] + b;
      assert (a + b)[0] == a[0];
      FirstFailureAppend(a[1..], b);
    }
  }

  // ----- embedDocuments -----

  /** The outcome of `embed` on each text, position by position (`batch.map(text => this.embedQuery(text))`). */
  function Outcomes(embed: Embedder, texts: seq<string>): (rs: seq<Result<JsValue, Exception>>)
    ensures |rs| == |texts|
    ensures forall i :: 0 <= i < |texts| ==> rs[i] == embed(texts[i])
  {
    seq(|texts|, i requires 0 <= i < |texts| => embed(texts[i]))
  }

  /** What `embedDocuments(texts)` resolves or rejects with, when each text is embedded by `embed`. */
  function EmbedAll(embed: Embedder, texts: seq<string>): Result<seq<JsValue>, Exception>
  {
    Collect(Outcomes(embed, texts))
  }

  /**
   * `embedDocuments` succeeds exactly when every text embeds; the result then
   * has one embedding per text, in input order; otherwise it fails with the
   * error of the first text that did not embed.
   */
  lemma EmbedAllSpec(embed: Embedder, texts: seq<string>)
    ensures EmbedAll(embed, texts).Success? <==>
      forall i :: 0 <= i < |texts| ==> embed(texts[i]).Success?
    ensures EmbedAll(embed, texts).Success? ==>
      var vs := EmbedAll(embed, texts).value;
      |vs| == |texts| && forall i :: 0 <= i < |texts| ==> vs[i] == embed(texts[i]).value
    ensures EmbedAll(embed, texts).Failure? ==>
      var k := FirstFailure(Outcomes(embed, texts));
      k < |texts| && EmbedAll(embed, texts) == Failure(embed(texts[k]).error)
      && forall j :: 0 <= j < k ==> embed(texts[j]).Success?
  {
    var rs := Outcomes(embed, texts);
    CollectSpec(rs);
    if !Collect(rs).Success? {
      var k := FirstFailure(rs);
      assert rs[k] == embed(texts[k]);
    } else {
      assert FirstFailure(rs) == |rs|;
    }
  }

  function Min(a: int, b: int): int { if a <= b then a else b }

  /** `Math.ceil(n / 10)`, the number of batches announced in the progress line. */
  function BatchCount(n: nat): nat
  {
    (n + BatchSize - 1) / BatchSize
  }

  lemma BatchCountIsCeiling(n: nat)
    ensures BatchSize * BatchCount(n) >= n
    ensures n > 0 ==> BatchSize * (BatchCount(n) - 1) < n
    ensures n == 0 <==> BatchCount(n) == 0
  {
  }

  /** The contiguous slices of at most ten texts that the loop walks through. */
  function BatchesOf(texts: seq<string>): seq<seq<string>>
    decreases |texts|
  {
    if texts == [] then []
    else
      var n := Min(BatchSize, |texts|);
      [texts[..n]] + BatchesOf(texts[n..])
  }

  function Flatten(bs: seq<seq<string>>): seq<string>
  {
    if bs == [] then [] else bs[0] + Flatten(bs[1..])
  }

  /** The batches are ceil(n/10) non-empty slices of at most ten texts that put together give back the input. */
  lemma {:induction false} BatchesPartition(texts: seq<string>)
    ensures Flatten(BatchesOf(texts)) == texts
    ensures |BatchesOf(texts)| == BatchCount(|texts|)
    ensures forall k :: 0 <= k < |BatchesOf(texts)| ==> 0 < |BatchesOf(texts)[k]| <= BatchSize
    decreases |texts|
  {
    if texts != [] {
      var n := Min(BatchSize, |texts|);
      BatchesPartition(texts[n..]);
      var bs := BatchesOf(texts);
      assert bs[1..] == BatchesOf(texts[n..]);
      assert texts == texts[..n] + texts[n..];
      forall k | 0 <= k < |bs| ensures 0 < |bs[k]| <= BatchSize {
        if k > 0 { assert bs[k] == BatchesOf(texts[n..])[k - 1]; }
      }
    }
  }

  /** Batch `k` is the slice `[10k, min(10k + 10, n))`. */
  lemma {:induction false} BatchAt(texts: seq<string>, k: nat)
    requires k < |BatchesOf(texts)|
    ensures BatchSize * k < |texts|
    ensures BatchesOf(texts)[k] == texts[BatchSize * k .. Min(BatchSize * k + BatchSize, |texts|)]
    decreases |texts|
  {
    var n := Min(BatchSize, |texts|);
    if k > 0 {
      BatchAt(texts[n..], k - 1);
      var lo := BatchSize * (k - 1);
      var hi := Min(lo + BatchSize, |texts| - n);
      assert n == BatchSize;
      assert n + lo == BatchSize * k;
      assert n + hi == Min(BatchSize * k + BatchSize, |texts|);
      SliceOfSlice(texts, n, lo, hi);
    }
  }

  lemma SliceOfSlice<T>(s: seq<T>, n: nat, lo: nat, hi: nat)
    requires n <= |s| && lo <= hi <= |s| - n
    ensures s[n..][lo..hi] == s[n + lo .. n + hi]
  {
  }

  /** Slices laid out as the loop produces them, one per batch number, are exactly `BatchesOf`. */
  lemma SlicesAreBatches(texts: seq<string>, bs: seq<seq<string>>)
    requires |bs| == BatchCount(|texts|)
    requires forall k :: 0 <= k < |bs| ==> bs[k] == texts[BatchSize * k .. Min(BatchSize * k + BatchSize, |texts|)]
    ensures bs == BatchesOf(texts)
  {
    BatchesPartition(texts);
    forall k | 0 <= k < |bs| ensures bs[k] == BatchesOf(texts)[k] {
      BatchAt(texts, k);
    }
  }

  /** Settling exactly the outcomes `Success(vs[0])`, `Success(vs[1])`, ... gives `vs`. */
  lemma {:induction false} CollectAllSucceeded<T, E>(rs: seq<Result<T, E>>, vs: seq<T>)
    requires |rs| == |vs| && forall j :: 0 <= j < |rs| ==> rs[j] == Success(vs[j])
    ensures Collect(rs) == Success(vs)
  {
    if rs != [] {
      CollectAllSucceeded(rs[1..], vs[1..]);
      assert vs == [vs[0]] + vs[1..];
    }
  }

  /**
   * The loop's exit on a failed batch: every text before `i` embedded, and
   * the batch `[i, end)` failed; then the whole call fails as the batch did,
   * and the first failing text lies in that batch.
   */
  lemma FailedBatch(embed: Embedder, texts: seq<string>, i: nat, end: nat, done: seq<JsValue>)
    requires i <= end <= |texts| && |done| == i
    requires forall j :: 0 <= j < i ==> embed(texts[j]) == Success(done[j])
    requires Collect(Outcomes(embed, texts[i..end])).Failure?
    ensures EmbedAll(embed, texts) == Collect(Outcomes(embed, texts[i..end]))
    ensures i <= FirstFailure(Outcomes(embed, texts)) < end
  {
    var all := Outcomes(embed, texts);
    var batch := Outcomes(embed, texts[i..end]);
    OutcomesSlice(embed, texts, i, end);
    assert all[..end] == all[..i] + all[i..end];
    CollectAllSucceeded(all[..i], done);
    CollectAppend(all[..i], batch);
    assert all == all[..end] + all[end..];
    CollectAppend(all[..end], all[end..]);
    FirstFailureAppend(all[..end], all[end..]);
    FirstFailureAppend(all[..i], batch);
    CollectSpec(all[..i]);
    CollectSpec(batch);
  }

  /** Embedding a slice gives the same outcomes as slicing the outcomes. */
  lemma OutcomesSlice(embed: Embedder, texts: seq<string>, i: nat, end: nat)
    requires i <= end <= |texts|
    ensures Outcomes(embed, texts[i..end]) == Outcomes(embed, texts)[i..end]
  {
    var a, b := Outcomes(embed, texts[i..end]), Outcomes(embed, texts)[i..end];
    assert |a| == |b|;
    forall j | 0 <= j < |a| ensures a[j] == b[j] {
      assert texts[i..end][j] == texts[i + j];
    }
  }

  /** The loop's normal exit: every text embedded, so the call resolves with exactly those embeddings. */
  lemma AllSucceeded(embed: Embedder, texts: seq<string>, done: seq<JsValue>)
    requires |done| == |texts|
    requires forall j :: 0 <= j < |texts| ==> embed(texts[j]) == Success(done[j])
    ensures EmbedAll(embed, texts) == Success(done)
  {
    CollectAllSucceeded(Outcomes(embed, texts), done);
  }

  lemma BatchNumber(k: nat, m: nat)
    requires BatchSize * k <= m < BatchSize * k + BatchSize
    ensures m / BatchSize == k
  {
  }

  /** `await Promise.all(batch.map(text => this.embedQuery(text)))`, settled in index order. */
  method SettleBatch(embed: Embedder, batch: seq<string>) returns (settled: Result<seq<JsValue>, Exception>)
    ensures settled == Collect(Outcomes(embed, batch))
    ensures settled.Success? ==>
      |settled.value| == |batch| && forall j :: 0 <= j < |batch| ==> embed(batch[j]) == Success(settled.value[j])
  {
    settled := Collect(Outcomes(embed, batch));
    CollectSpec(Outcomes(embed, batch));
  }

  /** One "Processing embedding batch b/total" progress line. */
  datatype Progress = Progress(batch: nat, total: nat)

  /**
   * What holds each time the loop of `embedDocuments` tests `i < texts.length`:
   * `i` has stepped by ten once per batch; each batch printed its progress
   * line and was the slice starting at its own `i`; every text before `i`
   * embedded, in order; and a pause followed each batch that had a successor.
   */
  ghost predicate LoopState(embed: Embedder, texts: seq<string>, i: nat, log: seq<Progress>,
                            batches: seq<seq<string>>, embeddings: seq<JsValue>, calls: nat, pauses: nat)
  {
    var n := |texts|;
    i == BatchSize * |log| && |batches| == |log| && i < n + BatchSize
    && (forall j :: 0 <= j < |log| ==> log[j] == Progress(j + 1, BatchCount(n)))
    && (forall k :: 0 <= k < |batches| ==>
          BatchSize * k < n && batches[k] == texts[BatchSize * k .. Min(BatchSize * k + BatchSize, n)])
    && |embeddings| == calls == Min(i, n)
    && (forall j :: 0 <= j < |embeddings| ==> embed(texts[j]) == Success(embeddings[j]))
    && pauses == (if i == 0 then 0 else if i < n then |log| else |log| - 1)
  }

  lemma LoopAdvance(embed: Embedder, texts: seq<string>, i: nat, log: seq<Progress>,
                    batches: seq<seq<string>>, embeddings: seq<JsValue>, calls: nat, pauses: nat,
                    values: seq<JsValue>)
    requires LoopState(embed, texts, i, log, batches, embeddings, calls, pauses) && i < |texts|
    requires var batch := texts[i..Min(i + BatchSize, |texts|)];
      |values| == |batch| && forall j :: 0 <= j < |batch| ==> embed(batch[j]) == Success(values[j])
    ensures var end := Min(i + BatchSize, |texts|);
      LoopState(embed, texts, i + BatchSize, log + [Progress(i / BatchSize + 1, BatchCount(|texts|))],
                batches + [texts[i..end]], embeddings + values, calls + (end - i),
                if i + BatchSize < |texts| then pauses + 1 else pauses)
  {
    BatchNumber(|log|, i);
    var end := Min(i + BatchSize, |texts|);
    var embeddings' := embeddings + values;
    forall j | 0 <= j < |embeddings'| ensures embed(texts[j]) == Success(embeddings'[j]) {
      if j >= i { assert texts[j] == texts[i..end][j - i]; }
    }
  }

  lemma LoopFailure(embed: Embedder, texts: seq<string>, i: nat, log: seq<Progress>,
                    batches: seq<seq<string>>, embeddings: seq<JsValue>, calls: nat, pauses: nat, e: Exception)
    requires LoopState(embed, texts, i, log, batches, embeddings, calls, pauses) && i < |texts|
    requires Collect(Outcomes(embed, texts[i..Min(i + BatchSize, |texts|)])) == Failure(e)
    ensures var end := Min(i + BatchSize, |texts|);
      var log' := log + [Progress(i / BatchSize + 1, BatchCount(|texts|))];
      var batches' := batches + [texts[i..end]];
      && EmbedAll(embed, texts) == Failure(e)
      && |batches'| == |log'|
      && (forall k :: 0 <= k < |batches'| ==>
            BatchSize * k < |texts| && batches'[k] == texts[BatchSize * k .. Min(BatchSize * k + BatchSize, |texts|)])
      && (forall j :: 0 <= j < |log'| ==> log'[j] == Progress(j + 1, BatchCount(|texts|)))
      && |log'| == FirstFailure(Outcomes(embed, texts)) / BatchSize + 1
      && |log'| <= BatchCount(|texts|)
      && calls + (end - i) == Min(|texts|, BatchSize * |log'|) && pauses == |log'| - 1
  {
    BatchNumber(|log|, i);
    var end := Min(i + BatchSize, |texts|);
    FailedBatch(embed, texts, i, end, embeddings);
    BatchNumber(|log|, FirstFailure(Outcomes(embed, texts)));
  }

  lemma LoopDone(embed: Embedder, texts: seq<string>, i: nat, log: seq<Progress>,
                 batches: seq<seq<string>>, embeddings: seq<JsValue>, calls: nat, pauses: nat)
    requires LoopState(embed, texts, i, log, batches, embeddings, calls, pauses) && i >= |texts|
    ensures EmbedAll(embed, texts) == Success(embeddings)
    ensures batches == BatchesOf(texts) && |log| == BatchCount(|texts|) && calls == |texts|
    ensures pauses == if texts == [] then 0 else |log| - 1
  {
    AllSucceeded(embed, texts, embeddings);
    SlicesAreBatches(texts, batches);
  }

  /**
   * `embedDocuments(texts)`, with `embed` standing for `this.embedQuery`
   * (`QueryOf(client, transport)` for a client). Alongside the result it
   * returns the progress lines it prints, and as ghost outputs the slices it
   * sent, the number of `embedQuery` calls it started and the number of
   * pauses it made.
   */
  method EmbedDocuments(embed: Embedder, texts: seq<string>)
    returns (r: Result<seq<JsValue>, Exception>, log: seq<Progress>,
             ghost batches: seq<seq<string>>, ghost calls: nat, ghost pauses: nat)
    ensures r == EmbedAll(embed, texts)
    ensures |batches| == |log|
    ensures forall k :: 0 <= k < |batches| ==>
      BatchSize * k < |texts| && batches[k] == texts[BatchSize * k .. Min(BatchSize * k + BatchSize, |texts|)]
    ensures forall j :: 0 <= j < |log| ==> log[j] == Progress(j + 1, BatchCount(|texts|))
    ensures |log| <= BatchCount(|texts|)
    ensures forall j :: 0 <= j < |log| ==> 1 <= log[j].batch <= log[j].total
    ensures r.Success? ==>
      batches == BatchesOf(texts) && |log| == BatchCount(|texts|) && calls == |texts|
      && pauses == if texts == [] then 0 else |log| - 1
    ensures r.Failure? ==>
      |log| == FirstFailure(Outcomes(embed, texts)) / BatchSize + 1
      && calls == Min(|texts|, BatchSize * |log|) && pauses == |log| - 1
  {
    var n := |texts|;
    var embeddings: seq<JsValue> := [];
    var i := 0;
    log, batches, calls, pauses := [], [], 0, 0;
    while i < n
      invariant LoopState(embed, texts, i, log, batches, embeddings, calls, pauses)
    {
      var end := Min(i + BatchSize, n);
      var batch := texts[i..end];
      var settled := SettleBatch(embed, batch);
      if settled.Failure? {
        LoopFailure(embed, texts, i, log, batches, embeddings, calls, pauses, settled.error);
        log := log + [Progress(i / BatchSize + 1, BatchCount(n))];
        batches := batches + [batch];
        calls := calls + |batch|;
        r := Failure(settled.error);
        return;
      }
      LoopAdvance(embed, texts, i, log, batches, embeddings, calls, pauses, settled.value);
      log := log + [Progress(i / BatchSize + 1, BatchCount(n))];
      batches := batches + [batch];
      calls := calls + |batch|;
      embeddings := embeddings + settled.value;
      if i + BatchSize < n {
        pauses := pauses + 1;
      }
      i := i + BatchSize;
    }
    LoopDone(embed, texts, i, log, batches, embeddings, calls, pauses);
    r := Success(embeddings);
  }
}
