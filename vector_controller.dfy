/** The vector-store HTTP endpoints under `/api/vector`: adding documents,
    semantic search, statistics, clearing and re-synchronising the device
    documents. Each endpoint validates its request body, delegates to the
    vector-store service and shapes the JSON answer; the answers are modelled
    as a datatype with one variant per body shape. */
module VectorApi {
  import opened JavaLang
  import opened VectorTypes
  import opened Ranking
  import opened Embedding
  import opened Devices
  import opened MemoryStore
  import opened VectorService

  const TextEmpty: string := "text 不能为空"
  const TextsEmpty: string := "texts 不能为空"
  const QueryEmpty: string := "query 不能为空"
  const EmbeddingFailed: string :=
    "Embedding 调用失败。本地模式请确认 Ollama 已启动(ollama serve)；线上模式请配置 voice.qwen-api-key"
  const ClearedMessage: string := "向量库已清空"
  const SyncedMessage: string := "已从设备表同步到知识库"

  /** The default and the bounds of `topK`. */
  const DefaultTopK: int := 5
  const MaxTopK: int := 50

  /** One search hit as the endpoint lists it: a null metadata reads as `{}`. */
  datatype Item = Item(id: string, text: string, score: real, metadata: Metadata)

  /** The answers of the endpoints. `ServerError` is an exception that leaves
      the controller (Spring answers 500): `Map.of` refuses a null value. */
  datatype Reply =
    | BadRequest(error: string)
    | BadGateway(error: string)
    | Added(id: string, text: string)
    | AddedBatch(ids: seq<string>, count: nat)
    | Found(query: string, results: seq<Item>, count: nat)
    | Stats(count: nat)
    | Cleared(message: string)
    | Synced(message: string, documentsAdded: int)
    | ServerError

  /** The `topK` field of a search body: absent (or null), a JSON number
      (given as the value `intValue()` yields), or any other JSON value. */
  datatype TopKField = Absent | Number(intValue: int) | NotANumber

  /** `topK` as the POST body gives it: a number's value, otherwise 5. */
  function PostTopK(field: TopKField): (k: int)
    ensures field.Number? ==> k == field.intValue
    ensures !field.Number? ==> k == DefaultTopK
  {
    match field
    case Number(v) => v
    case _ => DefaultTopK
  }

  /** `Math.min(Math.max(topK, 1), 50)`. */
  function Clamp(topK: int): (k: int)
    ensures 1 <= k <= MaxTopK
    ensures 1 <= topK <= MaxTopK ==> k == topK
    ensures topK < 1 ==> k == 1
    ensures topK > MaxTopK ==> k == MaxTopK
  {
    Min(Max(topK, 1), MaxTopK)
  }

  /** A hit whose document has a null id or text cannot be put in `Map.of`. */
  predicate Unlistable(r: SearchResult) {
    r.document.id.None? || r.document.text.None?
  }

  /** The answer to a search whose results are `rs`: the hits in search order
      with their scores, or an escaping exception when one of them cannot be
      listed. */
  function SearchReply(query: string, rs: seq<SearchResult>): (r: Reply)
    ensures r.ServerError? <==> exists i | 0 <= i < |rs| :: Unlistable(rs[i])
    ensures !r.ServerError? ==>
              && r.Found? && r.query == query && r.count == |r.results| == |rs|
              && forall i | 0 <= i < |rs| ::
                   && Some(r.results[i].id) == rs[i].document.id
                   && Some(r.results[i].text) == rs[i].document.text
                   && r.results[i].score == rs[i].score
                   && r.results[i].metadata == rs[i].document.metadata.GetOr([])
  {
    if exists i | 0 <= i < |rs| :: Unlistable(rs[i]) then ServerError
    else
      var items := seq(|rs|, i requires 0 <= i < |rs| && !Unlistable(rs[i]) =>
                         Item(rs[i].document.id.value, rs[i].document.text.value,
                              rs[i].score, rs[i].document.metadata.GetOr([])));
      Found(query, items, |items|)
  }

  /** An empty result always lists. */
  lemma NoHitsListed(query: string)
    ensures SearchReply(query, []) == Found(query, [], 0)
  {
  }

  class VectorController {
    const service: VectorStoreService

    constructor(service: VectorStoreService)
      ensures this.service == service
    {
      this.service := service;
    }

    /** `POST /documents`: a null or blank text is refused with 400; a failed
        embedding is a 502; otherwise the document goes in under a fresh id,
        which the answer returns with the text. */
    method AddDocument(text: Option<string>, metadata: Option<Metadata>) returns (r: Reply)
      requires service.Valid()
      modifies service, service.Backing()
      ensures service.Valid()
      ensures IsNullOrBlank(text) ==>
                r == BadRequest(TextEmpty) && service.Docs() == old(service.Docs())
                && service.drawn == old(service.drawn)
      ensures !IsNullOrBlank(text) && Embed(service.gateway, text).None? ==>
                r == BadGateway(EmbeddingFailed) && service.Docs() == old(service.Docs())
      ensures !IsNullOrBlank(text) && Embed(service.gateway, text).Some? ==>
                var id := NewId(service.uuids(old(service.drawn)));
                && r == Added(id, text.value)
                && service.Docs() == old(service.Docs())[id := VectorDocument(Some(id), text,
                                                             Embed(service.gateway, text), metadata)]
    {
      if text.None? || IsBlank(text.value) {
        return BadRequest(TextEmpty);
      }
      var id := service.AddDocument(text, metadata);
      if id.None? {
        return BadGateway(EmbeddingFailed);
      }
      r := Added(id.value, text.value);
    }

    /** `POST /documents/batch`: a null or empty list is refused with 400;
        otherwise the texts go in as far as the batch embedding reaches, and
        the answer lists the new ids with their number. */
    method AddDocumentsBatch(texts: Option<seq<string>>) returns (r: Reply)
      requires service.Valid()
      modifies service, service.Backing()
      ensures service.Valid()
      ensures texts.None? || texts.value == [] ==>
                r == BadRequest(TextsEmpty) && service.Docs() == old(service.Docs())
      ensures texts.Some? && texts.value != [] ==>
                var embs := EmbedBatch(service.gateway, texts);
                && r.AddedBatch? && r.count == |r.ids| == Min(|texts.value|, |embs|)
                && r.ids == service.IdsBetween(old(service.drawn), service.drawn)
                && service.Docs() == PutAll(old(service.Docs()), service.BatchDocs(texts.value, embs, r.ids))
    {
      if texts.None? || texts.value == [] {
        return BadRequest(TextsEmpty);
      }
      var ids := service.AddDocuments(texts);
      r := AddedBatch(ids, |ids|);
    }

    /** `GET /search`: the query parameter is required; `topK` defaults to 5. */
    method SearchGet(query: string, topK: int) returns (r: Reply, ghost rs: seq<SearchResult>)
      requires service.Valid()
      ensures IsBlank(query) ==> r == BadRequest(QueryEmpty)
      ensures !IsBlank(query) ==> Searched(Some(query), topK, r, rs)
    {
      r, rs := DoSearch(Some(query), topK);
    }

    /** `POST /search`: the query and `topK` come from the body. */
    method SearchPost(query: Option<string>, topK: TopKField) returns (r: Reply, ghost rs: seq<SearchResult>)
      requires service.Valid()
      ensures IsNullOrBlank(query) ==> r == BadRequest(QueryEmpty)
      ensures !IsNullOrBlank(query) ==> Searched(query, PostTopK(topK), r, rs)
    {
      r, rs := DoSearch(query, PostTopK(topK));
    }

    /** The search a non-blank query gets: `rs` is the top `Clamp(topK)` of the
        store for the query's embedding (none when it cannot be embedded), and
        the answer lists them. */
    ghost predicate Searched(query: Option<string>, topK: int, r: Reply, rs: seq<SearchResult>)
      requires query.Some?
      reads service.Backing()
    {
      var emb := Embed(service.gateway, query);
      && (emb.None? ==> rs == [])
      && (emb.Some? ==> IsTopK(service.Docs(), emb.value, service.score, Clamp(topK), rs))
      && r == SearchReply(query.value, rs)
    }

    /** `doSearch`: a null or blank query is refused with 400; otherwise the
        search runs with `topK` clamped to 1..50, so no answer lists more than
        50 hits, and the hits are listed best score first. */
    method DoSearch(query: Option<string>, topK: int) returns (r: Reply, ghost rs: seq<SearchResult>)
      requires service.Valid()
      ensures IsNullOrBlank(query) ==> r == BadRequest(QueryEmpty)
      ensures !IsNullOrBlank(query) ==> Searched(query, topK, r, rs)
      ensures r.Found? ==> r.count == |r.results| <= MaxTopK
      ensures r.Found? ==> forall i, j | 0 <= i < j < |r.results| :: r.results[i].score >= r.results[j].score
    {
      if query.None? || IsBlank(query.value) {
        return BadRequest(QueryEmpty), [];
      }
      var k := Clamp(topK);
      var results := service.Search(query, k);
      rs := results;
      r := SearchReply(query.value, results);
    }

    /** `GET /stats`: the number of stored documents. */
    method GetStats() returns (r: Reply)
      requires service.Valid()
      ensures r == Stats(|service.Docs()|)
    {
      r := Stats(service.Count());
    }

    /** `POST /clear`: the store ends up empty. */
    method Clear() returns (r: Reply)
      requires service.Valid()
      modifies service.Backing()
      ensures service.Valid() && service.Docs() == map[]
      ensures r == Cleared(ClearedMessage)
    {
      service.Clear();
      r := Cleared(ClearedMessage);
    }

    /** `POST /sync-from-devices`: the device documents are rebuilt from the
        device table; the answer counts the documents added, at most one per
        enabled device plus the rule document. */
    method SyncFromDevices(devices: seq<Device>) returns (r: Reply)
      requires service.Valid()
      modifies service, service.Backing()
      ensures service.Valid()
      ensures r.Synced? && r.message == SyncedMessage
      ensures 0 <= r.documentsAdded <= |FindByEnabledTrue(devices)| + 1
      ensures old(service.SourcesConsistent()) ==> |DeviceDocKeys(service.Docs())| <= r.documentsAdded
      ensures service.drawn == old(service.drawn) + r.documentsAdded
      ensures old(service.SourcesConsistent()) ==>
                KeepsOutside(old(service.Docs()) - DeviceDocKeys(old(service.Docs())), service.Docs(),
                             service.IdsBetween(old(service.drawn), service.drawn))
      ensures r.documentsAdded == service.SyncWrites(devices)
      ensures service.Rebuilt(old(service.Docs()), old(service.drawn), old(service.SourcesConsistent()), devices)
    {
      var added := service.SyncFromDevices(devices);
      r := Synced(SyncedMessage, added);
    }
  }
}
