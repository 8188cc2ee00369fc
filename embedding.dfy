/** The two embedding response bodies and the guards of the embedding gateway.
    The HTTP calls themselves are parameters: each returns the parsed body of a
    2xx response, or `None` for an error status, a missing body or an exception.
    Float and double values are modelled as reals. */
module Embedding {
  import opened JavaLang

  /** One item of an OpenAI-compatible response; `index` is carried but never read. */
  datatype EmbeddingData = EmbeddingData(index: int, embedding: Option<seq<real>>, objectType: Option<string>)

  datatype EmbeddingResponse = EmbeddingResponse(data: Option<seq<EmbeddingData>>)

  datatype OllamaEmbedResponse = OllamaEmbedResponse(embeddings: Option<seq<Option<seq<real>>>>)

  /** A list copied element by element into a fresh array; a null list becomes
      an empty array. */
  function ToArray(list: Option<seq<real>>): (arr: seq<real>)
    ensures list.None? ==> arr == []
    ensures list.Some? ==> |arr| == |list.value| && forall i | 0 <= i < |arr| :: arr[i] == list.value[i]
  {
    if list.None? then [] else seq(|list.value|, i requires 0 <= i < |list.value| => list.value[i])
  }

  /** `EmbeddingResponse.getFirstEmbedding`. */
  function FirstEmbedding(r: EmbeddingResponse): (e: Option<seq<real>>)
    ensures e.None? <==> r.data.None? || |r.data.value| == 0 || r.data.value[0].embedding.None?
    ensures e.Some? ==> e.value == r.data.value[0].embedding.value
  {
    if r.data.None? || |r.data.value| == 0 then None
    else if r.data.value[0].embedding.None? then None
    else Some(ToArray(r.data.value[0].embedding))
  }

  /** `EmbeddingResponse.getAllEmbeddings`: one array per item, in order. */
  function AllEmbeddings(r: EmbeddingResponse): (es: seq<seq<real>>)
    ensures r.data.None? ==> es == []
    ensures r.data.Some? ==> |es| == |r.data.value|
    ensures r.data.Some? ==> forall i | 0 <= i < |es| :: es[i] == ToArray(r.data.value[i].embedding)
  {
    if r.data.None? || |r.data.value| == 0 then []
    else seq(|r.data.value|, i requires 0 <= i < |r.data.value| => ToArray(r.data.value[i].embedding))
  }

  /** The first embedding is the head of all embeddings, except that a null first
      list gives no first embedding but an empty array in the list. */
  lemma FirstIsHeadOfAll(r: EmbeddingResponse)
    requires r.data.Some? && |r.data.value| > 0
    ensures FirstEmbedding(r).Some? ==> AllEmbeddings(r)[0] == FirstEmbedding(r).value
    ensures FirstEmbedding(r).None? ==> AllEmbeddings(r)[0] == []
  {
    var e := r.data.value[0].embedding;
    if e.Some? {
      assert ToArray(e) == e.value;
    }
  }

  /** `OllamaEmbedResponse.getFirstEmbedding`. */
  function OllamaFirstEmbedding(r: OllamaEmbedResponse): (e: Option<seq<real>>)
    ensures e.None? <==> r.embeddings.None? || |r.embeddings.value| == 0 || r.embeddings.value[0].None?
    ensures e.Some? ==> e.value == r.embeddings.value[0].value
  {
    if r.embeddings.None? || |r.embeddings.value| == 0 then None
    else if r.embeddings.value[0].None? then None
    else Some(ToArray(r.embeddings.value[0]))
  }

  /** `OllamaEmbedResponse.getAllEmbeddings`: one array per inner list, in order. */
  function OllamaAllEmbeddings(r: OllamaEmbedResponse): (es: seq<seq<real>>)
    ensures r.embeddings.None? ==> es == []
    ensures r.embeddings.Some? ==> |es| == |r.embeddings.value|
    ensures r.embeddings.Some? ==> forall i | 0 <= i < |es| :: es[i] == ToArray(r.embeddings.value[i])
  {
    if r.embeddings.None? || |r.embeddings.value| == 0 then []
    else seq(|r.embeddings.value|, i requires 0 <= i < |r.embeddings.value| => ToArray(r.embeddings.value[i]))
  }

  lemma OllamaFirstIsHeadOfAll(r: OllamaEmbedResponse)
    requires r.embeddings.Some? && |r.embeddings.value| > 0
    ensures OllamaFirstEmbedding(r).Some? ==> OllamaAllEmbeddings(r)[0] == OllamaFirstEmbedding(r).value
    ensures OllamaFirstEmbedding(r).None? ==> OllamaAllEmbeddings(r)[0] == []
  {
    var e := r.embeddings.value[0];
    if e.Some? {
      assert ToArray(e) == e.value;
    }
  }

  /** The embedding gateway: local mode talks to Ollama, online mode to an
      OpenAI-compatible endpoint that needs an API key. */
  datatype Gateway = Gateway(
    local: bool,
    apiKey: Option<string>,
    dashScope: seq<string> -> Option<EmbeddingResponse>,
    ollama: seq<string> -> Option<OllamaEmbedResponse>)

  /** `embed(text)`: nothing for a null or blank text, nothing online without a
      key, otherwise the first embedding of the response. */
  function Embed(g: Gateway, text: Option<string>): (e: Option<seq<real>>)
    ensures e.Some? ==> !IsNullOrBlank(text) && (g.local || !IsNullOrBlank(g.apiKey))
  {
    if IsNullOrBlank(text) then None
    else if g.local then
      match g.ollama([text.value])
      case None => None
      case Some(r) => OllamaFirstEmbedding(r)
    else if IsNullOrBlank(g.apiKey) then None
    else
      match g.dashScope([text.value])
      case None => None
      case Some(r) => FirstEmbedding(r)
  }

  /** `embedBatch(texts)`: nothing for a null or empty list or, online, without a
      key; otherwise all embeddings of the response. No element is null: a null
      list inside the response becomes an empty array. */
  function EmbedBatch(g: Gateway, texts: Option<seq<string>>): (es: seq<seq<real>>)
    ensures (texts.None? || texts.value == []) ==> es == []
    ensures !g.local && IsNullOrBlank(g.apiKey) ==> es == []
  {
    if texts.None? || texts.value == [] then []
    else if g.local then
      match g.ollama(texts.value)
      case None => []
      case Some(r) => OllamaAllEmbeddings(r)
    else if IsNullOrBlank(g.apiKey) then []
    else
      match g.dashScope(texts.value)
      case None => []
      case Some(r) => AllEmbeddings(r)
  }
}
