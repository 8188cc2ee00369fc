/** The MySQL-backed vector store: a cache map mirrors the rows of the
    `vector_document` table, and every change goes to both. The table is modelled
    as a map from id (its primary key) to row. JSON columns are modelled by what
    Jackson reads back from them: `Parsed(v)` for a text that reads as `v`,
    `Unparsed` for a null column, a blank or malformed text, or the JSON literal
    null. Writing JSON is taken to succeed. */
module MysqlStore {
  import opened JavaLang
  import opened VectorTypes
  import opened Ranking
  import opened MemoryStore

  datatype JsonText<T> = Unparsed | Parsed(value: T)

  /** One row of the `vector_document` table (its creation time is left out). */
  datatype Row = Row(
    id: string,
    text: Option<string>,
    embeddingJson: JsonText<seq<real>>,
    metadataJson: JsonText<Metadata>,
    source: Option<string>)

  type Table = map<string, Row>

  predicate RowsKeyedById(rows: Table) {
    forall k | k in rows :: rows[k].id == k
  }

  /** `parseEmbedding`: nothing for an unreadable text or an empty list. */
  function EmbeddingOf(json: JsonText<seq<real>>): (r: Option<seq<real>>)
    ensures r.Some? <==> json.Parsed? && |json.value| > 0
    ensures r.Some? ==> r.value == json.value
  {
    if json.Parsed? && |json.value| > 0 then Some(json.value) else None
  }

  /** `toDocument`: a row whose embedding does not read back is skipped; a row
      whose metadata does not read back keeps null metadata. */
  function DocumentOf(row: Row): (r: Option<VectorDocument>)
    ensures r.Some? <==> EmbeddingOf(row.embeddingJson).Some?
    ensures r.Some? ==> r.value.id == Some(row.id) && r.value.text == row.text
    ensures r.Some? ==> r.value.metadata == (if row.metadataJson.Parsed? then Some(row.metadataJson.value) else None)
  {
    match EmbeddingOf(row.embeddingJson)
    case None => None
    case Some(emb) =>
      Some(VectorDocument(Some(row.id), row.text, Some(emb),
                          if row.metadataJson.Parsed? then Some(row.metadataJson.value) else None))
  }

  /** `toEntity`: nothing for a null document or id; a null embedding is written
      as `[]`, null or empty metadata as a null column, and the `source` column
      is derived from the metadata. */
  function RowOf(doc: VectorDocument): (r: Option<Row>)
    ensures r.Some? <==> doc.id.Some?
    ensures r.Some? ==> r.value.id == doc.id.value && r.value.source == SourceColumn(doc)
  {
    if doc.id.None? then None
    else
      var emb := if doc.embedding.Some? then doc.embedding.value else [];
      var meta := if doc.metadata.Some? && |doc.metadata.value| > 0 then Parsed(doc.metadata.value) else Unparsed;
      Some(Row(doc.id.value, doc.text, Parsed(emb), meta, SourceColumn(doc)))
  }

  /** What a stored document becomes after the next load: itself, except that
      empty metadata turns into null; and a document stored with a null or empty
      embedding does not come back at all. */
  lemma ReloadedDocument(doc: VectorDocument)
    requires doc.id.Some?
    ensures var back := DocumentOf(RowOf(doc).value);
            && (back.Some? <==> doc.embedding.Some? && |doc.embedding.value| > 0)
            && (back.Some? ==> back.value == doc.(metadata := if doc.metadata == Some([]) then None else doc.metadata))
  {
  }

  /** The documents a load reads from the rows whose ids are in `ks`. */
  function LoadedFrom(rows: Table, ks: set<string>): (r: Store)
    requires RowsKeyedById(rows)
    ensures KeyedById(r)
    ensures r.Keys <= ks * rows.Keys
  {
    map k | k in ks && k in rows && DocumentOf(rows[k]).Some? :: DocumentOf(rows[k]).value
  }

  /** Loading one more row into `base` adds its document, if it reads back as one. */
  lemma LoadStep(base: Store, rows: Table, done: set<string>, k: string)
    requires RowsKeyedById(rows) && k in rows && k !in done
    ensures base + LoadedFrom(rows, done + {k}) ==
            if DocumentOf(rows[k]).Some? then (base + LoadedFrom(rows, done))[k := DocumentOf(rows[k]).value]
            else base + LoadedFrom(rows, done)
  {
    var l0 := LoadedFrom(rows, done);
    var l1 := LoadedFrom(rows, done + {k});
    if DocumentOf(rows[k]).Some? {
      assert l1 == l0[k := DocumentOf(rows[k]).value];
    } else {
      assert l1 == l0;
    }
  }

  /** Loading into a cache that mirrors the table keeps it mirroring. */
  lemma LoadKeepsMirror(base: Store, rows: Table, done: set<string>)
    requires RowsKeyedById(rows) && KeyedById(base) && base.Keys <= rows.Keys
    ensures KeyedById(base + LoadedFrom(rows, done))
    ensures (base + LoadedFrom(rows, done)).Keys <= rows.Keys
  {
  }

  /** The table after saving the row of every accepted document of `docs` in order. */
  function SaveAll(rows: Table, docs: seq<Option<VectorDocument>>): (r: Table)
    ensures RowsKeyedById(rows) ==> RowsKeyedById(r)
    ensures rows.Keys <= r.Keys
  {
    if docs == [] then rows
    else
      var init := SaveAll(rows, docs[..|docs| - 1]);
      var d := docs[|docs| - 1];
      if Storable(d) then init[d.value.id.value := RowOf(d.value).value] else init
  }

  /** Saving a list keeps every cached id backed by a row. */
  lemma {:induction false} SaveAllMirrors(cache: Store, rows: Table, docs: seq<Option<VectorDocument>>)
    requires cache.Keys <= rows.Keys
    ensures PutAll(cache, docs).Keys <= SaveAll(rows, docs).Keys
  {
    if docs != [] {
      SaveAllMirrors(cache, rows, docs[..|docs| - 1]);
    }
  }

  function IdsWithSourceColumn(rows: Table, source: string): set<string> {
    set k | k in rows && rows[k].source == Some(source)
  }

  /** The cache and the table agree on the source of every cached document. */
  ghost predicate SourcesAgree(cache: Store, rows: Table) {
    forall k | k in cache && k in rows :: rows[k].source == SourceColumn(cache[k])
  }

  /** Where the cache and the table agree on sources, the MySQL store evicts every
      document the in-memory store would remove for the same source. */
  lemma EvictsWhatMemoryRemoves(cache: Store, rows: Table, source: string)
    requires SourcesAgree(cache, rows) && cache.Keys <= rows.Keys
    ensures (cache - IdsWithSourceColumn(rows, source)).Keys <= WithoutSource(cache, source).Keys
  {
    forall k | k in cache - IdsWithSourceColumn(rows, source)
      ensures k in WithoutSource(cache, source)
    {
      assert k !in IdsWithSourceColumn(rows, source);
    }
  }

  /** For a plain source name the two stores remove exactly the same documents. */
  lemma EvictsExactlyWhatMemoryRemoves(cache: Store, rows: Table, source: string)
    requires SourcesAgree(cache, rows) && cache.Keys <= rows.Keys && PlainSourceName(source)
    ensures cache - IdsWithSourceColumn(rows, source) == WithoutSource(cache, source)
  {
    forall k | k in cache ensures k in IdsWithSourceColumn(rows, source) <==> HasSource(cache[k], source) {
      ColumnOfPlainSource(cache[k], source);
    }
  }

  class MysqlVectorStore {
    var cache: Store
    var rows: Table

    /** The mirror invariant: every cached id has its row. */
    ghost predicate Valid()
      reads this
    {
      KeyedById(cache) && RowsKeyedById(rows) && cache.Keys <= rows.Keys
    }

    /** A store over an existing table starts with an empty cache. */
    constructor(table: Table)
      requires RowsKeyedById(table)
      ensures Valid() && cache == map[] && rows == table
    {
      cache := map[];
      rows := table;
    }

    /** `loadFromDb`: every row that reads back as a document enters the cache.
        Rows are visited in the table's order, which does not matter: ids are
        unique. */
    method LoadFromDb()
      requires Valid()
      modifies this
      ensures Valid() && rows == old(rows)
      ensures cache == old(cache) + LoadedFrom(rows, rows.Keys)
    {
      var table := rows;
      var todo := table.Keys;
      ghost var done: set<string> := {};
      while todo != {}
        invariant todo <= table.Keys && done == table.Keys - todo
        invariant rows == table
        invariant cache == old(cache) + LoadedFrom(table, done)
        decreases |todo|
      {
        var k :| k in todo;
        var doc := ToDocument(table[k]);
        LoadStep(old(cache), table, done, k);
        if doc.Some? {
          cache := cache[k := doc.value];
        }
        todo := todo - {k};
        done := done + {k};
      }
      LoadKeepsMirror(old(cache), table, done);
    }

    /** `toDocument`, with the element-by-element copy of `parseEmbedding`. */
    static method ToDocument(row: Row) returns (doc: Option<VectorDocument>)
      ensures doc == DocumentOf(row)
    {
      var emb := ParseEmbedding(row.embeddingJson);
      if emb.None? {
        return None;
      }
      var meta := if row.metadataJson.Parsed? then Some(row.metadataJson.value) else None;
      doc := Some(VectorDocument(Some(row.id), row.text, emb, meta));
    }

    /** `parseEmbedding`: nothing for an unreadable text or an empty list,
        otherwise the list copied into a fresh array. */
    static method ParseEmbedding(json: JsonText<seq<real>>) returns (emb: Option<seq<real>>)
      ensures emb == EmbeddingOf(json)
    {
      if json.Unparsed? || |json.value| == 0 {
        return None;
      }
      var list := json.value;
      var a := new real[|list|];
      for i := 0 to |list|
        invariant a[..i] == list[..i]
      {
        a[i] := list[i];
      }
      assert a[..] == a[..|list|] && list[..|list|] == list;
      emb := Some(a[..]);
    }

    /** `add`: a null document or id changes nothing; otherwise the row and the
        cache entry for that id are both set. */
    method Add(doc: Option<VectorDocument>)
      requires Valid()
      modifies this
      ensures Valid()
      ensures cache == Put(old(cache), doc)
      ensures rows == if Storable(doc) then old(rows)[doc.value.id.value := RowOf(doc.value).value] else old(rows)
      ensures SourcesAgree(old(cache), old(rows)) ==> SourcesAgree(cache, rows)
    {
      if doc.None? || doc.value.id.None? {
        return;
      }
      var e := RowOf(doc.value);
      rows := rows[doc.value.id.value := e.value];
      cache := cache[doc.value.id.value := doc.value];
    }

    /** `addAll`: `add` for every element in list order; a null list changes nothing. */
    method AddAll(docs: Option<seq<Option<VectorDocument>>>)
      requires Valid()
      modifies this
      ensures Valid()
      ensures cache == if docs.None? then old(cache) else PutAll(old(cache), docs.value)
      ensures rows == if docs.None? then old(rows) else SaveAll(old(rows), docs.value)
    {
      if docs.None? {
        return;
      }
      var ds := docs.value;
      var i := 0;
      while i < |ds|
        invariant 0 <= i <= |ds| && Valid()
        invariant cache == PutAll(old(cache), ds[..i])
        invariant rows == SaveAll(old(rows), ds[..i])
      {
        Add(ds[i]);
        assert ds[..i + 1][..i] == ds[..i];
        i := i + 1;
      }
      assert ds[..i] == ds;
    }

    /** `remove(id)`: the row and the cache entry go. */
    method Remove(id: string)
      requires Valid()
      modifies this
      ensures Valid()
      ensures cache == old(cache) - {id} && rows == old(rows) - {id}
    {
      rows := rows - {id};
      cache := cache - {id};
    }

    /** `removeBySource`: a null source changes nothing; otherwise every cached id
        the table lists under the source is evicted, then those rows are deleted. */
    method RemoveBySource(source: Option<string>)
      requires Valid()
      modifies this
      ensures Valid()
      ensures source.None? ==> cache == old(cache) && rows == old(rows)
      ensures source.Some? ==> cache == old(cache) - IdsWithSourceColumn(old(rows), source.value)
      ensures source.Some? ==> rows == old(rows) - IdsWithSourceColumn(old(rows), source.value)
    {
      if source.None? {
        return;
      }
      var listed := IdsWithSourceColumn(rows, source.value);
      var todo := listed;
      while todo != {}
        invariant todo <= listed && rows == old(rows) && Valid()
        invariant cache == old(cache) - (listed - todo)
        decreases |todo|
      {
        var k :| k in todo;
        cache := cache - {k};
        todo := todo - {k};
      }
      assert listed - todo == listed;
      rows := map k | k in rows && rows[k].source != Some(source.value) :: rows[k];
    }

    method Clear()
      requires Valid()
      modifies this
      ensures Valid()
      ensures cache == map[] && rows == map[]
    {
      rows := map[];
      cache := map[];
    }

    /** `size()` reports the cache, not the table. */
    function Size(): (n: nat)
      reads this
      ensures n == |cache.Keys|
    {
      |cache|
    }

    method Search(query: Option<seq<real>>, topK: int, score: Score) returns (rs: seq<SearchResult>)
      requires Valid() && topK >= 0
      ensures query.None? ==> rs == []
      ensures query.Some? ==> IsTopK(cache, query.value, score, topK, rs)
    {
      rs := Ranking.Search(cache, query, topK, score);
    }
  }
}
