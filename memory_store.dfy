/** The in-memory vector store: a map from id to document, updated in place.
    Persisting the map to a JSON file after each change is file I/O and is not
    part of this model; loading receives the already-parsed list. */
module MemoryStore {
  import opened JavaLang
  import opened VectorTypes
  import opened Ranking

  /** A document `add` accepts: non-null with a non-null id. */
  predicate Storable(doc: Option<VectorDocument>) {
    doc.Some? && doc.value.id.Some?
  }

  /** The store after `add(doc)`. */
  function Put(store: Store, doc: Option<VectorDocument>): (r: Store)
    ensures KeyedById(store) ==> KeyedById(r)
    ensures Storable(doc) ==> doc.value.id.value in r && r[doc.value.id.value] == doc.value
    ensures forall k | k in store && !(Storable(doc) && k == doc.value.id.value) :: k in r && r[k] == store[k]
    ensures r.Keys <= store.Keys + (if Storable(doc) then {doc.value.id.value} else {})
  {
    if Storable(doc) then store[doc.value.id.value := doc.value] else store
  }

  /** The store after putting every document of `docs` in list order. */
  function PutAll(store: Store, docs: seq<Option<VectorDocument>>): (r: Store)
    ensures KeyedById(store) ==> KeyedById(r)
  {
    if docs == [] then store
    else Put(PutAll(store, docs[..|docs| - 1]), docs[|docs| - 1])
  }

  /** The last accepted document of `docs` carrying id `id`. */
  function LastWithId(docs: seq<Option<VectorDocument>>, id: string): (r: Option<VectorDocument>)
    ensures r.Some? ==> r.value.id == Some(id) && Some(r.value) in docs
  {
    if docs == [] then None
    else if Storable(docs[|docs| - 1]) && docs[|docs| - 1].value.id.value == id then docs[|docs| - 1]
    else LastWithId(docs[..|docs| - 1], id)
  }

  /** `addAll`: for every id, the last document of the list under that id wins;
      ids the list does not mention keep their document. */
  lemma {:induction false} PutAllLastWins(store: Store, docs: seq<Option<VectorDocument>>, id: string)
    ensures LastWithId(docs, id).Some? ==>
              id in PutAll(store, docs) && PutAll(store, docs)[id] == LastWithId(docs, id).value
    ensures LastWithId(docs, id).None? ==>
              (id in PutAll(store, docs) <==> id in store)
              && (id in store ==> PutAll(store, docs)[id] == store[id])
  {
    if docs != [] {
      PutAllLastWins(store, docs[..|docs| - 1], id);
    }
  }

  /** The store after `removeBySource(source)`: the documents filed under
      `source` are gone, every other document stays. */
  function WithoutSource(store: Store, source: string): (r: Store)
    ensures r.Keys <= store.Keys
    ensures forall k | k in store :: k in r <==> !HasSource(store[k], source)
    ensures forall k | k in r :: r[k] == store[k]
  {
    map k | k in store && !HasSource(store[k], source) :: store[k]
  }

  function KeysWithSource(store: Store, source: string): set<string> {
    set k | k in store && HasSource(store[k], source)
  }

  /** The count `removeBySource` logs, `before - size()`, is the number of
      documents filed under the source. */
  lemma RemovedCount(store: Store, source: string)
    ensures |store| - |WithoutSource(store, source)| == |KeysWithSource(store, source)|
  {
    var kept := WithoutSource(store, source).Keys;
    var gone := KeysWithSource(store, source);
    assert store.Keys == kept + gone;
    assert kept * gone == {};
  }

  class InMemoryVectorStore {
    var store: Store

    ghost predicate Valid()
      reads this
    {
      KeyedById(store)
    }

    constructor()
      ensures Valid() && store == map[]
    {
      store := map[];
    }

    /** The loading loop of `loadFromFile`: null entries and null ids are
        skipped, and a later document under the same id replaces an earlier one.
        A missing, blank or unreadable file yields `None` and changes nothing. */
    method LoadFromFile(list: Option<seq<Option<VectorDocument>>>)
      requires Valid()
      modifies this
      ensures Valid()
      ensures store == if list.None? then old(store) else PutAll(old(store), list.value)
    {
      if list.Some? {
        PutEach(list.value);
      }
    }

    method Add(doc: Option<VectorDocument>)
      requires Valid()
      modifies this
      ensures Valid()
      ensures store == Put(old(store), doc)
    {
      if doc.None? || doc.value.id.None? {
        return;
      }
      store := store[doc.value.id.value := doc.value];
    }

    /** `addAll`: a null list changes nothing. */
    method AddAll(docs: Option<seq<Option<VectorDocument>>>)
      requires Valid()
      modifies this
      ensures Valid()
      ensures store == if docs.None? then old(store) else PutAll(old(store), docs.value)
    {
      if docs.None? {
        return;
      }
      PutEach(docs.value);
    }

    /** The loop `addAll` and `loadFromFile` share. */
    method PutEach(docs: seq<Option<VectorDocument>>)
      requires Valid()
      modifies this
      ensures Valid()
      ensures store == PutAll(old(store), docs)
    {
      var i := 0;
      while i < |docs|
        invariant 0 <= i <= |docs|
        invariant store == PutAll(old(store), docs[..i])
        invariant Valid()
      {
        var d := docs[i];
        if d.Some? && d.value.id.Some? {
          store := store[d.value.id.value := d.value];
        }
        assert docs[..i + 1][..i] == docs[..i];
        i := i + 1;
      }
      assert docs[..i] == docs;
    }

    /** `remove(id)`: only that id goes; an absent id changes nothing. */
    method Remove(id: string)
      requires Valid()
      modifies this
      ensures Valid()
      ensures store == old(store) - {id}
    {
      store := store - {id};
    }

    method Clear()
      requires Valid()
      modifies this
      ensures Valid()
      ensures store == map[]
    {
      store := map[];
    }

    /** `removeBySource`: a null source changes nothing. */
    method RemoveBySource(source: Option<string>)
      requires Valid()
      modifies this
      ensures Valid()
      ensures store == if source.None? then old(store) else WithoutSource(old(store), source.value)
    {
      if source.None? {
        return;
      }
      store := map k | k in store && !HasSource(store[k], source.value) :: store[k];
    }

    /** `size()`: the number of distinct ids. */
    function Size(): (n: nat)
      reads this
      ensures n == |store.Keys|
    {
      |store|
    }

    method Search(query: Option<seq<real>>, topK: int, score: Score) returns (rs: seq<SearchResult>)
      requires Valid() && topK >= 0
      ensures query.None? ==> rs == []
      ensures query.Some? ==> IsTopK(store, query.value, score, topK, rs)
    {
      rs := Ranking.Search(store, query, topK, score);
    }
  }
}
