/** The retrieval and ingestion service in front of a vector store: documents
    are embedded through the gateway and filed under fresh ids, searches embed
    the query first, the RAG context keeps the results above a score threshold,
    and the device table is re-synchronised into the store. The store is either
    backend, chosen once. The random UUIDs are a given sequence of UUID texts
    drawn in order; the similarity threshold and the score are configuration. */
module VectorService {
  import opened JavaLang
  import opened VectorTypes
  import opened Ranking
  import opened MemoryStore
  import opened MysqlStore
  import opened Embedding
  import opened Devices
  import opened DeviceText

  // ---------------------------------------------------------------- ids

  predicate IsHexDigit(c: char) {
    '0' <= c <= '9' || 'a' <= c <= 'f'
  }

  /** Only lower-case hexadecimal digits. */
  predicate AllHex(s: string) {
    forall i | 0 <= i < |s| :: IsHexDigit(s[i])
  }

  /** `UUID.toString()`: 8-4-4-4-12 lower-case hex digits joined by dashes. */
  predicate IsUuidText(s: string) {
    && |s| == 36
    && forall i | 0 <= i < 36 :: if i == 8 || i == 13 || i == 18 || i == 23 then s[i] == '-' else IsHexDigit(s[i])
  }

  /** The text of a random UUID, the value `UUID.randomUUID().toString()` yields. */
  type UuidText = s: string | IsUuidText(s) witness "00000000-0000-0000-0000-000000000000"

  /** `replace("-", "")`. */
  function RemoveDashes(s: string): (r: string)
    ensures |r| <= |s|
  {
    if s == [] then [] else (if s[0] == '-' then [] else [s[0]]) + RemoveDashes(s[1..])
  }

  lemma {:induction false} RemoveDashesAppend(a: string, b: string)
    ensures RemoveDashes(a + b) == RemoveDashes(a) + RemoveDashes(b)
  {
    if a == [] {
      assert a + b == b;
    } else {
      assert (a + b)[1..] == a[1..] + b;
      RemoveDashesAppend(a[1..], b);
    }
  }

  lemma {:induction false} RemoveDashesKeeps(s: string)
    requires AllHex(s)
    ensures RemoveDashes(s) == s
  {
    if s != [] {
      RemoveDashesKeeps(s[1..]);
    }
  }

  /** Dropping the dash between two parts joins them. */
  lemma RemoveDash(x: string, y: string, rx: string)
    requires RemoveDashes(x) == rx && AllHex(y)
    ensures RemoveDashes(x + "-" + y) == rx + y
  {
    var xd := x + "-";
    assert RemoveDashes(xd) == rx by {
      RemoveDashesAppend(x, "-");
      assert RemoveDashes("-") == [] by {
        assert "-"[1..] == [];
      }
    }
    RemoveDashesAppend(xd, y);
    RemoveDashesKeeps(y);
  }

  /** Dropping the dashes of a UUID text leaves its five groups of digits. */
  lemma UuidWithoutDashes(s: UuidText)
    ensures RemoveDashes(s) == s[..8] + s[9..13] + s[14..18] + s[19..23] + s[24..]
  {
    var a, b, c, d, e := s[..8], s[9..13], s[14..18], s[19..23], s[24..];
    assert s == a + "-" + b + "-" + c + "-" + d + "-" + e;
    assert AllHex(a) by { forall i | 0 <= i < 8 ensures IsHexDigit(a[i]) { assert a[i] == s[i]; } }
    assert AllHex(b) by { forall i | 0 <= i < 4 ensures IsHexDigit(b[i]) { assert b[i] == s[9 + i]; } }
    assert AllHex(c) by { forall i | 0 <= i < 4 ensures IsHexDigit(c[i]) { assert c[i] == s[14 + i]; } }
    assert AllHex(d) by { forall i | 0 <= i < 4 ensures IsHexDigit(d[i]) { assert d[i] == s[19 + i]; } }
    assert AllHex(e) by { forall i | 0 <= i < 12 ensures IsHexDigit(e[i]) { assert e[i] == s[24 + i]; } }
    RemoveDashesKeeps(a);
    RemoveDash(a, b, a);
    RemoveDash(a + "-" + b, c, a + b);
    RemoveDash(a + "-" + b + "-" + c, d, a + b + c);
    RemoveDash(a + "-" + b + "-" + c + "-" + d, e, a + b + c + d);
  }

  /** The id a document is filed under: `UUID.toString().replace("-", "").substring(0, 16)`.
      A UUID text always leaves more than 16 digits (NewIdDigits). */
  function NewId(u: string): (id: string)
    ensures |id| <= 16
  {
    var digits := RemoveDashes(u);
    if |digits| < 16 then digits else digits[..16]
  }

  /** The id is the first three groups of the UUID, 16 hex digits: the dashes
      never reach it. */
  lemma NewIdDigits(u: UuidText)
    ensures NewId(u) == u[..8] + u[9..13] + u[14..18] && |NewId(u)| == 16 && AllHex(NewId(u))
  {
    UuidWithoutDashes(u);
    var g := u[..8] + u[9..13] + u[14..18];
    assert (g + u[19..23] + u[24..])[..16] == g;
    forall i | 0 <= i < 16 ensures IsHexDigit(g[i]) {
      if i < 8 {
        assert g[i] == u[i];
      } else if i < 12 {
        assert g[i] == u[i + 1];
      } else {
        assert g[i] == u[i + 2];
      }
    }
  }

  // ---------------------------------------------------------------- backends

  /** The store behind the service, chosen by configuration. */
  datatype Backend = Memory(mem: InMemoryVectorStore) | Mysql(db: MysqlVectorStore)

  ghost function ObjectOf(b: Backend): object {
    if b.Memory? then b.mem else b.db
  }

  ghost predicate ValidBackend(b: Backend)
    reads ObjectOf(b)
  {
    if b.Memory? then b.mem.Valid() else b.db.Valid()
  }

  /** The documents a search sees: the map, or the MySQL store's cache. */
  ghost function DocsOf(b: Backend): Store
    reads ObjectOf(b)
  {
    if b.Memory? then b.mem.store else b.db.cache
  }

  /** The MySQL cache and table agree on the source of every cached document;
      the in-memory backend has nothing to agree with. */
  ghost predicate SourcesConsistentOf(b: Backend)
    reads ObjectOf(b)
  {
    b.Mysql? ==> SourcesAgree(b.db.cache, b.db.rows)
  }

  // ---------------------------------------------------------------- specification

  /** The results `buildRagContext` keeps: those scoring at least `minScore`, in order. */
  function Kept(rs: seq<SearchResult>, minScore: real): (kept: seq<SearchResult>)
    ensures |kept| <= |rs|
  {
    if rs == [] then []
    else
      var init := Kept(rs[..|rs| - 1], minScore);
      var last := rs[|rs| - 1];
      if last.score >= minScore then init + [last] else init
  }

  /** A result is kept exactly when it is one of the results and scores at
      least the threshold. */
  lemma {:induction false} KeptMembers(rs: seq<SearchResult>, minScore: real)
    ensures forall r :: r in Kept(rs, minScore) <==> r in rs && r.score >= minScore
  {
    if rs != [] {
      var init := rs[..|rs| - 1];
      KeptMembers(init, minScore);
      assert rs == init + [rs[|rs| - 1]];
    }
  }

  /** Filtering a concatenation filters each part: the kept results keep their order. */
  lemma {:induction false} KeptAppend(a: seq<SearchResult>, b: seq<SearchResult>, minScore: real)
    ensures Kept(a + b, minScore) == Kept(a, minScore) + Kept(b, minScore)
  {
    if b == [] {
      assert a + b == a;
    } else {
      var bi := b[..|b| - 1];
      KeptAppend(a, bi, minScore);
      assert (a + b)[..|a + b| - 1] == a + bi;
    }
  }

  /** The text of each result; a null text reads "null" when joined. */
  function Texts(rs: seq<SearchResult>): (ts: seq<string>)
    ensures |ts| == |rs| && forall i | 0 <= i < |rs| :: ts[i] == Str(rs[i].document.text)
  {
    seq(|rs|, i requires 0 <= i < |rs| => Str(rs[i].document.text))
  }

  /** The context built from search results. */
  function RagContext(rs: seq<SearchResult>, minScore: real): string {
    var kept := Kept(rs, minScore);
    if kept == [] then "" else Join(Texts(kept), "\n\n")
  }

  /** No result at or above the threshold gives an empty context. */
  lemma {:induction false} RagContextBelowThreshold(rs: seq<SearchResult>, minScore: real)
    requires forall i | 0 <= i < |rs| :: rs[i].score < minScore
    ensures Kept(rs, minScore) == [] && RagContext(rs, minScore) == ""
  {
    if rs != [] {
      RagContextBelowThreshold(rs[..|rs| - 1], minScore);
    }
  }

  /** Every result scoring at least the threshold, the threshold itself
      included, contributes its text to the context. */
  lemma RagContextKeeps(rs: seq<SearchResult>, minScore: real, i: int)
    requires 0 <= i < |rs| && rs[i].score >= minScore
    ensures exists p :: OccursAt(RagContext(rs, minScore), Str(rs[i].document.text), p)
  {
    var kept := Kept(rs, minScore);
    KeptMembers(rs, minScore);
    assert rs[i] in kept;
    var k :| 0 <= k < |kept| && kept[k] == rs[i];
    assert Texts(kept)[k] == Str(rs[i].document.text);
    assert RagContext(rs, minScore) == Join(Texts(kept), "\n\n");
    JoinContains(Texts(kept), "\n\n", k);
  }

  /** The documents filed under "device" or "device_rule". */
  ghost function DeviceDocKeys(store: Store): set<string> {
    set k | k in store && (HasSource(store[k], "device") || HasSource(store[k], "device_rule"))
  }

  lemma DeviceDocKeysAfterPut(store: Store, id: string, doc: VectorDocument)
    ensures DeviceDocKeys(store[id := doc]) <= DeviceDocKeys(store) + {id}
  {
  }

  /** Removing the "device" documents and then the "device_rule" ones removes
      exactly the device documents. */
  lemma WithoutDeviceSources(store: Store)
    ensures WithoutSource(WithoutSource(store, "device"), "device_rule") == store - DeviceDocKeys(store)
  {
    var mid := WithoutSource(store, "device");
    forall k | k in store
      ensures k in WithoutSource(mid, "device_rule") <==> k !in DeviceDocKeys(store)
    {
      if k in mid {
        assert mid[k] == store[k];
      }
    }
  }

  /** Every document of `before` whose id is not among `ids` is in `after`, unchanged. */
  ghost predicate KeepsOutside(before: Store, after: Store, ids: seq<string>) {
    forall k | k in before && k !in ids :: k in after && after[k] == before[k]
  }

  /** Writing one more document keeps the rest, the new id joining the excluded ones. */
  lemma KeepsOutsidePut(before: Store, after: Store, ids: seq<string>, id: string, doc: VectorDocument)
    requires KeepsOutside(before, after, ids)
    ensures KeepsOutside(before, after[id := doc], ids + [id])
  {
  }

  /** The instruction document the sync adds after the devices. */
  const RuleText: string := "设备控制输出格式：当用户要求开灯、关灯、打开或关闭某房间灯光时，先正常回复一句话（如「好的，已打开客厅灯」），然后在回复的最后一行的下一行单独输出一行：[DEVICE_CTL] room=房间名 action=on 或 action=off。房间名从用户话中识别（如客厅、卧室），未指定房间则写 room=all。例如：[DEVICE_CTL] room=客厅 action=on。开灯、关灯、打开灯光、关闭灯光、打开客厅灯、关卧室灯 等说法都会触发此格式。"

  const RuleMetadata: Metadata := [("source", MStr("device_rule"))]

  /** A document as the sync files it, before it has an id: its text, the
      text's embedding (none when embedding failed) and its metadata. */
  datatype Entry = Entry(text: string, embedding: Option<seq<real>>, metadata: Metadata)

  /** The document filed for `e` under `id`. */
  function DocOf(e: Entry, id: string): VectorDocument {
    VectorDocument(Some(id), Some(e.text), e.embedding, Some(e.metadata))
  }

  /** How many of `es` have an embedding, and so are written. */
  function Writes(es: seq<Entry>): nat {
    if es == [] then 0 else Writes(es[..|es| - 1]) + (if es[|es| - 1].embedding.Some? then 1 else 0)
  }

  /** At most one write per entry, and exactly one each when all embed. */
  lemma {:induction false} WritesBound(es: seq<Entry>)
    ensures Writes(es) <= |es|
    ensures (forall j | 0 <= j < |es| :: es[j].embedding.Some?) ==> Writes(es) == |es|
  {
    if es != [] {
      WritesBound(es[..|es| - 1]);
    }
  }

  /** A prefix never writes more. */
  lemma {:induction false} WritesPrefix(es: seq<Entry>, i: nat)
    requires i <= |es|
    ensures Writes(es[..i]) <= Writes(es)
    decreases |es| - i
  {
    if i < |es| {
      WritesPrefix(es, i + 1);
      assert es[..i + 1][..i] == es[..i];
    } else {
      assert es[..i] == es;
    }
  }

  /** Entry `j`, when it embeds, is write number `Writes(es[..j])`, below the
      total. */
  lemma WritesBefore(es: seq<Entry>, j: nat)
    requires j < |es| && es[j].embedding.Some?
    ensures Writes(es[..j]) < Writes(es)
  {
    assert es[..j + 1][..j] == es[..j];
    WritesPrefix(es, j + 1);
  }

  // ---------------------------------------------------------------- the service

  class VectorStoreService {
    const backend: Backend
    const gateway: Gateway
    /** `ragMinScore`. */
    const minScore: real
    const score: Score
    /** The `i`-th random UUID drawn. */
    const uuids: nat -> UuidText
    /** How many UUIDs have been drawn. */
    var drawn: nat

    /** The ids made from the UUIDs drawn `lo` to `hi - 1`, in order. */
    function IdsBetween(lo: nat, hi: nat): (ids: seq<string>)
      ensures |ids| == if lo <= hi then hi - lo else 0
    {
      if hi <= lo then [] else IdsBetween(lo, hi - 1) + [NewId(uuids(hi - 1))]
    }

    /** The `j`-th id is made from UUID `lo + j`. */
    lemma {:induction false} IdsBetweenAt(lo: nat, hi: nat, j: nat)
      requires lo + j < hi
      ensures IdsBetween(lo, hi)[j] == NewId(uuids(lo + j))
    {
      if lo + j < hi - 1 {
        IdsBetweenAt(lo, hi - 1, j);
      }
    }

    /** Every drawn id is 16 hex digits. */
    lemma IdsBetweenHex(lo: nat, hi: nat)
      ensures forall j | 0 <= j < |IdsBetween(lo, hi)| :: |IdsBetween(lo, hi)[j]| == 16 && AllHex(IdsBetween(lo, hi)[j])
    {
      forall j | 0 <= j < |IdsBetween(lo, hi)|
        ensures |IdsBetween(lo, hi)[j]| == 16 && AllHex(IdsBetween(lo, hi)[j])
      {
        IdsBetweenAt(lo, hi, j);
        NewIdDigits(uuids(lo + j));
      }
    }

    /** The `topK`-retrieval `buildRagContext` performs for `query` over `docs`:
        "" without a non-blank query, a document or an embedding; otherwise the
        context of some top-`topK` ranking of `docs` for the query's embedding. */
    ghost predicate Retrieved(docs: Store, topK: nat, query: Option<string>, context: string) {
      if IsNullOrBlank(query) || |docs| == 0 || Embed(gateway, query).None? then context == ""
      else exists rs :: IsTopK(docs, Embed(gateway, query).value, score, topK, rs) && context == RagContext(rs, minScore)
    }

    /** The documents of a batch, one per id: text `j` with embedding `j` and
        no metadata, under id `j`. */
    function BatchDocs(texts: seq<string>, embs: seq<seq<real>>, ids: seq<string>): (docs: seq<Option<VectorDocument>>)
      requires |ids| <= |texts| && |ids| <= |embs|
      ensures |docs| == |ids|
    {
      if ids == [] then []
      else
        var n := |ids| - 1;
        BatchDocs(texts, embs, ids[..n]) + [Some(VectorDocument(Some(ids[n]), Some(texts[n]), Some(embs[n]), None))]
    }

    lemma BatchDocsStep(store: Store, texts: seq<string>, embs: seq<seq<real>>, ids: seq<string>, id: string)
      requires |ids| < |texts| && |ids| < |embs|
      ensures PutAll(store, BatchDocs(texts, embs, ids + [id]))
           == PutAll(store, BatchDocs(texts, embs, ids))[id :=
                VectorDocument(Some(id), Some(texts[|ids|]), Some(embs[|ids|]), None)]
    {
      var docs := BatchDocs(texts, embs, ids + [id]);
      assert (ids + [id])[..|ids|] == ids;
    }

    /** The document `syncFromDevices` files for an enabled device. */
    function EntryOf(d: Device): Entry {
      Entry(BuildText(d), Embed(gateway, Some(BuildText(d))), BuildMetadata(d))
    }

    /** The entries of the enabled devices, in table order. */
    function Entries(devs: seq<Device>): seq<Entry> {
      if devs == [] then []
      else Entries(devs[..|devs| - 1]) + (if IsEnabled(devs[|devs| - 1]) then [EntryOf(devs[|devs| - 1])] else [])
    }

    /** The rule document, filed after the devices under "device_rule". */
    function RuleEntry(): Entry {
      Entry(RuleText, Embed(gateway, Some(RuleText)), RuleMetadata)
    }

    /** Everything `syncFromDevices` files, in order. */
    function SyncEntries(devs: seq<Device>): seq<Entry> {
      Entries(devs) + [RuleEntry()]
    }

    /** `store` after filing `es` in order, the UUIDs being drawn from number
        `n` on: every entry with an embedding goes in under the next id. */
    function Filed(store: Store, es: seq<Entry>, n: nat): Store {
      if es == [] then store
      else
        var init := es[..|es| - 1];
        var s := Filed(store, init, n);
        if es[|es| - 1].embedding.Some? then
          var id := NewId(uuids(n + Writes(init)));
          s[id := DocOf(es[|es| - 1], id)]
        else s
    }

    /** The count `syncFromDevices` returns. */
    function SyncWrites(devs: seq<Device>): nat {
      Writes(SyncEntries(devs))
    }

    /** The store `syncFromDevices` leaves when the removals left `store` and
        `n` UUIDs had been drawn. */
    function SyncedDocs(store: Store, devs: seq<Device>, n: nat): Store {
      Filed(store, SyncEntries(devs), n)
    }

    /** No two of the UUIDs drawn from `lo` to `hi - 1` give the same id. */
    ghost predicate DistinctDraws(lo: nat, hi: nat) {
      forall a, b | lo <= a < b < hi :: NewId(uuids(a)) != NewId(uuids(b))
    }

    /** Filing one more entry, once `m` UUIDs have been drawn, writes it under
        the id made from UUID `m` when it embeds. */
    lemma FiledSnoc(store: Store, es: seq<Entry>, e: Entry, n: nat, m: nat)
      requires m == n + Writes(es)
      ensures Writes(es + [e]) == Writes(es) + (if e.embedding.Some? then 1 else 0)
      ensures Filed(store, es + [e], n) ==
                if e.embedding.Some? then Filed(store, es, n)[NewId(uuids(m)) := DocOf(e, NewId(uuids(m)))]
                else Filed(store, es, n)
    {
      assert (es + [e])[..|es|] == es;
    }

    /** With distinct ids, each entry with an embedding is in the store after
        filing, under the id drawn for it. */
    lemma {:induction false} FiledHas(store: Store, es: seq<Entry>, n: nat, j: nat, m: nat)
      requires j < |es| && es[j].embedding.Some? && DistinctDraws(n, n + Writes(es))
      requires m == n + Writes(es[..j])
      ensures NewId(uuids(m)) in Filed(store, es, n)
      ensures Filed(store, es, n)[NewId(uuids(m))] == DocOf(es[j], NewId(uuids(m)))
    {
      var init := es[..|es| - 1];
      if j == |es| - 1 {
        assert es[..j] == init;
      } else {
        assert init[j] == es[j] && init[..j] == es[..j];
        FiledHas(store, init, n, j, m);
        if es[|es| - 1].embedding.Some? {
          WritesBefore(init, j);
        }
      }
    }

    /** Filing keeps every document whose id it does not draw, and every
        device document it leaves is an old one or one it drew. */
    lemma {:induction false} FiledFrame(store: Store, es: seq<Entry>, n: nat, hi: nat)
      requires hi == n + Writes(es)
      ensures KeepsOutside(store, Filed(store, es, n), IdsBetween(n, hi))
      ensures forall k | k in DeviceDocKeys(Filed(store, es, n)) :: k in DeviceDocKeys(store) || k in IdsBetween(n, hi)
    {
      if es != [] {
        var init := es[..|es| - 1];
        var s, m := Filed(store, init, n), n + Writes(init);
        FiledFrame(store, init, n, m);
        if es[|es| - 1].embedding.Some? {
          var id := NewId(uuids(m));
          KeepsOutsidePut(store, s, IdsBetween(n, m), id, DocOf(es[|es| - 1], id));
          DeviceDocKeysAfterPut(s, id, DocOf(es[|es| - 1], id));
          IdsBetweenNext(n, m, m + 1, IdsBetween(n, m), id);
        }
      }
    }

    /** The sync on a store without device documents: every other document
        stays unless a drawn id replaced it, and at most as many device
        documents remain as were written. */
    lemma SyncedFrame(store: Store, devs: seq<Device>, n: nat, hi: nat)
      requires DeviceDocKeys(store) == {} && hi == n + SyncWrites(devs)
      ensures KeepsOutside(store, SyncedDocs(store, devs, n), IdsBetween(n, hi))
      ensures forall k | k in DeviceDocKeys(SyncedDocs(store, devs, n)) :: k in IdsBetween(n, hi)
      ensures |DeviceDocKeys(SyncedDocs(store, devs, n))| <= SyncWrites(devs)
    {
      var ids := IdsBetween(n, hi);
      FiledFrame(store, SyncEntries(devs), n, hi);
      SubsetCard(DeviceDocKeys(SyncedDocs(store, devs, n)), set k | k in ids);
      ElementsCard(ids);
    }

    /** With distinct ids, every entry with an embedding is in the store
        after filing, under some id. */
    lemma FiledHasEach(store: Store, es: seq<Entry>, n: nat)
      requires DistinctDraws(n, n + Writes(es))
      ensures forall e | e in es && e.embedding.Some? ::
                exists id :: id in Filed(store, es, n) && Filed(store, es, n)[id] == DocOf(e, id)
    {
      forall e | e in es && e.embedding.Some?
        ensures exists id :: id in Filed(store, es, n) && Filed(store, es, n)[id] == DocOf(e, id)
      {
        var j :| 0 <= j < |es| && es[j] == e;
        FiledHas(store, es, n, j, n + Writes(es[..j]));
      }
    }

    /** What the sync writes is all there: with distinct ids, every enabled
        device whose text embeds has its document (its text, embedding and
        metadata) under some id, and the rule document, filed last, is under
        the last id drawn. */
    lemma SyncedHasDocuments(store: Store, devs: seq<Device>, n: nat)
      requires DistinctDraws(n, n + SyncWrites(devs))
      ensures forall d | d in devs && IsEnabled(d) && EntryOf(d).embedding.Some? ::
                exists id :: id in SyncedDocs(store, devs, n) && SyncedDocs(store, devs, n)[id] == DocOf(EntryOf(d), id)
      ensures RuleEntry().embedding.Some? ==>
                var id := NewId(uuids(n + Writes(Entries(devs))));
                id in SyncedDocs(store, devs, n) && SyncedDocs(store, devs, n)[id] == DocOf(RuleEntry(), id)
    {
      var es := SyncEntries(devs);
      FiledHasEach(store, es, n);
      forall d | d in devs && IsEnabled(d)
        ensures EntryOf(d) in es
      {
        EntriesHold(devs, d);
      }
      if RuleEntry().embedding.Some? {
        assert es[..|es| - 1] == Entries(devs);
        FiledHas(store, es, n, |es| - 1, n + Writes(Entries(devs)));
      }
    }

    /** Every enabled device has its entry. */
    lemma {:induction false} EntriesHold(devs: seq<Device>, d: Device)
      requires d in devs && IsEnabled(d)
      ensures EntryOf(d) in Entries(devs)
    {
      var init := devs[..|devs| - 1];
      if d != devs[|devs| - 1] {
        assert devs == init + [devs[|devs| - 1]];
        EntriesHold(init, d);
      }
    }

    /** One entry per enabled device, so at most one write each, and exactly
        one each when every enabled device's text embeds. */
    lemma {:induction false} EntriesCount(devs: seq<Device>)
      ensures |Entries(devs)| == |FindByEnabledTrue(devs)|
      ensures Writes(Entries(devs)) <= |FindByEnabledTrue(devs)|
      ensures (forall d | d in devs && IsEnabled(d) :: EntryOf(d).embedding.Some?) ==>
                Writes(Entries(devs)) == |FindByEnabledTrue(devs)|
    {
      if devs != [] {
        var init, last := devs[..|devs| - 1], devs[|devs| - 1];
        EntriesCount(init);
        assert forall d | d in init :: d in devs;
        var es := Entries(devs);
        if IsEnabled(last) {
          assert es[..|es| - 1] == Entries(init);
        } else {
          assert es == Entries(init);
        }
        WritesBound(es);
      }
    }

    /** Adding one row to the table adds its entry when it is enabled. */
    lemma EntriesSnoc(devs: seq<Device>, d: Device)
      ensures Entries(devs + [d]) == Entries(devs) + (if IsEnabled(d) then [EntryOf(d)] else [])
    {
      assert (devs + [d])[..|devs|] == devs;
    }

    /** Drawing UUID `hi` appends its id. */
    lemma IdsBetweenNext(lo: nat, hi: nat, next: nat, ids: seq<string>, id: string)
      requires lo <= hi && next == hi + 1 && ids == IdsBetween(lo, hi) && id == NewId(uuids(hi))
      ensures ids + [id] == IdsBetween(lo, next)
    {
    }

    ghost function Backing(): object {
      ObjectOf(backend)
    }

    ghost predicate Valid()
      reads Backing()
    {
      Backing() != this && ValidBackend(backend)
    }

    ghost function Docs(): Store
      reads Backing()
    {
      DocsOf(backend)
    }

    ghost predicate SourcesConsistent()
      reads Backing()
    {
      SourcesConsistentOf(backend)
    }

    constructor(backend: Backend, gateway: Gateway, minScore: real, score: Score, uuids: nat -> UuidText)
      requires ValidBackend(backend)
      ensures Valid()
      ensures this.backend == backend && this.gateway == gateway && this.minScore == minScore
      ensures this.score == score && this.uuids == uuids && drawn == 0
    {
      this.backend := backend;
      this.gateway := gateway;
      this.minScore := minScore;
      this.score := score;
      this.uuids := uuids;
      drawn := 0;
    }

    /** `vectorStore.add(doc)` on whichever backend. */
    method StoreAdd(doc: VectorDocument)
      requires Valid() && doc.id.Some?
      modifies Backing()
      ensures Valid()
      ensures Docs() == old(Docs())[doc.id.value := doc]
      ensures old(SourcesConsistent()) ==> SourcesConsistent()
    {
      match backend
      case Memory(m) =>
        m.Add(Some(doc));
      case Mysql(db) =>
        db.Add(Some(doc));
    }

    /** Draws the next UUID and stores one document under the id made from it. */
    method Insert(text: Option<string>, emb: seq<real>, metadata: Option<Metadata>) returns (id: string)
      requires Valid()
      modifies this, Backing()
      ensures Valid()
      ensures drawn == old(drawn) + 1 && id == NewId(uuids(old(drawn)))
      ensures |id| == 16 && AllHex(id)
      ensures Docs() == old(Docs())[id := VectorDocument(Some(id), text, Some(emb), metadata)]
      ensures old(SourcesConsistent()) ==> SourcesConsistent()
    {
      NewIdDigits(uuids(drawn));
      id := NewId(uuids(drawn));
      drawn := drawn + 1;
      StoreAdd(VectorDocument(Some(id), text, Some(emb), metadata));
    }

    /** `addDocument(text, metadata)`: nothing for a blank text or a failed
        embedding; otherwise one document under a fresh 16-digit id. Only that
        document can be new among the device documents. */
    method AddDocument(text: Option<string>, metadata: Option<Metadata>) returns (id: Option<string>)
      requires Valid()
      modifies this, Backing()
      ensures Valid()
      ensures id.Some? <==> Embed(gateway, text).Some?
      ensures id.None? ==> Docs() == old(Docs()) && drawn == old(drawn)
      ensures id.Some? ==> drawn == old(drawn) + 1 && id.value == NewId(uuids(old(drawn)))
      ensures id.Some? ==> |id.value| == 16 && AllHex(id.value)
      ensures id.Some? ==>
                Docs() == old(Docs())[id.value := VectorDocument(id, text, Embed(gateway, text), metadata)]
      ensures old(SourcesConsistent()) ==> SourcesConsistent()
      ensures DeviceDocKeys(Docs()) <= DeviceDocKeys(old(Docs())) + (if id.Some? then {id.value} else {})
    {
      if IsNullOrBlank(text) {
        return None;
      }
      var emb := Embed(gateway, text);
      if emb.None? {
        return None;
      }
      var newId := Insert(text, emb.value, metadata);
      DeviceDocKeysAfterPut(old(Docs()), newId, VectorDocument(Some(newId), text, emb, metadata));
      id := Some(newId);
    }

    /** `addDocument` when the store's insert throws, as the MySQL repository
        save can: an insert is attempted only for a text that embeds, after its
        id is drawn, and the exception leaves before the cache is updated, so
        no document changes. */
    method AddDocumentFailingInsert(text: Option<string>) returns (threw: bool)
      requires Valid()
      modifies this
      ensures Valid()
      ensures threw <==> Embed(gateway, text).Some?
      ensures drawn == old(drawn) + (if threw then 1 else 0)
      ensures Docs() == old(Docs())
      ensures SourcesConsistent() == old(SourcesConsistent())
    {
      if IsNullOrBlank(text) || Embed(gateway, text).None? {
        return false;
      }
      drawn := drawn + 1;
      threw := true;
    }

    /** `addDocuments(texts)`: text `i` is stored with embedding `i` under a fresh
        id for every `i` below both lengths; the ids are returned in order. The
        source skips a null embedding, which the gateway never returns. */
    method AddDocuments(texts: Option<seq<string>>) returns (ids: seq<string>)
      requires Valid()
      modifies this, Backing()
      ensures Valid()
      ensures (texts.None? || texts.value == []) ==> ids == [] && Docs() == old(Docs()) && drawn == old(drawn)
      ensures texts.Some? ==>
                var embs := EmbedBatch(gateway, texts);
                var n := Min(|texts.value|, |embs|);
                && drawn == old(drawn) + n && ids == IdsBetween(old(drawn), drawn)
                && Docs() == PutAll(old(Docs()), BatchDocs(texts.value, embs, ids))
    ensures forall i | 0 <= i < |ids| :: |ids[i]| == 16 && AllHex(ids[i])
    {
      if texts.None? || texts.value == [] {
        return [];
      }
      ids := InsertPairs(texts.value, EmbedBatch(gateway, texts));
      IdsBetweenHex(old(drawn), drawn);
    }

    /** The loop of `addDocuments`: text `i` goes in with embedding `i` for as
        long as both lists last. */
    method InsertPairs(ts: seq<string>, embs: seq<seq<real>>) returns (ids: seq<string>)
      requires Valid()
      modifies this, Backing()
      ensures Valid()
      ensures drawn == old(drawn) + Min(|ts|, |embs|) && ids == IdsBetween(old(drawn), drawn)
      ensures Docs() == PutAll(old(Docs()), BatchDocs(ts, embs, ids))
    {
      ids := [];
      var i := 0;
      while i < |ts| && i < |embs|
        invariant 0 <= i <= Min(|ts|, |embs|)
        invariant drawn == old(drawn) + i && ids == IdsBetween(old(drawn), drawn)
        invariant Valid()
        invariant |ids| == i
        invariant Docs() == PutAll(old(Docs()), BatchDocs(ts, embs, ids))
      {
        ids := InsertNext(old(drawn), old(Docs()), ts, embs, ids);
        i := i + 1;
      }
    }

    /** One turn of that loop: pair `|ids|` goes in and its id is appended. */
    method InsertNext(ghost lo: nat, ghost start: Store, ts: seq<string>, embs: seq<seq<real>>, ids: seq<string>)
      returns (ids': seq<string>)
      requires Valid() && |ids| < |ts| && |ids| < |embs|
      requires lo <= drawn && ids == IdsBetween(lo, drawn)
      requires Docs() == PutAll(start, BatchDocs(ts, embs, ids))
      modifies this, Backing()
      ensures Valid()
      ensures drawn == old(drawn) + 1 && ids' == IdsBetween(lo, drawn) && |ids'| == |ids| + 1
      ensures Docs() == PutAll(start, BatchDocs(ts, embs, ids'))
    {
      var id := Insert(Some(ts[|ids|]), embs[|ids|], None);
      IdsBetweenNext(lo, old(drawn), drawn, ids, id);
      BatchDocsStep(start, ts, embs, ids, id);
      ids' := ids + [id];
    }

    /** `vectorStore.search(query, topK)` on whichever backend. */
    method StoreSearch(query: seq<real>, topK: int) returns (rs: seq<SearchResult>)
      requires Valid() && topK >= 0
      ensures IsTopK(Docs(), query, score, topK, rs)
    {
      match backend
      case Memory(m) =>
        rs := m.Search(Some(query), topK, score);
      case Mysql(db) =>
        rs := db.Search(Some(query), topK, score);
    }

    /** `search(query, topK)`: nothing for a blank query or a failed embedding,
        otherwise the store's top `topK` for the query's embedding. */
    method Search(query: Option<string>, topK: int) returns (rs: seq<SearchResult>)
      requires Valid() && topK >= 0
      ensures Embed(gateway, query).None? ==> rs == []
      ensures Embed(gateway, query).Some? ==> IsTopK(Docs(), Embed(gateway, query).value, score, topK, rs)
    {
      if IsNullOrBlank(query) {
        return [];
      }
      var emb := Embed(gateway, query);
      if emb.None? {
        return [];
      }
      rs := StoreSearch(emb.value, topK);
    }

    /** `count()`: the size the store reports. */
    function Count(): (n: nat)
      reads Backing()
      ensures n == |Docs()|
    {
      if backend.Memory? then backend.mem.Size() else backend.db.Size()
    }

    /** `buildRagContext(query, topK)`: empty for a blank query or an empty
        store; otherwise the context of the search results `rs`. */
    method BuildRagContext(query: Option<string>, topK: int) returns (context: string, ghost rs: seq<SearchResult>)
      requires Valid() && topK >= 0
      ensures IsNullOrBlank(query) || |Docs()| == 0 || Embed(gateway, query).None? ==> context == ""
      ensures !IsNullOrBlank(query) && |Docs()| > 0 && Embed(gateway, query).Some? ==>
                IsTopK(Docs(), Embed(gateway, query).value, score, topK, rs)
                && context == RagContext(rs, minScore)
      ensures Retrieved(Docs(), topK, query, context)
    {
      if IsNullOrBlank(query) || Count() == 0 {
        return "", [];
      }
      var results := Search(query, topK);
      rs := results;
      if results == [] {
        return "", rs;
      }
      var filtered := Kept(results, minScore);
      if filtered == [] {
        return "", rs;
      }
      context := Join(Texts(filtered), "\n\n");
    }

    method Clear()
      requires Valid()
      modifies Backing()
      ensures Valid() && Docs() == map[]
      ensures backend.Mysql? ==> backend.db.rows == map[]
    {
      match backend
      case Memory(m) =>
        m.Clear();
      case Mysql(db) =>
        db.Clear();
    }

    /** `removeBySource(source)`, delegated unchanged. */
    method RemoveBySource(source: Option<string>)
      requires Valid()
      modifies Backing()
      ensures Valid()
      ensures source.None? ==> Docs() == old(Docs())
      ensures source.Some? && backend.Memory? ==> Docs() == WithoutSource(old(Docs()), source.value)
      ensures source.Some? && backend.Mysql? ==>
                Docs() == old(Docs()) - IdsWithSourceColumn(old(backend.db.rows), source.value)
      ensures old(SourcesConsistent()) ==> SourcesConsistent()
      ensures old(SourcesConsistent()) && source.Some? ==>
                Docs().Keys <= WithoutSource(old(Docs()), source.value).Keys
                && forall k | k in Docs() :: Docs()[k] == old(Docs())[k]
      ensures old(SourcesConsistent()) && source.Some? && PlainSourceName(source.value) ==>
                Docs() == WithoutSource(old(Docs()), source.value)
    {
      match backend
      case Memory(m) =>
        m.RemoveBySource(source);
      case Mysql(db) =>
        ghost var cache, rows := db.cache, db.rows;
        db.RemoveBySource(source);
        if source.Some? && SourcesAgree(cache, rows) {
          EvictsWhatMemoryRemoves(cache, rows, source.value);
          if PlainSourceName(source.value) {
            EvictsExactlyWhatMemoryRemoves(cache, rows, source.value);
          }
        }
    }

    /** The two removals `syncFromDevices` starts with. When the MySQL cache
        and table agree on sources, exactly the device documents go and every
        other document stays as it was. */
    method RemoveDeviceDocs()
      requires Valid()
      modifies Backing()
      ensures Valid()
      ensures old(SourcesConsistent()) ==> SourcesConsistent() && DeviceDocKeys(Docs()) == {}
      ensures old(SourcesConsistent()) ==> Docs() == old(Docs()) - DeviceDocKeys(old(Docs()))
    {
      ghost var consistent := SourcesConsistent();
      RemoveBySource(Some("device"));
      RemoveBySource(Some("device_rule"));
      if consistent {
        WithoutDeviceSources(old(Docs()));
      }
    }

    /** The document of one enabled device, as `syncFromDevices` adds it: its
        text and metadata under the next drawn id. */
    method AddDeviceDocument(d: Device) returns (id: Option<string>)
      requires Valid()
      modifies this, Backing()
      ensures Valid()
      ensures old(SourcesConsistent()) ==> SourcesConsistent()
      ensures DeviceDocKeys(Docs()) <= DeviceDocKeys(old(Docs())) + (if id.Some? then {id.value} else {})
      ensures id.Some? <==> EntryOf(d).embedding.Some?
      ensures id.None? ==> Docs() == old(Docs()) && drawn == old(drawn)
      ensures id.Some? ==>
                && drawn == old(drawn) + 1 && id.value == NewId(uuids(old(drawn)))
                && Docs() == old(Docs())[id.value := VectorDocument(id, Some(BuildText(d)),
                                                                 Embed(gateway, Some(BuildText(d))),
                                                                 Some(BuildMetadata(d)))]
    {
      id := AddDocument(Some(BuildText(d)), Some(BuildMetadata(d)));
    }

    /** The instruction document `syncFromDevices` adds last, filed under "device_rule". */
    method AddRuleDocument() returns (id: Option<string>)
      requires Valid()
      modifies this, Backing()
      ensures Valid()
      ensures old(SourcesConsistent()) ==> SourcesConsistent()
      ensures DeviceDocKeys(Docs()) <= DeviceDocKeys(old(Docs())) + (if id.Some? then {id.value} else {})
      ensures id.Some? ==> id.value in Docs() && Docs()[id.value].text == Some(RuleText)
                           && Docs()[id.value].metadata == Some(RuleMetadata)
      ensures id.Some? <==> RuleEntry().embedding.Some?
      ensures id.None? ==> Docs() == old(Docs()) && drawn == old(drawn)
      ensures id.Some? ==>
                && drawn == old(drawn) + 1 && id.value == NewId(uuids(old(drawn)))
                && Docs() == old(Docs())[id.value := VectorDocument(id, Some(RuleText), Embed(gateway, Some(RuleText)),
                                                                 Some(RuleMetadata))]
    {
      id := AddDocument(Some(RuleText), Some(RuleMetadata));
    }

    /** `syncFromDevices()`: drops every "device" and "device_rule" document,
        writes one document per enabled device whose text embeds and then the
        rule document, and returns how many went in. When the MySQL cache and
        table agree on sources (always, in memory) the store becomes exactly
        `SyncedDocs` of what the removals left. */
    /** The store after the device documents were rebuilt from `devices`,
        given the store, the draw count and whether the backend was consistent
        before: one draw per document written and, on a consistent backend,
        exactly the documents the sync files, at most one device document per
        enabled device plus the rule document, and every other document kept
        unless a drawn id replaced it. */
    ghost predicate Rebuilt(docs0: Store, drawn0: nat, consistent0: bool, devices: seq<Device>)
      reads this, Backing()
    {
      && drawn == drawn0 + SyncWrites(devices)
      && (consistent0 ==>
            && SourcesConsistent()
            && Docs() == SyncedDocs(docs0 - DeviceDocKeys(docs0), devices, drawn0)
            && |DeviceDocKeys(Docs())| <= |FindByEnabledTrue(devices)| + 1
            && KeepsOutside(docs0 - DeviceDocKeys(docs0), Docs(), IdsBetween(drawn0, drawn)))
    }

    method SyncFromDevices(devices: seq<Device>) returns (added: int)
      requires Valid()
      modifies this, Backing()
      ensures Valid()
      ensures added == SyncWrites(devices)
      ensures 0 <= added <= |FindByEnabledTrue(devices)| + 1
      ensures drawn == old(drawn) + added
      ensures old(SourcesConsistent()) ==>
                && SourcesConsistent()
                && Docs() == SyncedDocs(old(Docs()) - DeviceDocKeys(old(Docs())), devices, old(drawn))
      ensures old(SourcesConsistent()) ==> |DeviceDocKeys(Docs())| <= added
      ensures old(SourcesConsistent()) ==>
                KeepsOutside(old(Docs()) - DeviceDocKeys(old(Docs())), Docs(), IdsBetween(old(drawn), drawn))
      ensures Rebuilt(old(Docs()), old(drawn), old(SourcesConsistent()), devices)
    {
      ghost var consistent := SourcesConsistent();
      RemoveDeviceDocs();
      ghost var mid := Docs();
      var written := AddEnabledDevices(devices);
      FiledSnoc(mid, Entries(devices), RuleEntry(), old(drawn), drawn);
      var ruleId := AddRuleDocument();
      added := if ruleId.Some? then written + 1 else written;
      if ruleId.Some? {
        assert VectorDocument(ruleId, Some(RuleText), Embed(gateway, Some(RuleText)), Some(RuleMetadata))
            == DocOf(RuleEntry(), ruleId.value);
      }
      if consistent {
        SyncedFrame(mid, devices, old(drawn), drawn);
      }
    }

    /** The device loop of `syncFromDevices`: the document of every enabled
        device whose text embeds goes in under the next drawn id, in table
        order, and the count says how many did. */
    method AddEnabledDevices(devices: seq<Device>) returns (added: nat)
      requires Valid()
      modifies this, Backing()
      ensures Valid()
      ensures added == Writes(Entries(devices)) && drawn == old(drawn) + added
      ensures Docs() == Filed(old(Docs()), Entries(devices), old(drawn))
      ensures added <= |FindByEnabledTrue(devices)|
      ensures KeepsOutside(old(Docs()), Docs(), IdsBetween(old(drawn), drawn))
      ensures forall k | k in DeviceDocKeys(Docs()) :: k in DeviceDocKeys(old(Docs())) || k in IdsBetween(old(drawn), drawn)
      ensures old(SourcesConsistent()) ==> SourcesConsistent()
    {
      ghost var consistent := SourcesConsistent();
      ghost var before, lo := Docs(), drawn;
      added := 0;
      var i := 0;
      while i < |devices|
        invariant 0 <= i <= |devices|
        invariant Valid()
        invariant added == Writes(Entries(devices[..i])) && drawn == lo + added
        invariant Docs() == Filed(before, Entries(devices[..i]), lo)
        invariant consistent ==> SourcesConsistent()
      {
        added := AddNextDevice(devices[i], lo, before, Entries(devices[..i]), consistent, added);
        assert devices[..i] + [devices[i]] == devices[..i + 1];
        EntriesSnoc(devices[..i], devices[i]);
        i := i + 1;
      }
      assert devices[..i] == devices;
      EntriesCount(devices);
      FiledFrame(before, Entries(devices), lo, drawn);
    }

    /** One turn of that loop: an enabled device gets its entry filed, which
        writes its document under the next drawn id when its text embeds; a
        disabled row changes nothing. */
    method AddNextDevice(d: Device, ghost lo: nat, ghost before: Store, ghost es: seq<Entry>,
                         ghost consistent: bool, added: nat)
      returns (added': nat)
      requires Valid() && added == Writes(es) && drawn == lo + added
      requires Docs() == Filed(before, es, lo)
      requires consistent ==> SourcesConsistent()
      modifies this, Backing()
      ensures Valid()
      ensures added' == added + (if IsEnabled(d) && EntryOf(d).embedding.Some? then 1 else 0)
      ensures var es' := es + (if IsEnabled(d) then [EntryOf(d)] else []);
              added' == Writes(es') && drawn == lo + added' && Docs() == Filed(before, es', lo)
      ensures consistent ==> SourcesConsistent()
    {
      if !IsEnabled(d) {
        assert es + [] == es;
        return added;
      }
      ghost var e := EntryOf(d);
      FiledSnoc(before, es, e, lo, drawn);
      var id := AddDeviceDocument(d);
      added' := if id.Some? then added + 1 else added;
      assert es + (if IsEnabled(d) then [EntryOf(d)] else []) == es + [e];
    }
  }

  /** The number of enabled rows among the first `i`, counted one row at a time. */
  function EnabledUpTo(devices: seq<Device>, i: nat): nat
    requires i <= |devices|
  {
    if i == 0 then 0 else EnabledUpTo(devices, i - 1) + (if IsEnabled(devices[i - 1]) then 1 else 0)
  }

  /** The count is the number of rows `findByEnabledTrue` returns for that prefix. */
  lemma {:induction false} EnabledUpToIsFind(devices: seq<Device>, i: nat)
    requires i <= |devices|
    ensures EnabledUpTo(devices, i) == |FindByEnabledTrue(devices[..i])|
  {
    if i > 0 {
      EnabledUpToIsFind(devices, i - 1);
      assert devices[..i][..i - 1] == devices[..i - 1];
    }
  }

  /** A sequence has at most as many distinct elements as it is long. */
  lemma {:induction false} ElementsCard(s: seq<string>)
    ensures |(set k | k in s)| <= |s|
  {
    if s != [] {
      var init := s[..|s| - 1];
      ElementsCard(init);
      assert (set k | k in s) == (set k | k in init) + {s[|s| - 1]} by {
        assert s == init + [s[|s| - 1]];
      }
    }
  }

  lemma SubsetCard(a: set<string>, b: set<string>)
    requires a <= b
    ensures |a| <= |b|
  {
    assert b == a + (b - a);
  }
}
