/** The documents the vector store holds and the results a search returns.
    An embedding is a sequence of reals: the core never does arithmetic on it
    besides the similarity score, which stays an uninterpreted function. */
module VectorTypes {
  import opened JavaLang

  /** The values that appear in document metadata (a `Map<String, Object>`):
      strings, booleans, integral numbers, lists of strings, and null. */
  datatype MetaValue =
    | MNull
    | MStr(s: string)
    | MBool(b: bool)
    | MInt(i: int)
    | MList(items: seq<string>)

  /** A `LinkedHashMap<String, Object>`: the entries in insertion order. */
  type Metadata = seq<(string, MetaValue)>

  /** `Map.get(key)`: the value of the first entry under `key`; null when there is none. */
  function Get(m: Metadata, key: string): (v: MetaValue)
    ensures v != MNull ==> exists i | 0 <= i < |m| :: m[i] == (key, v)
    ensures (forall i | 0 <= i < |m| :: m[i].0 != key) ==> v == MNull
  {
    if m == [] then MNull
    else if m[0].0 == key then m[0].1
    else
      var v := Get(m[1..], key);
      assert v != MNull ==> exists i | 0 <= i < |m[1..]| :: m[1..][i] == (key, v);
      v
  }

  /** `Map.get` finds the value of the first entry under a key. */
  lemma {:induction false} GetFirst(m: Metadata, i: nat)
    requires i < |m|
    requires forall j | 0 <= j < i :: m[j].0 != m[i].0
    ensures Get(m, m[i].0) == m[i].1
  {
    if i > 0 {
      GetFirst(m[1..], i - 1);
    }
  }

  /** The keys of a metadata map, in insertion order. */
  function Keys(m: Metadata): (ks: seq<string>)
    ensures |ks| == |m| && forall i | 0 <= i < |m| :: ks[i] == m[i].0
  {
    seq(|m|, i requires 0 <= i < |m| => m[i].0)
  }

  /** One stored document: every field is nullable on the Java side. */
  datatype VectorDocument = VectorDocument(
    id: Option<string>,
    text: Option<string>,
    embedding: Option<seq<real>>,
    metadata: Option<Metadata>)

  datatype SearchResult = SearchResult(document: VectorDocument, score: real)

  /** The in-memory store's test for `removeBySource`: the metadata's "source"
      value is a String equal to `source`. */
  predicate HasSource(d: VectorDocument, source: string) {
    d.metadata.Some? && Get(d.metadata.value, "source") == MStr(source)
  }

  /** `String.valueOf` of a metadata value, as Java renders it. */
  function Render(v: MetaValue): string {
    match v
    case MNull => "null"
    case MStr(s) => s
    case MBool(b) => if b then "true" else "false"
    case MInt(i) => IntToString(i)
    case MList(items) => "[" + Join(items, ", ") + "]"
  }

  /** The `source` column the MySQL store derives from a document: the rendered
      "source" value when metadata holds a non-null one, otherwise null. */
  function SourceColumn(d: VectorDocument): (r: Option<string>)
    ensures r.Some? <==> d.metadata.Some? && Get(d.metadata.value, "source") != MNull
    ensures forall source :: HasSource(d, source) ==> r == Some(source)
  {
    if d.metadata.Some? && Get(d.metadata.value, "source") != MNull
    then Some(Render(Get(d.metadata.value, "source")))
    else None
  }

  /** A source name no non-string value renders as: not "true" or "false", and
      not opening like a number ('-' or a digit) or a list ('['). */
  predicate PlainSourceName(source: string) {
    && |source| > 0 && source != "true" && source != "false"
    && source[0] != '-' && source[0] != '[' && !('0' <= source[0] <= '9')
  }

  /** For a plain source name the MySQL column and the in-memory test agree:
      the column holds the name exactly when the "source" value is that string. */
  lemma ColumnOfPlainSource(d: VectorDocument, source: string)
    requires PlainSourceName(source)
    ensures SourceColumn(d) == Some(source) <==> HasSource(d, source)
  {
  }

  /** A document the in-memory store files under a source lands in the MySQL
      store's column with that value (SourceColumn's contract); the converse
      fails: a non-string "source" value can render as `source` while the
      in-memory test refuses it. */
  lemma SourceColumnOfNumber()
    ensures var d := VectorDocument(None, None, None, Some([("source", MInt(7))]));
            SourceColumn(d) == Some("7") && !HasSource(d, "7")
  {
    var d := VectorDocument(None, None, None, Some([("source", MInt(7))]));
    assert Get(d.metadata.value, "source") == MInt(7);
    assert IntToString(7) == NatToString(7) == [DigitChar(7)] == "7";
  }
}
