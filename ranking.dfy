/** The top-k similarity search both vector-store backends share: every
    document whose embedding has the query's dimension is scored, the scored
    results are sorted by non-increasing score (a stable sort), and the first
    `topK` are returned. The score is a parameter: cosine similarity on floats
    is not part of this model. */
module Ranking {
  import opened JavaLang
  import opened VectorTypes

  /** The documents of a store, keyed by id. */
  type Store = map<string, VectorDocument>

  /** The similarity of a query embedding and a document embedding. */
  type Score = (seq<real>, seq<real>) -> real

  /** Both backends file every document under its own id. */
  predicate KeyedById(store: Store) {
    forall k | k in store :: store[k].id == Some(k)
  }

  /** A document takes part in a search when its embedding has the query's length. */
  predicate Eligible(d: VectorDocument, q: seq<real>) {
    d.embedding.Some? && |d.embedding.value| == |q|
  }

  function CandidateKeys(store: Store, q: seq<real>): set<string> {
    set k | k in store && Eligible(store[k], q)
  }

  function ResultOf(d: VectorDocument, q: seq<real>, score: Score): (r: SearchResult)
    requires Eligible(d, q)
    ensures r.document == d
  {
    SearchResult(d, score(q, d.embedding.value))
  }

  /** Every result a search may choose from: one per eligible document. */
  ghost function Candidates(store: Store, q: seq<real>, score: Score): set<SearchResult> {
    set k | k in store && Eligible(store[k], q) :: ResultOf(store[k], q, score)
  }

  predicate SortedDesc(rs: seq<SearchResult>) {
    forall i, j | 0 <= i < j < |rs| :: rs[i].score >= rs[j].score
  }

  ghost predicate Distinct<T>(s: seq<T>) {
    forall i, j | 0 <= i < j < |s| :: s[i] != s[j]
  }

  /** Inserts `x` after every element scoring at least as much, so that equal
      scores keep their input order. */
  function InsertDesc(x: SearchResult, rs: seq<SearchResult>): (r: seq<SearchResult>)
    requires SortedDesc(rs)
    ensures SortedDesc(r)
    ensures multiset(r) == multiset(rs) + multiset{x}
    ensures |r| == |rs| + 1 && (r[0] == x || (rs != [] && r[0] == rs[0]))
  {
    if rs == [] then [x]
    else if rs[0].score >= x.score then
      var t := InsertDesc(x, rs[1..]);
      assert rs == [rs[0]] + rs[1..];
      assert t[0].score <= rs[0].score;
      ConsSorted(rs[0], t);
      [rs[0]] + t
    else
      ConsSorted(x, rs);
      [x] + rs
  }

  /** A head scoring at least as much as a sorted tail's first keeps it sorted. */
  lemma ConsSorted(h: SearchResult, t: seq<SearchResult>)
    requires SortedDesc(t) && (t != [] ==> t[0].score <= h.score)
    ensures SortedDesc([h] + t)
  {
    forall i, j | 0 <= i < j < |t| + 1 ensures ([h] + t)[i].score >= ([h] + t)[j].score {
      if i == 0 {
        assert ([h] + t)[j] == t[j - 1];
      } else {
        assert ([h] + t)[i] == t[i - 1] && ([h] + t)[j] == t[j - 1];
      }
    }
  }

  /** `sorted((a, b) -> Double.compare(b.getScore(), a.getScore()))`: a stable
      sort by non-increasing score. */
  function SortDesc(rs: seq<SearchResult>): (r: seq<SearchResult>)
    ensures SortedDesc(r)
    ensures multiset(r) == multiset(rs)
  {
    if rs == [] then []
    else
      assert rs == rs[..|rs| - 1] + [rs[|rs| - 1]];
      InsertDesc(rs[|rs| - 1], SortDesc(rs[..|rs| - 1]))
  }

  /** What a search promises about its result `rs`: `min(topK, #candidates)`
      results, in non-increasing score order, each a candidate, none twice, and
      no candidate left out scores above one that was chosen. */
  ghost predicate IsTopK(store: Store, q: seq<real>, score: Score, topK: nat, rs: seq<SearchResult>) {
    && |rs| == Min(topK, |CandidateKeys(store, q)|)
    && SortedDesc(rs)
    && (forall i | 0 <= i < |rs| :: rs[i] in Candidates(store, q, score))
    && Distinct(rs)
    && (forall c | c in Candidates(store, q, score) && c !in rs ::
          forall i | 0 <= i < |rs| :: c.score <= rs[i].score)
  }

  /** `search(queryEmbedding, topK)`: nothing for a null query or an empty store;
      otherwise the top `topK` candidates. The candidates are collected in the
      store's iteration order, which is unspecified and chosen freely here. */
  method Search(store: Store, query: Option<seq<real>>, topK: int, score: Score) returns (rs: seq<SearchResult>)
    requires topK >= 0
    requires KeyedById(store)
    ensures query.None? ==> rs == []
    ensures query.Some? ==> IsTopK(store, query.value, score, topK, rs)
  {
    if query.None? || |store| == 0 {
      return [];
    }
    var q := query.value;
    var results: seq<SearchResult> := [];
    var todo := store.Keys;
    while todo != {}
      invariant todo <= store.Keys
      invariant Collected(store, q, score, todo, results)
      decreases |todo|
    {
      var k :| k in todo;
      CollectStep(store, q, score, todo, results, k);
      if Eligible(store[k], q) {
        results := results + [ResultOf(store[k], q, score)];
      }
      todo := todo - {k};
    }
    var sorted := SortDesc(results);
    rs := sorted[..Min(topK, |sorted|)];
    TopOfSorted(store, q, score, topK, results, sorted, rs);
  }

  /** The scan has scored exactly the candidates outside `todo`, once each. */
  ghost predicate Collected(store: Store, q: seq<real>, score: Score, todo: set<string>, results: seq<SearchResult>) {
    var done := CandidateKeys(store, q) - todo;
    && FromDone(store, q, score, done, results)
    && Covers(store, q, score, done, results)
    && Distinct(results)
    && |results| == |done|
  }

  /** Each result is the scored document of a key in `done`. */
  ghost predicate FromDone(store: Store, q: seq<real>, score: Score, done: set<string>, results: seq<SearchResult>) {
    forall i | 0 <= i < |results| ::
      && results[i].document.id.Some? && results[i].document.id.value in done
      && results[i].document.id.value in store && Eligible(store[results[i].document.id.value], q)
      && results[i] == ResultOf(store[results[i].document.id.value], q, score)
  }

  /** Every key in `done` has its scored document among the results. */
  ghost predicate Covers(store: Store, q: seq<real>, score: Score, done: set<string>, results: seq<SearchResult>) {
    forall k | k in done :: k in store && Eligible(store[k], q) && ResultOf(store[k], q, score) in results
  }

  /** Scanning one more key keeps `Collected`. */
  lemma CollectStep(store: Store, q: seq<real>, score: Score, todo: set<string>, results: seq<SearchResult>, k: string)
    requires KeyedById(store) && todo <= store.Keys && k in todo
    requires Collected(store, q, score, todo, results)
    ensures Collected(store, q, score, todo - {k},
                      if Eligible(store[k], q) then results + [ResultOf(store[k], q, score)] else results)
  {
    var cand := CandidateKeys(store, q);
    var done := cand - todo;
    if Eligible(store[k], q) {
      assert cand - (todo - {k}) == done + {k};
      assert k !in done;
      var r := ResultOf(store[k], q, score);
      FromDoneStep(store, q, score, done, results, k);
      CoversStep(store, q, score, done, results, k);
      DistinctStep(store, q, score, done, results, k);
      assert |done + {k}| == |done| + 1;
    } else {
      assert cand - (todo - {k}) == done;
    }
  }

  lemma FromDoneStep(store: Store, q: seq<real>, score: Score, done: set<string>, results: seq<SearchResult>, k: string)
    requires KeyedById(store) && k in store && Eligible(store[k], q)
    requires FromDone(store, q, score, done, results)
    ensures FromDone(store, q, score, done + {k}, results + [ResultOf(store[k], q, score)])
  {
    var results' := results + [ResultOf(store[k], q, score)];
    forall i | 0 <= i < |results'|
      ensures results'[i].document.id.Some? && results'[i].document.id.value in done + {k}
      ensures results'[i].document.id.value in store && Eligible(store[results'[i].document.id.value], q)
      ensures results'[i] == ResultOf(store[results'[i].document.id.value], q, score)
    {
      if i < |results| {
        assert results'[i] == results[i];
      }
    }
  }

  lemma CoversStep(store: Store, q: seq<real>, score: Score, done: set<string>, results: seq<SearchResult>, k: string)
    requires k in store && Eligible(store[k], q)
    requires Covers(store, q, score, done, results)
    ensures Covers(store, q, score, done + {k}, results + [ResultOf(store[k], q, score)])
  {
    var results' := results + [ResultOf(store[k], q, score)];
    forall k' | k' in done + {k} ensures ResultOf(store[k'], q, score) in results' {
      if k' != k {
        var j :| 0 <= j < |results| && results[j] == ResultOf(store[k'], q, score);
        assert results'[j] == results[j];
      }
    }
  }

  lemma DistinctStep(store: Store, q: seq<real>, score: Score, done: set<string>, results: seq<SearchResult>, k: string)
    requires KeyedById(store) && k in store && Eligible(store[k], q) && k !in done
    requires FromDone(store, q, score, done, results) && Distinct(results)
    ensures Distinct(results + [ResultOf(store[k], q, score)])
  {
    var r := ResultOf(store[k], q, score);
    var results' := results + [r];
    assert r.document.id == Some(k);
    forall i, j | 0 <= i < j < |results'| ensures results'[i] != results'[j] {
      assert results'[i] == results[i];
      if j == |results| {
        assert results[i].document.id.value in done;
      } else {
        assert results'[j] == results[j];
      }
    }
  }

  /** The first `topK` of the sorted candidates satisfy the top-k contract. */
  lemma TopOfSorted(store: Store, q: seq<real>, score: Score, topK: nat,
                    results: seq<SearchResult>, sorted: seq<SearchResult>, rs: seq<SearchResult>)
    requires Collected(store, q, score, {}, results)
    requires SortedDesc(sorted) && multiset(sorted) == multiset(results)
    requires rs == sorted[..Min(topK, |sorted|)]
    ensures IsTopK(store, q, score, topK, rs)
  {
    var cand := CandidateKeys(store, q);
    assert cand - {} == cand;
    assert |sorted| == |multiset(sorted)| == |results|;
    ChosenAreCandidates(store, q, score, results, sorted, rs);
    DistinctPermutation(results, sorted);
    LeftOutScoreLower(store, q, score, results, sorted, Min(topK, |sorted|));
  }

  /** Every chosen result is a candidate. */
  lemma ChosenAreCandidates(store: Store, q: seq<real>, score: Score,
                            results: seq<SearchResult>, sorted: seq<SearchResult>, rs: seq<SearchResult>)
    requires FromDone(store, q, score, CandidateKeys(store, q), results)
    requires multiset(sorted) == multiset(results)
    requires |rs| <= |sorted| && rs == sorted[..|rs|]
    ensures forall i | 0 <= i < |rs| :: rs[i] in Candidates(store, q, score)
  {
    forall i | 0 <= i < |rs| ensures rs[i] in Candidates(store, q, score) {
      assert rs[i] == sorted[i];
      assert rs[i] in multiset(results);
      var j :| 0 <= j < |results| && results[j] == rs[i];
      var id := results[j].document.id.value;
      assert id in store && Eligible(store[id], q);
    }
  }

  /** No candidate outside the first `m` sorted results scores above them. */
  lemma LeftOutScoreLower(store: Store, q: seq<real>, score: Score,
                          results: seq<SearchResult>, sorted: seq<SearchResult>, m: nat)
    requires Covers(store, q, score, CandidateKeys(store, q), results)
    requires SortedDesc(sorted) && multiset(sorted) == multiset(results) && m <= |sorted|
    ensures forall c | c in Candidates(store, q, score) && c !in sorted[..m] ::
              forall i | 0 <= i < m :: c.score <= sorted[..m][i].score
  {
    forall c | c in Candidates(store, q, score) && c !in sorted[..m]
      ensures forall i | 0 <= i < m :: c.score <= sorted[..m][i].score
    {
      var k :| k in store && Eligible(store[k], q) && c == ResultOf(store[k], q, score);
      assert k in CandidateKeys(store, q);
      assert c in results;
      assert c in multiset(sorted);
      LeftOutScoresLower(sorted, m, c);
    }
  }

  /** An element of a sorted sequence that is not among its first `m` scores no
      higher than any of them. */
  lemma LeftOutScoresLower(sorted: seq<SearchResult>, m: nat, c: SearchResult)
    requires SortedDesc(sorted) && m <= |sorted|
    requires c in sorted && c !in sorted[..m]
    ensures forall i | 0 <= i < m :: c.score <= sorted[i].score
  {
    assert sorted == sorted[..m] + sorted[m..];
    assert c in sorted[m..];
    var jj :| 0 <= jj < |sorted[m..]| && sorted[m..][jj] == c;
    assert sorted[m + jj] == c;
  }

  /** A permutation of a sequence without repeats has no repeats either. */
  lemma DistinctPermutation<T>(a: seq<T>, b: seq<T>)
    requires Distinct(a) && multiset(a) == multiset(b)
    ensures Distinct(b)
  {
    forall i, j | 0 <= i < j < |b| ensures b[i] != b[j] {
      if b[i] == b[j] {
        RepeatCountsTwice(b, i, j);
        DistinctCountsOnce(a, b[i]);
        assert false;
      }
    }
  }

  lemma RepeatCountsTwice<T>(s: seq<T>, i: nat, j: nat)
    requires i < j < |s| && s[i] == s[j]
    ensures multiset(s)[s[i]] >= 2
  {
    assert s == s[..j] + [s[j]] + s[j + 1..];
    assert s[i] in s[..j];
  }

  lemma {:induction false} DistinctCountsOnce<T>(s: seq<T>, x: T)
    requires Distinct(s)
    ensures multiset(s)[x] <= 1
  {
    if s != [] {
      assert s == [s[0]] + s[1..];
      DistinctCountsOnce(s[1..], x);
      if x == s[0] {
        assert x !in s[1..];
      }
    }
  }
}
