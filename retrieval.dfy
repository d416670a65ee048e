/** The multi-query retriever (`search_blue_book`): the raw findings and one
    sub-query per detected condition are each sent to the store; the hits are
    merged by document id keeping the best distance and the best rank; the
    top-3 of any query are guaranteed a place, everything is cut at the
    distance ceiling, the rest competes for the remaining budget, and the
    result is ordered by distance. */
module Retrieval {
  import opened Wrappers
  import opened Docs
  import opened Ranking
  import Conditions

  /** The top N hits of every query are always kept. */
  const GuaranteedPerQuery: nat := 3

  /** Hits farther than this are dropped as poor matches. */
  const MaxDistance: real := 0.6

  /** The nearest-neighbour store: for a query text and a result count, the
      hits in rank order, or the error it raised. */
  type Store = (string, nat) -> Result<seq<Hit>, string>

  /** `doc_map`: a dictionary keyed by document id, with the order in which
      ids were first inserted (the order `doc_map.values()` yields). */
  datatype DocMap = DocMap(docs: map<string, ScoredDoc>, order: seq<string>)

  ghost predicate Valid(m: DocMap) {
    && (forall i, j :: 0 <= i < j < |m.order| ==> m.order[i] != m.order[j])
    && (forall id :: id in m.docs <==> id in m.order)
    && (forall id :: id in m.docs ==> m.docs[id].id == id)
  }

  /** `doc_map.values()` */
  function Values(m: DocMap): seq<ScoredDoc>
    requires Valid(m)
  {
    seq(|m.order|, i requires 0 <= i < |m.order| => m.docs[m.order[i]])
  }

  /** Folds one hit, found at `rank` in some query's list, into the map: a
      new id is inserted; a known id keeps the smaller distance and the
      smaller rank. */
  function MergeHit(m: DocMap, h: Hit, rank: nat): (m': DocMap)
    requires Valid(m)
    ensures Valid(m')
  {
    if h.id !in m.docs then
      DocMap(m.docs[h.id := ScoredDoc(h.id, h.text, h.metadata, h.distance, rank)], m.order + [h.id])
    else
      var d := m.docs[h.id];
      var d1 := if h.distance < d.distance then d.(distance := h.distance) else d;
      var d2 := if rank < d1.bestRank then d1.(bestRank := rank) else d1;
      DocMap(m.docs[h.id := d2], m.order)
  }

  /** The map after folding in every (hit, rank) occurrence, in order. */
  function MergeAll(occs: seq<(Hit, nat)>): (m: DocMap)
    ensures Valid(m)
  {
    if occs == [] then DocMap(map[], [])
    else
      var last := occs[|occs| - 1];
      MergeHit(MergeAll(occs[..|occs| - 1]), last.0, last.1)
  }

  /** A query's hits, each paired with its rank. */
  function Ranked(hits: seq<Hit>): seq<(Hit, nat)> {
    seq(|hits|, i requires 0 <= i < |hits| => (hits[i], i))
  }

  /** The occurrences of all queries' hits, query after query. */
  function Flatten(lists: seq<seq<Hit>>): seq<(Hit, nat)> {
    if lists == [] then []
    else Flatten(lists[..|lists| - 1]) + Ranked(lists[|lists| - 1])
  }

  /** Runs the queries in order; the first error ends the run. */
  function Collect(store: Store, queries: seq<string>, topK: nat): Result<seq<seq<Hit>>, string> {
    if queries == [] then Success([])
    else
      match Collect(store, queries[..|queries| - 1], topK)
      case Failure(e) => Failure(e)
      case Success(lists) =>
        match store(queries[|queries| - 1], topK)
        case Failure(e) => Failure(e)
        case Success(hits) => Success(lists + [hits])
  }

  /** The raw query first, then every condition sub-query. */
  function SearchQueries(query: string): seq<string> {
    [query] + Conditions.ConditionQueries(query)
  }

  predicate IsGuaranteed(d: ScoredDoc) {
    d.bestRank < GuaranteedPerQuery
  }

  predicate IsOverflow(d: ScoredDoc) {
    !IsGuaranteed(d)
  }

  predicate WithinCeiling(d: ScoredDoc) {
    d.distance <= MaxDistance
  }

  /** The guaranteed documents under the ceiling, in first-seen order. */
  function Guaranteed(values: seq<ScoredDoc>): seq<ScoredDoc> {
    Filter(Filter(values, IsGuaranteed), WithinCeiling)
  }

  /** The other documents under the ceiling, in first-seen order. */
  function Overflow(values: seq<ScoredDoc>): seq<ScoredDoc> {
    Filter(Filter(values, IsOverflow), WithinCeiling)
  }

  /** `max(0, top_k * 2 - guaranteed)` */
  function Budget(topK: nat, guaranteed: nat): nat {
    if topK * 2 - guaranteed > 0 then topK * 2 - guaranteed else 0
  }

  function Min(a: nat, b: nat): nat {
    if a < b then a else b
  }

  /** Phases 1b to 3 of the retriever, from the merged documents. */
  function SelectFinal(values: seq<ScoredDoc>, topK: nat): seq<ScoredDoc> {
    var guaranteed := Guaranteed(values);
    var overflow := SortByDistance(Overflow(values));
    var take := Min(Budget(topK, |guaranteed|), |overflow|);
    SortByDistance(guaranteed + overflow[..take])
  }

  /** What `search_blue_book(query, top_k)` returns, or the store error it
      lets escape. */
  function Search(query: string, topK: nat, store: Store): Result<seq<ScoredDoc>, string> {
    match Collect(store, SearchQueries(query), topK)
    case Failure(e) => Failure(e)
    case Success(lists) => Success(SelectFinal(Values(MergeAll(Flatten(lists))), topK))
  }

  /** Phase 1 on its own: the merged documents of all queries, or the
      first store error. */
  function Merged(store: Store, queries: seq<string>, topK: nat): Result<DocMap, string> {
    match Collect(store, queries, topK)
    case Failure(e) => Failure(e)
    case Success(lists) => Success(MergeAll(Flatten(lists)))
  }

  method SearchBlueBook(query: string, topK: nat, store: Store)
    returns (result: Result<seq<ScoredDoc>, string>)
    ensures result == Search(query, topK, store)
  {
    var subQueries := Conditions.ExtractConditionQueries(query);
    var allQueries := [query] + subQueries;
    var merged := RunQueries(allQueries, topK, store);
    if merged.Failure? {
      return Failure(merged.error);
    }
    var finalDocs := SelectDocs(merged.value.docs, merged.value.order, topK);
    result := Success(finalDocs);
  }

  /** Phase 1: every query is sent in turn and its hits merged by id; the
      first store error escapes. */
  method RunQueries(allQueries: seq<string>, topK: nat, store: Store)
    returns (result: Result<DocMap, string>)
    ensures result == Merged(store, allQueries, topK)
  {
    var docMap: map<string, ScoredDoc> := map[];
    var order: seq<string> := [];
    ghost var lists: seq<seq<Hit>> := [];
    var qi := 0;
    while qi < |allQueries|
      invariant 0 <= qi <= |allQueries|
      invariant Collect(store, allQueries[..qi], topK) == Success(lists)
      invariant DocMap(docMap, order) == MergeAll(Flatten(lists))
    {
      var response := store(allQueries[qi], topK);
      assert allQueries[..qi + 1][..qi] == allQueries[..qi];
      if response.Failure? {
        CollectKeepsFailure(store, allQueries, qi + 1, topK);
        return Failure(response.error);
      }
      docMap, order := MergeHits(docMap, order, response.value, Flatten(lists));
      assert (lists + [response.value])[..|lists|] == lists;
      lists := lists + [response.value];
      qi := qi + 1;
    }
    assert allQueries[..|allQueries|] == allQueries;
    result := Success(DocMap(docMap, order));
  }

  /** Phases 1b to 3 on the merged documents. */
  method SelectDocs(docMap: map<string, ScoredDoc>, order: seq<string>, topK: nat)
    returns (finalDocs: seq<ScoredDoc>)
    requires Valid(DocMap(docMap, order))
    ensures finalDocs == SelectFinal(Values(DocMap(docMap, order)), topK)
  {
    ghost var values := Values(DocMap(docMap, order));

    // Phase 1b: split into guaranteed and overflow documents.
    var guaranteedDocs, overflowDocs := Partition(docMap, order);

    // Phase 2: the distance ceiling.
    guaranteedDocs := Filter(guaranteedDocs, WithinCeiling);
    overflowDocs := Filter(overflowDocs, WithinCeiling);
    assert guaranteedDocs == Guaranteed(values);
    assert overflowDocs == Overflow(values);

    // Phase 3: the closest overflow documents fill the remaining budget.
    overflowDocs := SortByDistance(overflowDocs);
    var maxTotal := topK * 2;
    var overflowBudget := if maxTotal - |guaranteedDocs| > 0 then maxTotal - |guaranteedDocs| else 0;
    assert overflowBudget == Budget(topK, |guaranteedDocs|);
    var take := if overflowBudget < |overflowDocs| then overflowBudget else |overflowDocs|;
    assert take == Min(overflowBudget, |overflowDocs|);
    finalDocs := guaranteedDocs + overflowDocs[..take];
    finalDocs := SortByDistance(finalDocs);
  }

  /** One query's hits folded into `doc_map`, rank by rank. */
  method MergeHits(docMap: map<string, ScoredDoc>, order: seq<string>, hits: seq<Hit>,
                   ghost occs: seq<(Hit, nat)>)
    returns (docMap': map<string, ScoredDoc>, order': seq<string>)
    requires DocMap(docMap, order) == MergeAll(occs)
    ensures DocMap(docMap', order') == MergeAll(occs + Ranked(hits))
  {
    docMap', order' := docMap, order;
    var i := 0;
    ghost var done := occs;
    assert occs + Ranked(hits)[..0] == occs;
    while i < |hits|
      invariant 0 <= i <= |hits|
      invariant done == occs + Ranked(hits)[..i]
      invariant DocMap(docMap', order') == MergeAll(done)
    {
      MergeRankedStep(occs, hits, i);
      docMap', order' := MergeOne(docMap', order', hits[i], i);
      done := occs + Ranked(hits)[..i + 1];
      i := i + 1;
    }
    assert Ranked(hits)[..|hits|] == Ranked(hits);
  }

  /** The body of the loop over one query's hits. */
  method MergeOne(docMap: map<string, ScoredDoc>, order: seq<string>, h: Hit, i: nat)
    returns (docMap': map<string, ScoredDoc>, order': seq<string>)
    requires Valid(DocMap(docMap, order))
    ensures DocMap(docMap', order') == MergeHit(DocMap(docMap, order), h, i)
  {
    docMap', order' := docMap, order;
    if h.id !in docMap' {
      docMap' := docMap'[h.id := ScoredDoc(h.id, h.text, h.metadata, h.distance, i)];
      order' := order' + [h.id];
    } else {
      var d := docMap'[h.id];
      if h.distance < d.distance {
        d := d.(distance := h.distance);
      }
      if i < d.bestRank {
        d := d.(bestRank := i);
      }
      docMap' := docMap'[h.id := d];
    }
  }

  /** Phase 1b: the merged documents split by best rank, in first-seen
      order. */
  method Partition(docMap: map<string, ScoredDoc>, order: seq<string>)
    returns (guaranteedDocs: seq<ScoredDoc>, overflowDocs: seq<ScoredDoc>)
    requires Valid(DocMap(docMap, order))
    ensures guaranteedDocs == Filter(Values(DocMap(docMap, order)), IsGuaranteed)
    ensures overflowDocs == Filter(Values(DocMap(docMap, order)), IsOverflow)
  {
    ghost var values := Values(DocMap(docMap, order));
    guaranteedDocs, overflowDocs := [], [];
    var j := 0;
    while j < |order|
      invariant 0 <= j <= |order|
      invariant guaranteedDocs == Filter(values[..j], IsGuaranteed)
      invariant overflowDocs == Filter(values[..j], IsOverflow)
    {
      var doc := docMap[order[j]];
      assert values[j] == doc;
      FilterPrefixStep(values, j, IsGuaranteed);
      FilterPrefixStep(values, j, IsOverflow);
      if doc.bestRank < GuaranteedPerQuery {
        guaranteedDocs := guaranteedDocs + [doc];
      } else {
        overflowDocs := overflowDocs + [doc];
      }
      j := j + 1;
    }
    assert values[..|order|] == values;
  }

  /** The merge after hit `i` of a query's list, from the merge before it. */
  lemma MergeRankedStep(occs: seq<(Hit, nat)>, hits: seq<Hit>, i: nat)
    requires i < |hits|
    ensures MergeAll(occs + Ranked(hits)[..i + 1]) == MergeHit(MergeAll(occs + Ranked(hits)[..i]), hits[i], i)
  {
    var before := occs + Ranked(hits)[..i];
    MergeAllSnoc(before, (hits[i], i));
    RankedPrefixSnoc(occs, hits, i);
  }

  lemma RankedPrefixSnoc(occs: seq<(Hit, nat)>, hits: seq<Hit>, i: nat)
    requires i < |hits|
    ensures occs + Ranked(hits)[..i + 1] == (occs + Ranked(hits)[..i]) + [(hits[i], i)]
  {
    assert Ranked(hits)[..i + 1] == Ranked(hits)[..i] + [(hits[i], i)];
  }

  lemma MergeAllSnoc(occs: seq<(Hit, nat)>, o: (Hit, nat))
    ensures MergeAll(occs + [o]) == MergeHit(MergeAll(occs), o.0, o.1)
  {
    assert (occs + [o])[..|occs|] == occs;
  }

  // ---------------------------------------------------------------------
  // The queries and the store's errors

  /** Once a prefix of the queries has failed, the whole run fails with that
      error. */
  lemma {:induction false} CollectKeepsFailure(store: Store, queries: seq<string>, j: nat, topK: nat)
    requires 0 < j <= |queries|
    requires Collect(store, queries[..j], topK).Failure?
    ensures Collect(store, queries, topK) == Collect(store, queries[..j], topK)
    decreases |queries|
  {
    if j == |queries| {
      assert queries[..j] == queries;
    } else {
      var init := queries[..|queries| - 1];
      assert init[..j] == queries[..j];
      CollectKeepsFailure(store, init, j, topK);
    }
  }

  /** Every query is sent, in order; the run succeeds exactly when each
      does, and otherwise fails with the error of the first that failed. */
  lemma {:induction false} CollectSpec(store: Store, queries: seq<string>, topK: nat)
    ensures Collect(store, queries, topK).Success? <==>
            forall k :: 0 <= k < |queries| ==> store(queries[k], topK).Success?
    ensures Collect(store, queries, topK).Success? ==>
              && |Collect(store, queries, topK).value| == |queries|
              && forall k :: 0 <= k < |queries| ==>
                   Collect(store, queries, topK).value[k] == store(queries[k], topK).value
    ensures Collect(store, queries, topK).Failure? ==>
              exists k :: 0 <= k < |queries| && store(queries[k], topK) == Failure(Collect(store, queries, topK).error)
                          && forall k' :: 0 <= k' < k ==> store(queries[k'], topK).Success?
  {
    if queries != [] {
      var n := |queries| - 1;
      var init := queries[..n];
      CollectSpec(store, init, topK);
      assert forall k :: 0 <= k < n ==> init[k] == queries[k];
    }
  }

  // ---------------------------------------------------------------------
  // The merge

  /** One step of the merge, entry by entry. */
  lemma MergeHitSpec(m: DocMap, h: Hit, rank: nat)
    requires Valid(m)
    ensures MergeHit(m, h, rank).docs.Keys == m.docs.Keys + {h.id}
    ensures forall id :: id in m.docs && id != h.id ==> MergeHit(m, h, rank).docs[id] == m.docs[id]
    ensures h.id !in m.docs ==>
              MergeHit(m, h, rank).docs[h.id] == ScoredDoc(h.id, h.text, h.metadata, h.distance, rank)
    ensures h.id in m.docs ==>
              var d := m.docs[h.id];
              var d' := MergeHit(m, h, rank).docs[h.id];
              && d'.text == d.text && d'.metadata == d.metadata
              && d'.distance == (if h.distance < d.distance then h.distance else d.distance)
              && d'.bestRank == (if rank < d.bestRank then rank else d.bestRank)
  {
  }

  lemma MergeAllStep(occs: seq<(Hit, nat)>)
    requires occs != []
    ensures occs == occs[..|occs| - 1] + [occs[|occs| - 1]]
    ensures MergeAll(occs) == MergeHit(MergeAll(occs[..|occs| - 1]), occs[|occs| - 1].0, occs[|occs| - 1].1)
  {
    var init, last := occs[..|occs| - 1], occs[|occs| - 1];
    assert occs == init + [last];
    assert MergeAll(occs) == MergeHit(MergeAll(init), last.0, last.1);
  }

  /** An id is in the map exactly when some occurrence carries it. */
  lemma {:induction false} MergeAllKeys(occs: seq<(Hit, nat)>)
    ensures forall id :: id in MergeAll(occs).docs <==> exists o :: o in occs && o.0.id == id
  {
    if occs != [] {
      var init, last := occs[..|occs| - 1], occs[|occs| - 1];
      MergeAllStep(occs);
      MergeAllKeys(init);
      MergeHitSpec(MergeAll(init), last.0, last.1);
      forall id | id in MergeAll(occs).docs
        ensures exists o :: o in occs && o.0.id == id
      {
        if id == last.0.id {
          assert last in occs;
        } else {
          var o :| o in init && o.0.id == id;
          assert o in occs;
        }
      }
    }
  }

  /** The merged distance and rank are at most those of every occurrence. */
  lemma {:induction false} MergeAllLowerBound(occs: seq<(Hit, nat)>)
    ensures forall o :: o in occs ==>
              && o.0.id in MergeAll(occs).docs
              && MergeAll(occs).docs[o.0.id].distance <= o.0.distance
              && MergeAll(occs).docs[o.0.id].bestRank <= o.1
  {
    if occs != [] {
      var init, last := occs[..|occs| - 1], occs[|occs| - 1];
      MergeAllStep(occs);
      MergeAllLowerBound(init);
      MergeHitSpec(MergeAll(init), last.0, last.1);
    }
  }

  /** The merged distance is the distance of some occurrence of the id. */
  lemma {:induction false} MergeAllDistanceSeen(occs: seq<(Hit, nat)>)
    ensures forall id :: id in MergeAll(occs).docs ==>
              exists o :: o in occs && o.0.id == id && o.0.distance == MergeAll(occs).docs[id].distance
  {
    if occs != [] {
      var init, last := occs[..|occs| - 1], occs[|occs| - 1];
      var m0 := MergeAll(init);
      MergeAllStep(occs);
      MergeAllDistanceSeen(init);
      MergeHitSpec(m0, last.0, last.1);
      forall id | id in MergeAll(occs).docs
        ensures exists o :: o in occs && o.0.id == id && o.0.distance == MergeAll(occs).docs[id].distance
      {
        if id == last.0.id && MergeAll(occs).docs[id].distance == last.0.distance {
          assert last in occs;
        } else {
          var o :| o in init && o.0.id == id && o.0.distance == m0.docs[id].distance;
          assert o in occs;
        }
      }
    }
  }

  /** The merged rank is the rank of some occurrence of the id. */
  lemma {:induction false} MergeAllRankSeen(occs: seq<(Hit, nat)>)
    ensures forall id :: id in MergeAll(occs).docs ==>
              exists o :: o in occs && o.0.id == id && o.1 == MergeAll(occs).docs[id].bestRank
  {
    if occs != [] {
      var init, last := occs[..|occs| - 1], occs[|occs| - 1];
      var m0 := MergeAll(init);
      MergeAllStep(occs);
      MergeAllRankSeen(init);
      MergeHitSpec(m0, last.0, last.1);
      forall id | id in MergeAll(occs).docs
        ensures exists o :: o in occs && o.0.id == id && o.1 == MergeAll(occs).docs[id].bestRank
      {
        if id == last.0.id && MergeAll(occs).docs[id].bestRank == last.1 {
          assert last in occs;
        } else {
          var o :| o in init && o.0.id == id && o.1 == m0.docs[id].bestRank;
          assert o in occs;
        }
      }
    }
  }

  /** The id's first occurrence, and that its text and metadata are kept. */
  predicate FirstOccurrence(occs: seq<(Hit, nat)>, k: int, d: ScoredDoc) {
    && 0 <= k < |occs|
    && occs[k].0.id == d.id
    && (forall k' :: 0 <= k' < k ==> occs[k'].0.id != d.id)
    && d.text == occs[k].0.text
    && d.metadata == occs[k].0.metadata
  }

  /** Text and metadata are those of the id's first occurrence. */
  lemma {:induction false} MergeAllKeepsFirst(occs: seq<(Hit, nat)>)
    ensures forall id :: id in MergeAll(occs).docs ==>
              exists k :: FirstOccurrence(occs, k, MergeAll(occs).docs[id])
  {
    if occs != [] {
      var n := |occs| - 1;
      var init, last := occs[..n], occs[n];
      var m0 := MergeAll(init);
      MergeAllStep(occs);
      MergeAllKeepsFirst(init);
      MergeAllKeys(init);
      MergeHitSpec(m0, last.0, last.1);
      forall id | id in MergeAll(occs).docs
        ensures exists k :: FirstOccurrence(occs, k, MergeAll(occs).docs[id])
      {
        var d := MergeAll(occs).docs[id];
        if id in m0.docs {
          var k :| FirstOccurrence(init, k, m0.docs[id]);
          FirstOccurrenceKept(init, last, k, m0.docs[id], d);
        } else {
          FirstOccurrenceNew(init, last, d);
        }
      }
    }
  }

  lemma FirstOccurrenceKept(init: seq<(Hit, nat)>, last: (Hit, nat), k: int, d0: ScoredDoc, d: ScoredDoc)
    requires FirstOccurrence(init, k, d0)
    requires d.id == d0.id && d.text == d0.text && d.metadata == d0.metadata
    ensures FirstOccurrence(init + [last], k, d)
  {
    assert forall k' :: 0 <= k' <= k ==> (init + [last])[k'] == init[k'];
  }

  lemma FirstOccurrenceNew(init: seq<(Hit, nat)>, last: (Hit, nat), d: ScoredDoc)
    requires forall o :: o in init ==> o.0.id != d.id
    requires last.0.id == d.id && d.text == last.0.text && d.metadata == last.0.metadata
    ensures FirstOccurrence(init + [last], |init|, d)
  {
    var occs := init + [last];
    forall k' | 0 <= k' < |init|
      ensures occs[k'].0.id != d.id
    {
      assert occs[k'] == init[k'] && init[k'] in init;
    }
  }

  lemma {:induction false} FlattenHas(lists: seq<seq<Hit>>)
    ensures forall qi, i :: 0 <= qi < |lists| && 0 <= i < |lists[qi]| ==> (lists[qi][i], i) in Flatten(lists)
  {
    if lists != [] {
      var n := |lists| - 1;
      var init := lists[..n];
      FlattenHas(init);
      forall qi, i | 0 <= qi < |lists| && 0 <= i < |lists[qi]|
        ensures (lists[qi][i], i) in Flatten(lists)
      {
        if qi == n {
          assert Ranked(lists[n])[i] == (lists[qi][i], i);
        } else {
          assert init[qi] == lists[qi];
          assert (init[qi][i], i) in Flatten(init);
        }
      }
    }
  }

  /** An occurrence in the flattened sequence: hit `o.0` at rank `o.1` of
      some query. */
  predicate OccursIn(lists: seq<seq<Hit>>, o: (Hit, nat)) {
    exists qi :: 0 <= qi < |lists| && o.1 < |lists[qi]| && o.0 == lists[qi][o.1]
  }

  lemma {:induction false} FlattenFrom(lists: seq<seq<Hit>>)
    ensures forall o :: o in Flatten(lists) ==> OccursIn(lists, o)
  {
    if lists != [] {
      var n := |lists| - 1;
      var init := lists[..n];
      FlattenFrom(init);
      forall o | o in Flatten(lists)
        ensures OccursIn(lists, o)
      {
        if o in Flatten(init) {
          var qi :| 0 <= qi < |init| && o.1 < |init[qi]| && o.0 == init[qi][o.1];
          assert lists[qi] == init[qi];
        } else {
          var i :| 0 <= i < |lists[n]| && Ranked(lists[n])[i] == o;
          assert o.1 < |lists[n]| && o.0 == lists[n][o.1];
        }
      }
    }
  }

  /** The merged map holds one entry per id seen in any query. */
  lemma MergedKeys(lists: seq<seq<Hit>>)
    ensures forall id :: id in MergeAll(Flatten(lists)).docs <==>
              exists qi, i :: 0 <= qi < |lists| && 0 <= i < |lists[qi]| && lists[qi][i].id == id
  {
    var occs := Flatten(lists);
    FlattenHas(lists);
    FlattenFrom(lists);
    MergeAllKeys(occs);
    forall id | id in MergeAll(occs).docs
      ensures exists qi, i :: 0 <= qi < |lists| && 0 <= i < |lists[qi]| && lists[qi][i].id == id
    {
      var o :| o in occs && o.0.id == id;
      assert OccursIn(lists, o);
    }
    forall qi, i | 0 <= qi < |lists| && 0 <= i < |lists[qi]|
      ensures lists[qi][i].id in MergeAll(occs).docs
    {
      assert (lists[qi][i], i) in occs;
    }
  }

  /** The merged entry's distance and rank are at most those of every hit
      for its id, in any query. */
  lemma MergedLowerBound(lists: seq<seq<Hit>>)
    ensures forall qi, i :: 0 <= qi < |lists| && 0 <= i < |lists[qi]| ==>
              && lists[qi][i].id in MergeAll(Flatten(lists)).docs
              && MergeAll(Flatten(lists)).docs[lists[qi][i].id].distance <= lists[qi][i].distance
              && MergeAll(Flatten(lists)).docs[lists[qi][i].id].bestRank <= i
  {
    var occs := Flatten(lists);
    FlattenHas(lists);
    MergeAllLowerBound(occs);
    forall qi, i | 0 <= qi < |lists| && 0 <= i < |lists[qi]|
      ensures && lists[qi][i].id in MergeAll(occs).docs
              && MergeAll(occs).docs[lists[qi][i].id].distance <= lists[qi][i].distance
              && MergeAll(occs).docs[lists[qi][i].id].bestRank <= i
    {
      assert (lists[qi][i], i) in occs;
    }
  }

  /** The merged distance and rank were each observed for the id: together
      with the lower bound, they are the minimum over all queries. */
  lemma MergedAttained(lists: seq<seq<Hit>>)
    ensures forall id :: id in MergeAll(Flatten(lists)).docs ==>
              exists qi, i :: 0 <= qi < |lists| && 0 <= i < |lists[qi]| && lists[qi][i].id == id
                              && lists[qi][i].distance == MergeAll(Flatten(lists)).docs[id].distance
    ensures forall id :: id in MergeAll(Flatten(lists)).docs ==>
              exists qi, i :: 0 <= qi < |lists| && 0 <= i < |lists[qi]| && lists[qi][i].id == id
                              && i == MergeAll(Flatten(lists)).docs[id].bestRank
  {
    var occs := Flatten(lists);
    var m := MergeAll(occs);
    FlattenFrom(lists);
    MergeAllDistanceSeen(occs);
    MergeAllRankSeen(occs);
    forall id | id in m.docs
      ensures exists qi, i :: 0 <= qi < |lists| && 0 <= i < |lists[qi]| && lists[qi][i].id == id
                              && lists[qi][i].distance == m.docs[id].distance
      ensures exists qi, i :: 0 <= qi < |lists| && 0 <= i < |lists[qi]| && lists[qi][i].id == id
                              && i == m.docs[id].bestRank
    {
      var o :| o in occs && o.0.id == id && o.0.distance == m.docs[id].distance;
      assert OccursIn(lists, o);
      var qi :| 0 <= qi < |lists| && o.1 < |lists[qi]| && o.0 == lists[qi][o.1];
      var o' :| o' in occs && o'.0.id == id && o'.1 == m.docs[id].bestRank;
      assert OccursIn(lists, o');
      var qi' :| 0 <= qi' < |lists| && o'.1 < |lists[qi']| && o'.0 == lists[qi'][o'.1];
    }
  }

  // ---------------------------------------------------------------------
  // The selection

  /** Each merged document appears once in `doc_map.values()`, and each
      entry there is the map's entry for its id. */
  lemma ValuesSpec(m: DocMap)
    requires Valid(m)
    ensures NoDupIds(Values(m))
    ensures forall x :: x in Values(m) ==> x.id in m.docs && m.docs[x.id] == x
    ensures forall id :: id in m.docs ==> m.docs[id] in Values(m)
  {
    var vs := Values(m);
    forall id | id in m.docs
      ensures m.docs[id] in vs
    {
      var i :| 0 <= i < |m.order| && m.order[i] == id;
      assert vs[i] == m.docs[id];
    }
  }

  /** The result never holds two documents with the same id. */
  lemma SelectNoDupIds(m: DocMap, topK: nat)
    requires Valid(m)
    ensures NoDupIds(SelectFinal(Values(m), topK))
  {
    var values := Values(m);
    ValuesSpec(m);
    var g := Guaranteed(values);
    var so := SortByDistance(Overflow(values));
    var take := Min(Budget(topK, |g|), |so|);
    var t := so[..take];
    FilterNoDupIds(values, IsGuaranteed);
    FilterNoDupIds(Filter(values, IsGuaranteed), WithinCeiling);
    FilterNoDupIds(values, IsOverflow);
    FilterNoDupIds(Filter(values, IsOverflow), WithinCeiling);
    SortNoDupIds(Overflow(values));
    forall i, j | 0 <= i < j < |t|
      ensures t[i].id != t[j].id
    {
      assert t[i] == so[i] && t[j] == so[j];
    }
    forall x, y | x in g && y in t
      ensures x.id != y.id
    {
      assert y in so;
      assert x in values && IsGuaranteed(x);
      assert y in values && IsOverflow(y);
    }
    ConcatNoDupIds(g, t);
    SortNoDupIds(g + t);
  }

  /** Every result is a merged document under the ceiling, the result is
      ordered by distance, and it holds the guaranteed documents plus at
      most the budget's worth of overflow documents. */
  lemma SelectBounds(m: DocMap, topK: nat)
    requires Valid(m)
    ensures var r := SelectFinal(Values(m), topK);
      && Sorted(r)
      && (forall x :: x in r ==> x.distance <= MaxDistance && x.id in m.docs && m.docs[x.id] == x)
      && |r| == |Guaranteed(Values(m))| + Min(Budget(topK, |Guaranteed(Values(m))|), |Overflow(Values(m))|)
      && (|r| <= |Guaranteed(Values(m))| || |r| <= 2 * topK)
  {
    var values := Values(m);
    ValuesSpec(m);
    var g := Guaranteed(values);
    var so := SortByDistance(Overflow(values));
    var take := Min(Budget(topK, |g|), |so|);
    var f := g + so[..take];
    forall x | x in f
      ensures x.distance <= MaxDistance && x.id in m.docs && m.docs[x.id] == x
    {
      if x !in g {
        assert x in so;
      }
    }
  }

  /** Every merged document that ranked in the top 3 of some query and is
      under the ceiling is in the result. */
  lemma SelectKeepsGuaranteed(m: DocMap, topK: nat)
    requires Valid(m)
    ensures forall id :: id in m.docs && m.docs[id].bestRank < GuaranteedPerQuery
                         && m.docs[id].distance <= MaxDistance ==>
              m.docs[id] in SelectFinal(Values(m), topK)
  {
    ValuesSpec(m);
  }

  /** The overflow documents taken are the closest ones: any overflow
      document under the ceiling that was left out is at least as far as
      every overflow document in the result. */
  lemma SelectClosestOverflow(m: DocMap, topK: nat)
    requires Valid(m)
    ensures var r := SelectFinal(Values(m), topK);
      forall id, x :: id in m.docs && m.docs[id].bestRank >= GuaranteedPerQuery
                      && m.docs[id].distance <= MaxDistance && m.docs[id] !in r
                      && x in r && x.bestRank >= GuaranteedPerQuery ==>
        x.distance <= m.docs[id].distance
  {
    var values := Values(m);
    ValuesSpec(m);
    var g := Guaranteed(values);
    var so := SortByDistance(Overflow(values));
    var take := Min(Budget(topK, |g|), |so|);
    var r := SelectFinal(values, topK);
    assert r == SortByDistance(g + so[..take]);
    assert forall z :: z in g ==> IsGuaranteed(z);
    forall id, x | id in m.docs && m.docs[id].bestRank >= GuaranteedPerQuery
                   && m.docs[id].distance <= MaxDistance && m.docs[id] !in r
                   && x in r && x.bestRank >= GuaranteedPerQuery
      ensures x.distance <= m.docs[id].distance
    {
      var y := m.docs[id];
      assert y in Filter(values, IsOverflow);
      assert y in so;
      TakeClosest(g, so, take, x, y);
    }
  }

  /** In a sorted list, what a prefix keeps is no farther than what it
      leaves out. */
  lemma TakeClosest(g: seq<ScoredDoc>, so: seq<ScoredDoc>, take: nat, x: ScoredDoc, y: ScoredDoc)
    requires Sorted(so) && take <= |so|
    requires forall z :: z in g ==> IsGuaranteed(z)
    requires y in so && y !in g + so[..take]
    requires x in g + so[..take] && !IsGuaranteed(x)
    ensures x.distance <= y.distance
  {
    assert x in so[..take];
    var a :| 0 <= a < take && so[..take][a] == x;
    var b :| 0 <= b < |so| && so[b] == y;
    assert so[a] == x;
    assert forall j :: 0 <= j < take ==> so[..take][j] == so[j];
  }

  /** What the retriever returns once every query has succeeded. */
  lemma SearchValue(query: string, topK: nat, store: Store, lists: seq<seq<Hit>>)
    requires Collect(store, SearchQueries(query), topK) == Success(lists)
    ensures Search(query, topK, store) == Success(SelectFinal(Values(MergeAll(Flatten(lists))), topK))
  {
  }

  /** The retriever's promises, in terms of what the store returned for
      each query: no duplicate ids, ordered by distance, nothing above the
      ceiling, every document that ranked in the top 3 of some query within
      the ceiling is kept, and each result carries the best distance and
      rank observed for it over all queries. */
  lemma SearchSpec(query: string, topK: nat, store: Store, lists: seq<seq<Hit>>)
    requires Collect(store, SearchQueries(query), topK) == Success(lists)
    ensures Search(query, topK, store).Success?
    ensures NoDupIds(Search(query, topK, store).value)
    ensures Sorted(Search(query, topK, store).value)
    ensures forall x :: x in Search(query, topK, store).value ==> x.distance <= MaxDistance
    ensures forall qi, i :: 0 <= qi < |lists| && 0 <= i < |lists[qi]| && i < GuaranteedPerQuery
                            && lists[qi][i].distance <= MaxDistance ==>
              exists x :: x in Search(query, topK, store).value && x.id == lists[qi][i].id
    ensures forall x, qi, i :: x in Search(query, topK, store).value && 0 <= qi < |lists|
                               && 0 <= i < |lists[qi]| && lists[qi][i].id == x.id ==>
              x.distance <= lists[qi][i].distance && x.bestRank <= i
    ensures forall x :: x in Search(query, topK, store).value ==>
              exists qi, i :: 0 <= qi < |lists| && 0 <= i < |lists[qi]| && lists[qi][i].id == x.id
                              && lists[qi][i].distance == x.distance
  {
    var m := MergeAll(Flatten(lists));
    var r := SelectFinal(Values(m), topK);
    SearchValue(query, topK, store, lists);
    SelectNoDupIds(m, topK);
    SelectBounds(m, topK);
    MergedLowerBound(lists);
    SelectKeepsGuaranteed(m, topK);
    forall qi, i | 0 <= qi < |lists| && 0 <= i < |lists[qi]| && i < GuaranteedPerQuery
                   && lists[qi][i].distance <= MaxDistance
      ensures exists x :: x in r && x.id == lists[qi][i].id
    {
      var id := lists[qi][i].id;
      assert m.docs[id] in r;
    }
    MergedAttained(lists);
    forall x | x in r
      ensures exists qi, i :: 0 <= qi < |lists| && 0 <= i < |lists[qi]| && lists[qi][i].id == x.id
                              && lists[qi][i].distance == x.distance
    {
      assert x.id in m.docs && m.docs[x.id] == x;
    }
  }

  /** Every selected document is the map's entry for its id. */
  lemma SelectFromMap(m: DocMap, topK: nat)
    requires Valid(m)
    ensures forall x :: x in SelectFinal(Values(m), topK) ==> x.id in m.docs && m.docs[x.id] == x
  {
    SelectBounds(m, topK);
  }

  /** Each selected document's best rank is attained by some hit. */
  lemma SelectRankAttained(lists: seq<seq<Hit>>, topK: nat)
    ensures forall x :: x in SelectFinal(Values(MergeAll(Flatten(lists))), topK) ==>
              exists qi, i :: 0 <= qi < |lists| && 0 <= i < |lists[qi]| && lists[qi][i].id == x.id
                              && i == x.bestRank
  {
    var m := MergeAll(Flatten(lists));
    var r := SelectFinal(Values(m), topK);
    SelectFromMap(m, topK);
    MergedAttained(lists);
    forall x | x in r
      ensures exists qi, i :: 0 <= qi < |lists| && 0 <= i < |lists[qi]| && lists[qi][i].id == x.id
                              && i == x.bestRank
    {
      assert x.id in m.docs && m.docs[x.id] == x;
    }
  }

  /** Each result's best rank is attained: some query returned that
      document at exactly that position. */
  lemma SearchRankAttained(query: string, topK: nat, store: Store, lists: seq<seq<Hit>>)
    requires Collect(store, SearchQueries(query), topK) == Success(lists)
    ensures Search(query, topK, store).Success?
    ensures forall x :: x in Search(query, topK, store).value ==>
              exists qi, i :: 0 <= qi < |lists| && 0 <= i < |lists[qi]| && lists[qi][i].id == x.id
                              && i == x.bestRank
  {
    SearchValue(query, topK, store, lists);
    SelectRankAttained(lists, topK);
  }

  /** The retriever fails exactly when some query fails in the store, and
      then with the error of the first query that failed. */
  lemma SearchErrorSpec(query: string, topK: nat, store: Store)
    ensures Search(query, topK, store).Failure? <==>
            exists k :: 0 <= k < |SearchQueries(query)| && store(SearchQueries(query)[k], topK).Failure?
    ensures Search(query, topK, store).Failure? ==>
              exists k :: 0 <= k < |SearchQueries(query)|
                          && store(SearchQueries(query)[k], topK) == Failure(Search(query, topK, store).error)
                          && forall k' :: 0 <= k' < k ==> store(SearchQueries(query)[k'], topK).Success?
  {
    CollectSpec(store, SearchQueries(query), topK);
  }
}
