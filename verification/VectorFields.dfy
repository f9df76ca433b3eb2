/** A search over several vector fields, from the raw hits of each field to the documents. */
module VectorFields {
  import opened VectorResults
  import opened VectorMerge

  /** Some hit of the field is a vector of document d. */
  ghost predicate HitBy(c: Catalog, hits: Rows, d: int) {
    exists i :: 0 <= i < |hits| && hits[i].docid != -1 && c.docOf(hits[i].docid) == d
  }

  ghost predicate HitByAll(cs: seq<Catalog>, hits: seq<Rows>, d: int)
    requires |cs| == |hits|
  {
    forall j :: 0 <= j < |hits| ==> HitBy(cs[j], hits[j], d)
  }

  /** The field's entry for document d comes from the first hit of d: its distance, times the boost
      of the field if it has one, and the source of the vector that was hit. */
  ghost predicate FirstHit(c: Catalog, hits: Rows, b: Boost, d: int, h: Hit) {
    exists i :: FirstHitAt(c, hits, b, d, h, i)
  }

  ghost predicate FirstHitAt(c: Catalog, hits: Rows, b: Boost, d: int, h: Hit, i: int) {
    && 0 <= i < |hits| && hits[i].docid != -1 && c.docOf(hits[i].docid) == d
    && (forall k :: 0 <= k < i && hits[k].docid != -1 ==> c.docOf(hits[k].docid) != d)
    && h.score == (if b.BoostBy? then hits[i].dist * b.factor else hits[i].dist)
    && h.source == c.source(hits[i].docid) && h.sourceLen == c.sourceLen(hits[i].docid)
  }

  function ScoreSum(fields: seq<Hit>): real {
    if fields == [] then 0.0 else ScoreSum(fields[..|fields| - 1]) + fields[|fields| - 1].score
  }

  ghost predicate DocFrom(cs: seq<Catalog>, hits: seq<Rows>, boosts: seq<Boost>, doc: Doc)
    requires |cs| == |hits| == |boosts|
  {
    && HitByAll(cs, hits, doc.docid) && |doc.fields| == |hits| && doc.score == ScoreSum(doc.fields)
    && forall j :: 0 <= j < |hits| ==> FirstHit(cs[j], hits[j], boosts[j], doc.docid, doc.fields[j])
  }

  /** What the search answers, in terms of the raw hits: the documents that every field hit,
      ascending and once each, with the first hit of each field and the sum of the scores. */
  ghost predicate Answer(cs: seq<Catalog>, hits: seq<Rows>, boosts: seq<Boost>, docs: seq<Doc>)
    requires |cs| == |hits| == |boosts|
  {
    && (forall k :: 0 <= k < |docs| ==> DocFrom(cs, hits, boosts, docs[k]))
    && (forall k, l :: 0 <= k < l < |docs| ==> docs[k].docid < docs[l].docid)
    && forall d: int :: HitByAll(cs, hits, d) ==> Has(docs, |docs|, d)
  }

  /** Each list was made from the hits of its field. */
  ghost predicate Made(cs: seq<Catalog>, hits: seq<Rows>, lists: seq<Rows>) {
    && |cs| == |hits| && |lists| <= |hits|
    && forall j :: 0 <= j < |lists| ==> Ready(lists[j]) && Lists(cs[j], hits[j], lists[j])
  }

  lemma InIffHit(c: Catalog, hits: Rows, rows: Rows, d: int)
    requires Lists(c, hits, rows)
    ensures d >= 0 && In(rows, d) <==> HitBy(c, hits, d)
  {
    if d >= 0 && In(rows, d) {
      var i :| 0 <= i < |rows| && rows[i].docid == d;
      assert FromFirst(c, hits, rows[i]);
    }
    if HitBy(c, hits, d) {
      var i :| 0 <= i < |hits| && hits[i].docid != -1 && c.docOf(hits[i].docid) == d;
      assert In(rows, c.docOf(hits[i].docid));
    }
  }

  lemma HitIsFirst(c: Catalog, hits: Rows, rows: Rows, b: Boost, d: int)
    requires Lists(c, hits, rows) && In(rows, d) && d >= 0
    ensures FirstHit(c, hits, b, d, HitFor(rows, b, d))
  {
    hide HitFor;
    var h := HitFor(rows, b, d);
    var i :| 0 <= i < |rows| && rows[i].docid == d && IsHitOf(rows[i], b, h);
    assert FromFirst(c, hits, rows[i]);
    var j: nat :| IsFirst(c, hits, j) && rows[i] == Named(c, hits[j]);
    assert FirstHitAt(c, hits, b, d, h, j);
  }

  lemma {:induction false} SumIsScores(lists: seq<Rows>, boosts: seq<Boost>, d: int, n: nat, fields: seq<Hit>)
    requires n <= |lists| == |boosts| && |fields| == n && InAll(lists, d)
    requires forall j :: 0 <= j < n ==> fields[j] == HitFor(lists[j], boosts[j], d)
    ensures SumOver(lists, boosts, d, n, Everyone(|lists|)) == ScoreSum(fields)
    decreases n
  {
    if n > 0 {
      SumIsScores(lists, boosts, d, n - 1, fields[..n - 1]);
    }
  }

  lemma CommonIffHit(cs: seq<Catalog>, hits: seq<Rows>, lists: seq<Rows>, d: int)
    requires Made(cs, hits, lists) && 0 < |lists| == |hits|
    ensures InAll(lists, d) <==> HitByAll(cs, hits, d)
  {
    hide Ready, Lists, In, HitBy;
    forall j | 0 <= j < |lists| ensures d >= 0 && In(lists[j], d) <==> HitBy(cs[j], hits[j], d) {
      InIffHit(cs[j], hits[j], lists[j], d);
    }
    if HitByAll(cs, hits, d) {
      assert HitBy(cs[0], hits[0], d);
    }
  }

  lemma DocIsFrom(cs: seq<Catalog>, hits: seq<Rows>, lists: seq<Rows>, boosts: seq<Boost>, doc: Doc)
    requires Made(cs, hits, lists) && 0 < |lists| == |hits| == |boosts| && Complete(lists, boosts, doc)
    ensures DocFrom(cs, hits, boosts, doc)
  {
    hide Ready, Lists, SumOver, FirstHit, HitByAll;
    CommonIffHit(cs, hits, lists, doc.docid);
    SumIsScores(lists, boosts, doc.docid, |lists|, doc.fields);
    forall j | 0 <= j < |hits| ensures FirstHit(cs[j], hits[j], boosts[j], doc.docid, doc.fields[j]) {
      HitIsFirst(cs[j], hits[j], lists[j], boosts[j], doc.docid);
    }
  }

  lemma MergedIsAnswer(cs: seq<Catalog>, hits: seq<Rows>, lists: seq<Rows>, boosts: seq<Boost>, docs: seq<Doc>)
    requires Made(cs, hits, lists) && 0 < |lists| == |hits| == |boosts| == |cs| && Merged(lists, boosts, docs)
    ensures Answer(cs, hits, boosts, docs)
  {
    hide Made, Complete, DocFrom, InAll, HitByAll, Has;
    forall k | 0 <= k < |docs| ensures DocFrom(cs, hits, boosts, docs[k]) {
      DocIsFrom(cs, hits, lists, boosts, docs[k]);
    }
    forall d: int | HitByAll(cs, hits, d) ensures Has(docs, |docs|, d) {
      CommonIffHit(cs, hits, lists, d);
    }
  }

  /** The fields share no memory. */
  ghost predicate Separate(vs: seq<VectorResult>) {
    forall i, j :: 0 <= i < j < |vs| ==> SeparateTwo(vs[i], vs[j])
  }

  ghost predicate SeparateTwo(a: VectorResult, b: VectorResult) {
    && a.docids != b.docids && a.dists != b.dists && a.sources != b.sources && a.sources != b.sourceLens
    && a.sourceLens != b.sources && a.sourceLens != b.sourceLens
  }

  ghost predicate AllShaped(vs: seq<VectorResult>, base: nat, topn: nat)
    reads vs
  {
    forall j :: 0 <= j < |vs| ==> vs[j].Shaped() && vs[j].topn == topn && base + topn <= vs[j].docids.Length
  }

  lemma NothingMade(cs: seq<Catalog>, hits: seq<Rows>)
    requires |cs| == |hits|
    ensures FirstCursors([], []) && Made(cs, hits, [])
  {
  }

  lemma MadeMore(cs: seq<Catalog>, hits: seq<Rows>, lists: seq<Rows>, rows: Rows)
    requires Made(cs, hits, lists) && |lists| < |hits|
    requires Ready(rows) && Lists(cs[|lists|], hits[|lists|], rows)
    ensures Made(cs, hits, lists + [rows])
  {
    hide Ready, Lists;
  }

  lemma MadeReady(cs: seq<Catalog>, hits: seq<Rows>, lists: seq<Rows>, topn: nat)
    requires Made(cs, hits, lists) && forall k :: 0 <= k < |lists| ==> |lists[k]| == topn
    ensures AllReady(lists, topn)
  {
    hide Ready, Lists;
  }

  lemma FirstCursorsMore(lists: seq<Rows>, cursors: seq<int>, rows: Rows, cursor: int)
    requires FirstCursors(lists, cursors)
    requires cursor == if exists i :: 0 <= i < |rows| && rows[i].docid >= 0 then 0 else -1
    ensures FirstCursors(lists + [rows], cursors + [cursor])
  {
    var all: seq<Rows>, cs: seq<int> := lists + [rows], cursors + [cursor];
    forall j | 0 <= j < |all|
      ensures if exists i :: 0 <= i < |all[j]| && all[j][i].docid >= 0 then cs[j] == 0 else cs[j] == -1
    {
      if j < |lists| {
        assert all[j] == lists[j] && cs[j] == cursors[j];
      } else {
        assert all[j] == rows && cs[j] == cursor;
      }
    }
  }

  /** One request of a search: every field's slots are made ready, then merged. */
  method SearchFields(vs: seq<VectorResult>, cs: seq<Catalog>, boosts: seq<Boost>, base: nat, topn: nat,
                      slots: seq<Doc>, ghost hits: seq<Rows>) returns (docs: seq<Doc>)
    requires 0 < |vs| == |cs| == |boosts| == |hits| && AllShaped(vs, base, topn) && Separate(vs)
    requires forall j :: 0 <= j < |vs| ==> hits[j] == vs[j].View()[base..base + topn]
    requires forall c, x :: c in cs ==> c.docOf(x) < 0x7FFF_FFFF
    requires |slots| == topn && forall k :: 0 <= k < topn ==> |slots[k].fields| == |vs|
    modifies set v | v in vs :: v.docids
    modifies set v | v in vs :: v.dists
    modifies set v | v in vs :: v.sources
    modifies set v | v in vs :: v.sourceLens
    ensures Answer(cs, hits, boosts, docs) && |docs| <= topn
  {
    hide Ready, Lists, Answer, FirstCursors, Merged, Made, AllReady;
    var lists: seq<Rows>, cursors: seq<int> := [], [];
    NothingMade(cs, hits);
    for j := 0 to |vs|
      invariant |lists| == |cursors| == j && Made(cs, hits, lists) && FirstCursors(lists, cursors)
      invariant forall k :: 0 <= k < j ==> |lists[k]| == topn
      invariant forall k :: j <= k < |vs| ==> vs[k].View() == old(vs[k].View())
    {
      assert cs[j] in cs && vs[j] in vs;
      label before:
      var rows, cursor := Prepare(vs[j], cs[j], base);
      forall k | j < k < |vs| ensures vs[k].View() == old@before(vs[k].View()) {
        assert SeparateTwo(vs[j], vs[k]);
      }
      FirstCursorsMore(lists, cursors, rows, cursor);
      MadeMore(cs, hits, lists, rows);
      lists, cursors := lists + [rows], cursors + [cursor];
    }
    MadeReady(cs, hits, lists, topn);
    docs := Merge(lists, boosts, topn, cursors, slots);
    MergedIsAnswer(cs, hits, lists, boosts, docs);
  }
}
