/** The hits of one vector field: four parallel arrays of n requests with topn slots each,
    deduplicated in place and sorted in place by document id. */
module VectorResults {

  datatype Row = Row(docid: int, dist: real, source: nat, sourceLen: nat)

  type Rows = seq<Row>

  // ---- Permutations of a range ----

  /** b is a with the slots [lo, hi) permuted. */
  ghost predicate Permuted(a: Rows, b: Rows, lo: nat, hi: nat) {
    && |a| == |b| && lo <= hi <= |a|
    && a[..lo] == b[..lo] && a[hi..] == b[hi..]
    && multiset(a[lo..hi]) == multiset(b[lo..hi])
  }

  ghost predicate SortedIn(a: Rows, lo: nat, hi: nat)
    requires lo <= hi <= |a|
  {
    forall i, j :: lo <= i < j < hi ==> a[i].docid <= a[j].docid
  }

  ghost predicate Below(a: Rows, lo: nat, hi: nat, x: int)
    requires lo <= hi <= |a|
  {
    forall i :: lo <= i < hi ==> a[i].docid <= x
  }

  ghost predicate Over(a: Rows, lo: nat, hi: nat, x: int)
    requires lo <= hi <= |a|
  {
    forall i :: lo <= i < hi ==> x <= a[i].docid
  }

  lemma PermutedTrans(a: Rows, b: Rows, c: Rows, lo: nat, hi: nat)
    requires Permuted(a, b, lo, hi) && Permuted(b, c, lo, hi)
    ensures Permuted(a, c, lo, hi)
  {
  }

  /** Permuting a part permutes the whole. */
  lemma PermutedPart(a: Rows, b: Rows, lo: nat, hi: nat, x: nat, y: nat)
    requires Permuted(a, b, x, y) && lo <= x && y <= hi <= |a|
    ensures Permuted(a, b, lo, hi)
  {
    assert a[lo..hi] == a[lo..x] + a[x..y] + a[y..hi];
    assert b[lo..hi] == b[lo..x] + b[x..y] + b[y..hi];
    assert a[lo..x] == a[..x][lo..] && b[lo..x] == b[..x][lo..];
    assert a[y..hi] == a[y..][..hi - y] && b[y..hi] == b[y..][..hi - y];
    assert a[..lo] == a[..x][..lo] && b[..lo] == b[..x][..lo];
    assert a[hi..] == a[y..][hi - y..] && b[hi..] == b[y..][hi - y..];
  }

  lemma InRange(a: Rows, b: Rows, lo: nat, hi: nat, i: nat)
    requires Permuted(a, b, lo, hi) && lo <= i < hi
    ensures exists j :: lo <= j < hi && a[j] == b[i]
  {
    assert b[i] in multiset(b[lo..hi]) by { assert b[lo..hi][i - lo] == b[i]; }
    assert b[i] in a[lo..hi];
    var k :| 0 <= k < hi - lo && a[lo..hi][k] == b[i];
    assert a[lo + k] == b[i];
  }

  lemma PermutedBounds(a: Rows, b: Rows, lo: nat, hi: nat, x: int)
    requires Permuted(a, b, lo, hi)
    ensures Below(a, lo, hi, x) ==> Below(b, lo, hi, x)
    ensures Over(a, lo, hi, x) ==> Over(b, lo, hi, x)
  {
    forall i | lo <= i < hi ensures exists j :: lo <= j < hi && a[j] == b[i] {
      InRange(a, b, lo, hi, i);
    }
  }

  lemma Outside(a: Rows, b: Rows, lo: nat, hi: nat, i: nat)
    requires Permuted(a, b, lo, hi) && i < |a| && (i < lo || hi <= i)
    ensures a[i] == b[i]
  {
    if i < lo {
      assert a[i] == a[..lo][i] && b[i] == b[..lo][i];
    } else {
      assert a[i] == a[hi..][i - hi] && b[i] == b[hi..][i - hi];
    }
  }

  /** a with p in the hole at i is the original with its slots permuted. */
  ghost predicate Hole(rows: Rows, a: Rows, i: nat, p: Row, lo: nat, hi: nat) {
    i < |a| && Permuted(rows, a[i := p], lo, hi)
  }

  lemma FirstHole(a: Rows, i: nat, lo: nat, hi: nat)
    requires lo <= i < hi <= |a|
    ensures Hole(a, a, i, a[i], lo, hi)
  {
    assert a[i := a[i]] == a;
  }

  lemma LastHole(rows: Rows, a: Rows, i: nat, p: Row, lo: nat, hi: nat)
    requires Hole(rows, a, i, p, lo, hi)
    ensures i < |a| && Permuted(rows, a[i := p], lo, hi)
  {
  }

  lemma HoleMoves(rows: Rows, a: Rows, i: nat, j: nat, p: Row, lo: nat, hi: nat)
    requires Hole(rows, a, i, p, lo, hi) && lo <= i < hi <= |a| && lo <= j < hi
    ensures Hole(rows, a[i := a[j]], j, p, lo, hi)
  {
    MoveHole(a, lo, hi, i, j, p);
    PermutedTrans(rows, a[i := p], a[i := a[j]][j := p], lo, hi);
  }

  lemma FilledLow(a: Rows, first: nat, low: nat, high: nat, last: nat, x: int)
    requires first <= low <= high <= last < |a| && Below(a, first, low, x) && Over(a, high + 1, last + 1, x)
    requires low < high ==> a[high].docid < x
    ensures var b := a[low := a[high]];
            Below(b, first, low, x) && Over(b, high + 1, last + 1, x) && (low < high ==> b[low].docid < x)
  {
  }

  lemma FilledHigh(a: Rows, first: nat, low: nat, high: nat, last: nat, x: int)
    requires first <= low <= high <= last < |a| && Below(a, first, low, x) && Over(a, high + 1, last + 1, x)
    requires low < high ==> a[low].docid > x
    ensures var b := a[high := a[low]];
            Below(b, first, low, x) && Over(b, high + 1, last + 1, x)
  {
  }

  /** Moving row j into the hole at i leaves the hole, to be filled with p, at j. */
  lemma MoveHole(a: Rows, lo: nat, hi: nat, i: nat, j: nat, p: Row)
    requires lo <= i < hi <= |a| && lo <= j < hi
    ensures Permuted(a[i := p], a[i := a[j]][j := p], lo, hi)
  {
    var b, c := a[i := p], a[i := a[j]][j := p];
    if i == j {
      assert b == c;
    } else {
      assert c == b[i := b[j]][j := b[i]];
      SwapPermutes(b, lo, hi, i, j);
    }
  }

  lemma SwapPermutes(a: Rows, lo: nat, hi: nat, i: nat, j: nat)
    requires lo <= i < hi <= |a| && lo <= j < hi
    ensures Permuted(a, a[i := a[j]][j := a[i]], lo, hi)
  {
    var b := a[i := a[j]][j := a[i]];
    var s, t, x, y := a[lo..hi], b[lo..hi], i - lo, j - lo;
    assert t == s[x := s[y]][y := s[x]];
    assert multiset(t) == multiset(s);
  }

  /** Sorted parts around a pivot are sorted together. */
  lemma Joined(a: Rows, lo: nat, m: nat, hi: nat)
    requires lo <= m < hi <= |a| && SortedIn(a, lo, m) && SortedIn(a, m + 1, hi)
    requires Below(a, lo, m, a[m].docid) && Over(a, m + 1, hi, a[m].docid)
    ensures SortedIn(a, lo, hi)
  {
  }

  // ---- Dropping repeated documents ----

  /** The raw vectors: the document of a vector, and its stored source (or none). */
  datatype Catalog = Catalog(docOf: int -> nat, source: int -> nat, sourceLen: int -> nat)

  ghost function Docids(rows: Rows): set<int> {
    set i | 0 <= i < |rows| :: rows[i].docid
  }

  lemma DocidsAppend(rows: Rows, r: Row)
    ensures Docids(rows + [r]) == Docids(rows) + {r.docid}
  {
    var s := rows + [r];
    assert s[|rows|] == r;
    forall d | d in Docids(rows) ensures d in Docids(s) {
      var i :| 0 <= i < |rows| && rows[i].docid == d;
      assert s[i].docid == d;
    }
  }

  function Named(c: Catalog, r: Row): Row {
    Row(c.docOf(r.docid), r.dist, c.source(r.docid), c.sourceLen(r.docid))
  }

  /** The first hit of every document, in order. */
  ghost function Firsts(c: Catalog, hits: Rows): Rows {
    if hits == [] then []
    else
      var rest, last := Firsts(c, hits[..|hits| - 1]), hits[|hits| - 1];
      if last.docid == -1 || c.docOf(last.docid) in Docids(rest) then rest else rest + [Named(c, last)]
  }

  /** Row j is the first hit of its document. */
  ghost predicate IsFirst(c: Catalog, hits: Rows, j: nat) {
    && j < |hits| && hits[j].docid != -1
    && forall i :: 0 <= i < j && hits[i].docid != -1 ==> c.docOf(hits[i].docid) != c.docOf(hits[j].docid)
  }

  ghost predicate DistinctDocs(r: Rows) {
    forall i, j :: 0 <= i < j < |r| ==> r[i].docid != r[j].docid
  }

  ghost predicate CoversHits(c: Catalog, hits: Rows, r: Rows) {
    forall j :: 0 <= j < |hits| && hits[j].docid != -1 ==> c.docOf(hits[j].docid) in Docids(r)
  }

  ghost predicate OnlyFirsts(c: Catalog, hits: Rows, r: Rows) {
    forall i :: 0 <= i < |r| ==> FromFirst(c, hits, r[i])
  }

  lemma OnlyLonger(c: Catalog, hits: Rows, r: Rows)
    requires hits != [] && OnlyFirsts(c, hits[..|hits| - 1], r)
    ensures OnlyFirsts(c, hits, r)
  {
    hide FromFirst;
    forall i | 0 <= i < |r| ensures FromFirst(c, hits, r[i]) {
      FromLonger(c, hits, r[i]);
    }
  }

  lemma CoversLonger(c: Catalog, hits: Rows, r: Rows, more: Rows)
    requires hits != [] && CoversHits(c, hits[..|hits| - 1], r) && Docids(r) <= Docids(more)
    requires hits[|hits| - 1].docid != -1 ==> c.docOf(hits[|hits| - 1].docid) in Docids(more)
    ensures CoversHits(c, hits, more)
  {
    hide Docids;
    var front := hits[..|hits| - 1];
    assert forall j :: 0 <= j < |front| ==> hits[j] == front[j];
  }

  lemma DistinctMore(rest: Rows, r: Row)
    requires DistinctDocs(rest) && r.docid !in Docids(rest)
    ensures DistinctDocs(rest + [r])
  {
    forall i | 0 <= i < |rest| ensures rest[i].docid in Docids(rest) {
    }
  }

  /** No document twice, every document that was hit is there, and with its first hit. */
  lemma {:induction false} FirstsMeaning(c: Catalog, hits: Rows)
    ensures |Firsts(c, hits)| <= |hits| && DistinctDocs(Firsts(c, hits))
    ensures CoversHits(c, hits, Firsts(c, hits)) && OnlyFirsts(c, hits, Firsts(c, hits))
    decreases |hits|
  {
    if hits != [] {
      var front, last := hits[..|hits| - 1], hits[|hits| - 1];
      FirstsMeaning(c, front);
      var rest := Firsts(c, front);
      OnlyLonger(c, hits, rest);
      if last.docid == -1 || c.docOf(last.docid) in Docids(rest) {
        hide Docids, DistinctDocs, FromFirst;
        CoversLonger(c, hits, rest, rest);
      } else {
        hide Docids, DistinctDocs, FromFirst, IsFirst;
        var r := rest + [Named(c, last)];
        LastIsFirst(c, hits, rest);
        FromLast(c, hits);
        DocidsAppend(rest, Named(c, last));
        DistinctMore(rest, Named(c, last));
        CoversLonger(c, hits, rest, r);
      }
    }
  }

  /** Row r is the first hit of its document. */
  ghost predicate FromFirst(c: Catalog, hits: Rows, r: Row) {
    exists j: nat :: IsFirst(c, hits, j) && r == Named(c, hits[j])
  }

  lemma FromLonger(c: Catalog, hits: Rows, r: Row)
    requires hits != [] && FromFirst(c, hits[..|hits| - 1], r)
    ensures FromFirst(c, hits, r)
  {
    hide Named;
    var front := hits[..|hits| - 1];
    var j: nat :| IsFirst(c, front, j) && r == Named(c, front[j]);
    assert IsFirst(c, hits, j) && front[j] == hits[j];
  }

  lemma FromLast(c: Catalog, hits: Rows)
    requires hits != [] && IsFirst(c, hits, |hits| - 1)
    ensures FromFirst(c, hits, Named(c, hits[|hits| - 1]))
  {
  }

  lemma LastIsFirst(c: Catalog, hits: Rows, rest: Rows)
    requires hits != [] && hits[|hits| - 1].docid != -1 && c.docOf(hits[|hits| - 1].docid) !in Docids(rest)
    requires CoversHits(c, hits[..|hits| - 1], rest)
    ensures IsFirst(c, hits, |hits| - 1)
  {
    hide Docids;
    var front := hits[..|hits| - 1];
    assert forall j :: 0 <= j < |front| ==> hits[j] == front[j];
  }

  /** After the first j hits of the slots from base on, pos of them are kept at the front. */
  ghost predicate Packing(c: Catalog, rows: Rows, v: Rows, base: nat, j: nat, pos: nat, seen: set<nat>) {
    && |v| == |rows| && pos <= j && base + j <= |rows|
    && v[..base] == rows[..base] && v[base + j..] == rows[base + j..]
    && Firsts(c, rows[base..base + j]) == v[base..base + pos]
    && forall d: nat :: d in seen <==> d in Docids(v[base..base + pos])
  }

  lemma NotYet(c: Catalog, rows: Rows, base: nat)
    requires base <= |rows|
    ensures Packing(c, rows, rows, base, 0, 0, {})
  {
    assert rows[base..base] == [];
  }

  lemma PackStep(c: Catalog, rows: Rows, v: Rows, base: nat, j: nat, pos: nat, seen: set<nat>)
    requires Packing(c, rows, v, base, j, pos, seen) && base + j < |rows|
    ensures v[base + j] == rows[base + j]
    ensures var r := v[base + j];
            if r.docid == -1 || c.docOf(r.docid) in seen then Packing(c, rows, v, base, j + 1, pos, seen)
            else Packing(c, rows, v[base + pos := Named(c, r)], base, j + 1, pos + 1, seen + {c.docOf(r.docid)})
  {
    hide Docids;
    var r, kept := rows[base + j], v[base..base + pos];
    assert v[base + j] == v[base + j..][0] && r == rows[base + j..][0];
    assert v[base + j + 1..] == v[base + j..][1..] && rows[base + j + 1..] == rows[base + j..][1..];
    var s := rows[base..base + j + 1];
    assert s[..|s| - 1] == rows[base..base + j] && s[|s| - 1] == r;
    if r.docid != -1 && c.docOf(r.docid) !in seen {
      var w := v[base + pos := Named(c, r)];
      assert w[..base] == v[..base] && w[base + j + 1..] == v[base + j + 1..];
      assert w[base..base + pos + 1] == kept + [Named(c, r)];
      DocidsAppend(kept, Named(c, r));
    }
  }

  class VectorResult {
    const n: nat
    const topn: nat
    const docids: array<int>
    const dists: array<real>
    const sources: array<nat>
    const sourceLens: array<nat>

    ghost predicate Shaped()
      reads this
    {
      && docids.Length == dists.Length == sources.Length == sourceLens.Length == n * topn
      && sources != sourceLens
    }

    /** The rows the four arrays hold. */
    ghost function View(): (r: Rows)
      reads this, docids, dists, sources, sourceLens
      requires Shaped()
      ensures |r| == docids.Length
      ensures forall i :: 0 <= i < |r| ==> r[i] == Row(docids[i], dists[i], sources[i], sourceLens[i])
    {
      seq(docids.Length,
          i requires 0 <= i < docids.Length && Shaped() reads this, docids, dists, sources, sourceLens =>
            Row(docids[i], dists[i], sources[i], sourceLens[i]))
    }

    /** Every slot empty, as init leaves it. */
    constructor (n: nat, topn: nat)
      ensures Shaped() && this.n == n && this.topn == topn
      ensures fresh(docids) && fresh(dists) && fresh(sources) && fresh(sourceLens)
      ensures forall i :: 0 <= i < |View()| ==> View()[i].docid == -1
    {
      this.n, this.topn := n, topn;
      docids := new int[n * topn](_ => -1);
      dists := new real[n * topn](_ => 0.0);
      sources := new nat[n * topn](_ => 0);
      sourceLens := new nat[n * topn](_ => 0);
    }

    method PutRow(i: nat, r: Row)
      requires Shaped() && i < docids.Length
      modifies docids, dists, sources, sourceLens
      ensures View() == old(View())[i := r]
    {
      docids[i], dists[i], sources[i], sourceLens[i] := r.docid, r.dist, r.source, r.sourceLen;
    }

    method EmptySlot(i: nat)
      requires Shaped() && i < docids.Length
      modifies docids, dists
      ensures View() == old(View())[i := old(View())[i].(docid := -1, dist := -1.0)]
    {
      docids[i], dists[i] := -1, -1.0;
    }

    method GetRow(i: nat) returns (r: Row)
      requires Shaped() && i < docids.Length
      ensures r == View()[i]
    {
      r := Row(docids[i], dists[i], sources[i], sourceLens[i]);
    }

    method MoveRow(dst: nat, src: nat)
      requires Shaped() && dst < docids.Length && src < docids.Length
      modifies docids, dists, sources, sourceLens
      ensures View() == old(View())[dst := old(View())[src]]
    {
      docids[dst], dists[dst] := docids[src], dists[src];
      sources[dst], sourceLens[dst] := sources[src], sourceLens[src];
    }

    /** parse_index_search_result for the slots from base on: the kept hits move to the front,
        never past the slot being read, and the rest are emptied. */
    method Dedup(c: Catalog, base: nat) returns (pos: nat)
      requires Shaped() && base + topn <= docids.Length
      modifies docids, dists, sources, sourceLens
      ensures |View()| == |old(View())| && pos <= topn
      ensures Firsts(c, old(View())[base..base + topn]) == View()[base..base + pos]
      ensures forall i :: base + pos <= i < base + topn ==> View()[i].docid == -1
      ensures View()[..base] == old(View())[..base] && View()[base + topn..] == old(View())[base + topn..]
    {
      hide Firsts;
      pos := Pack(c, base);
      ghost var packed := View();
      var p := pos;
      while p < topn
        invariant pos <= p <= topn && |View()| == |packed|
        invariant View()[..base + pos] == packed[..base + pos] && View()[base + topn..] == packed[base + topn..]
        invariant forall i :: base + pos <= i < base + p ==> View()[i].docid == -1
      {
        EmptySlot(base + p);
        p := p + 1;
      }
      Emptied(packed, View(), base, pos);
    }

    method Pack(c: Catalog, base: nat) returns (pos: nat)
      requires Shaped() && base + topn <= docids.Length
      modifies docids, dists, sources, sourceLens
      ensures |View()| == |old(View())| && pos <= topn
      ensures Firsts(c, old(View())[base..base + topn]) == View()[base..base + pos]
      ensures View()[..base] == old(View())[..base] && View()[base + topn..] == old(View())[base + topn..]
    {
      hide Packing;
      ghost var rows := View();
      var seen: set<nat> := {};
      pos := 0;
      NotYet(c, rows, base);
      for j := 0 to topn
        invariant |View()| == |rows| && pos <= j && Packing(c, rows, View(), base, j, pos, seen)
      {
        PackStep(c, rows, View(), base, j, pos, seen);
        var r := GetRow(base + j);
        if r.docid != -1 {
          if c.docOf(r.docid) !in seen {
            PutRow(base + pos, Named(c, r));
            seen := seen + {c.docOf(r.docid)};
            pos := pos + 1;
          }
        }
      }
      PackedAll(c, rows, View(), base, topn, pos, seen);
    }

    /** The scan from the right: rows not below the pivot stay. */
    method ScanDown(low: nat, high: nat, last: nat, pivot: int) returns (h: nat)
      requires Shaped() && low <= high <= last < docids.Length && Over(View(), high + 1, last + 1, pivot)
      ensures low <= h <= high && Over(View(), h + 1, last + 1, pivot)
      ensures low < h ==> View()[h].docid < pivot
    {
      h := high;
      while low < h && docids[h] >= pivot
        invariant low <= h <= high && Over(View(), h + 1, last + 1, pivot)
      {
        h := h - 1;
      }
    }

    method ScanUp(first: nat, low: nat, high: nat, pivot: int) returns (l: nat)
      requires Shaped() && first <= low <= high < docids.Length && Below(View(), first, low, pivot)
      ensures low <= l <= high && Below(View(), first, l, pivot)
      ensures l < high ==> View()[l].docid > pivot
    {
      l := low;
      while l < high && docids[l] <= pivot
        invariant low <= l <= high && Below(View(), first, l, pivot)
      {
        l := l + 1;
      }
    }

    /** One turn of the loop: a smaller row fills the hole at low, a greater one the hole at high. */
    method Turn(first: nat, low0: nat, high0: nat, last: nat, p: Row, ghost rows: Rows) returns (low: nat, high: nat)
      requires Shaped() && first <= low0 < high0 <= last < docids.Length
      requires Hole(rows, View(), low0, p, first, last + 1)
      requires Below(View(), first, low0, p.docid) && Over(View(), high0 + 1, last + 1, p.docid)
      modifies docids, dists, sources, sourceLens
      ensures low0 <= low <= high <= high0 && high - low < high0 - low0
      ensures Hole(rows, View(), low, p, first, last + 1)
      ensures Below(View(), first, low, p.docid) && Over(View(), high + 1, last + 1, p.docid)
    {
      hide Hole;
      high := ScanDown(low0, high0, last, p.docid);
      HoleMoves(rows, View(), low0, high, p, first, last + 1);
      FilledLow(View(), first, low0, high, last, p.docid);
      MoveRow(low0, high);
      low := ScanUp(first, low0, high, p.docid);
      HoleMoves(rows, View(), high, low, p, first, last + 1);
      FilledHigh(View(), first, low, high, last, p.docid);
      MoveRow(high, low);
    }

    method Partition(first: nat, last: nat) returns (m: nat)
      requires Shaped() && first < last < docids.Length
      modifies docids, dists, sources, sourceLens
      ensures first <= m <= last && Permuted(old(View()), View(), first, last + 1)
      ensures Below(View(), first, m, View()[m].docid) && Over(View(), m + 1, last + 1, View()[m].docid)
    {
      hide Hole;
      var low, high := first, last;
      var p := GetRow(low);
      ghost var rows := View();
      FirstHole(rows, low, first, last + 1);
      while low < high
        invariant first <= low <= high <= last
        invariant Hole(rows, View(), low, p, first, last + 1)
        invariant Below(View(), first, low, p.docid) && Over(View(), high + 1, last + 1, p.docid)
        decreases high - low
      {
        low, high := Turn(first, low, high, last, p, rows);
      }
      LastHole(rows, View(), low, p, first, last + 1);
      PutRow(low, p);
      m := low;
    }

    method QuickSort(low: int, high: int)
      requires Shaped() && 0 <= low <= high + 1 && high < docids.Length
      modifies docids, dists, sources, sourceLens
      ensures Permuted(old(View()), View(), low, high + 1) && SortedIn(View(), low, high + 1)
      decreases high - low + 1
    {
      hide Permuted;
      ghost var r0 := View();
      SelfPermuted(r0, low, high + 1);
      if low < high {
        var m: int := Partition(low, high);
        ghost var r1 := View();
        QuickSort(low, m - 1);
        ghost var r2 := View();
        QuickSort(m + 1, high);
        SortedAround(r0, r1, r2, View(), low, m, high + 1);
      }
    }

    /** Each request's rows are sorted by document id, all four arrays together. */
    method SortByDocid()
      requires Shaped()
      modifies docids, dists, sources, sourceLens
      ensures forall i :: 0 <= i < n ==> SliceSorted(old(View()), View(), i * topn, i * topn + topn)
    {
      hide SlicesTo, Permuted, SortedIn;
      ghost var rows := View();
      var base := 0;
      NoSlices(rows, topn);
      for i := 0 to n
        invariant base == i * topn && SlicesTo(rows, View(), i, topn)
      {
        SliceFits(i, n, topn);
        ghost var before := View();
        QuickSort(base, base + topn - 1);
        SlicesNext(rows, before, View(), i, topn);
        base := base + topn;
      }
      SlicesAll(rows, View(), n, topn);
    }
  }

  /** The slots [lo, hi) hold the same rows, sorted. */
  ghost predicate SliceSorted(a: Rows, b: Rows, lo: nat, hi: nat) {
    && |a| == |b| && lo <= hi <= |a| && SortedIn(b, lo, hi)
    && multiset(a[lo..hi]) == multiset(b[lo..hi])
  }

  /** The first `i` slices are sorted, and the rest is as it was. */
  ghost predicate SlicesTo(rows: Rows, v: Rows, i: nat, topn: nat) {
    && |v| == |rows| && i * topn <= |rows| && v[i * topn..] == rows[i * topn..]
    && forall j :: 0 <= j < i ==> SliceAt(rows, v, j, topn)
  }

  ghost predicate SliceAt(rows: Rows, v: Rows, j: nat, topn: nat) {
    SliceSorted(rows, v, j * topn, j * topn + topn)
  }

  lemma NoSlices(rows: Rows, topn: nat)
    ensures SlicesTo(rows, rows, 0, topn)
  {
    assert 0 * topn == 0;
  }

  lemma SlicesAll(rows: Rows, v: Rows, n: nat, topn: nat)
    requires SlicesTo(rows, v, n, topn)
    ensures forall i :: 0 <= i < n ==> SliceSorted(rows, v, i * topn, i * topn + topn)
  {
    hide SliceSorted;
    forall i | 0 <= i < n ensures SliceSorted(rows, v, i * topn, i * topn + topn) {
      assert SliceAt(rows, v, i, topn);
    }
  }

  lemma SlicesNext(rows: Rows, before: Rows, after: Rows, i: nat, topn: nat)
    requires SlicesTo(rows, before, i, topn) && i * topn + topn <= |rows|
    requires Permuted(before, after, i * topn, i * topn + topn) && SortedIn(after, i * topn, i * topn + topn)
    ensures SlicesTo(rows, after, i + 1, topn)
  {
    hide SliceSorted, Permuted, SortedIn;
    var base := i * topn;
    SliceFits(i, i + 1, topn);
    SliceDone(rows, before, after, base, base + topn);
    forall j | 0 <= j < i + 1 ensures SliceAt(rows, after, j, topn) {
      if j < i {
        assert SliceAt(rows, before, j, topn);
        SliceFits(j, i, topn);
        SliceKept(rows, before, after, j * topn, j * topn + topn, base, base + topn);
      }
    }
    hide SliceAt;
    assert |after| == |rows| by { SliceLength(rows, after, i, topn); }
  }

  lemma SliceLength(rows: Rows, v: Rows, j: nat, topn: nat)
    requires SliceAt(rows, v, j, topn)
    ensures |v| == |rows|
  {
  }

  lemma SliceFits(i: nat, n: nat, topn: nat)
    requires i < n
    ensures i * topn + topn <= n * topn && (i + 1) * topn == i * topn + topn
  {
    assert (i + 1) * topn <= n * topn;
  }

  lemma SliceDone(rows: Rows, before: Rows, after: Rows, lo: nat, hi: nat)
    requires |before| == |rows| && lo <= hi <= |rows| && before[lo..] == rows[lo..]
    requires Permuted(before, after, lo, hi) && SortedIn(after, lo, hi)
    ensures SliceSorted(rows, after, lo, hi) && after[hi..] == rows[hi..]
  {
    assert rows[lo..hi] == rows[lo..][..hi - lo] && before[lo..hi] == before[lo..][..hi - lo];
    assert rows[hi..] == rows[lo..][hi - lo..] && before[hi..] == before[lo..][hi - lo..];
  }

  lemma SliceKept(rows: Rows, before: Rows, after: Rows, lo: nat, hi: nat, x: nat, y: nat)
    requires SliceSorted(rows, before, lo, hi) && Permuted(before, after, x, y) && hi <= x
    ensures SliceSorted(rows, after, lo, hi)
  {
    assert before[lo..hi] == before[..x][lo..hi] && after[lo..hi] == after[..x][lo..hi];
    forall i | lo <= i < hi ensures after[i] == before[i] {
      Outside(before, after, x, y, i);
    }
  }

  lemma PackedAll(c: Catalog, rows: Rows, v: Rows, base: nat, j: nat, pos: nat, seen: set<nat>)
    requires Packing(c, rows, v, base, j, pos, seen)
    ensures |v| == |rows| && pos <= j && base + j <= |rows|
    ensures v[..base] == rows[..base] && v[base + j..] == rows[base + j..]
    ensures Firsts(c, rows[base..base + j]) == v[base..base + pos]
  {
  }

  lemma Emptied(packed: Rows, v: Rows, base: nat, pos: nat)
    requires base + pos <= |v| == |packed| && v[..base + pos] == packed[..base + pos]
    ensures v[base..base + pos] == packed[base..base + pos] && v[..base] == packed[..base]
  {
    assert v[base..base + pos] == v[..base + pos][base..] && packed[base..base + pos] == packed[..base + pos][base..];
    assert v[..base] == v[..base + pos][..base] && packed[..base] == packed[..base + pos][..base];
  }

  lemma SelfPermuted(a: Rows, lo: nat, hi: nat)
    requires lo <= hi <= |a|
    ensures Permuted(a, a, lo, hi)
  {
  }

  lemma SortedAround(r0: Rows, r1: Rows, r2: Rows, r3: Rows, lo: nat, m: nat, hi: nat)
    requires lo <= m < hi <= |r0| && Permuted(r0, r1, lo, hi)
    requires Below(r1, lo, m, r1[m].docid) && Over(r1, m + 1, hi, r1[m].docid)
    requires Permuted(r1, r2, lo, m) && SortedIn(r2, lo, m)
    requires Permuted(r2, r3, m + 1, hi) && SortedIn(r3, m + 1, hi)
    ensures Permuted(r0, r3, lo, hi) && SortedIn(r3, lo, hi)
  {
    hide Permuted;
    PermutedSizes(r0, r1, lo, hi);
    PermutedSizes(r1, r2, lo, m);
    PermutedSizes(r2, r3, m + 1, hi);
    PermutedPart(r1, r2, lo, hi, lo, m);
    PermutedPart(r2, r3, lo, hi, m + 1, hi);
    PermutedTrans(r0, r1, r2, lo, hi);
    PermutedTrans(r0, r2, r3, lo, hi);
    PermutedBounds(r1, r2, lo, m, r1[m].docid);
    forall i | m <= i < hi ensures r2[i] == r1[i] {
      Outside(r1, r2, lo, m, i);
    }
    PermutedBounds(r2, r3, m + 1, hi, r1[m].docid);
    forall i | lo <= i <= m ensures r3[i] == r2[i] {
      Outside(r2, r3, m + 1, hi, i);
    }
    Joined(r3, lo, m, hi);
  }

  lemma PermutedSizes(a: Rows, b: Rows, lo: nat, hi: nat)
    requires Permuted(a, b, lo, hi)
    ensures |a| == |b| && lo <= hi <= |a|
  {
  }
}
