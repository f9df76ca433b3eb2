/** Merging the hits of several vector fields: the documents that every field returned, found
    by leaping over the sorted lists in turn, with a count carried from list to list. */
module VectorMerge {
  import opened VectorResults

  const INT_MAX: int := 0x7FFF_FFFF

  datatype Boost = NoBoost | BoostBy(factor: real)

  datatype Hit = Hit(score: real, source: nat, sourceLen: nat)

  datatype Doc = Doc(docid: int, score: real, fields: seq<Hit>)

  /** Empty slots (-1) first, then documents in ascending order, none twice. */
  ghost predicate Ready(rows: Rows) {
    && (forall i :: 0 <= i < |rows| ==> -1 <= rows[i].docid < INT_MAX)
    && (forall i, j :: 0 <= i < j < |rows| ==> rows[i].docid <= rows[j].docid)
    && (forall i, j :: 0 <= i < j < |rows| && rows[i].docid == rows[j].docid ==> rows[i].docid == -1)
  }

  ghost predicate AllReady(lists: seq<Rows>, topn: nat) {
    forall j :: 0 <= j < |lists| ==> Ready(lists[j]) && |lists[j]| == topn
  }

  ghost predicate In(rows: Rows, d: int) {
    exists i :: 0 <= i < |rows| && rows[i].docid == d
  }

  ghost predicate InAll(lists: seq<Rows>, d: int) {
    d >= 0 && forall j :: 0 <= j < |lists| ==> In(lists[j], d)
  }

  function FieldScore(dist: real, b: Boost): real {
    match b
    case BoostBy(f) => dist * f
    case NoBoost => dist
  }

  function HitOf(r: Row, b: Boost): Hit {
    Hit(FieldScore(r.dist, b), r.source, r.sourceLen)
  }

  /** The score of a hit is its distance, times the boost of the field if it has one. */
  ghost predicate IsHitOf(r: Row, b: Boost, h: Hit) {
    && h.score == (if b.BoostBy? then r.dist * b.factor else r.dist)
    && h.source == r.source && h.sourceLen == r.sourceLen
  }

  /** The hit of document d in the list. */
  ghost predicate IsHit(rows: Rows, b: Boost, d: int, h: Hit) {
    exists i :: 0 <= i < |rows| && rows[i].docid == d && IsHitOf(rows[i], b, h)
  }

  ghost function HitFor(rows: Rows, b: Boost, d: int): (h: Hit)
    requires In(rows, d)
    ensures IsHit(rows, b, d, h)
  {
    var i :| 0 <= i < |rows| && rows[i].docid == d;
    HitOf(rows[i], b)
  }

  lemma OneHit(rows: Rows, b: Boost, d: int, i: nat)
    requires Ready(rows) && i < |rows| && rows[i].docid == d && d >= 0
    ensures In(rows, d) && HitFor(rows, b, d) == HitOf(rows[i], b)
  {
    var k :| 0 <= k < |rows| && rows[k].docid == d && HitFor(rows, b, d) == HitOf(rows[k], b);
    assert k == i;
  }

  // ---- seek ----

  /** idx: every row before the cursor is behind docid; -1 when no row is left. */
  ghost predicate Cursor(rows: Rows, c: int, docid: int) {
    && -1 <= c <= |rows|
    && (c == -1 ==> forall i :: 0 <= i < |rows| ==> rows[i].docid < docid)
    && forall i :: 0 <= i < c ==> rows[i].docid < docid
  }

  method Seek(rows: Rows, cursor: int, docid: int) returns (cur: int, c: int)
    requires Cursor(rows, cursor, docid) && docid >= 0
    ensures Cursor(rows, c, docid)
    ensures cur == -1 ==> forall i :: 0 <= i < |rows| ==> rows[i].docid < docid
    ensures cur != -1 ==> 0 <= c < |rows| && cur == rows[c].docid >= docid
  {
    if cursor == -1 {
      return -1, -1;
    }
    for i := cursor to |rows|
      invariant forall k :: 0 <= k < i ==> rows[k].docid < docid
    {
      if rows[i].docid >= docid {
        return rows[i].docid, i;
      }
    }
    return -1, -1;
  }

  lemma CursorLater(rows: Rows, c: int, a: int, b: int)
    requires Cursor(rows, c, a) && a <= b
    ensures Cursor(rows, c, b)
  {
  }

  // ---- The score of a document ----

  ghost function ScoreIn(lists: seq<Rows>, boosts: seq<Boost>, d: int, j: nat): real
    requires j < |lists| == |boosts|
  {
    if In(lists[j], d) then HitFor(lists[j], boosts[j], d).score else 0.0
  }

  /** The field scores of the lists below n that belong to w. */
  ghost function SumOver(lists: seq<Rows>, boosts: seq<Boost>, d: int, n: nat, w: set<nat>): real
    requires n <= |lists| == |boosts|
  {
    if n == 0 then 0.0
    else SumOver(lists, boosts, d, n - 1, w) + if n - 1 in w then ScoreIn(lists, boosts, d, n - 1) else 0.0
  }

  ghost function Everyone(n: nat): (r: set<nat>)
    ensures forall x: nat :: x in r <==> x < n
  {
    if n == 0 then {} else Everyone(n - 1) + {n - 1}
  }

  ghost function Total(lists: seq<Rows>, boosts: seq<Boost>, d: int): real
    requires |lists| == |boosts|
  {
    SumOver(lists, boosts, d, |lists|, Everyone(|lists|))
  }

  lemma {:induction false} SumNone(lists: seq<Rows>, boosts: seq<Boost>, d: int, n: nat)
    requires n <= |lists| == |boosts|
    ensures SumOver(lists, boosts, d, n, {}) == 0.0
  {
    if n > 0 {
      SumNone(lists, boosts, d, n - 1);
    }
  }

  lemma {:induction false} SumSame(lists: seq<Rows>, boosts: seq<Boost>, d: int, n: nat, w: set<nat>, x: nat)
    requires n <= |lists| == |boosts| && n <= x
    ensures SumOver(lists, boosts, d, n, w + {x}) == SumOver(lists, boosts, d, n, w)
  {
    if n > 0 {
      SumSame(lists, boosts, d, n - 1, w, x);
    }
  }

  lemma {:induction false} SumMore(lists: seq<Rows>, boosts: seq<Boost>, d: int, n: nat, w: set<nat>, x: nat)
    requires x < n <= |lists| == |boosts| && x !in w
    ensures SumOver(lists, boosts, d, n, w + {x}) == SumOver(lists, boosts, d, n, w) + ScoreIn(lists, boosts, d, x)
  {
    if x < n - 1 {
      SumMore(lists, boosts, d, n - 1, w, x);
    } else {
      SumSame(lists, boosts, d, n - 1, w, x);
    }
  }

  // ---- The lists matched in a row ----

  /** The count lists before list j, going round. */
  ghost function Window(j: nat, count: nat, v: nat): set<nat> {
    set x | x in Everyone(v) && (j - count <= x < j || v + j - count <= x)
  }

  lemma WindowGrows(j: nat, count: nat, v: nat)
    requires j < v && count < v
    ensures j !in Window(j, count, v) && Window(j + 1, count + 1, v) == Window(j, count, v) + {j}
    ensures count + 1 == v ==> Window(j + 1, count + 1, v) == Everyone(v)
  {
  }

  lemma WindowTurns(count: nat, v: nat)
    requires count < v
    ensures Window(v, count, v) == Window(0, count, v)
  {
  }

  lemma WindowEmpty(j: nat, v: nat)
    requires j <= v
    ensures Window(j, 0, v) == {}
  {
  }

  // ---- The loop ----

  /** start_docid, common_docid_count, score, the cursors, and the documents so far. */
  datatype State = State(start: int, count: nat, score: real, cursors: seq<int>, docs: seq<Doc>, done: nat)

  ghost predicate Complete(lists: seq<Rows>, boosts: seq<Boost>, doc: Doc)
    requires |lists| == |boosts|
  {
    && InAll(lists, doc.docid)
    && doc.score == Total(lists, boosts, doc.docid)
    && |doc.fields| == |lists|
    && forall j :: 0 <= j < |lists| ==> doc.fields[j] == HitFor(lists[j], boosts[j], doc.docid)
  }

  /** The first done documents are exactly the common ones below start, ascending. */
  ghost predicate Emitted(lists: seq<Rows>, boosts: seq<Boost>, docs: seq<Doc>, done: nat, start: int)
    requires |lists| == |boosts|
  {
    && done <= |docs|
    && (forall k :: 0 <= k < done ==> Complete(lists, boosts, docs[k]) && docs[k].docid < start)
    && (forall k, l :: 0 <= k < l < done ==> docs[k].docid < docs[l].docid)
    && (forall d: int :: InAll(lists, d) && d < start ==> Has(docs, done, d))
  }

  ghost predicate Has(docs: seq<Doc>, done: nat, d: int) {
    exists k :: 0 <= k < done && k < |docs| && docs[k].docid == d
  }

  ghost predicate Cursors(lists: seq<Rows>, cursors: seq<int>, start: int) {
    |cursors| == |lists| && forall j :: 0 <= j < |lists| ==> Cursor(lists[j], cursors[j], start)
  }

  /** The lists of the window hold start, and their hits are noted in the next document. */
  ghost predicate Noted(lists: seq<Rows>, boosts: seq<Boost>, s: State, w: set<nat>)
    requires |lists| == |boosts|
  {
    && (forall x :: x in w ==> x < |lists| && In(lists[x], s.start))
    && (w != {} ==> s.done < |s.docs|)
    && (forall x :: x in w ==> x < |s.docs[s.done].fields| &&
                               s.docs[s.done].fields[x] == HitFor(lists[x], boosts[x], s.start))
    && s.score == SumOver(lists, boosts, s.start, |lists|, w)
  }

  ghost predicate Shaped(lists: seq<Rows>, s: State, topn: nat) {
    && 0 <= s.start <= INT_MAX && s.count < |lists| && |s.docs| == topn
    && forall k :: 0 <= k < topn ==> |s.docs[k].fields| == |lists|
  }

  ghost predicate Inv(lists: seq<Rows>, boosts: seq<Boost>, topn: nat, s: State, j: nat)
    requires |lists| == |boosts|
  {
    && Shaped(lists, s, topn) && Cursors(lists, s.cursors, s.start)
    && Emitted(lists, boosts, s.docs, s.done, s.start)
    && Noted(lists, boosts, s, Window(j, s.count, |lists|))
  }

  /** A list that holds start has room for it behind the emitted documents it also holds. */
  lemma {:induction false} Position(rows: Rows, docs: seq<Doc>, done: nat, i: nat)
    requires Ready(rows) && done <= |docs| && i < |rows|
    requires forall k :: 0 <= k < done ==> In(rows, docs[k].docid) && docs[k].docid < rows[i].docid
    requires forall k, l :: 0 <= k < l < done ==> docs[k].docid < docs[l].docid
    ensures done <= i
    decreases done
  {
    if done > 0 {
      var x :| 0 <= x < |rows| && rows[x].docid == docs[done - 1].docid;
      assert x < i;
      Position(rows, docs, done - 1, x);
    }
  }

  /** The next list holds start too. */
  function Note(s: State, j: nat, c: int, h: Hit): State
    requires j < |s.cursors| && s.done < |s.docs| && j < |s.docs[s.done].fields|
  {
    var doc := s.docs[s.done];
    s.(count := s.count + 1, score := s.score + h.score, cursors := s.cursors[j := c],
       docs := s.docs[s.done := doc.(fields := doc.fields[j := h])])
  }

  /** All lists hold start: the document is complete. */
  function Emit(s: State): State
    requires s.done < |s.docs|
  {
    s.(start := s.start + 1, count := 0, score := 0.0, done := s.done + 1,
       docs := s.docs[s.done := s.docs[s.done].(docid := s.start, score := s.score)])
  }

  function Leap(s: State, j: nat, c: int, cur: int): State
    requires j < |s.cursors|
  {
    s.(start := cur, count := 0, score := 0.0, cursors := s.cursors[j := c])
  }

  lemma HasRoom(lists: seq<Rows>, boosts: seq<Boost>, topn: nat, s: State, j: nat, c: nat)
    requires AllReady(lists, topn) && j < |lists| == |boosts| && Emitted(lists, boosts, s.docs, s.done, s.start)
    requires c < topn && lists[j][c].docid == s.start && |s.docs| == topn
    ensures s.done < topn
  {
    hide SumOver, HitFor;
    forall k | 0 <= k < s.done ensures In(lists[j], s.docs[k].docid) {
      assert Complete(lists, boosts, s.docs[k]);
    }
    Position(lists[j], s.docs, s.done, c);
  }

  /** Emitted documents are not those being noted. */
  lemma EmittedKept(lists: seq<Rows>, boosts: seq<Boost>, docs: seq<Doc>, done: nat, start: int, doc: Doc)
    requires |lists| == |boosts| && done < |docs| && Emitted(lists, boosts, docs, done, start)
    ensures Emitted(lists, boosts, docs[done := doc], done, start)
  {
    hide Complete, InAll;
    var e := docs[done := doc];
    forall d: int | InAll(lists, d) && d < start ensures Has(e, done, d) {
      assert Has(docs, done, d);
      var k :| 0 <= k < done && docs[k].docid == d;
      assert e[k].docid == d;
    }
  }

  lemma CursorMoves(lists: seq<Rows>, cursors: seq<int>, start: int, j: nat, c: int, later: int)
    requires Cursors(lists, cursors, start) && j < |lists| && Cursor(lists[j], c, start) && start <= later
    ensures Cursors(lists, cursors[j := c], later)
  {
    hide Cursor;
    var cs := cursors[j := c];
    forall x | 0 <= x < |lists| ensures Cursor(lists[x], cs[x], later) {
      CursorLater(lists[x], cs[x], start, later);
    }
  }

  lemma NoteKeeps(lists: seq<Rows>, boosts: seq<Boost>, topn: nat, s: State, j: nat, c: nat)
    requires AllReady(lists, topn) && j < |lists| == |boosts| && Inv(lists, boosts, topn, s, j)
    requires c < topn && lists[j][c].docid == s.start && Cursor(lists[j], c, s.start)
    ensures s.done < topn
    ensures var t := Note(s, j, c, HitOf(lists[j][c], boosts[j]));
            && Cursors(lists, t.cursors, t.start) && Emitted(lists, boosts, t.docs, t.done, t.start)
            && |t.docs| == topn && (forall k :: 0 <= k < topn ==> |t.docs[k].fields| == |lists|)
            && Noted(lists, boosts, t, Window(j + 1, t.count, |lists|))
  {
    hide Emitted, Cursors, Window, SumOver, Cursor, Ready;
    HasRoom(lists, boosts, topn, s, j, c);
    var w, h, doc := Window(j, s.count, |lists|), HitOf(lists[j][c], boosts[j]), s.docs[s.done];
    OneHit(lists[j], boosts[j], s.start, c);
    WindowGrows(j, s.count, |lists|);
    SumMore(lists, boosts, s.start, |lists|, w, j);
    EmittedKept(lists, boosts, s.docs, s.done, s.start, doc.(fields := doc.fields[j := h]));
    CursorMoves(lists, s.cursors, s.start, j, c, s.start);
  }

  lemma EmitKeeps(lists: seq<Rows>, boosts: seq<Boost>, topn: nat, s: State, j: nat)
    requires |lists| == |boosts| && 0 <= s.start < INT_MAX && s.done < |s.docs| == topn && j <= |lists| && |lists| > 0
    requires forall k :: 0 <= k < topn ==> |s.docs[k].fields| == |lists|
    requires Cursors(lists, s.cursors, s.start) && Emitted(lists, boosts, s.docs, s.done, s.start)
    requires Noted(lists, boosts, s, Everyone(|lists|))
    ensures Inv(lists, boosts, topn, Emit(s), j)
  {
    hide Complete, Emitted, Cursors, SumOver, HitFor, Everyone, In, Window;
    var t := Emit(s);
    var doc := t.docs[s.done];
    NotedComplete(lists, boosts, s, doc);
    EmittedKept(lists, boosts, s.docs, s.done, s.start, doc);
    EmittedMore(lists, boosts, t.docs, s.done, s.start);
    WindowEmpty(j, |lists|);
    SumNone(lists, boosts, t.start, |lists|);
    CursorsLater(lists, s.cursors, s.start, t.start);
  }

  lemma NotedComplete(lists: seq<Rows>, boosts: seq<Boost>, s: State, doc: Doc)
    requires |lists| == |boosts| && 0 <= s.start && s.done < |s.docs| && |s.docs[s.done].fields| == |lists|
    requires Noted(lists, boosts, s, Everyone(|lists|))
    requires doc == s.docs[s.done].(docid := s.start, score := s.score)
    ensures Complete(lists, boosts, doc)
  {
    hide SumOver, HitFor, In;
    forall x | 0 <= x < |lists| ensures In(lists[x], s.start) && doc.fields[x] == HitFor(lists[x], boosts[x], s.start) {
      assert x in Everyone(|lists|);
    }
  }

  lemma CursorsLater(lists: seq<Rows>, cursors: seq<int>, start: int, later: int)
    requires Cursors(lists, cursors, start) && start <= later
    ensures Cursors(lists, cursors, later)
  {
  }

  lemma EmittedMore(lists: seq<Rows>, boosts: seq<Boost>, docs: seq<Doc>, done: nat, start: int)
    requires |lists| == |boosts| && done < |docs| && Emitted(lists, boosts, docs, done, start)
    requires Complete(lists, boosts, docs[done]) && docs[done].docid == start
    ensures Emitted(lists, boosts, docs, done + 1, start + 1)
  {
    hide Complete, InAll;
    forall d: int | InAll(lists, d) && d < start + 1 ensures Has(docs, done + 1, d) {
      if d < start {
        assert Has(docs, done, d);
        var k :| 0 <= k < done && docs[k].docid == d;
        assert docs[k].docid == d;
      } else {
        assert docs[done].docid == d;
      }
    }
  }

  /** Between start and the document leapt to, one list holds nothing. */
  lemma LeapKeeps(lists: seq<Rows>, boosts: seq<Boost>, topn: nat, s: State, j: nat, c: nat)
    requires AllReady(lists, topn) && j < |lists| == |boosts| && Inv(lists, boosts, topn, s, j)
    requires c < topn && lists[j][c].docid > s.start && Cursor(lists[j], c, s.start)
    ensures Inv(lists, boosts, topn, Leap(s, j, c, lists[j][c].docid), j + 1)
  {
    hide SumOver, Complete, Window;
    var cur := lists[j][c].docid;
    forall d: int | InAll(lists, d) && d < cur ensures d < s.start {
      var i :| 0 <= i < |lists[j]| && lists[j][i].docid == d;
      assert Ready(lists[j]);
    }
    CursorMoves(lists, s.cursors, s.start, j, c, cur);
    WindowEmpty(j + 1, |lists|);
    SumNone(lists, boosts, cur, |lists|);
  }

  /** What the merge answers: every common document once, ascending, with the sum of its
      boosted field scores and the hit of each field. */
  ghost predicate Merged(lists: seq<Rows>, boosts: seq<Boost>, docs: seq<Doc>)
    requires |lists| == |boosts|
  {
    && (forall k :: 0 <= k < |docs| ==> Complete(lists, boosts, docs[k]))
    && (forall k, l :: 0 <= k < l < |docs| ==> docs[k].docid < docs[l].docid)
    && (forall d: int :: InAll(lists, d) ==> Has(docs, |docs|, d))
  }

  lemma MergedWhen(lists: seq<Rows>, boosts: seq<Boost>, docs: seq<Doc>, done: nat, start: int)
    requires |lists| == |boosts| && Emitted(lists, boosts, docs, done, start)
    requires forall d: int :: InAll(lists, d) ==> d < start
    ensures Merged(lists, boosts, docs[..done])
  {
    hide Complete, InAll;
    var e := docs[..done];
    forall d: int | InAll(lists, d) ensures Has(e, |e|, d) {
      assert Has(docs, done, d);
      var k :| 0 <= k < done && docs[k].docid == d;
      assert e[k].docid == d;
    }
  }

  lemma NoneLeft(lists: seq<Rows>, j: nat, start: int)
    requires j < |lists| && forall i :: 0 <= i < |lists[j]| ==> lists[j][i].docid < start
    ensures forall d: int :: InAll(lists, d) ==> d < start
  {
    forall d: int | InAll(lists, d) ensures d < start {
      assert In(lists[j], d);
    }
  }

  lemma AllBelowMax(lists: seq<Rows>, topn: nat)
    requires AllReady(lists, topn) && lists != []
    ensures forall d: int :: InAll(lists, d) ==> d < INT_MAX
  {
    assert Ready(lists[0]);
    NoneLeft(lists, 0, INT_MAX);
  }

  lemma InvParts(lists: seq<Rows>, boosts: seq<Boost>, topn: nat, s: State, j: nat)
    requires |lists| == |boosts| && Inv(lists, boosts, topn, s, j)
    ensures Shaped(lists, s, topn) && Cursors(lists, s.cursors, s.start)
    ensures Emitted(lists, boosts, s.docs, s.done, s.start)
  {
  }

  /** Cursors start at the front of a list that holds a document, and at -1 otherwise. */
  ghost predicate FirstCursors(lists: seq<Rows>, cursors: seq<int>) {
    && |cursors| == |lists|
    && forall j :: 0 <= j < |lists| ==>
         if exists i :: 0 <= i < |lists[j]| && lists[j][i].docid >= 0 then cursors[j] == 0 else cursors[j] == -1
  }

  lemma Begin(lists: seq<Rows>, boosts: seq<Boost>, topn: nat, cursors: seq<int>, docs: seq<Doc>)
    requires |lists| == |boosts| && lists != [] && FirstCursors(lists, cursors) && |docs| == topn
    requires forall k :: 0 <= k < topn ==> |docs[k].fields| == |lists|
    ensures Inv(lists, boosts, topn, State(0, 0, 0.0, cursors, docs, 0), 0)
  {
    hide SumOver, Complete;
    WindowEmpty(0, |lists|);
    SumNone(lists, boosts, 0, |lists|);
  }

  /** One seek of the inner loop. */
  method Step(lists: seq<Rows>, boosts: seq<Boost>, topn: nat, s: State, j: nat) returns (t: State, more: bool)
    requires AllReady(lists, topn) && j < |lists| == |boosts| && Inv(lists, boosts, topn, s, j)
    ensures more ==> Inv(lists, boosts, topn, t, j + 1) && t.start >= s.start
    ensures more && t.start == s.start ==> t.count == s.count + 1
    ensures !more ==> t == s && forall d: int :: InAll(lists, d) ==> d < s.start
  {
    hide Inv, Emitted, Noted, Window;
    InvParts(lists, boosts, topn, s, j);
    var cur, c := Seek(lists[j], s.cursors[j], s.start);
    assert Ready(lists[j]);
    if cur == s.start {
      NoteKeeps(lists, boosts, topn, s, j, c);
      t := Note(s, j, c, HitOf(lists[j][c], boosts[j]));
      if t.count == |lists| {
        WindowGrows(j, s.count, |lists|);
        EmitKeeps(lists, boosts, topn, t, j + 1);
        t := Emit(t);
      } else {
        Reassemble(lists, boosts, topn, t, j + 1);
      }
      more := true;
    } else if cur > s.start {
      LeapKeeps(lists, boosts, topn, s, j, c);
      t := Leap(s, j, c, cur);
      more := true;
    } else {
      NoneLeft(lists, j, s.start);
      t, more := s, false;
    }
  }

  lemma Reassemble(lists: seq<Rows>, boosts: seq<Boost>, topn: nat, s: State, j: nat)
    requires |lists| == |boosts| && Shaped(lists, s, topn) && Cursors(lists, s.cursors, s.start)
    requires Emitted(lists, boosts, s.docs, s.done, s.start) && Noted(lists, boosts, s, Window(j, s.count, |lists|))
    ensures Inv(lists, boosts, topn, s, j)
  {
  }

  lemma Round(lists: seq<Rows>, boosts: seq<Boost>, topn: nat, s: State)
    requires |lists| == |boosts| && Inv(lists, boosts, topn, s, |lists|)
    ensures Inv(lists, boosts, topn, s, 0)
  {
    hide Window, SumOver, HitFor, Emitted, Cursors;
    WindowTurns(s.count, |lists|);
  }

  /** The leapfrog loop for one request. It ends, and never touches a document slot past topn. */
  method Merge(lists: seq<Rows>, boosts: seq<Boost>, topn: nat, cursors: seq<int>, slots: seq<Doc>) returns (docs: seq<Doc>)
    requires AllReady(lists, topn) && 0 < |lists| == |boosts| && FirstCursors(lists, cursors)
    requires |slots| == topn && forall k :: 0 <= k < topn ==> |slots[k].fields| == |lists|
    ensures Merged(lists, boosts, docs) && |docs| <= topn
  {
    hide Inv, Merged, Emitted, AllReady, Noted, FirstCursors;
    var s := State(0, 0, 0.0, cursors, slots, 0);
    Begin(lists, boosts, topn, cursors, slots);
    InvParts(lists, boosts, topn, s, 0);
    while s.start < INT_MAX
      invariant Shaped(lists, s, topn) && Inv(lists, boosts, topn, s, 0)
      decreases INT_MAX - s.start
    {
      ghost var start0, count0 := s.start, s.count;
      var j: nat := 0;
      while j < |lists|
        invariant j <= |lists| && Inv(lists, boosts, topn, s, j) && Shaped(lists, s, topn)
        invariant start0 <= s.start && (s.start == start0 ==> s.count == count0 + j)
      {
        var t, more := Step(lists, boosts, topn, s, j);
        if !more {
          InvParts(lists, boosts, topn, s, j);
          MergedWhen(lists, boosts, s.docs, s.done, s.start);
          EmittedSize(lists, boosts, s.docs, s.done, s.start);
          return s.docs[..s.done];
        }
        s := t;
        j := j + 1;
        InvParts(lists, boosts, topn, s, j);
      }
      Round(lists, boosts, topn, s);
    }
    AllBelowMax(lists, topn);
    InvParts(lists, boosts, topn, s, 0);
    MergedWhen(lists, boosts, s.docs, s.done, s.start);
    EmittedSize(lists, boosts, s.docs, s.done, s.start);
    docs := s.docs[..s.done];
  }

  lemma EmittedSize(lists: seq<Rows>, boosts: seq<Boost>, docs: seq<Doc>, done: nat, start: int)
    requires |lists| == |boosts| && Emitted(lists, boosts, docs, done, start)
    ensures done <= |docs|
  {
  }

  // ---- From raw hits to a list ready to merge ----

  lemma {:induction false} Twice(a: Rows, r: Row)
    requires multiset(a)[r] >= 2
    ensures exists i, j :: 0 <= i < j < |a| && a[i] == a[j] == r
    decreases |a|
  {
    var k := |a| - 1;
    assert a == a[..k] + [a[k]];
    if a[k] == r {
      assert r in a[..k];
      var i :| 0 <= i < k && a[..k][i] == r;
      assert a[i] == a[k] == r;
    } else {
      Twice(a[..k], r);
      var i, j :| 0 <= i < j < k && a[..k][i] == a[..k][j] == r;
      assert a[i] == a[j] == r;
    }
  }

  lemma {:induction false} TwoPlaces(a: Rows, i: nat, j: nat)
    requires i < j < |a| && a[i] == a[j]
    ensures multiset(a)[a[i]] >= 2
  {
    assert a == a[..j] + a[j..];
    assert a[i] in a[..j] && a[i] in a[j..] by {
      assert a[..j][i] == a[i] && a[j..][0] == a[i];
    }
  }

  ghost predicate Different(a: Rows) {
    forall i, j :: 0 <= i < j < |a| && a[i].docid == a[j].docid ==> a[i].docid == -1
  }

  /** Sorting keeps documents different. */
  lemma SortedReady(a: Rows, b: Rows)
    requires multiset(a) == multiset(b) && Different(a) && SortedIn(b, 0, |b|)
    requires forall i :: 0 <= i < |a| ==> -1 <= a[i].docid < INT_MAX
    ensures Ready(b) && forall r :: r in b <==> r in a
  {
    assert forall r :: r in b <==> r in multiset(b);
    assert forall r :: r in a <==> r in multiset(a);
    forall i | 0 <= i < |b| ensures -1 <= b[i].docid < INT_MAX {
      assert b[i] in a;
    }
    forall i, j | 0 <= i < j < |b| && b[i].docid == b[j].docid ensures b[i].docid == -1 {
      if b[i] == b[j] {
        TwoPlaces(b, i, j);
        Twice(a, b[i]);
      } else {
        assert b[i] in a && b[j] in a;
        var x :| 0 <= x < |a| && a[x] == b[i];
        var y :| 0 <= y < |a| && a[y] == b[j];
        assert x != y;
      }
    }
  }

  /** The documents of the hits, from the rows of a list. */
  ghost predicate Lists(c: Catalog, hits: Rows, rows: Rows) {
    && (forall i :: 0 <= i < |rows| && rows[i].docid != -1 ==> FromFirst(c, hits, rows[i]))
    && (forall j :: 0 <= j < |hits| && hits[j].docid != -1 ==> In(rows, c.docOf(hits[j].docid)))
  }

  lemma PackedLists(c: Catalog, hits: Rows, a: Rows, pos: nat)
    requires pos <= |a| && a[..pos] == Firsts(c, hits) && forall i :: pos <= i < |a| ==> a[i].docid == -1
    requires forall v :: c.docOf(v) < INT_MAX
    ensures Different(a) && Lists(c, hits, a) && forall i :: 0 <= i < |a| ==> -1 <= a[i].docid < INT_MAX
  {
    hide Firsts;
    FirstsMeaning(c, hits);
    var f := Firsts(c, hits);
    assert forall i :: 0 <= i < pos ==> a[i] == f[i];
    forall j | 0 <= j < |hits| && hits[j].docid != -1 ensures In(a, c.docOf(hits[j].docid)) {
      var i :| 0 <= i < |f| && f[i].docid == c.docOf(hits[j].docid);
      assert a[i].docid == c.docOf(hits[j].docid);
    }
  }

  lemma SortedLists(c: Catalog, hits: Rows, a: Rows, b: Rows)
    requires Lists(c, hits, a) && forall r :: r in b <==> r in a
    ensures Lists(c, hits, b)
  {
    hide FromFirst;
    forall i | 0 <= i < |b| && b[i].docid != -1 ensures FromFirst(c, hits, b[i]) {
      assert b[i] in a;
    }
    forall j | 0 <= j < |hits| && hits[j].docid != -1 ensures In(b, c.docOf(hits[j].docid)) {
      var i :| 0 <= i < |a| && a[i].docid == c.docOf(hits[j].docid);
      assert a[i] in b;
    }
  }

  /** Deduplicating and sorting one request's slots makes a list ready to merge that holds
      exactly the documents hit, each with its first hit. */
  method Prepare(v: VectorResult, c: Catalog, base: nat) returns (rows: Rows, cursor: int)
    requires v.Shaped() && base + v.topn <= v.docids.Length && forall x :: c.docOf(x) < INT_MAX
    modifies v.docids, v.dists, v.sources, v.sourceLens
    ensures |v.View()| == |old(v.View())| && rows == v.View()[base..base + v.topn]
    ensures Ready(rows) && Lists(c, old(v.View())[base..base + v.topn], rows)
    ensures cursor == if exists i :: 0 <= i < |rows| && rows[i].docid >= 0 then 0 else -1
  {
    hide Ready, Lists, Firsts, Permuted, SortedIn;
    ghost var v0 := v.View();
    var pos := v.Dedup(c, base);
    ghost var v1 := v.View();
    v.QuickSort(base, base + v.topn - 1);
    Prepared(c, v0, v1, v.View(), base, v.topn, pos);
    rows := ReadRows(v, base);
    cursor := if pos > 0 then 0 else -1;
  }

  lemma Prepared(c: Catalog, v0: Rows, v1: Rows, v2: Rows, base: nat, topn: nat, pos: nat)
    requires pos <= topn && base + topn <= |v0| == |v1| && forall x :: c.docOf(x) < INT_MAX
    requires Firsts(c, v0[base..base + topn]) == v1[base..base + pos]
    requires forall i :: base + pos <= i < base + topn ==> v1[i].docid == -1
    requires Permuted(v1, v2, base, base + topn) && SortedIn(v2, base, base + topn)
    ensures var rows := v2[base..base + topn];
            && Ready(rows) && Lists(c, v0[base..base + topn], rows)
            && (pos > 0 <==> exists i :: 0 <= i < |rows| && rows[i].docid >= 0)
  {
    hide Ready, Lists, Firsts, Different;
    var hits, a, b := v0[base..base + topn], v1[base..base + topn], v2[base..base + topn];
    assert a[..pos] == v1[base..base + pos];
    PackedLists(c, hits, a, pos);
    SliceSortedIn(v2, base, base + topn);
    SortedReady(a, b);
    SortedLists(c, hits, a, b);
    SomeDoc(c, hits, a, b, pos);
  }

  lemma SliceSortedIn(v: Rows, lo: nat, hi: nat)
    requires lo <= hi <= |v| && SortedIn(v, lo, hi)
    ensures SortedIn(v[lo..hi], 0, hi - lo)
  {
  }

  lemma SomeDoc(c: Catalog, hits: Rows, a: Rows, b: Rows, pos: nat)
    requires pos <= |a| && a[..pos] == Firsts(c, hits) && forall i :: pos <= i < |a| ==> a[i].docid == -1
    requires forall r :: r in b <==> r in a
    ensures pos > 0 <==> exists i :: 0 <= i < |b| && b[i].docid >= 0
  {
    hide Firsts;
    FirstsMeaning(c, hits);
    if pos > 0 {
      assert a[0] == Firsts(c, hits)[0] && a[0] in b;
      var i :| 0 <= i < |b| && b[i] == a[0];
      assert b[i].docid >= 0;
    }
    if i :| 0 <= i < |b| && b[i].docid >= 0 {
      assert b[i] in a;
    }
  }

  method ReadRows(v: VectorResult, base: nat) returns (rows: Rows)
    requires v.Shaped() && base + v.topn <= v.docids.Length
    ensures rows == v.View()[base..base + v.topn]
  {
    rows := [];
    for i := 0 to v.topn
      invariant rows == v.View()[base..base + i]
    {
      var r := v.GetRow(base + i);
      rows := rows + [r];
    }
  }
}
