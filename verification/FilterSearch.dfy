/** Combining the filters of a query: each one is searched in the index of its field, the
    And and Or results are intersected word by word, the Not results are kept beside them. */
module FilterSearch {
  import opened Bitmap
  import opened ByteStrings
  import opened Tags
  import opened RangeIndex
  import opened RangeResult
  import RangeNode

  // ---- Intersection ----

  /** As a search for And or Or leaves a result. */
  ghost predicate Usable(r: Result) {
    Sealed(r) && !r.notIn && r.docNum >= 0 && (r.docNum == 0 ==> Docs(r) == {})
  }

  ghost predicate AllUsable(rs: seq<Result>) {
    forall i :: 0 <= i < |rs| ==> Usable(rs[i])
  }

  ghost predicate InFirst(rs: seq<Result>, n: nat, d: nat)
    requires AllUsable(rs) && n <= |rs|
  {
    forall i :: 0 <= i < n ==> d in Docs(rs[i])
  }

  /** lo is the greatest lower bound of the results and hi the least upper one. */
  ghost predicate Core(rs: seq<Result>, lo: nat, hi: nat, p: nat, q: nat) {
    && p < |rs| && q < |rs| && rs[p].minAligned == lo && rs[q].maxAligned == hi
    && forall i :: 0 <= i < |rs| ==> rs[i].minAligned <= lo && hi <= rs[i].maxAligned
  }

  method CoreOf(rs: seq<Result>) returns (lo: nat, hi: nat, ghost p: nat, ghost q: nat)
    requires rs != []
    ensures Core(rs, lo, hi, p, q)
  {
    lo, hi, p, q := rs[0].minAligned, rs[0].maxAligned, 0, 0;
    for i := 1 to |rs|
      invariant p < i && q < i && rs[p].minAligned == lo && rs[q].maxAligned == hi
      invariant forall j :: 0 <= j < i ==> rs[j].minAligned <= lo && hi <= rs[j].maxAligned
    {
      if rs[i].minAligned > lo {
        lo, p := rs[i].minAligned, i;
      }
      if rs[i].maxAligned < hi {
        hi, q := rs[i].maxAligned, i;
      }
    }
  }

  lemma DocsBounds(r: Result, d: nat)
    requires Sealed(r) && d in Docs(r)
    ensures r.minAligned <= d <= r.maxAligned
  {
  }

  /** The part of a result inside [lo, hi], as the words from the offset on hold it. */
  lemma DocsPart(r: Result, lo: nat, hi: nat, d: nat)
    requires Sealed(r) && r.minAligned <= lo <= hi <= r.maxAligned && lo <= d <= hi
    ensures d in Ids(r.bits, r.minAligned, hi - r.minAligned + 1) <==> d in Docs(r)
  {
  }

  lemma Words(r: Result, lo: nat, hi: nat)
    requires Sealed(r) && r.minAligned <= lo <= hi <= r.maxAligned
    requires lo % OP_LEN == 0 && (hi + 1) % OP_LEN == 0
    ensures WORD * ((lo - r.minAligned) / OP_LEN) * 8 == lo - r.minAligned
    ensures WORD * ((hi - lo + 1) / OP_LEN) * 8 == hi - lo + 1
    ensures WORD * ((lo - r.minAligned) / OP_LEN + (hi - lo + 1) / OP_LEN) <= |r.bits|
  {
    RangeNode.Gap(r.minAligned, lo);
    RangeNode.Gap(lo, hi + 1);
  }

  method CopyPart(bitmap: array<bv8>, r: Result, lo: nat, hi: nat)
    requires Sealed(r) && r.minAligned <= lo <= hi <= r.maxAligned
    requires lo % OP_LEN == 0 && (hi + 1) % OP_LEN == 0
    requires bitmap.Length == ByteCount(hi - lo + 1) && Clear(bitmap[..])
    modifies bitmap
    ensures Ids(bitmap[..], lo, hi - lo + 1) == Bitmap.Between(Docs(r), lo, hi + 1)
  {
    hide Ids, At, Clear, Copied;
    var off, words := (lo - r.minAligned) / OP_LEN, (hi - lo + 1) / OP_LEN;
    Words(r, lo, hi);
    CopyWords(bitmap, 0, r.bits, off, words);
    CopiedIds(old(bitmap[..]), bitmap[..], r.bits, 0, WORD * off, WORD * words, lo, hi - lo + 1, r.minAligned);
    forall d: nat | lo <= d <= hi
      ensures d in Ids(r.bits, r.minAligned, hi - r.minAligned + 1) <==> d in Docs(r)
    {
      DocsPart(r, lo, hi, d);
    }
  }

  /** One result ANDed in; the two loop bounds of either branch come to the same words. */
  method AndPart(bitmap: array<bv8>, r: Result, lo: nat, hi: nat)
    requires Sealed(r) && r.minAligned <= lo <= hi <= r.maxAligned
    requires lo % OP_LEN == 0 && (hi + 1) % OP_LEN == 0
    requires bitmap.Length == ByteCount(hi - lo + 1)
    modifies bitmap
    ensures Ids(bitmap[..], lo, hi - lo + 1) == old(Ids(bitmap[..], lo, hi - lo + 1)) * Docs(r)
  {
    hide Ids, At, Anded;
    var words := if r.maxAligned > hi then (hi - lo + 1) / OP_LEN else (r.maxAligned - lo + 1) / OP_LEN;
    ghost var off := (lo - r.minAligned) / OP_LEN;
    Words(r, lo, hi);
    if r.minAligned < lo {
      AndWords(bitmap, 0, r.bits, (lo - r.minAligned) / OP_LEN, words);
    } else {
      AndWords(bitmap, (r.minAligned - lo) / OP_LEN, r.bits, 0, words);
    }
    AndedIds(old(bitmap[..]), bitmap[..], r.bits, WORD * off, WORD * words, lo, r.minAligned);
    forall d: nat | d in old(Ids(bitmap[..], lo, hi - lo + 1))
      ensures d in Ids(r.bits, r.minAligned, hi - r.minAligned + 1) <==> d in Docs(r)
    {
      IdsBounds(old(bitmap[..]), lo, hi - lo + 1, d);
      DocsPart(r, lo, hi, d);
    }
  }

  lemma IdsBounds(b: Bits, lo: nat, n: nat, d: nat)
    requires d in Ids(b, lo, n)
    ensures lo <= d < lo + n
  {
  }

  /** s holds what is common to the shortest result and the first n, inside [lo, hi]. */
  ghost predicate Common(s: set<nat>, rs: seq<Result>, shortest: nat, n: nat, lo: nat, hi: nat)
    requires AllUsable(rs) && shortest < |rs| && n <= |rs|
  {
    forall d: nat :: d in s <==> lo <= d <= hi && d in Docs(rs[shortest]) && InFirst(rs, n, d)
  }

  lemma CommonFirst(rs: seq<Result>, shortest: nat, lo: nat, hi: nat)
    requires AllUsable(rs) && shortest < |rs|
    ensures Common(Bitmap.Between(Docs(rs[shortest]), lo, hi + 1), rs, shortest, 0, lo, hi)
  {
    hide Docs;
  }

  lemma CommonStep(s: set<nat>, rs: seq<Result>, shortest: nat, n: nat, lo: nat, hi: nat)
    requires AllUsable(rs) && shortest < |rs| && n < |rs| && Common(s, rs, shortest, n, lo, hi)
    ensures Common(s * Docs(rs[n]), rs, shortest, n + 1, lo, hi)
    ensures n == shortest ==> Common(s, rs, shortest, n + 1, lo, hi)
  {
    hide Docs;
    forall d: nat ensures InFirst(rs, n + 1, d) <==> InFirst(rs, n, d) && d in Docs(rs[n]) {
    }
  }

  lemma CommonAll(s: set<nat>, rs: seq<Result>, shortest: nat, lo: nat, hi: nat, p: nat, q: nat)
    requires AllUsable(rs) && shortest < |rs| && Common(s, rs, shortest, |rs|, lo, hi) && Core(rs, lo, hi, p, q)
    ensures forall d: nat :: d in s <==> InFirst(rs, |rs|, d)
  {
    hide Docs;
    forall d: nat | InFirst(rs, |rs|, d) ensures d in s {
      DocsBounds(rs[p], d);
      DocsBounds(rs[q], d);
    }
  }

  lemma CommonNone(rs: seq<Result>, lo: nat, hi: nat, p: nat, q: nat, d: nat)
    requires AllUsable(rs) && Core(rs, lo, hi, p, q) && hi < lo
    ensures !InFirst(rs, |rs|, d)
  {
    hide Docs;
    if d in Docs(rs[p]) && d in Docs(rs[q]) {
      DocsBounds(rs[p], d);
      DocsBounds(rs[q], d);
    }
  }

  lemma CoreAligned(rs: seq<Result>, lo: nat, hi: nat, p: nat, q: nat)
    requires AllUsable(rs) && Core(rs, lo, hi, p, q)
    ensures lo % OP_LEN == 0 && (hi + 1) % OP_LEN == 0 && lo <= RangeNode.MAX_INT
  {
    assert Sealed(rs[p]) && Sealed(rs[q]);
  }

  lemma CoreAt(rs: seq<Result>, lo: nat, hi: nat, p: nat, q: nat, i: nat)
    requires AllUsable(rs) && Core(rs, lo, hi, p, q) && i < |rs|
    ensures Sealed(rs[i]) && rs[i].minAligned <= lo && hi <= rs[i].maxAligned && rs[i].docNum >= 0
  {
  }

  /** The word-wise AND from the shortest result on denotes exactly the intersection. */
  method Intersect(results: seq<Result>, shortest: nat) returns (count: int, out: Result)
    requires AllUsable(results) && shortest < |results|
    ensures count >= 0
    ensures count == 0 ==> forall d: nat :: !InFirst(results, |results|, d)
    ensures count > 0 ==> Sealed(out) && !out.notIn &&
                          forall d: nat :: d in Docs(out) <==> InFirst(results, |results|, d)
  {
    hide Common, Core, AllUsable, InFirst, Ids, At;
    var total := results[0].docNum;
    out := CLEARED;
    var lo, hi; ghost var p, q;
    lo, hi, p, q := CoreOf(results);
    if hi < lo {
      forall d: nat ensures !InFirst(results, |results|, d) {
        CommonNone(results, lo, hi, p, q, d);
      }
      return 0, out;
    }
    CoreAligned(results, lo, hi, p, q);
    RangeSealed(lo, hi);
    out := SetRange(out, lo, hi).(docNum := total);
    var bitmap := Create(hi - lo + 1);
    CoreAt(results, lo, hi, p, q, shortest);
    CopyPart(bitmap, results[shortest], lo, hi);
    CommonFirst(results, shortest, lo, hi);
    for i := 0 to |results|
      invariant bitmap.Length == ByteCount(hi - lo + 1)
      invariant Common(Ids(bitmap[..], lo, hi - lo + 1), results, shortest, i, lo, hi)
    {
      CommonStep(Ids(bitmap[..], lo, hi - lo + 1), results, shortest, i, lo, hi);
      CoreAt(results, lo, hi, p, q, i);
      if i != shortest {
        AndPart(bitmap, results[i], lo, hi);
      }
    }
    CommonAll(Ids(bitmap[..], lo, hi - lo + 1), results, shortest, lo, hi, p, q);
    out := out.(bits := bitmap[..]);
    CoreAt(results, lo, hi, p, q, 0);
    EmptyFirst(results);
    count := total;
  }

  lemma EmptyFirst(rs: seq<Result>)
    requires AllUsable(rs) && rs != []
    ensures rs[0].docNum == 0 ==> forall d: nat :: !InFirst(rs, |rs|, d)
  {
    hide Docs;
    if rs[0].docNum == 0 {
      assert Docs(rs[0]) == {};
    }
  }

  // ---- Filters ----

  datatype Operator = And | Or | Not

  datatype Filter = Filter(field: int, lower: Bytes, upper: Bytes, op: Operator)

  /** What a field index holds, if there is one. */
  datatype View = NoIndex | Field(numeric: bool, vals: Values)

  ghost predicate Indexed(fs: seq<View>, f: Filter) {
    0 <= f.field < |fs| && fs[f.field].Field?
  }

  ghost predicate Matched(fs: seq<View>, f: Filter, d: nat)
    requires Indexed(fs, f)
  {
    var v := fs[f.field];
    d in v.vals && Matches(v.numeric, v.vals[d], f.lower, f.upper)
  }

  ghost predicate HasAllTags(vals: Values, tags: seq<Bytes>, d: nat) {
    forall t :: t in tags ==> d in vals && t in TagsOf(CString(vals[d]))
  }

  /** What a filter asks of a document. On tags And asks for all of them, Or for one, Not for none. */
  ghost predicate Satisfies(fs: seq<View>, f: Filter, d: nat)
    requires Indexed(fs, f)
  {
    match f.op
    case Not => !Matched(fs, f, d)
    case Or => Matched(fs, f, d)
    case And =>
      if fs[f.field].numeric then Matched(fs, f, d)
      else HasAllTags(fs[f.field].vals, TagsOf(f.lower), d)
  }

  ghost predicate AllIndexed(fs: seq<View>, filters: seq<Filter>) {
    forall i :: 0 <= i < |filters| ==> Indexed(fs, filters[i])
  }

  ghost predicate SatisfiesAll(fs: seq<View>, filters: seq<Filter>, d: nat)
    requires AllIndexed(fs, filters)
  {
    forall i :: 0 <= i < |filters| ==> Satisfies(fs, filters[i], d)
  }

  /** Once And filters on tags are split, every filter is one search, taken or negated. */
  ghost predicate Accepts(fs: seq<View>, f: Filter, d: nat)
    requires Indexed(fs, f)
  {
    if f.op == Not then !Matched(fs, f, d) else Matched(fs, f, d)
  }

  ghost predicate AcceptsAll(fs: seq<View>, filters: seq<Filter>, n: nat, d: nat)
    requires AllIndexed(fs, filters) && n <= |filters|
  {
    forall i :: 0 <= i < n ==> Accepts(fs, filters[i], d)
  }

  ghost predicate Splits(fs: seq<View>, f: Filter)
    requires Indexed(fs, f)
  {
    !fs[f.field].numeric && f.op == And
  }

  function OneFilter(f: Filter, t: Bytes): Filter {
    f.(lower := t)
  }

  function PerTag(f: Filter, tags: seq<Bytes>): (r: seq<Filter>)
    ensures |r| == |tags| && forall i :: 0 <= i < |r| ==> r[i] == OneFilter(f, tags[i])
  {
    seq(|tags|, i requires 0 <= i < |tags| => OneFilter(f, tags[i]))
  }

  /** An And filter on tags is the conjunction of its tags. */
  lemma SplitMeaning(fs: seq<View>, f: Filter, d: nat)
    requires Indexed(fs, f) && Splits(fs, f)
    ensures AllIndexed(fs, PerTag(f, TagsOf(f.lower)))
    ensures AcceptsAll(fs, PerTag(f, TagsOf(f.lower)), |TagsOf(f.lower)|, d) <==> Satisfies(fs, f, d)
  {
    hide TagsOf, IsTag;
    var tags, vals := TagsOf(f.lower), fs[f.field].vals;
    forall i | 0 <= i < |tags|
      ensures Accepts(fs, PerTag(f, tags)[i], d) <==> d in vals && tags[i] in TagsOf(CString(vals[d]))
    {
      TagAt(f.lower, i);
      OneTag(tags[i]);
      assert tags[i] in [tags[i]];
    }
    if AcceptsAll(fs, PerTag(f, tags), |tags|, d) {
      forall t | t in tags ensures d in vals && t in TagsOf(CString(vals[d])) {
        var i :| 0 <= i < |tags| && tags[i] == t;
        assert Accepts(fs, PerTag(f, tags)[i], d);
      }
    }
    if Satisfies(fs, f, d) {
      forall i | 0 <= i < |tags| ensures Accepts(fs, PerTag(f, tags)[i], d) {
        assert tags[i] in tags;
      }
    }
  }

  lemma TagAt(s: Bytes, i: nat)
    requires i < |TagsOf(s)|
    ensures IsTag(TagsOf(s)[i])
  {
    AllTags(s, 0);
  }

  lemma AcceptsJoin(fs: seq<View>, a: seq<Filter>, b: seq<Filter>, d: nat)
    requires AllIndexed(fs, a) && AllIndexed(fs, b)
    ensures AllIndexed(fs, a + b)
    ensures AcceptsAll(fs, a + b, |a + b|, d) <==> AcceptsAll(fs, a, |a|, d) && AcceptsAll(fs, b, |b|, d)
  {
    hide Accepts, Indexed;
    var c := a + b;
    assert forall i :: 0 <= i < |a| ==> c[i] == a[i];
    assert forall i :: 0 <= i < |b| ==> c[|a| + i] == b[i];
    if AcceptsAll(fs, c, |c|, d) {
      forall i | 0 <= i < |b| ensures Accepts(fs, b[i], d) {
        assert Accepts(fs, c[|a| + i], d);
      }
      forall i | 0 <= i < |a| ensures Accepts(fs, a[i], d) {
        assert Accepts(fs, c[i], d);
      }
    }
  }

  // ---- Results kept for the answer ----

  ghost predicate AllSealed(out: seq<Result>) {
    forall i :: 0 <= i < |out| ==> Sealed(out[i])
  }

  /** MultiRangeQueryResults::Has. */
  ghost predicate HasAll(out: seq<Result>, d: nat)
    requires AllSealed(out)
  {
    out != [] && forall i :: 0 <= i < |out| ==> Has(out[i], d)
  }

  method MultiHas(out: seq<Result>, d: nat) returns (ret: bool)
    requires AllSealed(out)
    ensures ret <==> HasAll(out, d)
  {
    if |out| == 0 {
      return false;
    }
    ret := true;
    for i := 0 to |out|
      invariant ret && forall j :: 0 <= j < i ==> Has(out[j], d)
    {
      ret := ret && Has(out[i], d);
      if !ret {
        break;
      }
    }
  }

  /** The results and the Not results so far stand for the first n filters. */
  ghost predicate Stands(fs: seq<View>, filters: seq<Filter>, n: nat, results: seq<Result>, out: seq<Result>)
    requires AllIndexed(fs, filters) && n <= |filters|
  {
    && AllUsable(results) && AllSealed(out)
    && forall d: nat :: AcceptsAll(fs, filters, n, d) <==>
                          InFirst(results, |results|, d) && forall i :: 0 <= i < |out| ==> Has(out[i], d)
  }

  lemma AcceptsNext(fs: seq<View>, filters: seq<Filter>, n: nat, d: nat)
    requires AllIndexed(fs, filters) && n < |filters|
    ensures AcceptsAll(fs, filters, n + 1, d) <==> AcceptsAll(fs, filters, n, d) && Accepts(fs, filters[n], d)
  {
  }

  ghost predicate AnswersFilter(fs: seq<View>, f: Filter, ret: int, r: Result)
    requires Indexed(fs, f)
  {
    Answers(fs[f.field].numeric, fs[f.field].vals, f.lower, f.upper, ret, r)
  }

  /** A Not filter that matches nothing asks nothing. */
  lemma StandsSkip(fs: seq<View>, filters: seq<Filter>, n: nat, results: seq<Result>, out: seq<Result>, r: Result)
    requires AllIndexed(fs, filters) && n < |filters| && Stands(fs, filters, n, results, out)
    requires filters[n].op == Not && AnswersFilter(fs, filters[n], 0, r)
    ensures Stands(fs, filters, n + 1, results, out)
  {
    hide InFirst, Has, Matches, AllUsable, AllSealed, AcceptsAll;
    forall d: nat ensures AcceptsAll(fs, filters, n + 1, d) <==> AcceptsAll(fs, filters, n, d) {
      AcceptsNext(fs, filters, n, d);
    }
  }

  lemma StandsNot(fs: seq<View>, filters: seq<Filter>, n: nat, results: seq<Result>, out: seq<Result>, ret: int, r: Result)
    requires AllIndexed(fs, filters) && n < |filters| && Stands(fs, filters, n, results, out)
    requires filters[n].op == Not && ret > 0 && AnswersFilter(fs, filters[n], ret, r)
    ensures Stands(fs, filters, n + 1, results, out + [r.(notIn := true)])
  {
    hide InFirst, Has, Matches, AllUsable, AcceptsAll, Docs;
    var s := r.(notIn := true);
    var o := out + [s];
    forall d: nat ensures AcceptsAll(fs, filters, n + 1, d) <==>
                            InFirst(results, |results|, d) && forall i :: 0 <= i < |o| ==> Has(o[i], d)
    {
      AcceptsNext(fs, filters, n, d);
      HasIsDocs(s, d);
      SameDocs(r, s);
      HasMore(out, s, d);
    }
  }

  lemma HasMore(out: seq<Result>, s: Result, d: nat)
    requires AllSealed(out) && Sealed(s)
    ensures AllSealed(out + [s])
    ensures (forall i :: 0 <= i < |out + [s]| ==> Has((out + [s])[i], d)) <==>
            (forall i :: 0 <= i < |out| ==> Has(out[i], d)) && Has(s, d)
  {
    hide Has, Sealed;
    var o := out + [s];
    assert forall i :: 0 <= i < |out| ==> o[i] == out[i];
    assert o[|out|] == s;
  }

  lemma SameDocs(r: Result, s: Result)
    requires Sealed(r) && s == r.(notIn := s.notIn)
    ensures Sealed(s) && Docs(s) == Docs(r)
  {
  }

  lemma StandsTake(fs: seq<View>, filters: seq<Filter>, n: nat, results: seq<Result>, out: seq<Result>, ret: int, r: Result)
    requires AllIndexed(fs, filters) && n < |filters| && Stands(fs, filters, n, results, out)
    requires filters[n].op != Not && ret > 0 && AnswersFilter(fs, filters[n], ret, r)
    ensures Stands(fs, filters, n + 1, results + [r], out)
  {
    hide Has, Matches, AcceptsAll, Docs, AllSealed;
    var rs := results + [r];
    assert forall i :: 0 <= i < |results| ==> rs[i] == results[i];
    assert rs[|results|] == r;
    forall d: nat ensures InFirst(rs, |rs|, d) <==> InFirst(results, |results|, d) && d in Docs(r) {
      if InFirst(rs, |rs|, d) {
        assert d in Docs(rs[|results|]);
        forall i | 0 <= i < |results| ensures d in Docs(results[i]) {
          assert d in Docs(rs[i]);
        }
      }
    }
    forall d: nat ensures AcceptsAll(fs, filters, n + 1, d) <==> AcceptsAll(fs, filters, n, d) && d in Docs(r) {
      AcceptsNext(fs, filters, n, d);
    }
  }

  class MultiFieldsRangeIndex {
    const fields: seq<FieldRangeIndex?>

    ghost predicate Valid()
      reads this, fields
    {
      forall i :: 0 <= i < |fields| && fields[i] != null ==> fields[i].Valid()
    }

    ghost function Views(): (r: seq<View>)
      reads this, fields
      ensures |r| == |fields|
      ensures forall i :: 0 <= i < |r| ==> r[i].Field? == (fields[i] != null)
      ensures forall i :: 0 <= i < |r| && r[i].Field? ==> r[i] == Field(fields[i].numeric, fields[i].vals)
    {
      seq(|fields|, i requires 0 <= i < |fields| reads fields =>
            if fields[i] == null then NoIndex else Field(fields[i].numeric, fields[i].vals))
    }

    /** Numeric bounds have the width of the field. */
    ghost predicate CanSearch(f: Filter)
      requires 0 <= f.field < |fields| && fields[f.field] != null
      reads this, fields
    {
      var x := fields[f.field];
      x.numeric ==> |f.lower| == x.width == |f.upper| && x.width > 0
    }

    ghost predicate Ready(filters: seq<Filter>)
      reads this, fields
    {
      forall i :: 0 <= i < |filters| ==>
        && filters[i].field < |fields|
        && (0 <= filters[i].field && fields[filters[i].field] != null ==> CanSearch(filters[i]))
    }

    /** The search of the filter stays inside its bitmap, and its total fits an int. An And filter
        on tags is searched tag by tag, which always does. */
    ghost predicate Sound(f: Filter)
      requires 0 <= f.field < |fields| && fields[f.field] != null
      reads this, fields
    {
      fields[f.field].numeric || TagsFit(fields[f.field].nodes, f.lower)
    }

    /** So it is for every filter but And on tags. */
    ghost predicate OrSound(filters: seq<Filter>)
      reads this, fields
    {
      forall i :: 0 <= i < |filters| && 0 <= filters[i].field < |fields| && fields[filters[i].field] != null ==>
        Sound(filters[i]) || (!fields[filters[i].field].numeric && filters[i].op == And)
    }

    ghost predicate SearchableAll(filters: seq<Filter>)
      reads this, fields
    {
      forall i :: 0 <= i < |filters| ==>
        0 <= filters[i].field < |fields| && fields[filters[i].field] != null && CanSearch(filters[i])
    }

    /** The search ends at a filter that finds nothing, unless it is negated. */
    ghost predicate Stops(f: Filter)
      reads this, fields
    {
      0 <= f.field < |fields| && fields[f.field] != null && f.op != Not && fields[f.field].Nothing(f.lower, f.upper)
    }

    ghost predicate Passes(filters: seq<Filter>)
      reads this, fields
    {
      forall i :: 0 <= i < |filters| ==> !Stops(filters[i])
    }

    /** Every filter that is searched is sound. */
    ghost predicate Works(filters: seq<Filter>)
      reads this, fields
    {
      forall i :: 0 <= i < |filters| && Passes(filters[..i]) ==> SoundAt(filters[i])
    }

    ghost predicate SoundAt(f: Filter)
      reads this, fields
    {
      0 <= f.field < |fields| && fields[f.field] != null ==> Sound(f)
    }

    lemma Joined(a: seq<Filter>, b: seq<Filter>)
      ensures Passes(a + b) <==> Passes(a) && Passes(b)
      ensures Works(a + b) <==> Works(a) && (Passes(a) ==> Works(b))
    {
      hide Stops, SoundAt;
      var c := a + b;
      forall i | 0 <= i <= |a| ensures c[..i] == a[..i] {
      }
      forall i | 0 <= i <= |b| ensures c[..|a| + i] == a + b[..i] && (Passes(c[..|a| + i]) <==> Passes(a) && Passes(b[..i])) {
        PassesBoth(a, b[..i]);
      }
      PassesBoth(a, b);
      if Works(a) && (Passes(a) ==> Works(b)) {
        forall i | 0 <= i < |c| && Passes(c[..i]) ensures SoundAt(c[i]) {
          if i >= |a| {
            assert c[..i] == a + b[..i - |a|] && c[i] == b[i - |a|];
          }
        }
      }
      if Works(c) {
        forall i | 0 <= i < |a| && Passes(a[..i]) ensures SoundAt(a[i]) {
          assert c[i] == a[i];
        }
        if Passes(a) {
          forall i | 0 <= i < |b| && Passes(b[..i]) ensures SoundAt(b[i]) {
            assert c[|a| + i] == b[i];
          }
        }
      }
    }

    lemma PassesBoth(a: seq<Filter>, b: seq<Filter>)
      ensures Passes(a + b) <==> Passes(a) && Passes(b)
    {
      hide Stops;
      var c := a + b;
      if Passes(c) {
        forall i | 0 <= i < |a| ensures !Stops(a[i]) {
          assert c[i] == a[i];
        }
        forall i | 0 <= i < |b| ensures !Stops(b[i]) {
          assert c[|a| + i] == b[i];
        }
      }
    }

    // The same of a list whose And filters on tags are not split yet.

    ghost predicate StopsWhole(f: Filter)
      reads this, fields
    {
      if f.op == And && 0 <= f.field < |fields| && fields[f.field] != null && !fields[f.field].numeric then
        exists t :: t in TagsOf(f.lower) && Stops(OneFilter(f, t))
      else Stops(f)
    }

    ghost predicate SoundWhole(f: Filter)
      reads this, fields
    {
      0 <= f.field < |fields| && fields[f.field] != null ==> Sound(f) || (!fields[f.field].numeric && f.op == And)
    }

    ghost predicate PassesWhole(filters: seq<Filter>)
      reads this, fields
    {
      forall i :: 0 <= i < |filters| ==> !StopsWhole(filters[i])
    }

    /** Every filter up to the first that ends the search is sound, or an And filter on tags. */
    ghost predicate WorksWhole(filters: seq<Filter>)
      reads this, fields
    {
      forall i :: 0 <= i < |filters| && PassesWhole(filters[..i]) ==> SoundWhole(filters[i])
    }

    lemma WholeNext(origin: seq<Filter>, i: nat)
      requires i < |origin|
      ensures PassesWhole(origin[..i + 1]) <==> PassesWhole(origin[..i]) && !StopsWhole(origin[i])
      ensures WorksWhole(origin[..i + 1]) <==>
              WorksWhole(origin[..i]) && (PassesWhole(origin[..i]) ==> SoundWhole(origin[i]))
    {
      hide StopsWhole, SoundWhole;
      var a, b := origin[..i], origin[..i + 1];
      assert b == a + [origin[i]];
      forall k | 0 <= k <= i ensures b[..k] == a[..k] {
      }
      assert a[..i] == a;
    }

    constructor (fields: seq<FieldRangeIndex?>)
      requires forall i :: 0 <= i < |fields| && fields[i] != null ==> fields[i].Valid()
      ensures Valid() && this.fields == fields
    {
      this.fields := fields;
    }

    lemma NoneYet()
      ensures Works([]) && Passes([]) && WorksWhole([]) && PassesWhole([])
    {
    }

    /** Splitting the And filters on tags; an unindexed field ends the search. */
    method Expand(origin: seq<Filter>) returns (ok: bool, filters: seq<Filter>)
      requires Valid() && Ready(origin)
      ensures ok <==> AllIndexed(Views(), origin)
      ensures ok ==> SearchableAll(filters) && AllIndexed(Views(), filters) && (Works(filters) <==> WorksWhole(origin))
      ensures ok ==> forall d: nat ::
                AcceptsAll(Views(), filters, |filters|, d) <==> SatisfiesAll(Views(), origin, d)
    {
      hide Satisfies, Accepts, TagsOf, FieldRangeIndex.Valid, Works, Passes, WorksWhole, PassesWhole, StopsWhole, SoundWhole;
      ghost var fs := Views();
      filters := [];
      NoneYet();
      for i := 0 to |origin|
        invariant AllIndexed(fs, origin[..i])
        invariant SearchableAll(filters) && AllIndexed(fs, filters)
        invariant (Works(filters) <==> WorksWhole(origin[..i])) && (Passes(filters) <==> PassesWhole(origin[..i]))
        invariant forall d: nat :: AcceptsAll(fs, filters, |filters|, d) <==> SatisfiesAll(fs, origin[..i], d)
      {
        var f := origin[i];
        if f.field < 0 || fields[f.field] == null {
          assert !Indexed(fs, origin[i]);
          return false, [];
        }
        var more := ExpandOne(f);
        ghost var before := filters;
        filters := filters + more;
        Joined(before, more);
        WholeNext(origin, i);
        forall d: nat ensures AcceptsAll(fs, filters, |filters|, d) <==> SatisfiesAll(fs, origin[..i + 1], d) {
          AcceptsJoin(fs, before, more, d);
          SatisfiesNext(fs, origin, i, d);
        }
      }
      assert origin[..|origin|] == origin;
      ok := true;
    }

    lemma TagsPass(f: Filter, tags: seq<Bytes>)
      requires 0 <= f.field < |fields| && fields[f.field] != null && !fields[f.field].numeric && f.op == And
      requires tags == TagsOf(f.lower)
      ensures Passes(PerTag(f, tags)) <==> !StopsWhole(f)
    {
      hide Stops, TagsOf;
      var more := PerTag(f, tags);
      if Passes(more) {
        forall t | t in tags ensures !Stops(OneFilter(f, t)) {
          var i :| 0 <= i < |tags| && tags[i] == t;
          assert !Stops(more[i]);
        }
      } else {
        var i :| 0 <= i < |more| && Stops(more[i]);
        assert tags[i] in tags;
      }
    }

    lemma OnePasses(f: Filter)
      ensures (Works([f]) <==> SoundAt(f)) && (Passes([f]) <==> !Stops(f))
    {
      hide Stops, SoundAt;
      var one := [f];
      assert one[..0] == [] && Passes([]);
      assert one[0] == f;
    }

    method ExpandOne(f: Filter) returns (more: seq<Filter>)
      requires Valid() && 0 <= f.field < |fields| && fields[f.field] != null
      requires CanSearch(f)
      ensures SearchableAll(more) && AllIndexed(Views(), more)
      ensures (Works(more) <==> SoundWhole(f)) && (Passes(more) <==> !StopsWhole(f))
      ensures forall d: nat :: AcceptsAll(Views(), more, |more|, d) <==> Satisfies(Views(), f, d)
    {
      hide TagsFit, TagsOf;
      var x := fields[f.field];
      ghost var fs := Views();
      if !x.numeric && f.op == And {
        var items := Split(f.lower);
        more := PerTag(f, items);
        forall d: nat ensures AllIndexed(fs, more) && (AcceptsAll(fs, more, |more|, d) <==> Satisfies(fs, f, d)) {
          SplitMeaning(fs, f, d);
        }
        SplitMeaning(fs, f, 0);
        forall i | 0 <= i < |more| ensures Sound(more[i]) {
          TagAt(f.lower, i);
          OneTagFits(x.nodes, items[i]);
        }
        TagsPass(f, items);
      } else {
        more := [f];
        OnePasses(f);
        forall d: nat ensures AcceptsAll(fs, more, 1, d) <==> Satisfies(fs, f, d) {
          AcceptsNext(fs, more, 0, d);
        }
      }
    }

    /** One filter searched in the index of its field. */
    method SearchOne(f: Filter) returns (ok: bool, ret: int, r: Result)
      requires Valid() && 0 <= f.field < |fields| && fields[f.field] != null && CanSearch(f)
      ensures Indexed(Views(), f) && (ok <==> Sound(f))
      ensures ok ==> AnswersFilter(Views(), f, ret, r) && 0 <= ret < RangeNode.MAX_INT
      ensures ok ==> (ret == 0 && f.op != Not <==> Stops(f))
    {
      hide TagsFit, FieldRangeIndex.Nothing;
      ok, ret, r := fields[f.field].Search(f.lower, f.upper);
    }

    /** A single filter: its own result, negated for Not. */
    method SearchSingle(filters: seq<Filter>) returns (ok: bool, ret: int, out: seq<Result>)
      requires Valid() && SearchableAll(filters) && AllIndexed(Views(), filters) && |filters| == 1
      ensures ok <==> Works(filters)
      ensures ok ==> Concludes(Views(), filters, ret, out)
    {
      hide CanSearch, Sound, Docs, Has, Matches, FieldRangeIndex.Valid, Works, Stops;
      ghost var fs := Views();
      var f := filters[0];
      var r;
      ok, ret, r := SearchOne(f);
      OnePasses(f);
      assert filters == [f];
      out := [];
      if !ok {
        return;
      }
      StandsNone(fs, filters);
      if ret > 0 {
        if f.op == Not {
          StandsNot(fs, filters, 0, [], [], ret, r);
          r := r.(notIn := true);
          out := [r];
          assert [] + [r] == [r];
          ConcludeNots(fs, filters, out);
        } else {
          out := [r];
          SingleHas(fs, filters, ret, r);
        }
      } else if f.op == Not {
        StandsSkip(fs, filters, 0, [], [], r);
        ConcludeNots(fs, filters, []);
        ret := -1;
      } else {
        ConcludeNone(fs, filters, 0, [], r);
      }
    }

    /** One more filter: an unsound one breaks the search, one that ends it saves the rest. */
    lemma WorksNext(filters: seq<Filter>, i: nat)
      requires i < |filters| && Passes(filters[..i]) && Works(filters[..i])
      ensures Passes(filters[..i + 1]) <==> !Stops(filters[i])
      ensures SoundAt(filters[i]) ==> Works(filters[..i + 1])
      ensures !SoundAt(filters[i]) ==> !Works(filters)
      ensures SoundAt(filters[i]) && Stops(filters[i]) ==> Works(filters)
    {
      hide Passes, Works, Stops, SoundAt;
      var a, f, rest := filters[..i], filters[i], filters[i + 1..];
      assert filters[..i + 1] == a + [f] && filters == (a + [f]) + rest;
      OnePasses(f);
      Joined(a, [f]);
      Joined(a + [f], rest);
    }

    method SearchMany(filters: seq<Filter>) returns (ok: bool, ret: int, out: seq<Result>)
      requires Valid() && SearchableAll(filters) && AllIndexed(Views(), filters)
      ensures ok <==> Works(filters)
      ensures ok ==> Concludes(Views(), filters, ret, out)
    {
      hide CanSearch, Sound, Docs, Has, Answers, Stands, Concludes, FieldRangeIndex.Valid, Works, Stops, Passes;
      ghost var fs := Views();
      var results := [];
      out := [];
      var shortestIdx, shortest := -1, RangeNode.MAX_INT;
      StandsNone(fs, filters);
      NoneYet();
      assert filters[..0] == [] && filters[..|filters|] == filters;
      for i := 0 to |filters|
        invariant Stands(fs, filters, i, results, out) && Passes(filters[..i]) && Works(filters[..i])
        invariant -1 <= shortestIdx < |results|
        invariant if results == [] then shortest == RangeNode.MAX_INT else shortestIdx >= 0
      {
        var f := filters[i];
        var retval, r;
        ok, retval, r := SearchOne(f);
        WorksNext(filters, i);
        if !ok {
          return false, 0, out;
        }
        if retval == 0 {
          if f.op == Not {
            StandsSkip(fs, filters, i, results, out, r);
            continue;
          }
          StandsSealed(fs, filters, i, results, out);
          ConcludeNone(fs, filters, i, out, r);
          return true, 0, out;
        } else {
          if f.op == Not {
            StandsNot(fs, filters, i, results, out, retval, r);
            r := r.(notIn := true);
            out := out + [r];
            continue;
          }
          StandsTake(fs, filters, i, results, out, retval, r);
          results := results + [r];
          if shortest > retval {
            shortest, shortestIdx := retval, |results| - 1;
          }
        }
      }
      if |results| == 0 {
        ConcludeNots(fs, filters, out);
        return true, if |out| > 0 then 1 else -1, out;
      }
      StandsSealed(fs, filters, |filters|, results, out);
      var count, tmp := Intersect(results, shortestIdx);
      ConcludeBoth(fs, filters, results, out, count, tmp);
      if count > 0 {
        out := out + [tmp];
      }
      ok, ret := true, count;
    }

    lemma SoundWorks(origin: seq<Filter>)
      ensures OrSound(origin) ==> WorksWhole(origin)
    {
      hide Sound, PassesWhole;
    }

    /** The meaning of the answer, for every list of filters and every document; `ok` is false
        exactly if a search by tags that is made leaves its bitmap or its total does not fit an int. */
    method Search(origin: seq<Filter>) returns (ok: bool, ret: int, out: seq<Result>)
      requires Valid() && Ready(origin)
      ensures ok <==> !AllIndexed(Views(), origin) || WorksWhole(origin)
      ensures OrSound(origin) ==> ok
      ensures !AllIndexed(Views(), origin) ==> ok && ret == -1 && out == []
      ensures ok ==> ret >= -1
      ensures ok ==> AllSealed(out)
      ensures ok && AllIndexed(Views(), origin) && ret < 0 ==> forall d: nat :: SatisfiesAll(Views(), origin, d)
      ensures ok && ret == 0 ==> AllIndexed(Views(), origin) && forall d: nat :: !SatisfiesAll(Views(), origin, d)
      ensures ok && ret > 0 ==> AllIndexed(Views(), origin) &&
                                forall d: nat :: HasAll(out, d) <==> SatisfiesAll(Views(), origin, d)
    {
      hide Ready, Valid, SearchableAll, SatisfiesAll, AcceptsAll, AllIndexed, HasAll, OrSound, Works, WorksWhole;
      SoundWorks(origin);
      var all, filters := Expand(origin);
      if !all {
        return true, -1, [];
      }
      if |filters| == 1 {
        ok, ret, out := SearchSingle(filters);
      } else {
        ok, ret, out := SearchMany(filters);
      }
    }
  }

  // ---- What the pieces of Search conclude ----

  /** 0: no document passes; positive: exactly the documents in all kept results pass;
      negative: every document passes. */
  ghost predicate Concludes(fs: seq<View>, filters: seq<Filter>, ret: int, out: seq<Result>)
    requires AllIndexed(fs, filters)
  {
    && AllSealed(out)
    && ret >= -1
    && (ret < 0 ==> forall d: nat :: AcceptsAll(fs, filters, |filters|, d))
    && (ret == 0 ==> forall d: nat :: !AcceptsAll(fs, filters, |filters|, d))
    && (ret > 0 ==> forall d: nat :: HasAll(out, d) <==> AcceptsAll(fs, filters, |filters|, d))
  }

  lemma StandsNone(fs: seq<View>, filters: seq<Filter>)
    requires AllIndexed(fs, filters)
    ensures Stands(fs, filters, 0, [], [])
  {
  }

  lemma ConcludeNone(fs: seq<View>, filters: seq<Filter>, n: nat, out: seq<Result>, r: Result)
    requires AllIndexed(fs, filters) && n < |filters| && AllSealed(out)
    requires filters[n].op != Not && AnswersFilter(fs, filters[n], 0, r)
    ensures Concludes(fs, filters, 0, out)
  {
    hide Matches;
    forall d: nat ensures !AcceptsAll(fs, filters, |filters|, d) {
      assert !Accepts(fs, filters[n], d);
    }
  }

  lemma ConcludeNots(fs: seq<View>, filters: seq<Filter>, out: seq<Result>)
    requires AllIndexed(fs, filters) && Stands(fs, filters, |filters|, [], out)
    ensures Concludes(fs, filters, if out != [] then 1 else -1, out)
  {
    hide AcceptsAll, Has;
  }

  lemma ConcludeBoth(fs: seq<View>, filters: seq<Filter>, results: seq<Result>, out: seq<Result>, count: int, tmp: Result)
    requires AllIndexed(fs, filters) && Stands(fs, filters, |filters|, results, out) && count >= 0
    requires count == 0 ==> forall d: nat :: !InFirst(results, |results|, d)
    requires count > 0 ==> Sealed(tmp) && !tmp.notIn &&
                           forall d: nat :: d in Docs(tmp) <==> InFirst(results, |results|, d)
    ensures Concludes(fs, filters, count, if count > 0 then out + [tmp] else out)
  {
    hide AcceptsAll, Has, InFirst, Docs;
    if count > 0 {
      var o := out + [tmp];
      assert forall i :: 0 <= i < |out| ==> o[i] == out[i];
      assert o[|out|] == tmp;
      forall d: nat ensures HasAll(o, d) <==> AcceptsAll(fs, filters, |filters|, d) {
        HasIsDocs(tmp, d);
        if HasAll(o, d) {
          assert Has(o[|out|], d);
          forall i | 0 <= i < |out| ensures Has(out[i], d) {
            assert Has(o[i], d);
          }
        }
      }
    }
  }

  lemma SingleHas(fs: seq<View>, filters: seq<Filter>, ret: int, r: Result)
    requires AllIndexed(fs, filters) && |filters| == 1 && filters[0].op != Not
    requires ret > 0 && AnswersFilter(fs, filters[0], ret, r)
    ensures Concludes(fs, filters, ret, [r])
  {
    hide Matches, Docs, Has;
    forall d: nat ensures HasAll([r], d) <==> AcceptsAll(fs, filters, 1, d) {
      HasIsDocs(r, d);
      AcceptsNext(fs, filters, 0, d);
      assert [r][0] == r;
    }
  }

  lemma StandsSealed(fs: seq<View>, filters: seq<Filter>, n: nat, results: seq<Result>, out: seq<Result>)
    requires AllIndexed(fs, filters) && n <= |filters| && Stands(fs, filters, n, results, out)
    ensures AllUsable(results) && AllSealed(out)
  {
  }

  lemma SatisfiesNext(fs: seq<View>, filters: seq<Filter>, n: nat, d: nat)
    requires n < |filters| && AllIndexed(fs, filters[..n]) && Indexed(fs, filters[n])
    ensures AllIndexed(fs, filters[..n + 1])
    ensures SatisfiesAll(fs, filters[..n + 1], d) <==>
              SatisfiesAll(fs, filters[..n], d) && Satisfies(fs, filters[n], d)
  {
    hide Satisfies, Indexed;
    var a, b := filters[..n], filters[..n + 1];
    assert b == a + [filters[n]];
    if SatisfiesAll(fs, b, d) {
      forall i | 0 <= i < |a| ensures Satisfies(fs, a[i], d) {
        assert Satisfies(fs, b[i], d);
      }
      assert Satisfies(fs, b[n], d);
    }
  }
}
