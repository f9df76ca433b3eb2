/** The arrays behind the slots: id and code arrays per bucket, written beyond the
    committed size, grown by copying, compacted into new arrays. */
module InvertedArrays {
  import opened ByteStrings
  import opened InvertedSpec
  import opened InvertedCompact

  /** The first `n` entries of an id array and a code array, as slots. */
  function Zip(ids: seq<nat>, codes: seq<Code>, n: nat): (r: seq<Slot>)
    requires n <= |ids| && n <= |codes|
    ensures |r| == n && forall i :: 0 <= i < n ==> r[i] == Slot(ids[i], codes[i])
  {
    seq(n, i requires 0 <= i < n => Slot(ids[i], codes[i]))
  }

  /** The arrays of one bucket, and how many of their entries are committed. */
  datatype Bucket = Bucket(ids: seq<nat>, codes: seq<Code>, size: nat) {
    ghost predicate Ok() {
      |ids| == |codes| && size <= |ids| && 10 <= |ids|
    }

    function Slots(): (r: seq<Slot>)
      requires size <= |ids| && size <= |codes|
    {
      Zip(ids, codes, size)
    }
  }

  ghost predicate BucketsOk(bs: seq<Bucket>) {
    forall b :: 0 <= b < |bs| ==> bs[b].Ok()
  }

  function View(bs: seq<Bucket>): (r: Slots)
    requires BucketsOk(bs)
    ensures |r| == |bs| && forall b :: 0 <= b < |bs| ==> r[b] == bs[b].Slots()
  {
    seq(|bs|, b requires 0 <= b < |bs| => bs[b].Slots())
  }

  /** `x` written over `s` from position `at`. */
  function Splice<T>(s: seq<T>, at: nat, x: seq<T>): (r: seq<T>)
    requires at + |x| <= |s|
    ensures |r| == |s| && r[..at] == s[..at] && r[at..at + |x|] == x
  {
    s[..at] + x + s[at + |x|..]
  }

  /** Bytes held by the arrays of the buckets. */
  function Held(bs: seq<Bucket>, unit: nat): nat {
    if bs == [] then 0 else Held(bs[..|bs| - 1], unit) + |bs[|bs| - 1].ids| * unit
  }

  function Sum(s: seq<nat>): nat {
    if s == [] then 0 else Sum(s[..|s| - 1]) + s[|s| - 1]
  }

  lemma {:induction false} HeldUpdate(bs: seq<Bucket>, unit: nat, b: nat, x: Bucket)
    requires b < |bs|
    ensures Held(bs[b := x], unit) == Held(bs, unit) - |bs[b].ids| * unit + |x.ids| * unit
  {
    var now := bs[b := x];
    if b == |bs| - 1 {
      assert now[..|bs| - 1] == bs[..|bs| - 1];
    } else {
      HeldUpdate(bs[..|bs| - 1], unit, b, x);
      assert now[..|bs| - 1] == bs[..|bs| - 1][b := x];
    }
  }

  lemma {:induction false} SumRemove(s: seq<nat>, i: nat)
    requires i < |s|
    ensures Sum(s[..i] + s[i + 1..]) == Sum(s) - s[i]
  {
    var r := s[..i] + s[i + 1..];
    if i == |s| - 1 {
      assert r == s[..|s| - 1];
    } else {
      var t := s[..|s| - 1];
      SumRemove(t, i);
      assert r[..|r| - 1] == t[..i] + t[i + 1..];
      assert r[|r| - 1] == s[|s| - 1];
    }
  }

  lemma ProductAbove(x: real, c: real)
    requires x > 0.0 && c > 1.1
    ensures x * c > x * 1.1
  {
    Positive(x, c - 1.1);
  }

  lemma SumMore(s: seq<nat>, x: nat)
    ensures Sum(s + [x]) == Sum(s) + x
  {
    assert (s + [x])[..|s|] == s;
  }

  lemma Positive(x: real, y: real)
    requires x > 0.0 && y > 0.0
    ensures x * y > 0.0
  {
  }

  lemma GrowthFloor(size: nat, c: real)
    requires 10 <= size && c > 1.1
    ensures (size as real * c).Floor > size
  {
    var x := size as real;
    ProductAbove(x, c);
    assert x * c >= (size + 1) as real;
  }

  /** Coefficients as the extension count, a byte, selects them. */
  ghost predicate Growing(coefficient: nat -> real) {
    forall t :: t < 256 ==> coefficient(t) > 1.1
  }

  function Times(size: nat, c: real): (r: nat)
    requires 10 <= size && c > 1.1
    ensures r > size
  {
    GrowthFloor(size, c);
    (size as real * c).Floor
  }

  /** The capacity and the extension count at which growth from `size` stops. */
  ghost function Growth(size: nat, least: nat, time: nat, coefficient: nat -> real): (r: (nat, nat))
    requires 10 <= size && time < 256 && Growing(coefficient)
    ensures least <= r.0 && size <= r.0 && r.1 < 256
    decreases least - size
  {
    if size >= least then (size, time)
    else
      var t := (time + 1) % 256;
      Growth(Times(size, coefficient(t)), least, t, coefficient)
  }

  /** Growth takes one step in any case. */
  ghost function Extended(capacity: nat, least: nat, time: nat, coefficient: nat -> real): (r: (nat, nat))
    requires 10 <= capacity && time < 256 && Growing(coefficient)
    ensures least <= r.0 && capacity < r.0 && r.1 < 256
  {
    var t := (time + 1) % 256;
    Growth(Times(capacity, coefficient(t)), least, t, coefficient)
  }

  /** The capacity after k extensions, each with the coefficient of its number, a byte. */
  ghost function CapacityAfter(capacity: nat, time: nat, coefficient: nat -> real, k: nat): int {
    if k == 0 then capacity
    else (CapacityAfter(capacity, time, coefficient, k - 1) as real * coefficient((time + k) % 256)).Floor
  }

  /** Growth stops after k extensions: the first at which there is enough room, but at least one. */
  ghost predicate StopsAt(capacity: nat, least: nat, time: nat, coefficient: nat -> real, k: nat) {
    && k > 0 && CapacityAfter(capacity, time, coefficient, k) >= least
    && forall j: nat :: 0 < j < k ==> CapacityAfter(capacity, time, coefficient, j) < least
  }

  lemma StopsThere(capacity: nat, least: nat, time: nat, coefficient: nat -> real) returns (k: nat)
    requires 10 <= capacity && time < 256 && Growing(coefficient)
    ensures StopsAt(capacity, least, time, coefficient, k)
    ensures Extended(capacity, least, time, coefficient) ==
            (CapacityAfter(capacity, time, coefficient, k), (time + k) % 256)
  {
    var t := (time + 1) % 256;
    assert CapacityAfter(capacity, time, coefficient, 0) == capacity;
    assert CapacityAfter(capacity, time, coefficient, 1) == Times(capacity, coefficient(t));
    k := GrowsOn(capacity, least, time, coefficient, 1);
  }

  lemma NextCapacity(capacity: nat, time: nat, coefficient: nat -> real, i: nat)
    requires time < 256 && Growing(coefficient) && CapacityAfter(capacity, time, coefficient, i) >= 10
    ensures ((time + i) % 256 + 1) % 256 == (time + (i + 1)) % 256
    ensures CapacityAfter(capacity, time, coefficient, i + 1) ==
            Times(CapacityAfter(capacity, time, coefficient, i), coefficient((time + (i + 1)) % 256))
  {
    hide Times, Growing;
    NextByte(time, i);
    CoefficientOf(coefficient, (time + (i + 1)) % 256);
    TimesIs(CapacityAfter(capacity, time, coefficient, i), coefficient((time + (i + 1)) % 256));
  }

  lemma CoefficientOf(coefficient: nat -> real, t: nat)
    requires Growing(coefficient) && t < 256
    ensures coefficient(t) > 1.1
  {
  }

  lemma TimesIs(size: nat, c: real)
    requires 10 <= size && c > 1.1
    ensures Times(size, c) == (size as real * c).Floor
  {
  }

  lemma NextByte(time: nat, i: nat)
    ensures ((time + i) % 256 + 1) % 256 == (time + (i + 1)) % 256
  {
  }

  lemma {:induction false} GrowsOn(capacity: nat, least: nat, time: nat, coefficient: nat -> real, i: nat) returns (k: nat)
    requires 10 <= capacity && time < 256 && Growing(coefficient) && i > 0
    requires CapacityAfter(capacity, time, coefficient, i) >= 10
    requires forall j: nat :: 0 < j < i ==> CapacityAfter(capacity, time, coefficient, j) < least
    ensures StopsAt(capacity, least, time, coefficient, k)
    ensures Growth(CapacityAfter(capacity, time, coefficient, i), least, (time + i) % 256, coefficient) ==
            (CapacityAfter(capacity, time, coefficient, k), (time + k) % 256)
    decreases least - CapacityAfter(capacity, time, coefficient, i)
  {
    hide CapacityAfter, Times;
    var size := CapacityAfter(capacity, time, coefficient, i);
    if size >= least {
      k := i;
    } else {
      NextCapacity(capacity, time, coefficient, i);
      k := GrowsOn(capacity, least, time, coefficient, i + 1);
    }
  }

  /** How many slots a bucket gets when it must hold `least`: the capacity times a
      coefficient above 1.1, again and again, with the extension count in a byte. */
  method GrownSize(capacity: nat, least: nat, extendTime: nat, coefficient: nat -> real)
    returns (size: nat, time: nat)
    requires 10 <= capacity && extendTime < 256 && Growing(coefficient)
    ensures (size, time) == Extended(capacity, least, extendTime, coefficient)
  {
    hide Times;
    time := (extendTime + 1) % 256;
    size := Times(capacity, coefficient(time));
    while size < least
      invariant capacity < size && time < 256
      invariant Growth(size, least, time, coefficient) == Extended(capacity, least, extendTime, coefficient)
    {
      time := (time + 1) % 256;
      size := Times(size, coefficient(time));
    }
  }

  /** Adding vectors one by one to the map; those whose document is deleted stay out. */
  ghost function AddAll(m: map<nat, (int, Code)>, bitmap: set<nat>, b: nat, keys: seq<nat>,
                        codes: seq<Code>): map<nat, (int, Code)>
    requires |keys| == |codes|
  {
    if keys == [] then m
    else
      var n := |keys| - 1;
      var r := AddAll(m, bitmap, b, keys[..n], codes[..n]);
      if keys[n] in bitmap then r else r[keys[n] := (b as int, codes[n])]
  }

  /** How many of the keys belong to deleted documents. */
  function DeadAmong(keys: seq<nat>, bitmap: set<nat>): nat {
    if keys == [] then 0
    else DeadAmong(keys[..|keys| - 1], bitmap) + if keys[|keys| - 1] in bitmap then 1 else 0
  }

  lemma AddAllSnoc(m: map<nat, (int, Code)>, bitmap: set<nat>, b: nat, keys: seq<nat>,
                   codes: seq<Code>, i: nat)
    requires |keys| == |codes| && i < |keys|
    ensures AddAll(m, bitmap, b, keys[..i + 1], codes[..i + 1])
            == var r := AddAll(m, bitmap, b, keys[..i], codes[..i]);
               if keys[i] in bitmap then r else r[keys[i] := (b as int, codes[i])]
  {
    assert keys[..i + 1][..i] == keys[..i] && codes[..i + 1][..i] == codes[..i];
  }

  /** Writing beyond the committed size shows nothing. */
  lemma SpliceUnseen(bs: seq<Bucket>, b: nat, keys: seq<nat>, codes: seq<Code>)
    requires BucketsOk(bs) && b < |bs| && |keys| == |codes|
    requires bs[b].size + |keys| <= |bs[b].ids|
    ensures var x := Written(bs[b], keys, codes);
            && x.Ok() && View(bs[b := x]) == View(bs)
            && (forall i :: 0 <= i < |keys| ==>
                  x.ids[x.size + i] == keys[i] && x.codes[x.size + i] == codes[i])
  {
    var x := Written(bs[b], keys, codes);
    forall i | 0 <= i < |keys|
      ensures x.ids[x.size + i] == keys[i] && x.codes[x.size + i] == codes[i]
    {
      assert x.ids[x.size..x.size + |keys|][i] == keys[i];
      assert x.codes[x.size..x.size + |keys|][i] == codes[i];
    }
    forall i | 0 <= i < x.size ensures x.ids[i] == bs[b].ids[i] && x.codes[i] == bs[b].codes[i] {
      assert x.ids[i] == x.ids[..x.size][i] && x.codes[i] == x.codes[..x.size][i];
    }
    assert x.Slots() == bs[b].Slots();
    assert View(bs[b := x]) == View(bs);
  }

  function Written(x: Bucket, keys: seq<nat>, codes: seq<Code>): Bucket
    requires x.size + |keys| <= |x.ids| && x.size + |codes| <= |x.codes|
  {
    x.(ids := Splice(x.ids, x.size, keys), codes := Splice(x.codes, x.size, codes))
  }

  /** Raising the committed size by one shows the slot written there. */
  lemma CommitSeen(bs: seq<Bucket>, b: nat)
    requires BucketsOk(bs) && b < |bs| && bs[b].size < |bs[b].ids|
    ensures var x := bs[b];
            var now := bs[b := x.(size := x.size + 1)];
            && BucketsOk(now)
            && View(now) == Append(View(bs), b, Slot(x.ids[x.size], x.codes[x.size]))
  {
    var x := bs[b];
    var now := bs[b := x.(size := x.size + 1)];
    assert now[b].Slots() == x.Slots() + [Slot(x.ids[x.size], x.codes[x.size])];
    assert View(now) == Append(View(bs), b, Slot(x.ids[x.size], x.codes[x.size]));
  }

  /** Grown arrays show the same slots. */
  lemma GrownSeen(bs: seq<Bucket>, b: nat, x: Bucket)
    requires BucketsOk(bs) && b < |bs| && x.Ok() && x.size == bs[b].size
    requires x.ids[..x.size] == bs[b].ids[..x.size] && x.codes[..x.size] == bs[b].codes[..x.size]
    ensures BucketsOk(bs[b := x]) && View(bs[b := x]) == View(bs)
  {
    forall i | 0 <= i < x.size ensures x.ids[i] == bs[b].ids[i] && x.codes[i] == bs[b].codes[i] {
      assert x.ids[i] == x.ids[..x.size][i] && x.codes[i] == x.codes[..x.size][i];
    }
    assert x.Slots() == bs[b].Slots();
    assert View(bs[b := x]) == View(bs);
  }

  /** The entries after the committed ones are the given keys and codes. */
  ghost predicate Staged(x: Bucket, keys: seq<nat>, codes: seq<Code>) {
    && x.Ok() && |keys| == |codes| && x.size + |keys| <= |x.ids| && x.size + |keys| <= HALF
    && forall i :: 0 <= i < |keys| ==> x.ids[x.size + i] == keys[i] && x.codes[x.size + i] == codes[i]
  }

  ghost predicate Addable(slots: Slots, bitmap: set<nat>, keys: seq<nat>) {
    && (forall i, j :: 0 <= i < j < |keys| ==> keys[i] != keys[j])
    && (forall i :: 0 <= i < |keys| ==> keys[i] < MASK)
    && forall i :: 0 <= i < |keys| && keys[i] !in bitmap ==> NoLive(slots, bitmap, keys[i])
  }

  /** The grown arrays of a bucket; what lies beyond the committed entries is not read. */
  function Grown(x: Bucket, capacity: nat): (r: Bucket)
    requires x.Ok() && |x.ids| <= capacity
    ensures r.Ok() && r.size == x.size && |r.ids| == capacity
    ensures r.ids[..x.size] == x.ids[..x.size] && r.codes[..x.size] == x.codes[..x.size]
  {
    Bucket(x.ids[..x.size] + seq(capacity - x.size, i => 0),
           x.codes[..x.size] + seq(capacity - x.size, i => []), x.size)
  }

  lemma {:induction false} HeldEqual(n: nat, x: Bucket, unit: nat)
    ensures Held(seq(n, i => x), unit) == n * (|x.ids| * unit)
  {
    if n > 0 {
      HeldEqual(n - 1, x, unit);
      assert seq(n, i => x)[..n - 1] == seq(n - 1, i => x);
      assert n * (|x.ids| * unit) == (n - 1) * (|x.ids| * unit) + |x.ids| * unit;
    }
  }

  /** RTInvertBucketData: the arrays of all buckets, the count of dead slots in each, the
      packed position of each vector, and the documents deleted. */
  datatype BucketData = BucketData(buckets: seq<Bucket>, deleted: seq<nat>, table: seq<int>,
                                   bitmap: set<nat>)
  {
    ghost predicate Good(skip: set<nat>) {
      BucketsOk(buckets) && |deleted| == |buckets| && Inv(View(buckets), deleted, table, bitmap, skip)
    }

    /** The index as a map from vector to bucket and code. */
    ghost function Index(skip: set<nat> := {}): map<nat, (int, Code)>
      requires Good(skip)
    {
      Meaning(View(buckets), table, bitmap, skip)
    }

    predicate Has(v: nat) {
      Indexed(table, bitmap, v)
    }

    /** Vector `v` was given a position at some time. */
    predicate Placed(v: nat) {
      v < |table| && table[v] != -1
    }

    ghost function AllPlaced(): (r: set<nat>)
      ensures forall v: nat :: v in r <==> Placed(v)
    {
      set v: nat | v < |table| && Placed(v)
    }

    ghost predicate Lost(v: nat) {
      BucketsOk(buckets) && Has(v) && NoLive(View(buckets), bitmap, v)
    }
  }

  /** How many slots each bucket holds, and how many it has room for. */
  function Counts(bs: seq<Bucket>): (r: seq<nat>)
    ensures |r| == |bs| && forall b :: 0 <= b < |bs| ==> r[b] == bs[b].size
  {
    seq(|bs|, b requires 0 <= b < |bs| => bs[b].size)
  }

  function Rooms(bs: seq<Bucket>): (r: seq<nat>)
    ensures |r| == |bs| && forall b :: 0 <= b < |bs| ==> r[b] == |bs[b].ids|
  {
    seq(|bs|, b requires 0 <= b < |bs| => |bs[b].ids|)
  }

  lemma DimensionsPut(bs: seq<Bucket>, b: nat, y: Bucket)
    requires b < |bs|
    ensures Counts(bs[b := y]) == Counts(bs)[b := y.size]
    ensures Rooms(bs[b := y]) == Rooms(bs)[b := |y.ids|]
  {
  }

  lemma {:induction false} HeldSameArrays(a: seq<Bucket>, b: seq<Bucket>, unit: nat)
    requires Rooms(a) == Rooms(b)
    ensures Held(a, unit) == Held(b, unit)
  {
    assert |a| == |Rooms(a)| == |b|;
    if a != [] {
      assert |a[|a| - 1].ids| == Rooms(a)[|a| - 1] == |b[|b| - 1].ids|;
      assert Rooms(a[..|a| - 1]) == Rooms(a)[..|a| - 1] == Rooms(b[..|b| - 1]);
      HeldSameArrays(a[..|a| - 1], b[..|b| - 1], unit);
    }
  }

  /** Other arrays with the same committed entries. */
  lemma SameView(d: BucketData, e: BucketData, skip: set<nat>)
    requires d.Good(skip) && BucketsOk(e.buckets) && View(e.buckets) == View(d.buckets)
    requires e == d.(buckets := e.buckets)
    ensures e.Good(skip) && e.Index(skip) == d.Index(skip)
  {
  }

  lemma EmptyGood(n: nat, x: Bucket, nids: nat, bitmap: set<nat>)
    requires x.Ok() && x.size == 0 && nids > 0
    ensures var d := BucketData(seq(n, i => x), seq(n, i => 0), seq(nids, i => -1), bitmap);
            d.Good({}) && d.Index() == map[] && Uniform(View(d.buckets), 0)
  {
    var bs := seq(n, i => x);
    assert forall b :: 0 <= b < n ==> bs[b].Slots() == [];
    var none := seq(nids, i => -1);
    assert forall v :: !Indexed(none, bitmap, v);
  }

  // ---- adding keys ----

  /** The loop of AddKeys after `i` keys, committed so far only in the mind. */
  ghost predicate Adding(d: BucketData, b: nat, keys: seq<nat>, codes: seq<Code>, i: nat,
                         skip: set<nat>, m: map<nat, (int, Code)>)
  {
    && BucketsOk(d.buckets) && b < |d.buckets| && Staged(d.buckets[b], keys, codes) && i <= |keys|
    && Ahead(d, b, i).Good(skip)
    && Ahead(d, b, i).Index(skip) == AddAll(m, d.bitmap, b, keys[..i], codes[..i])
    && Addable(View(Ahead(d, b, i).buckets), d.bitmap, keys[i..])
    && (skip == {} || (i < |keys| && skip == {keys[i]}))
  }

  /** The data with `n` more entries of bucket `b` committed. */
  function Ahead(d: BucketData, b: nat, n: nat): BucketData
    requires b < |d.buckets|
  {
    d.(buckets := d.buckets[b := d.buckets[b].(size := d.buckets[b].size + n)])
  }

  function Seated(d: BucketData, b: nat, k: nat, pos: nat): BucketData
    requires b < |d.deleted| && k < |d.table|
  {
    d.(table := d.table[k := Pack(b, pos)], deleted := Raise(d.deleted, b, k in d.bitmap))
  }

  lemma AddingStep(d: BucketData, b: nat, keys: seq<nat>, codes: seq<Code>, i: nat,
                   skip: set<nat>, m: map<nat, (int, Code)>)
    requires Adding(d, b, keys, codes, i, skip, m) && i < |keys| && keys[i] < |d.table|
    ensures b < |d.deleted|
    ensures Adding(Seated(d, b, keys[i], d.buckets[b].size + i), b, keys, codes, i + 1, {}, m)
  {
    hide SlotsOk, TableOk, CountsOk, Meaning, AddAll, NoLive;
    var cur := Ahead(d, b, i);
    var k, c := keys[i], codes[i];
    assert keys[i..][0] == k;
    CommitSeen(cur.buckets, b);
    AppendStep(View(cur.buckets), d.deleted, d.table, d.bitmap, skip, b, k, c);
    AddAllSnoc(m, d.bitmap, b, keys, codes, i);
    var e := Seated(d, b, k, d.buckets[b].size + i);
    assert Ahead(e, b, i + 1).buckets == cur.buckets[b := cur.buckets[b].(size := cur.buckets[b].size + 1)];
    AddableRest(View(cur.buckets), View(Ahead(e, b, i + 1).buckets), d.bitmap, keys, i);
  }

  lemma AddableRest(slots: Slots, now: Slots, bitmap: set<nat>, keys: seq<nat>, i: nat)
    requires i < |keys| && Addable(slots, bitmap, keys[i..])
    requires forall v :: v != keys[i] && NoLive(slots, bitmap, v) ==> NoLive(now, bitmap, v)
    ensures Addable(now, bitmap, keys[i + 1..])
  {
    var rest, more := keys[i + 1..], keys[i..];
    assert forall j :: 0 <= j < |rest| ==> rest[j] == more[j + 1];
    assert more[0] == keys[i];
  }

  lemma AddingTable(d: BucketData, b: nat, keys: seq<nat>, codes: seq<Code>, i: nat,
                    skip: set<nat>, m: map<nat, (int, Code)>, n: nat)
    requires Adding(d, b, keys, codes, i, skip, m)
    ensures Adding(d.(table := d.table + seq(n, j => -1)), b, keys, codes, i, skip, m)
    ensures |d.table| > 0
  {
    hide SlotsOk, TableOk, CountsOk, Meaning, AddAll, Addable;
    var cur := Ahead(d, b, i);
    GrowTable(View(cur.buckets), d.deleted, d.table, d.bitmap, skip, n);
  }

  /** Doubles the position table until it has an entry for the key. */
  method ExtendIds(d: BucketData, b: nat, keys: seq<nat>, codes: seq<Code>, i: nat,
                   ghost skip: set<nat>, ghost m: map<nat, (int, Code)>)
    returns (e: BucketData)
    requires Adding(d, b, keys, codes, i, skip, m) && i < |keys|
    ensures Adding(e, b, keys, codes, i, skip, m)
    ensures e == d.(table := e.table) && keys[i] < |e.table|
    ensures forall v: nat :: e.Placed(v) <==> d.Placed(v)
  {
    hide Adding;
    e := d;
    AddingTable(d, b, keys, codes, i, skip, m, 0);
    while keys[i] >= |e.table|
      invariant Adding(e, b, keys, codes, i, skip, m)
      invariant e == d.(table := e.table) && |e.table| > 0
      invariant forall v: nat :: e.Placed(v) <==> d.Placed(v)
      decreases keys[i] - |e.table|
    {
      AddingTable(e, b, keys, codes, i, skip, m, |e.table|);
      e := e.(table := e.table + seq(|e.table|, j => -1));
    }
  }

  lemma AddingDone(d: BucketData, b: nat, keys: seq<nat>, codes: seq<Code>, skip: set<nat>,
                   m: map<nat, (int, Code)>)
    requires Adding(d, b, keys, codes, |keys|, skip, m)
    ensures skip == {} && b < |d.buckets| && |keys| == |codes| && Ahead(d, b, |keys|).Good({})
    ensures Ahead(d, b, |keys|).Index() == AddAll(m, d.bitmap, b, keys, codes)
  {
    assert keys[..|keys|] == keys && codes[..|keys|] == codes;
  }

  /** The loop of AddKeys: positions and dead counts; the committed size at the end. */
  method CommitKeys(d: BucketData, b: nat, keys: seq<nat>, codes: seq<Code>, ghost skip: set<nat>,
                    ghost m: map<nat, (int, Code)>)
    returns (e: BucketData)
    requires Adding(d, b, keys, codes, 0, skip, m) && b < |d.buckets| && |keys| == |codes|
    ensures e.Good({}) && e.Index() == AddAll(m, d.bitmap, b, keys, codes)
    ensures e.buckets == Ahead(d, b, |keys|).buckets && e.bitmap == d.bitmap
    ensures b < |d.deleted| && e.deleted == Bump(d.deleted, b, DeadAmong(keys, d.bitmap))
    ensures forall v: nat :: e.Placed(v) <==> d.Placed(v) || v in keys
  {
    hide Adding, AddAll;
    AddingDeleted(d, b, keys, codes, 0, skip, m);
    e := d;
    ghost var sk := skip;
    for i := 0 to |keys|
      invariant Adding(e, b, keys, codes, i, sk, m)
      invariant e.buckets == d.buckets && e.bitmap == d.bitmap
      invariant e.deleted == Bump(d.deleted, b, DeadAmong(keys[..i], d.bitmap))
      invariant forall v: nat :: e.Placed(v) <==> d.Placed(v) || v in keys[..i]
    {
      assert keys[..i + 1] == keys[..i] + [keys[i]] && keys[..i + 1][..i] == keys[..i];
      e := ExtendIds(e, b, keys, codes, i, sk, m);
      AddingStep(e, b, keys, codes, i, sk, m);
      e := Seated(e, b, keys[i], e.buckets[b].size + i);
      sk := {};
    }
    assert keys[..|keys|] == keys;
    AddingDone(e, b, keys, codes, sk, m);
    e := Ahead(e, b, |keys|);
  }

  lemma AddingDeleted(d: BucketData, b: nat, keys: seq<nat>, codes: seq<Code>, i: nat, skip: set<nat>,
                      m: map<nat, (int, Code)>)
    requires Adding(d, b, keys, codes, i, skip, m)
    ensures b < |d.buckets| == |d.deleted|
  {
  }

  lemma AddingStart(d: BucketData, b: nat, keys: seq<nat>, codes: seq<Code>, skip: set<nat>)
    requires d.Good(skip) && b < |d.buckets| && |keys| == |codes|
    requires d.buckets[b].size + |keys| <= |d.buckets[b].ids| && d.buckets[b].size + |keys| <= HALF
    requires Addable(View(d.buckets), d.bitmap, keys)
    requires skip == {} || (keys != [] && skip == {keys[0]})
    ensures var e := d.(buckets := d.buckets[b := Written(d.buckets[b], keys, codes)]);
            Adding(e, b, keys, codes, 0, skip, d.Index(skip))
  {
    hide SlotsOk, TableOk, CountsOk, Addable;
    var e := d.(buckets := d.buckets[b := Written(d.buckets[b], keys, codes)]);
    SpliceUnseen(d.buckets, b, keys, codes);
    SameView(d, e, skip);
    assert Ahead(e, b, 0) == e && keys[0..] == keys;
  }

  /** Writes the entries after the committed ones, then commits them. */
  method StoreKeys(d: BucketData, b: nat, keys: seq<nat>, codes: seq<Code>, ghost skip: set<nat>)
    returns (e: BucketData)
    requires d.Good(skip) && b < |d.buckets| && |keys| == |codes|
    requires d.buckets[b].size + |keys| <= |d.buckets[b].ids| && d.buckets[b].size + |keys| <= HALF
    requires Addable(View(d.buckets), d.bitmap, keys)
    requires skip == {} || (keys != [] && skip == {keys[0]})
    ensures e.Good({}) && e.bitmap == d.bitmap
    ensures e.Index() == AddAll(d.Index(skip), d.bitmap, b, keys, codes)
    ensures Rooms(e.buckets) == Rooms(d.buckets)
    ensures Counts(e.buckets) == Bump(Counts(d.buckets), b, |keys|)
    ensures e.deleted == Bump(d.deleted, b, DeadAmong(keys, d.bitmap))
    ensures View(e.buckets) == View(d.buckets)[b := View(d.buckets)[b] + Zip(keys, codes, |keys|)]
    ensures forall v: nat :: e.Placed(v) <==> d.Placed(v) || v in keys
  {
    hide Inv, Meaning, AddAll, Adding, Addable, DeadAmong, Bump;
    AddingStart(d, b, keys, codes, skip);
    var staged := d.(buckets := d.buckets[b := Written(d.buckets[b], keys, codes)]);
    e := CommitKeys(staged, b, keys, codes, skip, d.Index(skip));
    StoredSeen(d.buckets, b, keys, codes);
  }

  /** What was written behind the committed entries shows once it is committed. */
  lemma StoredSeen(bs: seq<Bucket>, b: nat, keys: seq<nat>, codes: seq<Code>)
    requires BucketsOk(bs) && b < |bs| && |keys| == |codes|
    requires bs[b].size + |keys| <= |bs[b].ids|
    ensures var x := Written(bs[b], keys, codes);
            var y := x.(size := x.size + |keys|);
            && BucketsOk(bs[b := y]) && Rooms(bs[b := y]) == Rooms(bs)
            && Counts(bs[b := y]) == Bump(Counts(bs), b, |keys|)
            && View(bs[b := y]) == View(bs)[b := View(bs)[b] + Zip(keys, codes, |keys|)]
  {
    var x := Written(bs[b], keys, codes);
    var y := x.(size := x.size + |keys|);
    SpliceUnseen(bs, b, keys, codes);
    var s, t := bs[b].Slots(), Zip(keys, codes, |keys|);
    assert View(bs[b := x])[b] == x.Slots() == s;
    forall i | 0 <= i < |s| + |t| ensures y.Slots()[i] == (s + t)[i] {
      if i < |s| {
        assert x.Slots()[i] == s[i];
      } else {
        assert x.ids[x.size + (i - |s|)] == keys[i - |s|];
      }
    }
    assert y.Slots() == s + t;
    ViewPut(bs, b, y);
    DimensionsPut(bs, b, y);
  }

  lemma FreshAddable(d: BucketData, keys: seq<nat>)
    requires d.Good({})
    requires forall i, j :: 0 <= i < j < |keys| ==> keys[i] != keys[j]
    requires forall i :: 0 <= i < |keys| ==> keys[i] < MASK
    requires forall i :: 0 <= i < |keys| && keys[i] < |d.table| ==> d.table[keys[i]] == -1
    ensures Addable(View(d.buckets), d.bitmap, keys)
  {
    forall i | 0 <= i < |keys| ensures NoLive(View(d.buckets), d.bitmap, keys[i]) {
      UnindexedNoLive(View(d.buckets), d.table, d.bitmap, keys[i]);
    }
  }

  lemma OneAddable(d: BucketData, v: nat)
    requires d.Lost(v) && v < MASK
    ensures Addable(View(d.buckets), d.bitmap, [v])
  {
  }

  lemma AddAllOne(m: map<nat, (int, Code)>, bitmap: set<nat>, b: nat, v: nat, code: Code)
    requires v !in bitmap
    ensures AddAll(m, bitmap, b, [v], [code]) == m[v := (b as int, code)]
  {
  }

  // ---- changing one slot ----

  /** The buckets with one committed entry replaced. */
  function Overwrite(bs: seq<Bucket>, b: nat, p: nat, word: nat, code: Code): (r: seq<Bucket>)
    requires BucketsOk(bs) && b < |bs| && p < bs[b].size
    ensures BucketsOk(r) && Counts(r) == Counts(bs) && Rooms(r) == Rooms(bs)
  {
    bs[b := bs[b].(ids := bs[b].ids[p := word], codes := bs[b].codes[p := code])]
  }

  lemma Overwritten(bs: seq<Bucket>, b: nat, p: nat, word: nat, code: Code)
    requires BucketsOk(bs) && b < |bs| && p < bs[b].size
    ensures View(Overwrite(bs, b, p, word, code)) == View(bs)[b := View(bs)[b][p := Slot(word, code)]]
  {
    var r := Overwrite(bs, b, p, word, code);
    assert r[b].Slots() == bs[b].Slots()[p := Slot(word, code)];
  }

  lemma Where(d: BucketData, v: nat)
    requires d.Good({}) && d.Has(v)
    ensures var b, p := BucketOf(d.table[v]), PosOf(d.table[v]);
            && 0 <= b < |d.buckets| && 0 <= p < d.buckets[b].size
            && View(d.buckets)[b][p] == Slot(d.buckets[b].ids[p], d.buckets[b].codes[p])
  {
    assert Found(View(d.buckets), d.table, d.bitmap, v);
  }

  /** Only the slot at the position of `v` changes: it is masked, or gets a new code. */
  ghost predicate SlotChanged(d: BucketData, e: BucketData, v: nat, mask: bool, code: Code) {
    && BucketsOk(d.buckets) && BucketsOk(e.buckets) && v < |d.table|
    && var s, b, p := View(d.buckets), BucketOf(d.table[v]), PosOf(d.table[v]);
       && At(s, b, p)
       && View(e.buckets) ==
          s[b := s[b][p := if mask then Slot(SetMask(s[b][p].word), s[b][p].code) else Slot(s[b][p].word, code)]]
  }

  /** Overwrites the code of an indexed vector where it is. */
  method Rewrite(d: BucketData, v: nat, code: Code) returns (e: BucketData)
    requires d.Good({}) && d.Has(v)
    ensures e.Good({}) && e == d.(buckets := e.buckets)
    ensures Counts(e.buckets) == Counts(d.buckets) && Rooms(e.buckets) == Rooms(d.buckets)
    ensures e.Index() == d.Index()[v := (BucketOf(d.table[v]), code)]
    ensures SlotChanged(d, e, v, false, code)
  {
    hide SlotsOk, TableOk, CountsOk, Meaning;
    Where(d, v);
    RecodeStep(View(d.buckets), d.deleted, d.table, d.bitmap, v, code);
    var b, p := BucketOf(d.table[v]), PosOf(d.table[v]);
    Overwritten(d.buckets, b, p, d.buckets[b].ids[p], code);
    e := d.(buckets := Overwrite(d.buckets, b, p, d.buckets[b].ids[p], code));
  }

  /** Masks the slot of an indexed vector and counts it as dead. */
  method MaskOut(d: BucketData, v: nat) returns (e: BucketData)
    requires d.Good({}) && d.Has(v)
    ensures e.Good({v}) && e.Lost(v) && 0 <= BucketOf(d.table[v]) < |d.deleted|
    ensures e == d.(buckets := e.buckets, deleted := Raise(d.deleted, BucketOf(d.table[v]), true))
    ensures Counts(e.buckets) == Counts(d.buckets) && Rooms(e.buckets) == Rooms(d.buckets)
    ensures e.Index({v}) == d.Index() - {v}
    ensures SlotChanged(d, e, v, true, [])
  {
    hide SlotsOk, TableOk, CountsOk, Meaning, NoLive;
    Where(d, v);
    MaskStep(View(d.buckets), d.deleted, d.table, d.bitmap, v);
    var b, p := BucketOf(d.table[v]), PosOf(d.table[v]);
    var word, code := SetMask(d.buckets[b].ids[p]), d.buckets[b].codes[p];
    Overwritten(d.buckets, b, p, word, code);
    e := d.(buckets := Overwrite(d.buckets, b, p, word, code), deleted := Raise(d.deleted, b, true));
  }

  lemma LostBad(d: BucketData, v: nat)
    requires d.Lost(v)
    ensures !d.Good({})
  {
    assert !Holds(View(d.buckets), d.bitmap, BucketOf(d.table[v]), PosOf(d.table[v]), v);
    assert !Found(View(d.buckets), d.table, d.bitmap, v);
  }

  /** Sets the document's bit and counts the vector's slot as dead. */
  method Drop(d: BucketData, v: nat) returns (e: BucketData)
    requires d.Good({}) && v < MASK && v !in d.bitmap
    ensures e.Good({}) && e.Index() == d.Index() - {v}
    ensures d.Has(v) ==> 0 <= BucketOf(d.table[v]) < |d.deleted|
    ensures e == d.(bitmap := d.bitmap + {v},
                    deleted := if d.Has(v) then Raise(d.deleted, BucketOf(d.table[v]), true) else d.deleted)
  {
    hide SlotsOk, TableOk, CountsOk, Meaning;
    DeleteStep(View(d.buckets), d.deleted, d.table, d.bitmap, v);
    e := d.(bitmap := d.bitmap + {v});
    if v < |d.table| && d.table[v] != -1 {
      e := e.(deleted := Raise(d.deleted, BucketOf(d.table[v]), true));
    }
  }

  // ---- compaction ----

  /** The compaction loop after `i` slots of `s`: `ids` and `codes` are the new arrays. */
  ghost predicate Moving(s: seq<Slot>, bitmap: set<nat>, i: nat, table: seq<int>, b: nat,
                         ids: seq<nat>, codes: seq<Code>, table': seq<int>)
  {
    && i <= |s| && |ids| == |codes| <= i
    && Zip(ids, codes, |ids|) == Live(s[..i], bitmap)
    && (forall j :: 0 <= j < |ids| ==> ids[j] < |table|)
    && table' == Repoint(table, b, Zip(ids, codes, |ids|))
  }

  lemma MoveNone(s: seq<Slot>, bitmap: set<nat>, i: nat, table: seq<int>, b: nat,
                 ids: seq<nat>, codes: seq<Code>, table': seq<int>)
    requires Moving(s, bitmap, i, table, b, ids, codes, table') && i < |s| && Dead(s[i], bitmap)
    ensures Moving(s, bitmap, i + 1, table, b, ids, codes, table')
  {
    assert s[..i + 1] == s[..i] + [s[i]];
    LiveSnoc(s[..i], s[i], bitmap);
  }

  lemma MoveOne(s: seq<Slot>, bitmap: set<nat>, i: nat, table: seq<int>, b: nat,
                ids: seq<nat>, codes: seq<Code>, table': seq<int>)
    requires Moving(s, bitmap, i, table, b, ids, codes, table') && i < |s| && !Dead(s[i], bitmap)
    requires s[i].word < |table|
    ensures Moving(s, bitmap, i + 1, table, b, ids + [s[i].word], codes + [s[i].code],
                   table'[s[i].word := Pack(b, |ids|)])
  {
    assert s[..i + 1] == s[..i] + [s[i]];
    LiveSnoc(s[..i], s[i], bitmap);
    var ids', codes' := ids + [s[i].word], codes + [s[i].code];
    var was, moved := Zip(ids, codes, |ids|), Zip(ids', codes', |ids'|);
    assert moved == was + [s[i]];
    assert moved[..|moved| - 1] == was;
  }

  /** The loop over the slots of a bucket. */
  method MoveLive(x: Bucket, bitmap: set<nat>, table: seq<int>, b: nat)
    returns (ids: seq<nat>, codes: seq<Code>, table': seq<int>)
    requires x.Ok() && forall y :: y in x.Slots() && !Dead(y, bitmap) ==> y.word < |table|
    ensures Moving(x.Slots(), bitmap, x.size, table, b, ids, codes, table')
  {
    ids, codes, table' := [], [], table;
    ghost var s := x.Slots();
    assert s[..0] == [] && Zip(ids, codes, 0) == [];
    for i := 0 to x.size
      invariant Moving(s, bitmap, i, table, b, ids, codes, table')
    {
      assert s[i] in s && s[i] == Slot(x.ids[i], x.codes[i]);
      if Masked(x.ids[i]) || x.ids[i] in bitmap {
        MoveNone(s, bitmap, i, table, b, ids, codes, table');
      } else {
        MoveOne(s, bitmap, i, table, b, ids, codes, table');
        table' := table'[x.ids[i] := Pack(b, |ids|)];
        ids, codes := ids + [x.ids[i]], codes + [x.codes[i]];
      }
    }
  }

  lemma MovedAll(d: BucketData, b: nat, ids: seq<nat>, codes: seq<Code>, table': seq<int>, y: Bucket)
    requires d.Good({}) && b < |d.buckets|
    requires Moving(d.buckets[b].Slots(), d.bitmap, d.buckets[b].size, d.table, b, ids, codes, table')
    requires y.Ok() && y.size == |ids| && y.ids[..|ids|] == ids && y.codes[..|ids|] == codes
    ensures var e := d.(buckets := d.buckets[b := y], deleted := d.deleted[b := 0], table := table');
            && e.Good({}) && e.Index() == d.Index()
            && View(e.buckets) == View(d.buckets)[b := Live(View(d.buckets)[b], d.bitmap)]
            && y.size == d.buckets[b].size - d.deleted[b]
  {
    hide SlotsOk, TableOk, CountsOk, Meaning, Moving, Live, Repoint, Compacted, Bucket.Slots, Inv;
    ViewPut(d.buckets, b, y);
    MovedSlots(d.buckets[b].Slots(), d.bitmap, d.table, b, ids, codes, table', y);
    MovedCompacted(View(d.buckets), d.table, d.bitmap, b, y.Slots(), table');
    CompactStep(View(d.buckets), d.deleted, d.table, d.bitmap, b, View(d.buckets[b := y]), table');
  }

  lemma ViewPut(bs: seq<Bucket>, b: nat, y: Bucket)
    requires BucketsOk(bs) && b < |bs| && y.Ok()
    ensures BucketsOk(bs[b := y]) && View(bs[b := y]) == View(bs)[b := y.Slots()]
    ensures View(bs)[b] == bs[b].Slots() && |View(bs)[b]| == bs[b].size && |y.Slots()| == y.size
  {
  }

  lemma MovedCompacted(slots: Slots, table: seq<int>, bitmap: set<nat>, b: nat, live: seq<Slot>, table': seq<int>)
    requires forall i :: 0 <= i < |live| ==> live[i].word < |table|
    requires b < |slots| && live == Live(slots[b], bitmap) && table' == Repoint(table, b, live)
    ensures Compacted(slots, table, bitmap, b, slots[b := live], table')
  {
  }

  lemma MovedSlots(s: seq<Slot>, bitmap: set<nat>, table: seq<int>, b: nat, ids: seq<nat>, codes: seq<Code>,
                   table': seq<int>, y: Bucket)
    requires Moving(s, bitmap, |s|, table, b, ids, codes, table')
    requires y.Ok() && y.size == |ids| && y.ids[..|ids|] == ids && y.codes[..|ids|] == codes
    ensures forall i :: 0 <= i < |y.Slots()| ==> y.Slots()[i].word < |table|
    ensures y.Slots() == Live(s, bitmap) && table' == Repoint(table, b, y.Slots())
  {
    assert s[..|s|] == s;
    assert forall i :: 0 <= i < |ids| ==> y.ids[i] == y.ids[..|ids|][i] && y.codes[i] == y.codes[..|ids|][i];
  }

  /** CompactBucket: the live slots go to new arrays of the same capacity. */
  method Compact(d: BucketData, b: nat) returns (e: BucketData)
    requires d.Good({}) && b < |d.buckets|
    ensures e.Good({}) && e.Index() == d.Index() && e.bitmap == d.bitmap
    ensures View(e.buckets) == View(d.buckets)[b := Live(View(d.buckets)[b], d.bitmap)]
    ensures e.deleted == d.deleted[b := 0]
    ensures e.buckets[b].size == d.buckets[b].size - d.deleted[b]
    ensures Rooms(e.buckets) == Rooms(d.buckets)
    ensures Counts(e.buckets) == Counts(d.buckets)[b := d.buckets[b].size - d.deleted[b]]
    ensures forall v: nat :: e.Placed(v) <==> d.Placed(v)
  {
    hide *;
    var x := d.buckets[b];
    LiveWords(d, b);
    var ids, codes, table' := MoveLive(x, d.bitmap, d.table, b);
    CompactRoom(d, b, ids, codes, table');
    var y := Bucket(ids + x.ids[|ids|..], codes + x.codes[|ids|..], |ids|);
    MovedAll(d, b, ids, codes, table', y);
    DimensionsPut(d.buckets, b, y);
    e := d.(buckets := d.buckets[b := y], deleted := d.deleted[b := 0], table := table');
    CompactPlaced(d, b, ids, codes, e);
  }

  /** Only vectors with a position are moved. */
  lemma CompactPlaced(d: BucketData, b: nat, ids: seq<nat>, codes: seq<Code>, e: BucketData)
    requires d.Good({}) && b < |d.buckets|
    requires Moving(d.buckets[b].Slots(), d.bitmap, d.buckets[b].size, d.table, b, ids, codes, e.table)
    ensures forall v: nat :: e.Placed(v) <==> d.Placed(v)
  {
    hide TableOk, CountsOk, Live;
    var slots := View(d.buckets);
    var live := Zip(ids, codes, |ids|);
    assert slots[b][..|slots[b]|] == slots[b];
    Survivors(slots, d.table, d.bitmap, b);
    forall i | 0 <= i < |live| ensures live[i].word < |d.table| && d.table[live[i].word] != -1 {
      assert live[i] in live;
      var k :| 0 <= k < |slots[b]| && slots[b][k] == live[i];
      assert At(slots, b, k);
    }
    RepointPlaced(d.table, b, live);
  }

  lemma {:induction false} RepointPlaced(table: seq<int>, b: nat, moved: seq<Slot>)
    requires forall i :: 0 <= i < |moved| ==> moved[i].word < |table| && table[moved[i].word] != -1
    ensures forall v :: 0 <= v < |table| ==> (Repoint(table, b, moved)[v] == -1 <==> table[v] == -1)
  {
    if moved != [] {
      RepointPlaced(table, b, moved[..|moved| - 1]);
    }
  }

  /** The new arrays have the capacity of the old ones. */
  lemma CompactRoom(d: BucketData, b: nat, ids: seq<nat>, codes: seq<Code>, table': seq<int>)
    requires d.Good({}) && b < |d.buckets|
    requires Moving(d.buckets[b].Slots(), d.bitmap, d.buckets[b].size, d.table, b, ids, codes, table')
    ensures |ids| == |codes| <= |d.buckets[b].ids| == |d.buckets[b].codes| && b < |d.deleted|
    ensures var x := d.buckets[b];
            var y := Bucket(ids + x.ids[|ids|..], codes + x.codes[|ids|..], |ids|);
            y.Ok() && y.size == |ids| && y.ids[..|ids|] == ids && y.codes[..|ids|] == codes
  {
    hide SlotsOk, TableOk, CountsOk, Moving, Live;
    MovingSizes(d.buckets[b].Slots(), d.bitmap, d.buckets[b].size, d.table, b, ids, codes, table');
  }

  lemma MovingSizes(s: seq<Slot>, bitmap: set<nat>, i: nat, table: seq<int>, b: nat, ids: seq<nat>,
                    codes: seq<Code>, table': seq<int>)
    requires Moving(s, bitmap, i, table, b, ids, codes, table')
    ensures |ids| == |codes| <= i <= |s|
  {
  }

  lemma LiveWords(d: BucketData, b: nat)
    requires d.Good({}) && b < |d.buckets|
    ensures d.buckets[b].Ok()
    ensures forall y :: y in d.buckets[b].Slots() && !Dead(y, d.bitmap) ==> y.word < |d.table|
  {
    var s := View(d.buckets)[b];
    forall y | y in s && !Dead(y, d.bitmap) ensures y.word < |d.table| {
      var i :| 0 <= i < |s| && s[i] == y;
      assert At(View(d.buckets), b, i);
    }
  }
}
