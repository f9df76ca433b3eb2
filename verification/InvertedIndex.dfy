/** RealTimeMemData: the inverted index object, its growth limit, and the memory it
    accounts for. Every call is a step of the abstract machine. */
module InvertedIndex {
  import opened ByteStrings
  import opened Lists
  import opened InvertedSpec
  import opened InvertedCompact
  import opened InvertedArrays
  import opened InvertedFormat
  import opened InvertedMachine

  /** The machine's view of the data. */
  ghost function Abs(d: BucketData, skip: set<nat>, time: seq<nat>, pending: seq<nat>, compacted: nat): Abstract
    requires d.Good(skip)
  {
    Abstract(d.Index(skip), d.bitmap, d.AllPlaced(), Counts(d.buckets), Rooms(d.buckets), time, d.deleted,
             pending, compacted)
  }

  ghost predicate TimesOk(time: seq<nat>, n: nat) {
    |time| == n && forall b :: 0 <= b < |time| ==> time[b] < 256
  }

  lemma AbsOk(d: BucketData, skip: set<nat>, time: seq<nat>, pending: seq<nat>, compacted: nat)
    requires d.Good(skip) && TimesOk(time, |d.buckets|)
    ensures Abs(d, skip, time, pending, compacted).Ok()
  {
    hide SlotsOk, CountsOk;
    var a := Abs(d, skip, time, pending, compacted);
    forall v | v in a.m ensures 0 <= a.m[v].0 < |a.size| && v in a.placed && v !in a.deleted {
      assert Found(View(d.buckets), d.table, d.bitmap, v) && d.Placed(v);
    }
  }

  /** Bucket `x` has no room for `n` more slots and may not grow. */
  predicate Refuses(x: Bucket, limit: nat, n: nat) {
    x.size + n > |x.ids| && |x.ids| * 2 >= limit
  }

  /** Room for n more slots: refused if twice the capacity reaches the limit, else of the first
      capacity in the series that is enough. */
  ghost predicate RoomMade(x: Bucket, y: Bucket, time: nat, n: nat, limit: nat, coefficient: nat -> real, ok: bool) {
    && (ok <==> x.size + n <= |x.ids| || |x.ids| * 2 < limit)
    && (ok && x.size + n > |x.ids| ==>
          exists k: nat :: StopsAt(|x.ids|, x.size + n, time, coefficient, k) &&
                           |y.ids| == CapacityAfter(|x.ids|, time, coefficient, k))
  }

  /** The arrays of bucket `b` were replaced if that was needed and possible. */
  ghost predicate Grew(d: BucketData, t: seq<nat>, p: seq<nat>, e: BucketData, t': seq<nat>, p': seq<nat>,
                       c: Settings, b: nat, n: nat)
    requires BucketsOk(d.buckets) && TimesOk(t, |d.buckets|) && b < |d.buckets| && Growing(c.coefficient)
  {
    var x := d.buckets[b];
    if x.size + n <= |x.ids| || Refuses(x, c.limit, n) then e == d && t' == t && p' == p
    else
      var g := Extended(|x.ids|, x.size + n, t[b], c.coefficient);
      && e == d.(buckets := d.buckets[b := Grown(x, g.0)])
      && t' == t[b := g.1] && p' == p + [|x.ids| * c.Unit()]
  }

  lemma GrewRoomy(d: BucketData, t: seq<nat>, p: seq<nat>, e: BucketData, t': seq<nat>, p': seq<nat>,
                  c: Settings, b: nat, n: nat, skip: set<nat>, k: nat)
    requires d.Good(skip) && TimesOk(t, |d.buckets|) && b < |d.buckets| && Growing(c.coefficient)
    requires Grew(d, t, p, e, t', p', c, b, n)
    ensures e.Good(skip) && |e.buckets| == |d.buckets| && Abs(d, skip, t, p, k).Ok()
    ensures View(e.buckets) == View(d.buckets) && e == d.(buckets := e.buckets)
    ensures Abs(e, skip, t', p', k) == Abs(d, skip, t, p, k).Roomy(c, b, n)
    ensures e.buckets[b].size == d.buckets[b].size
    ensures !Refuses(d.buckets[b], c.limit, n) ==> e.buckets[b].size + n <= |e.buckets[b].ids|
  {
    hide Inv, Meaning, Extended, Grown;
    AbsOk(d, skip, t, p, k);
    var x := d.buckets[b];
    if x.size + n > |x.ids| && !Refuses(x, c.limit, n) {
      var g := Extended(|x.ids|, x.size + n, t[b], c.coefficient);
      GrownSeen(d.buckets, b, Grown(x, g.0));
      DimensionsPut(d.buckets, b, Grown(x, g.0));
      SameView(d, e, skip);
    }
  }

  lemma AllowedAddable(d: BucketData, e: BucketData, keys: seq<nat>)
    requires d.Good({}) && e.Good({}) && e == d.(buckets := e.buckets) && NoDup(keys)
    requires forall i :: 0 <= i < |keys| ==> keys[i] < MASK && keys[i] !in d.AllPlaced()
    ensures Addable(View(e.buckets), e.bitmap, keys)
  {
    hide Inv;
    forall i | 0 <= i < |keys| && keys[i] < |e.table| ensures e.table[keys[i]] == -1 {
      assert !d.Placed(keys[i]);
    }
    FreshAddable(e, keys);
  }

  lemma PlacedMore(d: BucketData, e: BucketData, keys: seq<nat>)
    requires forall v: nat :: e.Placed(v) <==> d.Placed(v) || v in keys
    ensures e.AllPlaced() == d.AllPlaced() + Elements(keys)
  {
  }

  lemma StoredNow(d: BucketData, e: BucketData, skip: set<nat>, t: seq<nat>, p: seq<nat>, k: nat,
                  b: nat, keys: seq<nat>, codes: seq<Code>)
    requires d.Good(skip) && e.Good({}) && TimesOk(t, |d.buckets|) && b < |d.buckets| && |keys| == |codes|
    requires e.bitmap == d.bitmap && Rooms(e.buckets) == Rooms(d.buckets)
    requires e.Index() == AddAll(d.Index(skip), d.bitmap, b, keys, codes)
    requires Counts(e.buckets) == Bump(Counts(d.buckets), b, |keys|)
    requires b < |d.deleted| && e.deleted == Bump(d.deleted, b, DeadAmong(keys, d.bitmap))
    requires e.AllPlaced() == d.AllPlaced() + Elements(keys)
    ensures Abs(d, skip, t, p, k).Ok()
    ensures Abs(e, {}, t, p, k) == Abs(d, skip, t, p, k).Stored(b, keys, codes)
  {
    hide Inv, Meaning, AddAll, DeadAmong, Bump;
    AbsOk(d, skip, t, p, k);
  }

  lemma StoredUniform(slots: Slots, b: nat, keys: seq<nat>, codes: seq<Code>, width: nat)
    requires Uniform(slots, width) && b < |slots| && |keys| == |codes|
    requires forall i :: 0 <= i < |keys| ==> keys[i] < WORD && |codes[i]| == width
    ensures Uniform(slots[b := slots[b] + Zip(keys, codes, |keys|)], width)
  {
    var more := Zip(keys, codes, |keys|);
    forall x: Slot | x in slots[b] + more ensures x.word < WORD && |x.code| == width {
      if x !in slots[b] {
        var i :| 0 <= i < |more| && more[i] == x;
      }
    }
    UniformPut(slots, b, slots[b] + more, width);
  }

  lemma ChangedUniform(d: BucketData, e: BucketData, v: nat, mask: bool, code: Code, width: nat)
    requires SlotChanged(d, e, v, mask, code) && (mask || |code| == width)
    requires Uniform(View(d.buckets), width)
    ensures Uniform(View(e.buckets), width)
  {
    var b, p := BucketOf(d.table[v]), PosOf(d.table[v]);
    var s: Slots := View(d.buckets);
    var x: Slot := s[b][p];
    assert x in s[b];
    var y := if mask then Slot(SetMask(x.word), x.code) else Slot(x.word, code);
    FitPut(s[b], p, y, width);
    UniformPut(s, b, s[b][p := y], width);
  }

  lemma LiveUniform(slots: Slots, b: nat, bitmap: set<nat>, width: nat)
    requires Uniform(slots, width) && b < |slots|
    ensures Uniform(slots[b := Live(slots[b], bitmap)], width)
  {
    LiveMembers(slots[b], bitmap);
    UniformPut(slots, b, Live(slots[b], bitmap), width);
  }

  lemma MaskedNow(d: BucketData, e: BucketData, v: nat, t: seq<nat>, p: seq<nat>, k: nat)
    requires d.Good({}) && e.Good({v}) && TimesOk(t, |d.buckets|) && d.Has(v)
    requires 0 <= BucketOf(d.table[v]) < |d.deleted|
    requires e == d.(buckets := e.buckets, deleted := Raise(d.deleted, BucketOf(d.table[v]), true))
    requires Counts(e.buckets) == Counts(d.buckets) && Rooms(e.buckets) == Rooms(d.buckets)
    requires e.Index({v}) == d.Index() - {v}
    ensures Abs(d, {}, t, p, k).Ok() && v in d.Index() && d.Index()[v].0 == BucketOf(d.table[v])
    ensures Abs(e, {v}, t, p, k) == Abs(d, {}, t, p, k).Masked(v)
  {
    hide Inv;
    AbsOk(d, {}, t, p, k);
    IndexAt(d, v);
    assert e.AllPlaced() == d.AllPlaced();
  }

  lemma IndexAt(d: BucketData, v: nat)
    requires d.Good({})
    ensures v in d.Index() <==> d.Has(v)
    ensures d.Has(v) ==> d.Index()[v].0 == BucketOf(d.table[v])
  {
  }

  lemma RecodedNow(d: BucketData, e: BucketData, v: nat, code: Code, t: seq<nat>, p: seq<nat>, k: nat)
    requires d.Good({}) && e.Good({}) && e == d.(buckets := e.buckets) && d.Has(v)
    requires Counts(e.buckets) == Counts(d.buckets) && Rooms(e.buckets) == Rooms(d.buckets)
    requires e.Index() == d.Index()[v := (BucketOf(d.table[v]), code)]
    ensures Abs(e, {}, t, p, k) == Abs(d, {}, t, p, k).(m := d.Index()[v := (BucketOf(d.table[v]), code)])
  {
    hide Inv, Meaning;
    assert e.AllPlaced() == d.AllPlaced();
  }

  /** Masking, making room and storing, one after the other, is what a move is. */
  lemma MoveInSteps(a: Abstract, c: Settings, b: nat, v: nat, code: Code)
    requires a.Ok() && b < |a.size| && Growing(c.coefficient) && a.Moves(b, v) && v !in a.deleted
    ensures a.Masked(v).Ok()
    ensures a.Updated(c, b, v, code) == a.Masked(v).Roomy(c, b, 1).Stored(b, [v], [code])
  {
    hide Extended, Growing;
    var r := a.Masked(v).Roomy(c, b, 1);
    AddAllOne(r.m, r.deleted, b, v, code);
    assert (a.m - {v})[v := (b as int, code)] == a.m[v := (b as int, code)];
    assert DeadAmong([v], a.deleted) == 0;
    assert a.placed + Elements([v]) == a.placed;
  }

  lemma RemovedNow(d: BucketData, e: BucketData, v: nat, t: seq<nat>, p: seq<nat>, k: nat)
    requires d.Good({}) && e.Good({}) && TimesOk(t, |d.buckets|)
    requires d.Has(v) ==> 0 <= BucketOf(d.table[v]) < |d.deleted|
    requires e == d.(bitmap := d.bitmap + {v},
                     deleted := if d.Has(v) then Raise(d.deleted, BucketOf(d.table[v]), true) else d.deleted)
    requires e.Index() == d.Index() - {v}
    ensures Abs(d, {}, t, p, k).Ok() && Abs(e, {}, t, p, k) == Abs(d, {}, t, p, k).Removed(v)
  {
    hide Inv;
    AbsOk(d, {}, t, p, k);
    IndexAt(d, v);
    assert e.AllPlaced() == d.AllPlaced();
    if !d.Has(v) {
      assert d.Index() - {v} == d.Index();
    }
  }

  lemma SqueezedNow(d: BucketData, e: BucketData, b: nat, t: seq<nat>, p: seq<nat>, k: nat)
    requires d.Good({}) && e.Good({}) && TimesOk(t, |d.buckets|) && b < |d.buckets|
    requires e.bitmap == d.bitmap && e.Index() == d.Index()
    requires e.deleted == d.deleted[b := 0] && Rooms(e.buckets) == Rooms(d.buckets)
    requires d.deleted[b] <= d.buckets[b].size
    requires Counts(e.buckets) == Counts(d.buckets)[b := d.buckets[b].size - d.deleted[b]]
    requires forall v: nat :: e.Placed(v) <==> d.Placed(v)
    ensures Abs(d, {}, t, p, k).Ok()
    ensures Abs(e, {}, t, p + [0], k + d.deleted[b]) == Abs(d, {}, t, p, k).Squeezed(b)
  {
    hide Inv, Meaning;
    AbsOk(d, {}, t, p, k);
    assert e.AllPlaced() == d.AllPlaced();
  }

  /** At least three in ten slots of the first n buckets dead: these are compacted, and nothing else changed. */
  ghost predicate TidyTo(was: Slots, dead: seq<nat>, now: Slots, deleted: seq<nat>, bitmap: set<nat>, n: nat) {
    && |was| == |dead| == |now| == |deleted|
    && forall b :: 0 <= b < |was| ==>
         if b < n && |was[b]| > 0 && 10 * dead[b] >= 3 * |was[b]| then now[b] == Live(was[b], bitmap) && deleted[b] == 0
         else now[b] == was[b] && deleted[b] == dead[b]
  }

  lemma TidyNone(was: Slots, dead: seq<nat>, bitmap: set<nat>)
    requires |was| == |dead|
    ensures TidyTo(was, dead, was, dead, bitmap, 0)
  {
  }

  lemma TidyStep(was: Slots, dead: seq<nat>, now: Slots, deleted: seq<nat>, bitmap: set<nat>, b: nat)
    requires TidyTo(was, dead, now, deleted, bitmap, b) && b < |was|
    ensures b < |now| && b < |deleted|
    ensures if MostlyDead(|now[b]|, deleted[b])
            then TidyTo(was, dead, now[b := Live(now[b], bitmap)], deleted[b := 0], bitmap, b + 1)
            else TidyTo(was, dead, now, deleted, bitmap, b + 1)
  {
    hide Live;
    ThreeInTen(|now[b]|, deleted[b]);
  }

  lemma ThreeInTen(size: nat, dead: nat)
    ensures MostlyDead(size, dead) <==> size > 0 && 10 * dead >= 3 * size
  {
    if size > 0 {
      var q := dead as real / size as real;
      assert q * size as real == dead as real;
      if q >= 0.3 {
        assert (q - 0.3) * size as real >= 0.0;
      } else {
        assert (0.3 - q) * size as real > 0.0;
      }
    }
  }

  /** Afterwards no bucket is mostly dead. */
  lemma TidyDone(was: Slots, dead: seq<nat>, now: Slots, deleted: seq<nat>, bitmap: set<nat>, b: nat)
    requires TidyTo(was, dead, now, deleted, bitmap, |was|) && b < |now|
    ensures |now[b]| == 0 || 10 * deleted[b] < 3 * |now[b]|
  {
  }

  class RealTimeMemData {
    const limit: nat
    const codeBytes: nat
    const coefficient: nat -> real
    var cur: BucketData
    var extendTime: seq<nat>
    var compacted: nat
    var totalMem: nat
    var pending: seq<nat>

    function Config(): Settings {
      Settings(limit, codeBytes, coefficient)
    }

    function Unit(): nat {
      Config().Unit()
    }

    /** The memory counter is the fixed part, the arrays in use, and the replaced arrays
        whose delayed release is pending; every slot has a 64-bit word and a code of one width. */
    ghost predicate Accounted()
      reads this
    {
      && totalMem == 12 * |cur.buckets| + Held(cur.buckets, Unit()) + Sum(pending)
      && BucketsOk(cur.buckets) && TimesOk(extendTime, |cur.buckets|) && Growing(coefficient)
      && Uniform(View(cur.buckets), codeBytes)
    }

    ghost predicate Valid()
      reads this
    {
      Accounted() && cur.Good({})
    }

    ghost function Now(): (a: Abstract)
      reads this
      requires Valid()
      ensures a.Ok() && a.size == Counts(cur.buckets) && a.dead == cur.deleted && a.deleted == cur.bitmap
      ensures a.capacity == Rooms(cur.buckets)
      ensures Growing(Config().coefficient)
    {
      AbsOk(cur, {}, extendTime, pending, compacted);
      Abs(cur, {}, extendTime, pending, compacted)
    }

    constructor (bucketsNum: nat, bucketKeys: nat, limit: nat, codeBytes: nat, coefficient: nat -> real,
                 bitmap: set<nat>)
      requires bucketsNum > 0 && bucketKeys >= 10 && Growing(coefficient)
      ensures Valid() && Config() == Settings(limit, codeBytes, coefficient) && this.codeBytes == codeBytes
      ensures Now() == Abstract(map[], bitmap, {}, seq(bucketsNum, i => 0), seq(bucketsNum, i => bucketKeys),
                                seq(bucketsNum, i => 0), seq(bucketsNum, i => 0), [], 0)
      ensures Balanced(Now())
      ensures cur.table == seq(bucketsNum * bucketKeys, i => -1) && bucketsNum * bucketKeys > 0
    {
      this.limit, this.codeBytes, this.coefficient := limit, codeBytes, coefficient;
      var empty := Bucket(seq(bucketKeys, i => 0), seq(bucketKeys, i => []), 0);
      assert bucketsNum * bucketKeys > 0;
      cur := BucketData(seq(bucketsNum, i => empty), seq(bucketsNum, i => 0),
                        seq(bucketsNum * bucketKeys, i => -1), bitmap);
      extendTime := seq(bucketsNum, i => 0);
      compacted, pending := 0, [];
      totalMem := 12 * bucketsNum + bucketsNum * (bucketKeys * (8 + codeBytes));
      EmptyGood(bucketsNum, empty, bucketsNum * bucketKeys, bitmap);
      HeldEqual(bucketsNum, empty, 8 + codeBytes);
    }

    /** Makes room for `n` more slots, unless that is refused. Only capacity changes. */
    method ExtendBucketIfNeed(b: nat, n: nat) returns (ok: bool)
      requires Accounted() && b < |cur.buckets|
      modifies `cur, `extendTime, `totalMem, `pending
      ensures Accounted() && (ok <==> !Refuses(old(cur).buckets[b], limit, n))
      ensures |cur.buckets| == |old(cur).buckets|
      ensures RoomMade(old(cur).buckets[b], cur.buckets[b], old(extendTime)[b], n, limit, coefficient, ok)
      ensures Grew(old(cur), old(extendTime), old(pending), cur, extendTime, pending, Config(), b, n)
    {
      hide Extended, Uniform, Held, Sum, Growing, CapacityAfter, StopsAt;
      var x := cur.buckets[b];
      if x.size + n <= |x.ids| {
        return true;
      }
      if |x.ids| * 2 >= limit {
        return false;
      }
      var capacity, time := GrownSize(|x.ids|, x.size + n, extendTime[b], coefficient);
      ghost var k := StopsThere(|x.ids|, x.size + n, extendTime[b], coefficient);
      var grown := Grown(x, capacity);
      GrownSeen(cur.buckets, b, grown);
      HeldUpdate(cur.buckets, Unit(), b, grown);
      SumMore(pending, |x.ids| * Unit());
      cur := cur.(buckets := cur.buckets[b := grown]);
      extendTime := extendTime[b := time];
      totalMem := totalMem + capacity * Unit();
      pending := pending + [|x.ids| * Unit()];
      ok := true;
    }

    /** FreeOldData: the delayed release of replaced arrays, at any later time. */
    method FreeOldData(i: nat)
      requires Valid() && i < |pending|
      modifies `totalMem, `pending
      ensures Valid() && totalMem == old(totalMem) - old(pending)[i]
      ensures Now() == old(Now()).After(Config(), Free(i))
    {
      hide Inv, Meaning, Uniform, Held, Sum, Abstract.Ok, View;
      SumRemove(pending, i);
      totalMem := totalMem - pending[i];
      pending := pending[..i] + pending[i + 1..];
    }

    /** AddKeys: vectors without a position enter bucket `b`, all of them or none. */
    method AddKeys(b: nat, keys: seq<nat>, bytes: Bytes) returns (ok: bool)
      requires Valid() && Now().Allowed(Config(), Add(b, keys, bytes))
      modifies `cur, `extendTime, `totalMem, `pending
      ensures Valid() && Now() == old(Now()).Added(Config(), b, keys, bytes)
      ensures ok <==> old(Now()).Accepts(Config(), b, keys, bytes)
      ensures View(cur.buckets) ==
                var s := old(View(cur.buckets));
                if ok then s[b := s[b] + Zip(keys, Chop(bytes, codeBytes, |keys|), |keys|)] else s
    {
      hide RoomMade, Inv, Meaning, AddAll, DeadAmong, Extended, Chop, Held, Sum, Uniform, Addable;
      ok := ExtendBucketIfNeed(b, |keys|);
      GrewRoomy(old(cur), old(extendTime), old(pending), cur, extendTime, pending, Config(), b, |keys|, {}, compacted);
      if !ok || |keys| * codeBytes != |bytes| {
        return false;
      }
      AllowedAddable(old(cur), cur, keys);
      Store(b, keys, Chop(bytes, codeBytes, |keys|), {});
    }

    /** Writes and commits the vectors; there is room for them. */
    method Store(b: nat, keys: seq<nat>, codes: seq<Code>, ghost skip: set<nat>)
      requires Accounted() && cur.Good(skip) && b < |cur.buckets| && |keys| == |codes|
      requires cur.buckets[b].size + |keys| <= |cur.buckets[b].ids| && cur.buckets[b].size + |keys| <= HALF
      requires Addable(View(cur.buckets), cur.bitmap, keys)
      requires skip == {} || (keys != [] && skip == {keys[0]})
      requires forall i :: 0 <= i < |keys| ==> |codes[i]| == codeBytes
      modifies `cur
      ensures Valid() && Abs(old(cur), skip, extendTime, pending, compacted).Ok()
      ensures Now() == Abs(old(cur), skip, extendTime, pending, compacted).Stored(b, keys, codes)
      ensures View(cur.buckets) == old(View(cur.buckets))[b := old(View(cur.buckets))[b] + Zip(keys, codes, |keys|)]
    {
      hide Inv, Meaning, AddAll, DeadAmong, Held, Sum, Uniform;
      var e := StoreKeys(cur, b, keys, codes, skip);
      HeldSameArrays(e.buckets, cur.buckets, Unit());
      StoredUniform(View(cur.buckets), b, keys, codes, codeBytes);
      PlacedMore(cur, e, keys);
      StoredNow(cur, e, skip, extendTime, pending, compacted, b, keys, codes);
      cur := e;
    }

    /** Update, for a vector whose document is not deleted. A vector with a position gets
        the new code in bucket `b`. When it would have to move to a bucket that refuses to
        grow, and only then, its slot is masked without a replacement. The result is 1 for
        a move that succeeded and 0 in every other case. */
    method Update(b: nat, v: nat, code: Code) returns (ret: int)
      requires Valid() && b < |cur.buckets| && cur.buckets[b].size < HALF
      requires v !in cur.bitmap && v < MASK && (cur.Has(v) ==> |code| == Config().width)
      modifies `cur, `extendTime, `totalMem, `pending
      ensures var was := old(Now());
              if was.Moves(b, v) && was.Full(Config(), b, 1)
              then ret == 0 && Accounted() && cur.Lost(v) && !Valid()
              else Valid() && Now() == was.Updated(Config(), b, v, code)
                   && ret == if was.Moves(b, v) then 1 else 0
    {
      hide Inv, Meaning, NoLive, Held, Sum, BucketsOk, View, Uniform, Extended, Abstract.Roomy, Abstract.Ok,
           SlotChanged, Growing;
      IndexAt(cur, v);
      ret := 0;
      if v >= |cur.table| || cur.table[v] == -1 {
        return;
      }
      if BucketOf(cur.table[v]) == b {
        var e := Rewrite(cur, v, code);
        HeldSameArrays(e.buckets, cur.buckets, Unit());
        ChangedUniform(cur, e, v, false, code, codeBytes);
        RecodedNow(cur, e, v, code, extendTime, pending, compacted);
        cur := e;
      } else {
        ret := Relocate(b, v, code);
      }
    }

    /** Masks the vector's slot and adds the vector to bucket `b`. */
    method Relocate(b: nat, v: nat, code: Code) returns (ret: int)
      requires Valid() && b < |cur.buckets| && cur.buckets[b].size < HALF && |code| == codeBytes
      requires cur.Has(v) && v < MASK && Now().Moves(b, v)
      modifies `cur, `extendTime, `totalMem, `pending
      ensures if old(Now()).Full(Config(), b, 1)
              then ret == 0 && Accounted() && cur.Lost(v) && !Valid()
              else ret == 1 && Valid() && Now() == old(Now()).Updated(Config(), b, v, code)
    {
      hide Inv, Meaning, NoLive, Held, Sum, BucketsOk, View, Uniform, Extended, AddAll, DeadAmong;
      ghost var was := Now();
      var masked := MaskOut(cur, v);
      HeldSameArrays(masked.buckets, cur.buckets, Unit());
      ChangedUniform(cur, masked, v, true, [], codeBytes);
      MaskedNow(cur, masked, v, extendTime, pending, compacted);
      MoveInSteps(was, Config(), b, v, code);
      cur := masked;
      ret := Settle(b, v, code);
    }

    /** Adds a vector whose only slot was just masked. */
    method Settle(b: nat, v: nat, code: Code) returns (ret: int)
      requires Accounted() && b < |cur.buckets| && cur.buckets[b].size < HALF && |code| == codeBytes
      requires cur.Good({v}) && cur.Lost(v) && v < MASK
      modifies `cur, `extendTime, `totalMem, `pending
      ensures var was := Abs(old(cur), {v}, old(extendTime), old(pending), old(compacted));
              && was.Ok()
              && if was.Full(Config(), b, 1) then ret == 0 && Accounted() && cur.Lost(v) && !Valid()
                 else ret == 1 && Valid() && Now() == was.Roomy(Config(), b, 1).Stored(b, [v], [code])
    {
      hide Inv, Meaning, AddAll, NoLive, Held, Sum, BucketsOk, Addable, View, Uniform, Extended, DeadAmong;
      var ok := ExtendBucketIfNeed(b, 1);
      GrewRoomy(old(cur), old(extendTime), old(pending), cur, extendTime, pending, Config(), b, 1, {v}, compacted);
      if !ok {
        LostBad(cur, v);
        return 0;
      }
      OneAddable(cur, v);
      Store(b, [v], [code], {v});
      ret := 1;
    }

    /** Sets the document's bit and counts the vector's slot as dead; once per vector. */
    method Delete(v: nat)
      requires Valid() && v < MASK && v !in cur.bitmap
      modifies `cur
      ensures Valid() && cur.buckets == old(cur).buckets && cur.bitmap == old(cur).bitmap + {v}
      ensures Now() == old(Now()).Removed(v)
    {
      hide Inv, Meaning, Uniform;
      var e := Drop(cur, v);
      RemovedNow(cur, e, v, extendTime, pending, compacted);
      cur := e;
    }

    /** Enough of the bucket is dead. */
    predicate Compactable(b: nat)
      reads this
      requires b < |cur.buckets| && b < |cur.deleted|
    {
      MostlyDead(cur.buckets[b].size, cur.deleted[b])
    }

    /** Compacts one bucket: the order-preserving selection of its live slots. */
    method CompactBucket(b: nat)
      requires Valid() && b < |cur.buckets|
      modifies `cur, `compacted, `pending
      ensures Valid() && |cur.buckets| == |old(cur).buckets| && cur.bitmap == old(cur).bitmap
      ensures Now() == old(Now()).Squeezed(b)
      ensures View(cur.buckets) == old(View(cur.buckets))[b := Live(old(View(cur.buckets))[b], cur.bitmap)]
      ensures cur.deleted == old(cur).deleted[b := 0]
    {
      hide Inv, Meaning, Live, Uniform, Held, Sum;
      var e := Compact(cur, b);
      HeldSameArrays(e.buckets, cur.buckets, Unit());
      LiveUniform(View(cur.buckets), b, cur.bitmap, codeBytes);
      SqueezedNow(cur, e, b, extendTime, pending, compacted);
      SumMore(pending, 0);
      compacted := compacted + (cur.buckets[b].size - e.buckets[b].size);
      pending := pending + [0];
      cur := e;
    }

    /** Every bucket over the threshold is compacted, the others stay, and none is left over it. */
    method CompactIfNeed()
      requires Valid()
      modifies `cur, `compacted, `pending
      ensures Valid() && |cur.buckets| == |old(cur).buckets| && cur.bitmap == old(cur).bitmap
      ensures Now() == old(Now()).Tidied(|cur.buckets|)
      ensures TidyTo(old(View(cur.buckets)), old(cur.deleted), View(cur.buckets), cur.deleted, cur.bitmap, |cur.buckets|)
    {
      hide Inv, Meaning, Live, TidyTo, MostlyDead, Uniform, Abs, Abstract.Ok, Abstract.Squeezed, Held, Sum, View;
      ghost var was, dead := View(cur.buckets), cur.deleted;
      TidyNone(was, dead, cur.bitmap);
      for b := 0 to |cur.buckets|
        invariant Valid() && |cur.buckets| == |old(cur).buckets| && cur.bitmap == old(cur).bitmap
        invariant Now() == old(Now()).Tidied(b)
        invariant TidyTo(was, dead, View(cur.buckets), cur.deleted, cur.bitmap, b)
      {
        TidyStep(was, dead, View(cur.buckets), cur.deleted, cur.bitmap, b);
        if Compactable(b) {
          CompactBucket(b);
        }
      }
    }

    /** One call, made if it meets the hypotheses, does to the index what it does to the
        machine, and returns what the machine answers. */
    method Do(op: Op) returns (ret: int)
      requires Valid() && Now().Allowed(Config(), op)
      modifies this
      ensures Valid() && Now() == old(Now()).After(Config(), op)
      ensures ret == old(Now()).Answer(Config(), op)
    {
      hide Inv, Meaning, AddAll, BucketsOk, View, Uniform, Extended, Chop, Held, Sum;
      ret := 0;
      match op
      case Add(b, keys, bytes) =>
        var ok := AddKeys(b, keys, bytes);
        ret := if ok then 1 else 0;
      case Update(b, v, code) => IndexAt(cur, v); ret := this.Update(b, v, code);
      case Delete(v) => this.Delete(v);
      case CompactAll => CompactIfNeed();
      case Free(i) => FreeOldData(i);
    }

    /** Every run of calls that each meet the hypotheses when they are made: the index ends
        in the state, and has given the answers, of the machine. If every bucket had as many
        live slots as the map had vectors in it, that is so at the end. */
    method Run(ops: seq<Op>) returns (rets: seq<int>)
      requires Valid() && Legal(Now(), Config(), ops)
      modifies this
      ensures Valid() && Now() == Replay(old(Now()), Config(), ops)
      ensures old(Balanced(Now())) ==> Balanced(Now())
      ensures |rets| == |ops|
      ensures forall i :: 0 <= i < |ops| ==>
                rets[i] == Replay(old(Now()), Config(), ops[..i]).Answer(Config(), ops[i])
    {
      hide *;
      rets := [];
      ghost var a, c := Now(), Config();
      ReplayStart(a, c, ops);
      for i := 0 to |ops|
        invariant Valid() && Now() == Replay(a, c, ops[..i]) && |rets| == i
        invariant forall k :: 0 <= k < i ==> rets[k] == Replay(a, c, ops[..k]).Answer(c, ops[k])
      {
        ReplayStep(a, c, ops, i);
        var ret := Do(ops[i]);
        rets := rets + [ret];
      }
      assert ops[..|ops|] == ops;
      if Balanced(a) {
        ReplayBalanced(a, c, ops);
      }
    }
  }

  /** Bucket 1 of two buckets is filled. */
  lemma FillsBucket(a: Abstract, c: Settings, keys: seq<nat>, bytes: Bytes)
    requires a.Ok() && a.size == [0, 0] && a.capacity == [10, 10] && a.placed == {} && a.deleted == {}
    requires Growing(c.coefficient) && c.limit == 20 && c.width == 1
    requires NoDup(keys) && |keys| == |bytes| == 10 && forall v :: v in keys ==> v < 10
    ensures a.Allowed(c, Add(1, keys, bytes))
    ensures var r := a.Added(c, 1, keys, bytes);
            r.Ok() && r.size == [0, 10] && r.capacity == [10, 10] && 10 !in r.placed && r.deleted == {}
  {
    hide AddAll, DeadAmong, Chop, Extended, Growing;
    assert a.Accepts(c, 1, keys, bytes);
    assert forall i :: 0 <= i < |keys| ==> keys[i] in keys;
    StoredOk(a, 1, keys, Chop(bytes, 1, 10));
    assert Bump(a.size, 1, 10) == [0, 10];
  }

  lemma FillsOther(a: Abstract, c: Settings)
    requires a.Ok() && a.size == [0, 10] && a.capacity == [10, 10] && 10 !in a.placed && a.deleted == {}
    requires Growing(c.coefficient) && c.limit == 20 && c.width == 1
    ensures a.Allowed(c, Add(0, [10], [7]))
    ensures var r := a.Added(c, 0, [10], [7]);
            r.Ok() && r.size == [1, 10] && r.Moves(1, 10) && r.Full(c, 1, 1) && r.deleted == {}
    ensures 10 < HALF && 10 < MASK
  {
    hide AddAll, DeadAmong, Chop, Extended, Growing;
    var codes := Chop([7], 1, 1);
    StoredOk(a, 0, [10], codes);
    AddAllRange(a.m, a.deleted, 0, [10], codes, 10);
    assert Bump(a.size, 0, 1) == [1, 10];
  }

  /** A short run after which a vector is stranded: bucket 1 is full and may not grow when
      vector 10 is to move there. */
  method Stranding(coefficient: nat -> real) returns (rt: RealTimeMemData, ret: int)
    requires Growing(coefficient)
    ensures fresh(rt) && ret == 0 && rt.cur.Lost(10) && !rt.Valid()
  {
    hide *;
    rt := new RealTimeMemData(2, 10, 20, 1, coefficient, {});
    var keys: seq<nat> := [0, 1, 2, 3, 4, 5, 6, 7, 8, 9];
    ghost var c := Settings(20, 1, coefficient);
    assert seq(2, i => 0) == [0, 0] && seq(2, i => 10) == [10, 10];
    var bytes: Bytes := [0, 0, 0, 0, 0, 0, 0, 0, 0, 0];
    TenKeys(keys);
    FillsBucket(rt.Now(), c, keys, bytes);
    var ok := rt.AddKeys(1, keys, bytes);
    FillsOther(rt.Now(), c);
    ok := rt.AddKeys(0, [10], [7]);
    assert rt.cur.buckets[1].size == rt.Now().size[1];
    ret := rt.Update(1, 10, [8]);
  }

  lemma TenKeys(keys: seq<nat>)
    requires keys == [0, 1, 2, 3, 4, 5, 6, 7, 8, 9]
    ensures NoDup(keys)
  {
  }
}
