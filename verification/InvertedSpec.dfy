/** The real-time inverted index as committed slots per bucket, a packed position per
    vector id, and a counter of dead slots per bucket. */
module InvertedSpec {
  import opened ByteStrings

  /** kDelIdxMask as an unsigned number: the top bit of a 64-bit id word. */
  const MASK: nat := 0x8000_0000_0000_0000
  const HALF: nat := 0x1_0000_0000

  type Code = seq<byte>

  datatype Slot = Slot(word: nat, code: Code)

  type Slots = seq<seq<Slot>>

  predicate Masked(word: nat) {
    word >= MASK
  }

  function SetMask(word: nat): nat {
    if Masked(word) then word else word + MASK
  }

  /** A slot that a scan skips: masked, or its document is deleted. */
  predicate Dead(s: Slot, bitmap: set<nat>) {
    Masked(s.word) || s.word in bitmap
  }

  function Pack(b: nat, p: nat): int {
    b * HALF + p
  }

  function BucketOf(packed: int): int {
    packed / HALF
  }

  function PosOf(packed: int): int {
    packed % HALF
  }

  ghost predicate At(slots: Slots, b: int, p: int) {
    0 <= b < |slots| && 0 <= p < |slots[b]|
  }

  /** The slot at (b, p) is alive and holds vector `v`. */
  ghost predicate Holds(slots: Slots, bitmap: set<nat>, b: int, p: int, v: nat) {
    At(slots, b, p) && slots[b][p].word == v && !Dead(slots[b][p], bitmap)
  }

  /** Vector `v` has a position and is not deleted. */
  predicate Indexed(table: seq<int>, bitmap: set<nat>, v: nat) {
    v < |table| && table[v] != -1 && v !in bitmap
  }

  ghost predicate Found(slots: Slots, table: seq<int>, bitmap: set<nat>, v: nat)
    requires v < |table|
  {
    Holds(slots, bitmap, BucketOf(table[v]), PosOf(table[v]), v)
  }

  /** Words of 64 bits, and codes of one width. */
  const WORD: nat := 0x1_0000_0000_0000_0000

  ghost predicate Uniform(slots: Slots, width: nat) {
    forall b :: 0 <= b < |slots| ==> AllFit(slots[b], width)
  }

  ghost predicate AllFit(s: seq<Slot>, width: nat) {
    forall x :: x in s ==> x.word < WORD && |x.code| == width
  }

  lemma UniformPut(slots: Slots, b: nat, s: seq<Slot>, width: nat)
    requires Uniform(slots, width) && b < |slots| && AllFit(s, width)
    ensures Uniform(slots[b := s], width)
  {
  }

  lemma FitPut(s: seq<Slot>, p: nat, x: Slot, width: nat)
    requires AllFit(s, width) && p < |s| && x.word < WORD && |x.code| == width
    ensures AllFit(s[p := x], width)
  {
    forall y | y in s[p := x] ensures y.word < WORD && |y.code| == width {
      var i :| 0 <= i < |s| && s[p := x][i] == y;
      assert i == p || s[i] in s;
    }
  }

  /** Every live slot is where the table says its vector is. */
  ghost predicate SlotsOk(slots: Slots, table: seq<int>, bitmap: set<nat>) {
    forall b, p :: At(slots, b, p) && !Dead(slots[b][p], bitmap) ==>
      slots[b][p].word < |table| && table[slots[b][p].word] == Pack(b, p)
  }

  /** Every indexed vector, other than `skip`, is held at its position. */
  ghost predicate TableOk(slots: Slots, table: seq<int>, bitmap: set<nat>, skip: set<nat>) {
    forall v :: Indexed(table, bitmap, v) && v !in skip ==> Found(slots, table, bitmap, v)
  }

  function DeadCount(s: seq<Slot>, bitmap: set<nat>): nat {
    if s == [] then 0
    else DeadCount(s[..|s| - 1], bitmap) + if Dead(s[|s| - 1], bitmap) then 1 else 0
  }

  ghost predicate CountsOk(slots: Slots, deleted: seq<nat>, bitmap: set<nat>) {
    |deleted| == |slots| &&
    forall b :: 0 <= b < |slots| ==> deleted[b] == DeadCount(slots[b], bitmap)
  }

  ghost predicate SmallEnough(slots: Slots) {
    forall b :: 0 <= b < |slots| ==> |slots[b]| <= HALF
  }

  ghost predicate Inv(slots: Slots, deleted: seq<nat>, table: seq<int>, bitmap: set<nat>,
                      skip: set<nat>) {
    && SmallEnough(slots) && |table| > 0
    && SlotsOk(slots, table, bitmap) && TableOk(slots, table, bitmap, skip)
    && CountsOk(slots, deleted, bitmap)
  }

  lemma Unpacked(b: nat, p: nat)
    requires p < HALF
    ensures BucketOf(Pack(b, p)) == b && PosOf(Pack(b, p)) == p && Pack(b, p) == b * 0x1_0000_0000 + p
  {
  }

  /** The index as a map from vector to bucket and code, without the vectors `skip`. */
  ghost function Meaning(slots: Slots, table: seq<int>, bitmap: set<nat>, skip: set<nat> := {})
    : (r: map<nat, (int, Code)>)
    requires TableOk(slots, table, bitmap, skip)
    ensures forall v :: v in r <==> Indexed(table, bitmap, v) && v !in skip
    ensures forall v :: v in r ==> Found(slots, table, bitmap, v) && r[v] == Entry(slots, table, v)
  {
    map v: nat | v < |table| && Indexed(table, bitmap, v) && v !in skip ::
      (assert Found(slots, table, bitmap, v); Entry(slots, table, v))
  }

  ghost function Entry(slots: Slots, table: seq<int>, v: nat): (int, Code)
    requires v < |table| && At(slots, BucketOf(table[v]), PosOf(table[v]))
  {
    (BucketOf(table[v]), slots[BucketOf(table[v])][PosOf(table[v])].code)
  }

  /** A scan of the live slots yields exactly the map, each vector once. */
  lemma ScanIsMeaning(slots: Slots, table: seq<int>, bitmap: set<nat>, b: nat, p: nat, v: nat)
    requires SmallEnough(slots) && SlotsOk(slots, table, bitmap)
    requires TableOk(slots, table, bitmap, {})
    ensures Holds(slots, bitmap, b, p, v) <==>
              v in Meaning(slots, table, bitmap) && At(slots, b, p) && table[v] == Pack(b, p)
    ensures Holds(slots, bitmap, b, p, v) ==>
              Meaning(slots, table, bitmap)[v] == (b, slots[b][p].code)
  {
    if At(slots, b, p) {
      Unpacked(b, p);
    }
  }

  lemma {:induction false} DeadCountBound(s: seq<Slot>, bitmap: set<nat>)
    ensures DeadCount(s, bitmap) <= |s|
  {
    if s != [] {
      DeadCountBound(s[..|s| - 1], bitmap);
    }
  }

  lemma DeadCountAppend(s: seq<Slot>, x: Slot, bitmap: set<nat>)
    ensures DeadCount(s + [x], bitmap) == DeadCount(s, bitmap) + if Dead(x, bitmap) then 1 else 0
  {
    assert (s + [x])[..|s|] == s;
  }

  /** Killing one live slot raises the count by one. */
  lemma {:induction false} DeadCountKill(s: seq<Slot>, p: nat, x: Slot, bitmap: set<nat>)
    requires p < |s| && !Dead(s[p], bitmap) && Dead(x, bitmap)
    ensures DeadCount(s[p := x], bitmap) == DeadCount(s, bitmap) + 1
  {
    var t := s[p := x];
    if p == |s| - 1 {
      assert t[..|s| - 1] == s[..|s| - 1];
    } else {
      DeadCountKill(s[..|s| - 1], p, x, bitmap);
      assert t[..|s| - 1] == s[..|s| - 1][p := x];
    }
  }

  /** Deleting a document kills its live slots; with at most one, the count rises by
      at most one. */
  lemma {:induction false} DeadCountDelete(s: seq<Slot>, bitmap: set<nat>, v: nat)
    requires v < MASK && v !in bitmap
    requires forall i, j :: 0 <= i < j < |s| && s[i].word == v ==> s[j].word != v
    ensures DeadCount(s, bitmap + {v}) ==
              DeadCount(s, bitmap) + if exists i :: 0 <= i < |s| && s[i].word == v then 1 else 0
  {
    if s != [] {
      var r := s[..|s| - 1];
      DeadCountDelete(r, bitmap, v);
      assert (exists i :: 0 <= i < |s| && s[i].word == v) <==>
             (exists i :: 0 <= i < |r| && r[i].word == v) || s[|s| - 1].word == v by {
        if exists i :: 0 <= i < |s| && s[i].word == v {
          var i :| 0 <= i < |s| && s[i].word == v;
          assert i < |r| ==> r[i].word == v;
        }
        if exists i :: 0 <= i < |r| && r[i].word == v {
          var i :| 0 <= i < |r| && r[i].word == v;
          assert s[i].word == v;
        }
      }
    }
  }

  ghost predicate NoLive(slots: Slots, bitmap: set<nat>, v: nat) {
    forall b, p :: !Holds(slots, bitmap, b, p, v)
  }

  /** A vector without a position has no live slot. */
  lemma UnindexedNoLive(slots: Slots, table: seq<int>, bitmap: set<nat>, v: nat)
    requires SlotsOk(slots, table, bitmap) && (v < |table| ==> table[v] == -1)
    ensures NoLive(slots, bitmap, v)
  {
  }

  /** Committing one slot at the end of bucket `b` for a vector without a live slot. */
  function Append(slots: Slots, b: nat, s: Slot): (r: Slots)
    requires b < |slots|
  {
    slots[b := slots[b] + [s]]
  }

  /** One entry raised by `n`. */
  function Bump(s: seq<nat>, b: nat, n: nat): (r: seq<nat>)
    requires b < |s|
    ensures |r| == |s| && r[b] == s[b] + n && forall i :: 0 <= i < |s| && i != b ==> r[i] == s[i]
  {
    s[b := s[b] + n]
  }

  function Raise(deleted: seq<nat>, b: nat, dead: bool): seq<nat>
    requires b < |deleted|
  {
    if dead then deleted[b := deleted[b] + 1] else deleted
  }

  lemma AppendSlots(slots: Slots, table: seq<int>, bitmap: set<nat>, skip: set<nat>,
                    b: nat, k: nat, c: Code)
    requires SmallEnough(slots) && SlotsOk(slots, table, bitmap) && TableOk(slots, table, bitmap, skip)
    requires b < |slots| && |slots[b]| < HALF && k < |table| && k < MASK && skip <= {k}
    requires k !in bitmap ==> NoLive(slots, bitmap, k)
    ensures SmallEnough(Append(slots, b, Slot(k, c)))
    ensures SlotsOk(Append(slots, b, Slot(k, c)), table[k := Pack(b, |slots[b]|)], bitmap)
    ensures TableOk(Append(slots, b, Slot(k, c)), table[k := Pack(b, |slots[b]|)], bitmap, {})
  {
    var now := Append(slots, b, Slot(k, c));
    var table' := table[k := Pack(b, |slots[b]|)];
    Unpacked(b, |slots[b]|);
    forall b', p | At(now, b', p) && !Dead(now[b'][p], bitmap)
      ensures now[b'][p].word < |table'| && table'[now[b'][p].word] == Pack(b', p)
    {
      if b' != b || p < |slots[b]| {
        assert now[b'][p] == slots[b'][p];
        assert k !in bitmap ==> !Holds(slots, bitmap, b', p, k);
      }
    }
    forall v | Indexed(table', bitmap, v) ensures Found(now, table', bitmap, v) {
      if v != k {
        assert Indexed(table, bitmap, v) && Found(slots, table, bitmap, v);
      }
    }
  }

  lemma AppendMeaning(slots: Slots, table: seq<int>, bitmap: set<nat>, skip: set<nat>,
                      b: nat, k: nat, c: Code)
    requires TableOk(slots, table, bitmap, skip) && skip <= {k}
    requires b < |slots| && |slots[b]| < HALF && k < |table|
    requires TableOk(Append(slots, b, Slot(k, c)), table[k := Pack(b, |slots[b]|)], bitmap, {})
    ensures var m := Meaning(slots, table, bitmap, skip);
            Meaning(Append(slots, b, Slot(k, c)), table[k := Pack(b, |slots[b]|)], bitmap)
            == if k in bitmap then m else m[k := (b as int, c)]
  {
    Unpacked(b, |slots[b]|);
    var m := Meaning(slots, table, bitmap, skip);
    var now, table' := Append(slots, b, Slot(k, c)), table[k := Pack(b, |slots[b]|)];
    var r := Meaning(now, table', bitmap);
    forall v | v in m && v != k ensures v in r && r[v] == m[v] {
      assert Indexed(table', bitmap, v) && Found(slots, table, bitmap, v);
    }
    forall v | v in r && v != k ensures v in m {
      assert Indexed(table, bitmap, v);
    }
    assert k !in bitmap ==> Indexed(table', bitmap, k);
  }

  lemma AppendStep(slots: Slots, deleted: seq<nat>, table: seq<int>, bitmap: set<nat>, skip: set<nat>,
                   b: nat, k: nat, c: Code)
    requires Inv(slots, deleted, table, bitmap, skip) && skip <= {k}
    requires b < |slots| && |slots[b]| < HALF && k < |table| && k < MASK
    requires k !in bitmap ==> NoLive(slots, bitmap, k)
    ensures Inv(Append(slots, b, Slot(k, c)), Raise(deleted, b, k in bitmap),
                table[k := Pack(b, |slots[b]|)], bitmap, {})
    ensures Meaning(Append(slots, b, Slot(k, c)), table[k := Pack(b, |slots[b]|)], bitmap)
            == var m := Meaning(slots, table, bitmap, skip);
               if k in bitmap then m else m[k := (b as int, c)]
    ensures forall v :: v != k && NoLive(slots, bitmap, v) ==>
              NoLive(Append(slots, b, Slot(k, c)), bitmap, v)
  {
    hide TableOk, SlotsOk;
    AppendSlots(slots, table, bitmap, skip, b, k, c);
    AppendMeaning(slots, table, bitmap, skip, b, k, c);
    DeadCountAppend(slots[b], Slot(k, c), bitmap);
    forall v | v != k && NoLive(slots, bitmap, v)
      ensures NoLive(Append(slots, b, Slot(k, c)), bitmap, v)
    {
      forall b', p ensures !Holds(Append(slots, b, Slot(k, c)), bitmap, b', p, v) {
        assert !Holds(slots, bitmap, b', p, v);
      }
    }
  }

  function Mark(slots: Slots, b: nat, p: nat): (r: Slots)
    requires b < |slots| && p < |slots[b]|
  {
    slots[b := slots[b][p := Slot(SetMask(slots[b][p].word), slots[b][p].code)]]
  }

  lemma MaskMeaning(slots: Slots, table: seq<int>, bitmap: set<nat>, b: nat, p: nat, v: nat)
    requires SmallEnough(slots) && TableOk(slots, table, bitmap, {}) && SlotsOk(slots, table, bitmap)
    requires Holds(slots, bitmap, b, p, v)
    ensures TableOk(Mark(slots, b, p), table, bitmap, {v}) && SlotsOk(Mark(slots, b, p), table, bitmap)
    ensures NoLive(Mark(slots, b, p), bitmap, v)
    ensures Meaning(Mark(slots, b, p), table, bitmap, {v}) == Meaning(slots, table, bitmap) - {v}
  {
    var now := Mark(slots, b, p);
    forall u | Indexed(table, bitmap, u) && u != v
      ensures Found(now, table, bitmap, u) && Entry(now, table, u) == Entry(slots, table, u)
    {
      assert Found(slots, table, bitmap, u);
    }
    forall b', p' ensures !Holds(now, bitmap, b', p', v) {
      if Holds(slots, bitmap, b', p', v) {
        Unpacked(b', p');
        Unpacked(b, p);
      }
    }
    forall b', p' | At(now, b', p') && !Dead(now[b'][p'], bitmap)
      ensures now[b'][p'].word < |table| && table[now[b'][p'].word] == Pack(b', p')
    {
      assert now[b'][p'] == slots[b'][p'];
    }
  }

  /** Masking the slot of an indexed vector, before it moves to another bucket. */
  lemma MaskStep(slots: Slots, deleted: seq<nat>, table: seq<int>, bitmap: set<nat>, v: nat)
    requires Inv(slots, deleted, table, bitmap, {}) && Indexed(table, bitmap, v)
    ensures var b, p := BucketOf(table[v]), PosOf(table[v]);
            && At(slots, b, p) && |deleted| == |slots|
            && Inv(Mark(slots, b, p), Raise(deleted, b, true), table, bitmap, {v})
            && NoLive(Mark(slots, b, p), bitmap, v) && Masked(Mark(slots, b, p)[b][p].word)
            && Meaning(Mark(slots, b, p), table, bitmap, {v}) == Meaning(slots, table, bitmap) - {v}
  {
    var b, p := BucketOf(table[v]), PosOf(table[v]);
    assert Found(slots, table, bitmap, v);
    MaskMeaning(slots, table, bitmap, b, p, v);
    DeadCountKill(slots[b], p, Slot(SetMask(slots[b][p].word), slots[b][p].code), bitmap);
  }

  function Recode(slots: Slots, b: nat, p: nat, c: Code): (r: Slots)
    requires b < |slots| && p < |slots[b]|
  {
    slots[b := slots[b][p := Slot(slots[b][p].word, c)]]
  }

  lemma {:induction false} DeadCountRecode(s: seq<Slot>, p: nat, c: Code, bitmap: set<nat>)
    requires p < |s|
    ensures DeadCount(s[p := Slot(s[p].word, c)], bitmap) == DeadCount(s, bitmap)
  {
    var t := s[p := Slot(s[p].word, c)];
    if p == |s| - 1 {
      assert t[..|s| - 1] == s[..|s| - 1];
    } else {
      DeadCountRecode(s[..|s| - 1], p, c, bitmap);
      assert t[..|s| - 1] == s[..|s| - 1][p := Slot(s[p].word, c)];
    }
  }

  /** Overwriting the code of an indexed vector in place. */
  lemma RecodeStep(slots: Slots, deleted: seq<nat>, table: seq<int>, bitmap: set<nat>, v: nat, c: Code)
    requires Inv(slots, deleted, table, bitmap, {}) && Indexed(table, bitmap, v)
    ensures var b, p := BucketOf(table[v]), PosOf(table[v]);
            && At(slots, b, p)
            && Inv(Recode(slots, b, p, c), deleted, table, bitmap, {})
            && Meaning(Recode(slots, b, p, c), table, bitmap)
               == Meaning(slots, table, bitmap)[v := (b, c)]
  {
    var b, p := BucketOf(table[v]), PosOf(table[v]);
    assert Found(slots, table, bitmap, v);
    var now := Recode(slots, b, p, c);
    DeadCountRecode(slots[b], p, c, bitmap);
    assert CountsOk(now, deleted, bitmap);
    hide CountsOk, SlotsOk, TableOk, SmallEnough;
    RecodeFound(slots, table, bitmap, b, p, v, c);
    RecodeSlots(slots, table, bitmap, b, p, c);
  }

  lemma RecodeSlots(slots: Slots, table: seq<int>, bitmap: set<nat>, b: nat, p: nat, c: Code)
    requires SmallEnough(slots) && SlotsOk(slots, table, bitmap) && b < |slots| && p < |slots[b]|
    ensures SmallEnough(Recode(slots, b, p, c)) && SlotsOk(Recode(slots, b, p, c), table, bitmap)
  {
    var now := Recode(slots, b, p, c);
    forall x, y | At(now, x, y) && !Dead(now[x][y], bitmap)
      ensures now[x][y].word < |table| && table[now[x][y].word] == Pack(x, y)
    {
      assert At(slots, x, y);
    }
  }

  lemma RecodeFound(slots: Slots, table: seq<int>, bitmap: set<nat>, b: nat, p: nat, v: nat, c: Code)
    requires SmallEnough(slots) && SlotsOk(slots, table, bitmap) && TableOk(slots, table, bitmap, {})
    requires Indexed(table, bitmap, v) && Holds(slots, bitmap, b, p, v)
    requires b == BucketOf(table[v]) && p == PosOf(table[v])
    ensures TableOk(Recode(slots, b, p, c), table, bitmap, {})
    ensures Meaning(Recode(slots, b, p, c), table, bitmap) == Meaning(slots, table, bitmap)[v := (b as int, c)]
  {
    hide SmallEnough;
    var now := Recode(slots, b, p, c);
    forall u | Indexed(table, bitmap, u)
      ensures Found(now, table, bitmap, u)
      ensures Entry(now, table, u) == if u == v then (b as int, c) else Entry(slots, table, u)
    {
      assert Found(slots, table, bitmap, u);
    }
  }

  /** Setting the document's bit and counting the slot at the vector's position. */
  lemma DeleteStep(slots: Slots, deleted: seq<nat>, table: seq<int>, bitmap: set<nat>, v: nat)
    requires Inv(slots, deleted, table, bitmap, {}) && v < MASK && v !in bitmap
    ensures var placed := v < |table| && table[v] != -1;
            && (placed ==> 0 <= BucketOf(table[v]) < |deleted|)
            && Inv(slots, if placed then Raise(deleted, BucketOf(table[v]), true) else deleted,
                   table, bitmap + {v}, {})
            && Meaning(slots, table, bitmap + {v}) == Meaning(slots, table, bitmap) - {v}
  {
    DeleteCounts(slots, deleted, table, bitmap, v);
    DeleteMeaning(slots, table, bitmap, v);
  }

  lemma DeleteMeaning(slots: Slots, table: seq<int>, bitmap: set<nat>, v: nat)
    requires SlotsOk(slots, table, bitmap) && TableOk(slots, table, bitmap, {})
    ensures SlotsOk(slots, table, bitmap + {v}) && TableOk(slots, table, bitmap + {v}, {})
    ensures Meaning(slots, table, bitmap + {v}) == Meaning(slots, table, bitmap) - {v}
  {
    forall u | Indexed(table, bitmap + {v}, u) ensures Found(slots, table, bitmap + {v}, u) {
      assert Indexed(table, bitmap, u) && Found(slots, table, bitmap, u);
    }
    var m, r := Meaning(slots, table, bitmap), Meaning(slots, table, bitmap + {v});
    forall u | u in m && u != v ensures u in r {
      assert Indexed(table, bitmap + {v}, u);
    }
    forall u | u in r ensures u in m {
      assert Indexed(table, bitmap, u);
    }
  }

  lemma DeleteCounts(slots: Slots, deleted: seq<nat>, table: seq<int>, bitmap: set<nat>, v: nat)
    requires Inv(slots, deleted, table, bitmap, {}) && v < MASK && v !in bitmap
    ensures var placed := v < |table| && table[v] != -1;
            && (placed ==> 0 <= BucketOf(table[v]) < |deleted|)
            && CountsOk(slots, if placed then Raise(deleted, BucketOf(table[v]), true) else deleted,
                        bitmap + {v})
  {
    var placed := v < |table| && table[v] != -1;
    if placed {
      assert Indexed(table, bitmap, v) && Found(slots, table, bitmap, v);
    }
    forall b | 0 <= b < |slots|
      ensures DeadCount(slots[b], bitmap + {v}) ==
                deleted[b] + if placed && b == BucketOf(table[v]) then 1 else 0
    {
      var s := slots[b];
      forall i | 0 <= i < |s| && s[i].word == v
        ensures placed && table[v] == Pack(b, i) && b == BucketOf(table[v]) && i == PosOf(table[v])
      {
        assert At(slots, b, i) && !Dead(slots[b][i], bitmap);
        Unpacked(b, i);
      }
      DeadCountDelete(s, bitmap, v);
    }
  }

  /** A longer position table without new positions. */
  lemma GrowTable(slots: Slots, deleted: seq<nat>, table: seq<int>, bitmap: set<nat>,
                  skip: set<nat>, n: nat)
    requires Inv(slots, deleted, table, bitmap, skip)
    ensures Inv(slots, deleted, table + seq(n, i => -1), bitmap, skip)
    ensures Meaning(slots, table + seq(n, i => -1), bitmap, skip) == Meaning(slots, table, bitmap, skip)
  {
    var longer := table + seq(n, i => -1);
    forall v | Indexed(longer, bitmap, v) && v !in skip ensures Found(slots, longer, bitmap, v) {
      assert Indexed(table, bitmap, v) && Found(slots, table, bitmap, v);
    }
    forall v ensures Indexed(longer, bitmap, v) <==> Indexed(table, bitmap, v) {
    }
  }
}
