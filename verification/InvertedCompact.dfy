/** Compaction of one bucket: the live slots move together, in order, and the
    positions of their vectors follow. */
module InvertedCompact {
  import opened InvertedSpec

  /** The live slots, in order. */
  function Live(s: seq<Slot>, bitmap: set<nat>): (r: seq<Slot>) {
    if s == [] then []
    else Live(s[..|s| - 1], bitmap) +
         (if Dead(s[|s| - 1], bitmap) then [] else [s[|s| - 1]])
  }

  lemma LiveSnoc(s: seq<Slot>, x: Slot, bitmap: set<nat>)
    ensures Live(s + [x], bitmap) == Live(s, bitmap) + if Dead(x, bitmap) then [] else [x]
  {
    assert (s + [x])[..|s|] == s;
  }

  /** Exactly the live slots survive, and dropping the dead ones shortens by their count. */
  lemma {:induction false} LiveMembers(s: seq<Slot>, bitmap: set<nat>)
    ensures forall x :: x in Live(s, bitmap) <==> x in s && !Dead(x, bitmap)
    ensures |Live(s, bitmap)| + DeadCount(s, bitmap) == |s|
  {
    if s != [] {
      LiveMembers(s[..|s| - 1], bitmap);
      assert s == s[..|s| - 1] + [s[|s| - 1]];
    }
  }

  lemma {:induction false} LiveAllAlive(s: seq<Slot>, bitmap: set<nat>)
    requires forall i :: 0 <= i < |s| ==> !Dead(s[i], bitmap)
    ensures DeadCount(s, bitmap) == 0
  {
    if s != [] {
      LiveAllAlive(s[..|s| - 1], bitmap);
    }
  }

  ghost predicate DistinctWords(s: seq<Slot>) {
    forall i, j :: 0 <= i < j < |s| ==> s[i].word != s[j].word
  }

  ghost predicate DistinctLive(s: seq<Slot>, bitmap: set<nat>) {
    forall i, j :: 0 <= i < j < |s| && !Dead(s[i], bitmap) && !Dead(s[j], bitmap) ==>
      s[i].word != s[j].word
  }

  lemma {:induction false} LiveDistinct(s: seq<Slot>, bitmap: set<nat>)
    requires DistinctLive(s, bitmap)
    ensures DistinctWords(Live(s, bitmap))
  {
    if s != [] {
      var r := s[..|s| - 1];
      LiveDistinct(r, bitmap);
      LiveMembers(r, bitmap);
      var l := Live(r, bitmap);
      forall i | 0 <= i < |l| && !Dead(s[|s| - 1], bitmap) ensures l[i].word != s[|s| - 1].word {
        assert l[i] in l;
        var k :| 0 <= k < |r| && r[k] == l[i];
        assert s[k] == l[i];
      }
    }
  }

  /** The table after the vectors of `moved` were placed at 0, 1, ... of bucket `b`. */
  function Repoint(table: seq<int>, b: nat, moved: seq<Slot>): (r: seq<int>)
    requires forall i :: 0 <= i < |moved| ==> moved[i].word < |table|
    ensures |r| == |table|
  {
    if moved == [] then table
    else Repoint(table, b, moved[..|moved| - 1])[moved[|moved| - 1].word := Pack(b, |moved| - 1)]
  }

  lemma {:induction false} Repointed(table: seq<int>, b: nat, moved: seq<Slot>)
    requires forall i :: 0 <= i < |moved| ==> moved[i].word < |table|
    requires DistinctWords(moved)
    ensures forall i :: 0 <= i < |moved| ==> Repoint(table, b, moved)[moved[i].word] == Pack(b, i)
    ensures forall v :: 0 <= v < |table| && (forall i :: 0 <= i < |moved| ==> moved[i].word != v) ==>
              Repoint(table, b, moved)[v] == table[v]
  {
    if moved != [] {
      var r := moved[..|moved| - 1];
      Repointed(table, b, r);
      assert forall i :: 0 <= i < |r| ==> r[i] == moved[i];
    }
  }

  ghost predicate Compacted(slots: Slots, table: seq<int>, bitmap: set<nat>, b: nat,
                            now: Slots, table': seq<int>)
  {
    && b < |slots|
    && now == slots[b := Live(slots[b], bitmap)]
    && (forall i :: 0 <= i < |now[b]| ==> now[b][i].word < |table|)
    && table' == Repoint(table, b, now[b])
  }

  /** Facts about the survivors of a bucket: distinct vectors, each at its own position. */
  lemma Survivors(slots: Slots, table: seq<int>, bitmap: set<nat>, b: nat)
    requires SmallEnough(slots) && SlotsOk(slots, table, bitmap) && b < |slots|
    ensures var l := Live(slots[b], bitmap);
            && DistinctWords(l) && |l| <= |slots[b]|
            && forall i :: 0 <= i < |l| ==> l[i].word < |table| && !Dead(l[i], bitmap)
    ensures forall x :: x in Live(slots[b], bitmap) <==> x in slots[b] && !Dead(x, bitmap)
  {
    var s := slots[b];
    LiveMembers(s, bitmap);
    forall i, j | 0 <= i < j < |s| && !Dead(s[i], bitmap) && !Dead(s[j], bitmap)
      ensures s[i].word != s[j].word
    {
      assert At(slots, b, i) && At(slots, b, j);
      Unpacked(b, i);
      Unpacked(b, j);
    }
    LiveDistinct(s, bitmap);
    var l := Live(s, bitmap);
    forall i | 0 <= i < |l| ensures l[i].word < |table| && !Dead(l[i], bitmap) {
      assert l[i] in l;
      var k :| 0 <= k < |s| && s[k] == l[i];
      assert At(slots, b, k);
    }
  }

  /** Where vector `v` is after compaction of bucket `b`. */
  lemma MovedTo(slots: Slots, table: seq<int>, bitmap: set<nat>, b: nat, now: Slots,
                table': seq<int>, v: nat)
    requires SmallEnough(slots) && SlotsOk(slots, table, bitmap) && TableOk(slots, table, bitmap, {})
    requires Compacted(slots, table, bitmap, b, now, table') && Indexed(table', bitmap, v)
    ensures Indexed(table, bitmap, v)
    ensures Found(now, table', bitmap, v) && Found(slots, table, bitmap, v)
    ensures Entry(now, table', v) == Entry(slots, table, v)
  {
    hide Live, Repoint, SmallEnough, SlotsOk, TableOk;
    Survivors(slots, table, bitmap, b);
    Repointed(table, b, now[b]);
    if i :| 0 <= i < |now[b]| && now[b][i].word == v {
      MovedInside(slots, table, bitmap, b, now, table', v, i);
    } else {
      MovedElsewhere(slots, table, bitmap, b, now, table', v);
    }
  }

  lemma MovedInside(slots: Slots, table: seq<int>, bitmap: set<nat>, b: nat, now: Slots, table': seq<int>, v: nat,
                    i: nat)
    requires SmallEnough(slots) && SlotsOk(slots, table, bitmap) && b < |slots| == |now| && |table'| == |table|
    requires i < |now[b]| <= |slots[b]| && now[b][i].word == v < |table| && table'[v] == Pack(b, i)
    requires now[b][i] in slots[b] && !Dead(now[b][i], bitmap)
    ensures Indexed(table, bitmap, v) && Found(now, table', bitmap, v) && Found(slots, table, bitmap, v)
    ensures Entry(now, table', v) == Entry(slots, table, v)
  {
    var k :| 0 <= k < |slots[b]| && slots[b][k] == now[b][i];
    assert At(slots, b, k);
    Unpacked(b, i);
    Unpacked(b, k);
  }

  lemma MovedElsewhere(slots: Slots, table: seq<int>, bitmap: set<nat>, b: nat, now: Slots, table': seq<int>, v: nat)
    requires TableOk(slots, table, bitmap, {}) && b < |slots| == |now| && |table'| == |table| && now == slots[b := now[b]]
    requires Indexed(table', bitmap, v) && table'[v] == table[v]
    requires forall i :: 0 <= i < |now[b]| ==> now[b][i].word != v
    requires forall x :: x in now[b] <==> x in slots[b] && !Dead(x, bitmap)
    ensures Indexed(table, bitmap, v) && Found(now, table', bitmap, v) && Found(slots, table, bitmap, v)
    ensures Entry(now, table', v) == Entry(slots, table, v)
  {
    assert Indexed(table, bitmap, v) && Found(slots, table, bitmap, v);
    var x := slots[BucketOf(table[v])][PosOf(table[v])];
    assert x in slots[BucketOf(table[v])] && x !in now[b];
  }

  lemma StillIndexed(slots: Slots, table: seq<int>, bitmap: set<nat>, b: nat, now: Slots,
                     table': seq<int>, v: nat)
    requires SmallEnough(slots) && SlotsOk(slots, table, bitmap)
    requires Compacted(slots, table, bitmap, b, now, table') && Indexed(table, bitmap, v)
    ensures Indexed(table', bitmap, v)
  {
    Survivors(slots, table, bitmap, b);
    Repointed(table, b, now[b]);
    if i :| 0 <= i < |now[b]| && now[b][i].word == v {
      Unpacked(b, i);
    }
  }

  lemma CompactSlots(slots: Slots, table: seq<int>, bitmap: set<nat>, b: nat, now: Slots,
                     table': seq<int>)
    requires SmallEnough(slots) && SlotsOk(slots, table, bitmap)
    requires Compacted(slots, table, bitmap, b, now, table')
    ensures SmallEnough(now) && SlotsOk(now, table', bitmap)
  {
    Survivors(slots, table, bitmap, b);
    Repointed(table, b, now[b]);
    forall b', p | At(now, b', p) && !Dead(now[b'][p], bitmap)
      ensures now[b'][p].word < |table'| && table'[now[b'][p].word] == Pack(b', p)
    {
      if b' != b {
        var w := now[b'][p].word;
        assert At(slots, b', p) && table[w] == Pack(b', p);
        Unpacked(b', p);
        forall i | 0 <= i < |now[b]| ensures now[b][i].word != w {
          assert now[b][i] in now[b];
          var k :| 0 <= k < |slots[b]| && slots[b][k] == now[b][i];
          assert At(slots, b, k);
          Unpacked(b, k);
        }
      }
    }
  }

  /** Compaction keeps the invariant and the meaning, and leaves no dead slot behind. */
  lemma CompactStep(slots: Slots, deleted: seq<nat>, table: seq<int>, bitmap: set<nat>, b: nat,
                    now: Slots, table': seq<int>)
    requires Inv(slots, deleted, table, bitmap, {})
    requires Compacted(slots, table, bitmap, b, now, table')
    ensures Inv(now, deleted[b := 0], table', bitmap, {})
    ensures Meaning(now, table', bitmap) == Meaning(slots, table, bitmap)
    ensures |now[b]| == |slots[b]| - deleted[b]
  {
    hide SlotsOk, Repoint;
    CompactSlots(slots, table, bitmap, b, now, table');
    Survivors(slots, table, bitmap, b);
    LiveAllAlive(now[b], bitmap);
    LiveMembers(slots[b], bitmap);
    forall v | Indexed(table', bitmap, v)
      ensures Indexed(table, bitmap, v) && Found(now, table', bitmap, v) && Found(slots, table, bitmap, v)
      ensures Entry(now, table', v) == Entry(slots, table, v)
    {
      MovedTo(slots, table, bitmap, b, now, table', v);
    }
    forall v | Indexed(table, bitmap, v) ensures Indexed(table', bitmap, v) {
      StillIndexed(slots, table, bitmap, b, now, table', v);
    }
  }
}
