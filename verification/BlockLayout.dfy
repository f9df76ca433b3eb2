/** Where the items of a segment lie in its file, in blocks and under cache keys: positions
    and keys are numbers of 32 bits. */
module BlockLayout {
  import opened Arithmetic
  import opened ByteStrings
  import AsyncWriter

  const WRAP: nat := 0x1_0000_0000
  /** seg_header_size_: the sizes of the eight fields before the items. */
  const HEADER: nat := 30
  const MAX_BLOCK_SIZE: nat := 0x1_0000

  /** item_length_, per_block_size_, max_size_ and seg_block_capacity_. */
  datatype Layout = Layout(item: nat, per: nat, maxSize: nat, capacity: nat) {
    /** A block is at most 64 KB and holds whole items, every item begins below 4 GiB, and a
        segment has no more blocks than keys. */
    ghost predicate Ok() {
      && 0 < item && 0 < per <= MAX_BLOCK_SIZE && per % item == 0 && 0 < maxSize && 0 < capacity
      && Reach(item, maxSize) && FileSize() <= Start(capacity)
    }

    function FileSize(): nat {
      maxSize * item
    }

    /** Where block b starts in the file. */
    function Start(b: nat): nat {
      b * per
    }

    /** Blocks of a full segment. */
    function Blocks(): nat {
      if per == 0 then 0 else (FileSize() + per - 1) / per
    }

    /** GetCacheBlockId. */
    function Key(seg: nat, b: nat): nat {
      (seg * capacity + b) % WRAP
    }
  }

  /** Every one of n items begins at a position below 4 GiB. */
  predicate Reach(item: nat, n: nat) {
    n > 0 && HEADER + (n - 1) * item < WRAP
  }

  /** The position the code computes for a byte of the items: start and header_size_ + start have 32 bits. */
  function Address(x: nat): nat {
    (HEADER + x % WRAP) % WRAP
  }

  lemma AddressIs(x: nat)
    ensures HEADER + x < WRAP ==> Address(x) == HEADER + x
    ensures WRAP <= HEADER + x < 2 * WRAP ==> Address(x) == HEADER + x - WRAP
  {
  }

  // ---- Blocks ----

  lemma StartOrder(l: Layout, a: nat, b: nat)
    ensures a <= b ==> l.Start(a) <= l.Start(b)
    ensures a < b ==> l.Start(a) + l.per <= l.Start(b)
  {
    if a < b {
      Scale(a + 1, b, l.per);
    } else if a == b {
      Scale(a, b, l.per);
    }
  }

  /** start / per_block_size_ and start % per_block_size_ locate a position in its block. */
  lemma Locate(l: Layout, x: nat)
    requires l.per > 0
    ensures x / l.per >= 0 && x % l.per < l.per && x == l.Start(x / l.per) + x % l.per
  {
    DivFloor(x, l.per);
  }

  /** A block that begins inside the file is one of Blocks(), and those have keys below the capacity. */
  lemma BlockInRange(l: Layout, b: nat)
    requires l.per > 0
    ensures b < l.Blocks() <==> l.Start(b) < l.FileSize()
    ensures l.FileSize() <= l.Start(l.capacity) && b < l.Blocks() ==> b < l.capacity
  {
    var x, k := l.FileSize(), l.Blocks();
    DivFloor(x + l.per - 1, l.per);
    StartOrder(l, b, k);
    StartOrder(l, k, b);
    StartOrder(l, l.capacity, b);
    if b < k {
      StartOrder(l, b, k - 1);
      assert (k - 1) * l.per == k * l.per - l.per;
    }
  }

  lemma BlocksBound(l: Layout)
    requires l.Ok()
    ensures 0 < l.Blocks() <= l.capacity && l.Blocks() <= WRAP
  {
    hide Reach;
    BlockInRange(l, 0);
    Scale(1, l.maxSize, l.item);
    BlockInRange(l, l.Blocks() - 1);
    FewBlocks(l);
  }

  lemma FewBlocks(l: Layout)
    requires l.Ok()
    ensures l.Blocks() <= WRAP
  {
    Factor(l.per, l.item);
    BlockInRange(l, l.maxSize);
    Scale(l.item, l.per, l.maxSize);
    Scale(1, l.item, l.maxSize - 1);
  }

  lemma Factor(per: nat, item: nat)
    requires 0 < item && 0 < per && per % item == 0
    ensures item <= per && per == per / item * item && per / item > 0
  {
    DivFloor(per, item);
  }

  /** A block begins with an item. */
  lemma BlockAligned(l: Layout, s: nat)
    requires 0 < l.item && 0 < l.per && l.per % l.item == 0 && s % l.per == 0
    ensures s % l.item == 0
  {
    DivFloor(s, l.per);
    Factor(l.per, l.item);
    var b, q := s / l.per, l.per / l.item;
    Regroup(b, q, l.item);
    DivUnique(s, l.item, b * q, 0);
  }

  lemma Regroup(a: nat, b: nat, c: nat)
    ensures a * (b * c) == (a * b) * c
  {
  }

  lemma StartReached(l: Layout, s: nat)
    requires l.Ok() && s % l.item == 0 && s < l.FileSize()
    ensures HEADER + s < WRAP
  {
    DivFloor(s, l.item);
    var r := s / l.item;
    if r >= l.maxSize {
      Scale(l.maxSize, r, l.item);
    } else {
      Scale(r, l.maxSize - 1, l.item);
    }
  }

  lemma ItemReached(l: Layout, r: nat)
    requires l.Ok() && r < l.maxSize
    ensures HEADER + r * l.item < WRAP
  {
    Scale(r, l.maxSize - 1, l.item);
  }

  // ---- Cache keys ----

  /** No two segments are a multiple of 2^32 keys apart, give or take their blocks. */
  ghost predicate Apart(l: Layout, segments: nat, blocks: nat) {
    forall d: nat :: 0 < d < segments ==> Clear(l, d, blocks)
  }

  ghost predicate Clear(l: Layout, d: nat, blocks: nat) {
    blocks <= l.Key(d, 0) && l.Key(d, 0) + blocks <= WRAP
  }

  lemma KeyShift(l: Layout, i: nat, d: nat, b: nat)
    ensures (l.Key(i + d, b) as int - l.Key(i, 0) - l.Key(d, 0) - b) % WRAP == 0
  {
    assert (i + d) * l.capacity == i * l.capacity + d * l.capacity;
  }

  lemma SameKeyLater(l: Layout, segments: nat, blocks: nat, i: nat, b: nat, j: nat, c: nat)
    requires Apart(l, segments, blocks) && blocks <= WRAP
    requires i <= j < segments && b < blocks && c < blocks && l.Key(i, b) == l.Key(j, c)
    ensures i == j && b == c
  {
    hide Layout.Key;
    var d := j - i;
    KeyShift(l, i, 0, b);
    KeyShift(l, i, d, c);
    KeyZero(l);
    var at: int, from: int, to: int := l.Key(i, b), l.Key(i, 0), l.Key(d, 0);
    var x, y := at - from - b, at - from - to - c;
    if d > 0 {
      assert Clear(l, d, blocks);
    }
    Multiple(x - y, x, y);
  }

  lemma KeyZero(l: Layout)
    ensures l.Key(0, 0) == 0
  {
  }

  /** A difference of two multiples of 2^32 below 2^32 is 0. */
  lemma Multiple(x: int, a: int, b: int)
    requires a % WRAP == 0 && b % WRAP == 0 && x == a - b && 0 < x + WRAP && x < WRAP
    ensures x == 0
  {
  }

  lemma SameKey(l: Layout, segments: nat, blocks: nat, i: nat, b: nat, j: nat, c: nat)
    requires Apart(l, segments, blocks) && blocks <= WRAP
    requires i < segments && j < segments && b < blocks && c < blocks && l.Key(i, b) == l.Key(j, c)
    ensures i == j && b == c
  {
    hide Apart, Layout.Key;
    if i <= j {
      SameKeyLater(l, segments, blocks, i, b, j, c);
    } else {
      SameKeyLater(l, segments, blocks, j, c, i, b);
    }
  }

  /** The first `blocks` blocks of the segments have distinct keys. */
  ghost predicate KeysDiffer(l: Layout, segments: nat, blocks: nat) {
    forall i: nat, b: nat, j: nat, c: nat ::
      i < segments && j < segments && b < blocks && c < blocks && l.Key(i, b) == l.Key(j, c) ==> i == j && b == c
  }

  /** Two segments that are not apart share a key. */
  lemma Clash(l: Layout, d: nat, blocks: nat)
    requires d > 0 && !Clear(l, d, blocks) && 0 < blocks <= WRAP
    ensures exists b: nat, c: nat :: b < blocks && c < blocks && l.Key(0, b) == l.Key(d, c)
  {
    var r := l.Key(d, 0);
    if r < blocks {
      assert l.Key(0, r) == l.Key(d, 0);
    } else {
      var c := WRAP - r;
      assert (d * l.capacity + c) % WRAP == 0;
      assert l.Key(0, 0) == l.Key(d, c);
    }
  }

  /** Block keys are distinct if and only if the segments are apart. */
  lemma KeysDistinct(l: Layout, segments: nat, blocks: nat)
    requires 0 < blocks <= WRAP
    ensures Apart(l, segments, blocks) <==> KeysDiffer(l, segments, blocks)
  {
    hide Layout.Key, Clear;
    if Apart(l, segments, blocks) {
      forall i: nat, b: nat, j: nat, c: nat |
        i < segments && j < segments && b < blocks && c < blocks && l.Key(i, b) == l.Key(j, c)
        ensures i == j && b == c
      {
        SameKey(l, segments, blocks, i, b, j, c);
      }
    }
    if KeysDiffer(l, segments, blocks) {
      forall d: nat | 0 < d < segments ensures Clear(l, d, blocks) {
        if !Clear(l, d, blocks) {
          Clash(l, d, blocks);
          assert false;
        }
      }
    }
  }

  /** With as many blocks as keys that is: all keys of all segments fit in 32 bits. */
  lemma KeysFit(l: Layout, segments: nat)
    requires 0 < l.capacity <= WRAP && segments > 0
    ensures Apart(l, segments, l.capacity) <==> segments * l.capacity <= WRAP
  {
    if segments * l.capacity <= WRAP {
      forall d: nat | 0 < d < segments ensures Clear(l, d, l.capacity) {
        KeyBelow(l, segments, d);
      }
    } else {
      var d := WRAP / l.capacity;
      DivFloor(WRAP, l.capacity);
      if d >= segments {
        Scale(segments, d, l.capacity);
        assert false;
      }
      assert !Clear(l, d, l.capacity);
    }
  }

  lemma KeyBelow(l: Layout, segments: nat, d: nat)
    requires 0 < d < segments && segments * l.capacity <= WRAP && l.capacity > 0
    ensures l.capacity <= l.Key(d, 0) && l.Key(d, 0) + l.capacity <= WRAP
  {
    Scale(d + 1, segments, l.capacity);
    Scale(1, d, l.capacity);
    assert (d + 1) * l.capacity == d * l.capacity + l.capacity;
  }

  /** Fewer blocks are apart where more are. */
  lemma ApartLess(l: Layout, segments: nat, more: nat, fewer: nat, blocks: nat)
    requires Apart(l, segments, more) && fewer <= segments && blocks <= more
    ensures Apart(l, fewer, blocks)
  {
    hide Layout.Key;
    forall d: nat | 0 < d < fewer ensures Clear(l, d, blocks) {
      assert Clear(l, d, more);
    }
  }

  /** With 2000000 keys per segment every block of segment 2^25 has the key of segment 0. */
  lemma KeysWrap(l: Layout, b: nat)
    requires l.capacity == 2000000
    ensures l.Key(0x200_0000, b) == l.Key(0, b)
    ensures forall blocks: nat :: blocks > 0 ==> !Apart(l, 0x200_0001, blocks)
  {
    assert 0x200_0000 * 2000000 == 15625 * WRAP;
    assert l.Key(0x200_0000, 0) == 0;
    forall blocks: nat | blocks > 0 ensures !Apart(l, 0x200_0001, blocks) {
      assert !Clear(l, 0x200_0000, blocks);
    }
  }

  // ---- What 32-bit positions lose ----

  /** A file after its items were written, each at the position the code computes for it. */
  ghost function Laid(file: Bytes, item: nat, items: seq<Bytes>): Bytes {
    if items == [] then file
    else
      var n := |items| - 1;
      AsyncWriter.Pwrite(Laid(file, item, items[..n]), Address(n * item), items[n])
  }

  ghost predicate ItemAt(file: Bytes, item: nat, k: nat, value: Bytes) {
    Address(k * item) + item <= |file| && file[Address(k * item)..Address(k * item) + item] == value
  }

  /** Every item is read at its position as it was written, and the header is as it was. */
  ghost predicate ReadsBack(file: Bytes, item: nat, items: seq<Bytes>) {
    var now := Laid(file, item, items);
    && |file| >= HEADER && |now| >= HEADER && now[..HEADER] == file[..HEADER]
    && forall k :: 0 <= k < |items| ==> ItemAt(now, item, k, items[k])
  }

  ghost predicate Items(items: seq<Bytes>, item: nat, n: nat) {
    |items| == n && forall k :: 0 <= k < n ==> |items[k]| == item
  }

  ghost predicate NothingLost(item: nat, n: nat) {
    forall file: Bytes, items: seq<Bytes> :: |file| >= HEADER && Items(items, item, n) ==> ReadsBack(file, item, items)
  }

  lemma Before(item: nat, k: nat, n: nat)
    requires k < n && Reach(item, n + 1)
    ensures Address(k * item) + item <= Address(n * item)
  {
    AddressIs(n * item);
    Scale(k + 1, n, item);
    assert (k + 1) * item == k * item + item;
    AddressIs(k * item);
  }

  lemma Earlier(was: Bytes, now: Bytes, item: nat, k: nat, n: nat, v: Bytes, value: Bytes)
    requires k < n && Reach(item, n + 1) && now == AsyncWriter.Pwrite(was, Address(n * item), v)
    requires ItemAt(was, item, k, value)
    ensures ItemAt(now, item, k, value)
  {
    hide Address, Reach, AsyncWriter.Pwrite;
    Before(item, k, n);
    Untouched(was, now, Address(n * item), v, Address(k * item), item);
  }

  /** While every item begins below 4 GiB, nothing is lost. */
  lemma {:induction false} LaidInOrder(file: Bytes, item: nat, items: seq<Bytes>)
    requires |file| >= HEADER && item > 0 && Items(items, item, |items|) && (items == [] || Reach(item, |items|))
    ensures ReadsBack(file, item, items)
    decreases |items|
  {
    if items != [] {
      var n := |items| - 1;
      var front := items[..n];
      if n > 0 {
        Scale(n - 1, n, item);
      }
      LaidInOrder(file, item, front);
      var was, now := Laid(file, item, front), Laid(file, item, items);
      AddressIs(n * item);
      forall k | 0 <= k < |items| ensures ItemAt(now, item, k, items[k]) {
        if k < n {
          assert ItemAt(was, item, k, front[k]);
          Earlier(was, now, item, k, n, items[n], items[k]);
        } else {
          assert now[Address(n * item)..Address(n * item) + item] == items[n];
        }
      }
      Untouched(was, now, n * item + HEADER, items[n], 0, HEADER);
    }
  }

  lemma Untouched(was: Bytes, now: Bytes, at: nat, v: Bytes, from: nat, len: nat)
    requires now == AsyncWriter.Pwrite(was, at, v) && from + len <= at && from + len <= |was|
    ensures from + len <= |now| && now[from..from + len] == was[from..from + len]
  {
  }

  /** The byte at `a`, once it is 2, stays 2 while all that is written is 2. */
  lemma {:induction false} StaysTwo(file: Bytes, item: nat, items: seq<Bytes>, k: nat, a: nat)
    requires 0 < k < |items| && Items(items, item, |items|) && item > 0
    requires Address(k * item) <= a < Address(k * item) + item
    requires forall j, x :: 0 < j < |items| && 0 <= x < item ==> items[j][x] == 2
    ensures a < |Laid(file, item, items)| && Laid(file, item, items)[a] == 2
    decreases |items|
  {
    var n := |items| - 1;
    assert items[n][0] == 2;
    if k < n {
      StaysTwo(file, item, items[..n], k, a);
    }
  }

  /** One item of ones, then items of twos. */
  ghost function Marked(item: nat, n: nat): (r: seq<Bytes>)
    ensures Items(r, item, n)
    ensures forall j, x :: 0 <= j < n && 0 <= x < item ==> r[j][x] == if j == 0 then 1 else 2
  {
    seq(n, j => seq(item, _ => if j == 0 then 1 else 2))
  }

  /** The first item that begins at 4 GiB or later hits the header or the first item. */
  lemma FirstWrap(item: nat, n: nat) returns (k: nat)
    requires 0 < item <= MAX_BLOCK_SIZE && n > 0 && !Reach(item, n)
    ensures 0 < k < n && Address(k * item) < item
  {
    k := (WRAP - HEADER + item - 1) / item;
    DivFloor(WRAP - HEADER + item - 1, item);
    assert (k - 1) * item == k * item - item;
    if k >= n {
      Scale(n - 1, k - 1, item);
    }
    AddressIs(k * item);
  }

  lemma WrapOverwrites(item: nat, n: nat)
    requires 0 < item <= MAX_BLOCK_SIZE && n > 0 && !Reach(item, n)
    ensures !ReadsBack(seq(HEADER, _ => 0), item, Marked(item, n))
  {
    hide Reach, Laid, Marked;
    var file: Bytes, items := seq(HEADER, _ => 0), Marked(item, n);
    var k := FirstWrap(item, n);
    var a := Address(k * item);
    StaysTwo(file, item, items, k, a);
    var now := Laid(file, item, items);
    if a < HEADER {
      assert file[..HEADER][a] == 0 && (|now| >= HEADER ==> now[..HEADER][a] == 2);
    } else {
      assert Address(0 * item) == HEADER && items[0][a - HEADER] == 1;
      assert HEADER + item <= |now| ==> now[HEADER..HEADER + item][a - HEADER] == 2;
      assert !ItemAt(now, item, 0, items[0]);
    }
  }

  /** Whatever is written, every item and the header are read back, if and only if the last item
      begins below 4 GiB. */
  lemma ItemsReadBack(item: nat, n: nat)
    requires 0 < item <= MAX_BLOCK_SIZE && n > 0
    ensures NothingLost(item, n) <==> Reach(item, n)
  {
    hide Reach, ReadsBack;
    if Reach(item, n) {
      forall file: Bytes, items: seq<Bytes> | |file| >= HEADER && Items(items, item, n)
        ensures ReadsBack(file, item, items)
      {
        LaidInOrder(file, item, items);
      }
    } else {
      WrapOverwrites(item, n);
      assert Items(Marked(item, n), item, n);
    }
  }

  // ---- The layouts of the callers ----

  function PerBlock(item: nat): nat
    requires item > 0
  {
    MAX_BLOCK_SIZE / item * item
  }

  lemma PerBlockIs(item: nat)
    requires 0 < item <= MAX_BLOCK_SIZE
    ensures 0x8000 < PerBlock(item) <= MAX_BLOCK_SIZE && PerBlock(item) % item == 0
  {
    DivFloor(MAX_BLOCK_SIZE, item);
    var q := MAX_BLOCK_SIZE / item;
    Scale(1, q, item);
    DivUnique(PerBlock(item), item, q, 0);
  }

  /** A table: 500000 rows and 400000 keys per segment. */
  function TableStore(item: nat): Layout
    requires item > 0
  {
    Layout(item, PerBlock(item), 500000, 400000)
  }

  /** A table keeps its rows if and only if they have at most 8589 bytes. */
  lemma TableFits(item: nat)
    requires 0 < item <= MAX_BLOCK_SIZE
    ensures TableStore(item) == Layout(item, 65536 / item * item, 500000, 400000)
    ensures TableStore(item).Ok() <==> item <= 8589
    ensures Reach(item, 500000) <==> item <= 8589
  {
    PerBlockIs(item);
    Scale(0x8001, PerBlock(item), 400000);
    assert 400000 * PerBlock(item) == PerBlock(item) * 400000;
  }

  /** With rows of 8590 bytes row 499997 begins inside row 0. */
  lemma TableOverwrites()
    ensures !TableStore(8590).Ok() && HEADER <= Address(499997 * 8590) < HEADER + 8590
    ensures Address(499997 * 8590) == 30 + 6934
  {
    TableFits(8590);
    AddressIs(499997 * 8590);
  }

  /** Document ids are ints, so a table has at most 4295 segments: their keys are apart. */
  lemma TableKeys(item: nat, docs: nat)
    requires 0 < item <= MAX_BLOCK_SIZE && docs < 0x8000_0000
    ensures Apart(TableStore(item), docs / 500000 + 1, 400000)
  {
    var l := TableStore(item);
    KeysFit(l, 4295);
    ApartLess(l, 4295, 400000, docs / 500000 + 1, 400000);
  }

  lemma MostItems(item: nat)
    requires 0 < item <= MAX_BLOCK_SIZE
    ensures var most := 0xFFFF_FFFF / item; 0xFFFF <= most && most * item <= 0xFFFF_FFFF
  {
    var most := 0xFFFF_FFFF / item;
    DivFloor(0xFFFF_FFFF, item);
    assert (most + 1) * item == most * item + item;
    Scale(item, MAX_BLOCK_SIZE, 0xFFFF);
    if most < 0xFFFF {
      Scale(most + 1, 0xFFFF, item);
    }
  }

  /** InitStore: a segment of vectors is cut to what 32 bits can count. */
  function VectorStore(item: nat, size: nat): Layout
    requires 0 < item <= MAX_BLOCK_SIZE
  {
    MostItems(item);
    var most := 0xFFFF_FFFF / item;
    if most < size then
      Layout(item, PerBlock(item), most, 4000000000 / (1000000000 / most + 1) - 1)
    else
      Layout(item, PerBlock(item), size, 2000000)
  }

  /** Vectors of at least 30 bytes always fit; shorter ones unless the header pushes the last one over. */
  lemma VectorFits(item: nat, size: nat)
    requires 0 < item <= MAX_BLOCK_SIZE && 0 < size
    ensures var l := VectorStore(item, size);
            && (l.Ok() <==> Reach(item, l.maxSize))
            && (item >= 30 ==> l.Ok())
  {
    PerBlockIs(item);
    MostItems(item);
    var l := VectorStore(item, size);
    var most := 0xFFFF_FFFF / item;
    assert l.maxSize <= most;
    Scale(l.maxSize, most, item);
    assert l.maxSize * item <= 0xFFFF_FFFF;
    VectorCapacity(item, size);
    Scale(131072, l.capacity, l.per);
    Scale(0x8001, l.per, 131072);
    assert (l.maxSize - 1) * item == l.maxSize * item - item;
  }

  lemma VectorCapacity(item: nat, size: nat)
    requires 0 < item <= MAX_BLOCK_SIZE
    ensures VectorStore(item, size).capacity >= 131072
  {
    MostItems(item);
    var most := 0xFFFF_FFFF / item;
    Quotient(1000000000, most, 0xFFFF);
    var k := 1000000000 / most + 1;
    Quotient(4000000000, 15260, k);
  }

  /** A smaller divisor gives the larger quotient. */
  lemma Quotient(x: nat, d: nat, e: nat)
    requires 0 < e <= d
    ensures x / d <= x / e
  {
    DivFloor(x, d);
    DivFloor(x, e);
    var p, q := x / d, x / e;
    Scale(e, d, p);
    assert p * e == e * p && p * d == d * p && (q + 1) * e == q * e + e;
    if q < p {
      Scale(q + 1, p, e);
    }
  }

  /** Vectors of 8 bytes in the longest segments do not: the last one hits the header. */
  lemma VectorOverwrites()
    ensures var l := VectorStore(8, 0x2000_0000); !l.Ok() && l.maxSize > 0 && Address((l.maxSize - 1) * 8) < 30
  {
    var l := VectorStore(8, 0x2000_0000);
    assert l.maxSize == 536870911;
    AddressIs((l.maxSize - 1) * 8);
  }

  lemma SharedOut(x: nat, n: nat, each: nat)
    requires n > 0 && each < x / n
    ensures n * each <= x
  {
    DivFloor(x, n);
    Scale(each, x / n, n);
  }

  lemma DivOrder(a: nat, b: nat, d: nat)
    requires a <= b && d > 0
    ensures a / d <= b / d
  {
    DivFloor(a, d);
    DivFloor(b, d);
    var p, q := a / d, b / d;
    assert (q + 1) * d == q * d + d;
    if q < p {
      Scale(q + 1, p, d);
    }
  }

  lemma CutKeys(l: Layout, segments: nat, vectors: nat)
    requires l.maxSize > 0 && segments == 1000000000 / l.maxSize + 1 && 0 < l.capacity < 4000000000 / segments
    requires vectors < 1000000000
    ensures Apart(l, vectors / l.maxSize + 1, l.capacity)
  {
    hide Apart, Layout.Key;
    SharedOut(4000000000, segments, l.capacity);
    Quotient(4000000000, segments, 1);
    KeysFit(l, segments);
    DivOrder(vectors, 1000000000, l.maxSize);
    ApartLess(l, segments, l.capacity, vectors / l.maxSize + 1, l.capacity);
  }

  lemma CutCapacity(item: nat, size: nat)
    requires 0 < item <= MAX_BLOCK_SIZE
    ensures var l := VectorStore(item, size);
            0 < l.maxSize < size ==> l.capacity == 4000000000 / (1000000000 / l.maxSize + 1) - 1
  {
  }

  lemma Uncut(item: nat, size: nat)
    requires 0 < item <= MAX_BLOCK_SIZE && 0 < size
    ensures var l := VectorStore(item, size); 0 < l.maxSize <= size && (l.maxSize == size ==> l.capacity == 2000000)
  {
    MostItems(item);
  }

  lemma UncutKeys(l: Layout, segments: nat)
    requires l.capacity == 2000000 && segments > 0
    ensures Apart(l, segments, l.capacity) <==> segments <= 2147
  {
    hide Apart, Layout.Key;
    KeysFit(l, segments);
  }

  /** In segments that were cut the keys are apart up to a thousand million vectors, in others
      up to 2147 segments. */
  lemma VectorKeys(item: nat, size: nat, vectors: nat)
    requires 0 < item <= MAX_BLOCK_SIZE && vectors < 1000000000
    ensures var l := VectorStore(item, size);
            && (0 < l.maxSize < size ==> Apart(l, vectors / l.maxSize + 1, l.capacity))
            && (0 < l.maxSize == size ==> (Apart(l, vectors / l.maxSize + 1, l.capacity) <==> vectors / l.maxSize < 2147))
  {
    hide Apart, Layout.Key, VectorStore;
    var l := VectorStore(item, size);
    if 0 < l.maxSize < size {
      VectorCapacity(item, size);
      CutCapacity(item, size);
      CutKeys(l, 1000000000 / l.maxSize + 1, vectors);
    } else if 0 < size {
      Uncut(item, size);
      UncutKeys(l, vectors / l.maxSize + 1);
    }
  }
}
