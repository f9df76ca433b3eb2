/** Strings of variable length, appended to the string file of a segment and cut into blocks
    that never split a string; every block but the last is read through the cache. */
module StringHeap {
  import opened Arithmetic
  import opened ByteStrings
  import opened LruCache
  import opened Options
  import opened BlockLayout
  import opened BlockStore

  const MAX_LEN: nat := 0xFFFF // str_len_t has 16 bits

  /** The string file (of str_capacity_ bytes), str_offset_ and block_pos_ of a segment. */
  datatype Heap = Heap(file: Bytes, offset: nat, pos: seq<nat>)

  /** A string as its row refers to it: block_id and in_block_pos, with what was stored. */
  datatype Entry = Entry(seg: nat, block: nat, at: nat, value: Bytes)

  function End(h: Heap, b: nat): nat
    requires b < |h.pos|
  {
    if b + 1 < |h.pos| then h.pos[b + 1] else h.offset
  }

  /** Block b ends where the next begins, and is not longer than a cache buffer. */
  ghost predicate BlockOk(h: Heap, b: nat)
    requires b < |h.pos|
  {
    h.pos[b] <= End(h, b) <= h.offset && End(h, b) <= h.pos[b] + MAX_BLOCK_SIZE
  }

  /** Block b was left because the first string of the next did not fit. */
  ghost predicate LeftFull(per: nat, h: Heap, b: nat)
    requires b + 1 < |h.pos|
  {
    End(h, b + 1) > h.pos[b] + per
  }

  /** Blocks follow each other and cover the strings. */
  ghost predicate HeapOk(per: nat, h: Heap) {
    && h.offset <= |h.file| && 0 < |h.file| && h.offset < WRAP
    && (h.pos == [] ==> h.offset == 0)
    && (h.pos != [] ==> h.pos[0] == 0)
    && (forall b: nat :: b < |h.pos| ==> BlockOk(h, b))
    && forall b: nat :: b + 1 < |h.pos| ==> LeftFull(per, h, b)
  }

  /** Any two blocks in a row hold more than a block does. */
  lemma {:induction false} PairsFull(per: nat, h: Heap, j: nat)
    requires HeapOk(per, h) && 2 * j < |h.pos|
    ensures j * (per + 1) <= h.pos[2 * j]
  {
    if j > 0 {
      PairsFull(per, h, j - 1);
      assert LeftFull(per, h, 2 * j - 2) && End(h, 2 * j - 1) == h.pos[2 * j];
      assert j * (per + 1) == (j - 1) * (per + 1) + (per + 1);
    }
  }

  /** So the 32 bits of the offset bound the number of blocks. */
  lemma HeapBlocks(per: nat, h: Heap)
    requires HeapOk(per, h)
    ensures |h.pos| / 2 * (per + 1) <= h.offset
  {
    var k := |h.pos|;
    if k % 2 == 1 {
      PairsFull(per, h, k / 2);
      assert BlockOk(h, k - 1);
    } else if k > 0 {
      var j := k / 2;
      PairsFull(per, h, j - 1);
      assert LeftFull(per, h, k - 2);
      assert j * (per + 1) == (j - 1) * (per + 1) + (per + 1);
    }
  }

  /** A segment of 4 GiB has fewer string blocks than it has keys. */
  ghost predicate KeysSuffice(l: Layout) {
    l.capacity / 2 * (l.per + 1) >= WRAP
  }

  lemma BlockHasKey(l: Layout, h: Heap, b: nat)
    requires HeapOk(l.per, h) && KeysSuffice(l) && b < |h.pos|
    ensures b < l.capacity
  {
    HeapBlocks(l.per, h);
    if b >= l.capacity {
      Scale(l.capacity / 2, |h.pos| / 2, l.per + 1);
    }
  }

  /** A table has keys enough for its strings. */
  lemma TableStrings(item: nat)
    requires 0 < item <= MAX_BLOCK_SIZE
    ensures KeysSuffice(TableStore(item))
  {
    PerBlockIs(item);
    var per := PerBlock(item);
    Scale(0x8001 + 1, per + 1, 200000);
    assert 200000 * (per + 1) == (per + 1) * 200000;
  }

  /** The string lies wholly inside its block. */
  ghost predicate Stored(h: Heap, e: Entry) {
    && e.block < |h.pos| && |e.value| <= MAX_LEN
    && h.pos[e.block] + e.at + |e.value| <= End(h, e.block) <= |h.file|
    && h.file[h.pos[e.block] + e.at..h.pos[e.block] + e.at + |e.value|] == e.value
  }

  /** r came from h by appending strings. */
  ghost predicate Grown(h: Heap, r: Heap) {
    && h.offset <= |h.file| && h.offset <= r.offset <= |r.file|
    && r.file[..h.offset] == h.file[..h.offset]
    && h.pos <= r.pos
    && forall b: nat :: |h.pos| <= b < |r.pos| ==> h.offset <= r.pos[b] <= r.offset
  }

  ghost predicate BlocksIn(h: Heap) {
    forall b: nat :: b < |h.pos| ==> End(h, b) <= h.offset
  }

  lemma OkIn(per: nat, h: Heap)
    requires HeapOk(per, h)
    ensures BlocksIn(h) && h.offset <= |h.file|
  {
    forall b: nat | b < |h.pos| ensures End(h, b) <= h.offset {
      assert BlockOk(h, b);
    }
  }

  lemma GrownEnd(h: Heap, r: Heap, b: nat)
    requires Grown(h, r) && b < |h.pos|
    ensures r.pos[b] == h.pos[b] && (b + 1 < |h.pos| ==> End(r, b) == End(h, b))
    ensures b + 1 == |h.pos| ==> h.offset <= End(r, b) <= r.offset
  {
  }

  lemma SameSlice(a: Bytes, b: Bytes, n: nat, i: nat, j: nat)
    requires i <= j <= n <= |a| && n <= |b| && a[..n] == b[..n]
    ensures a[i..j] == b[i..j]
  {
    SubSlice(a, 0, n, i, j);
    SubSlice(b, 0, n, i, j);
    assert a[0..n] == a[..n] && b[0..n] == b[..n];
  }

  lemma SubSlice(s: Bytes, lo: nat, n: nat, i: nat, j: nat)
    requires lo + n <= |s| && i <= j <= n
    ensures s[lo..lo + n][i..j] == s[lo + i..lo + j]
  {
    var a, b := s[lo..lo + n][i..j], s[lo + i..lo + j];
    forall k | 0 <= k < j - i ensures a[k] == b[k] {
      assert s[lo..lo + n][i + k] == s[lo + i + k];
    }
  }

  /** Whatever is written later, a stored string stays where it is. */
  lemma StaysStored(h: Heap, r: Heap, e: Entry)
    requires h.offset <= |h.file| && BlocksIn(h) && Grown(h, r) && Stored(h, e) && BlocksIn(r)
    ensures Stored(r, e)
  {
    assert End(h, e.block) <= h.offset && End(r, e.block) <= r.offset;
    GrownEnd(h, r, e.block);
    SameSlice(r.file, h.file, h.offset, h.pos[e.block] + e.at, h.pos[e.block] + e.at + |e.value|);
  }

  // ---- Writing ----

  /** The capacity doubles until the string fits with a byte to spare. */
  method ExtendCapacity(capacity: nat, need: nat) returns (r: nat)
    requires capacity > 0
    ensures need < r && capacity <= r
    ensures need < capacity ==> r == capacity
    ensures need >= capacity ==> r <= 2 * need && exists k: nat :: r == Doubled(capacity, k)
  {
    r := capacity;
    ghost var k: nat := 0;
    if need >= capacity {
      r, k := r * 2, 1;
      while need >= r
        invariant capacity <= r <= 2 * need && r == Doubled(capacity, k)
        decreases need - r
      {
        r, k := r * 2, k + 1;
      }
    }
  }

  /** A number doubled k times. */
  ghost function Doubled(n: nat, k: nat): nat {
    if k == 0 then n else 2 * Doubled(n, k - 1)
  }

  /** ftruncate to the capacity, then pwrite at the offset, which may lengthen the file. */
  function Place(file: Bytes, capacity: nat, at: nat, str: Bytes): (r: Bytes)
    requires |file| <= capacity
    ensures at + |str| <= capacity ==> |r| == capacity
    ensures |r| >= capacity && at + |str| <= |r|
    ensures r[at..at + |str|] == str
    ensures forall x :: 0 <= x < |file| && !(at <= x < at + |str|) ==> r[x] == file[x]
    ensures forall x :: |file| <= x < |r| && !(at <= x < at + |str|) ==> r[x] == 0
  {
    var size := if at + |str| <= capacity then capacity else at + |str|;
    var longer := file + seq(size - |file|, _ => 0);
    Written(longer, at, str)
  }

  /** The sum of two numbers of 32 bits. */
  function Sum32(a: nat, b: nat): nat {
    (a + b) % WRAP
  }

  function Begun(pos: seq<nat>): (r: seq<nat>)
    ensures r != [] && pos <= r
  {
    if pos == [] then [0] else pos
  }

  /** A string was written at the offset and put into the last block or a new one. */
  ghost predicate Next(per: nat, h: Heap, r: Heap, block: nat, at: nat, str: Bytes) {
    var pos := Begun(h.pos);
    var a := (h.offset - pos[|pos| - 1]) % WRAP;
    var full := Sum32(a, |str|) > per;
    && r.offset == Sum32(h.offset, |str|) && r.pos == (if full then pos + [h.offset] else pos)
    && block + 1 == |r.pos| && at == (if full then 0 else a)
    && Pasted(h.file, r.file, h.offset, str)
  }

  ghost predicate Pasted(was: Bytes, now: Bytes, at: nat, str: Bytes) {
    && 0 < |now| && |was| <= |now| && at + |str| <= |now| && now[at..at + |str|] == str
    && forall x :: 0 <= x < |was| && !(at <= x < at + |str|) ==> now[x] == was[x]
  }

  /** The last block if the string fits, otherwise a new one. The heap stays in order if and
      only if the offset does not wrap; every earlier string and this one can be read then in
      either case. */
  method AddString(per: nat, h: Heap, str: Bytes) returns (r: Heap, block: nat, at: nat)
    requires 0 < |h.file| && h.offset < WRAP && 0 < per <= MAX_BLOCK_SIZE && |str| <= MAX_LEN
    ensures Next(per, h, r, block, at, str)
    ensures HeapOk(per, h) ==> (HeapOk(per, r) <==> h.offset + |str| < WRAP)
    ensures HeapOk(per, h) && h.offset + |str| < WRAP ==>
              Grown(h, r) && forall seg :: Stored(r, Entry(seg, block, at, str))
    ensures HeapOk(per, h) ==> forall e :: Stored(h, e) || e == Entry(e.seg, block, at, str) ==> Readable(r, e)
  {
    hide HeapOk, Grown, Stored, Readable;
    var capacity := ExtendCapacity(|h.file|, Sum32(h.offset, |str|));
    var file := Place(h.file, capacity, h.offset, str);
    var pos := Begun(h.pos);
    at := (h.offset - pos[|pos| - 1]) % WRAP;
    if Sum32(at, |str|) > per {
      pos := pos + [h.offset];
      at := 0;
    }
    block := |pos| - 1;
    r := Heap(file, Sum32(h.offset, |str|), pos);
    if HeapOk(per, h) {
      AddedInOrder(per, h, r, block, at, str);
    }
  }

  lemma AddedInOrder(per: nat, h: Heap, r: Heap, block: nat, at: nat, str: Bytes)
    requires HeapOk(per, h) && 0 < per <= MAX_BLOCK_SIZE && |str| <= MAX_LEN && Next(per, h, r, block, at, str)
    ensures HeapOk(per, r) <==> h.offset + |str| < WRAP
    ensures h.offset + |str| < WRAP ==> Grown(h, r) && forall seg :: Stored(r, Entry(seg, block, at, str))
    ensures forall e :: Stored(h, e) || e == Entry(e.seg, block, at, str) ==> Readable(r, e)
  {
    hide HeapOk, Grown, Stored, Next, Readable;
    NextPlain(per, h, r, block, at, str);
    if h.offset + |str| < WRAP {
      AddGrown(per, h, r, str);
      AddKeeps(per, h, r, block, at, str);
    } else {
      AddWraps(per, h, r, str);
    }
    forall e | Stored(h, e) || e == Entry(e.seg, block, at, str) ensures Readable(r, e) {
      if Stored(h, e) {
        StillWhole(per, h, r, block, at, str, e);
      } else {
        NewWhole(per, h, r, block, at, str, e.seg);
      }
      ReadableIff(r, e);
    }
  }

  /** In a heap in order the sums of 32 bits are sums. */
  lemma NextPlain(per: nat, h: Heap, r: Heap, block: nat, at: nat, str: Bytes)
    requires HeapOk(per, h) && 0 < per <= MAX_BLOCK_SIZE && |str| <= MAX_LEN && Next(per, h, r, block, at, str)
    ensures Extended(per, h, r, str) && h.pos <= r.pos && block + 1 == |r.pos| && r.pos[block] + at == h.offset
    ensures h.offset <= |h.file| && Pasted(h.file, r.file, h.offset, str)
    ensures r.offset == if h.offset + |str| < WRAP then h.offset + |str| else h.offset + |str| - WRAP
  {
    if h.pos != [] {
      LastBlock(per, h);
    }
  }

  /** The list of blocks after a string was added. */
  ghost predicate Extended(per: nat, h: Heap, r: Heap, str: Bytes) {
    var pos := Begun(h.pos);
    var last := pos[|pos| - 1];
    && last <= h.offset <= last + MAX_BLOCK_SIZE
    && r.pos == if h.offset - last + |str| > per then pos + [h.offset] else pos
  }

  lemma LastBlock(per: nat, h: Heap)
    requires HeapOk(per, h) && h.pos != []
    ensures h.pos[|h.pos| - 1] <= h.offset <= h.pos[|h.pos| - 1] + MAX_BLOCK_SIZE
  {
    assert BlockOk(h, |h.pos| - 1);
  }

  lemma AddGrown(per: nat, h: Heap, r: Heap, str: Bytes)
    requires HeapOk(per, h) && Extended(per, h, r, str) && r.offset == h.offset + |str| <= |r.file|
    requires Pasted(h.file, r.file, h.offset, str)
    ensures Grown(h, r)
  {
    hide BlockOk, LeftFull;
    assert r.file[..h.offset] == h.file[..h.offset];
  }

  lemma AddKeeps(per: nat, h: Heap, r: Heap, block: nat, at: nat, str: Bytes)
    requires HeapOk(per, h) && Grown(h, r) && Extended(per, h, r, str)
    requires 0 < per <= MAX_BLOCK_SIZE && |str| <= MAX_LEN && |r.file| > 0
    requires r.offset == h.offset + |str| < WRAP && block + 1 == |r.pos| && at == h.offset - r.pos[block]
    requires r.file[h.offset..h.offset + |str|] == str
    ensures HeapOk(per, r) && forall seg :: Stored(r, Entry(seg, block, at, str))
  {
    forall b: nat | b < |r.pos| ensures BlockOk(r, b) {
      if b < |h.pos| {
        GrownEnd(h, r, b);
        assert BlockOk(h, b);
      }
    }
    forall b: nat | b + 1 < |r.pos| ensures LeftFull(per, r, b) {
      if b + 1 < |h.pos| {
        GrownEnd(h, r, b);
        GrownEnd(h, r, b + 1);
        assert LeftFull(per, h, b);
      }
    }
  }

  /** The last block then begins behind the offset. */
  lemma AddWraps(per: nat, h: Heap, r: Heap, str: Bytes)
    requires HeapOk(per, h) && h.pos <= r.pos && r.pos != [] && |str| <= MAX_LEN
    requires h.offset + |str| >= WRAP && r.offset == h.offset + |str| - WRAP
    ensures !HeapOk(per, r)
  {
    LastBlock(per, h);
    var k := |h.pos| - 1;
    assert r.pos[k] == h.pos[k] > r.offset;
    assert !BlockOk(r, k);
  }

  // ---- Reading from the disk ----

  /** pread of n bytes into a buffer; at the end of the file fewer are read. */
  function Filled(file: Bytes, at: nat, n: nat, buf: Bytes): (r: Bytes)
    requires n <= |buf|
    ensures |r| == |buf| && (at + n <= |file| ==> r[..n] == file[at..at + n])
  {
    if at > |file| then buf
    else
      var got := if at + n <= |file| then n else |file| - at;
      file[at..at + got] + buf[got..]
  }

  /** The length Read computes for a block that is not the last. */
  function Size(h: Heap, b: nat): nat
    requires b + 1 < |h.pos|
  {
    (h.pos[b + 1] - h.pos[b]) % WRAP
  }

  /** Read when the block is not cached, with whatever the buffer held; ReadString refuses a
      block that is longer than the buffer. */
  function ReadOf(h: Heap, block: nat, at: nat, len: nat, buf: Bytes): Option<Bytes>
    requires block < |h.pos| && |buf| == MAX_BLOCK_SIZE && len <= MAX_LEN
  {
    if block + 1 >= |h.pos| then
      Some(Filled(h.file, Sum32(h.pos[block], at), len, buf)[..len])
    else if Size(h, block) > MAX_BLOCK_SIZE || at + len > MAX_BLOCK_SIZE then
      None
    else
      Some(Filled(h.file, h.pos[block], Size(h, block), buf)[at..at + len])
  }

  /** Read from the disk can return `out`. */
  ghost predicate FromDisk(h: Heap, block: nat, at: nat, len: nat, out: Bytes) {
    && block < |h.pos| && len <= MAX_LEN
    && exists buf: Bytes :: |buf| == MAX_BLOCK_SIZE && ReadOf(h, block, at, len, buf) == Some(out)
  }

  lemma ReadFrom(h: Heap, block: nat, at: nat, len: nat, buf: Bytes, out: Bytes)
    requires block < |h.pos| && len <= MAX_LEN && |buf| == MAX_BLOCK_SIZE && ReadOf(h, block, at, len, buf) == Some(out)
    ensures FromDisk(h, block, at, len, out)
  {
  }

  /** Read from the disk returns the string, and nothing else. */
  ghost predicate Readable(h: Heap, e: Entry) {
    && e.block < |h.pos| && |e.value| <= MAX_LEN
    && forall buf: Bytes :: |buf| == MAX_BLOCK_SIZE ==>
         ReadOf(h, e.block, e.at, |e.value|, buf) == Some(e.value)
  }

  function Spot(h: Heap, e: Entry): nat
    requires e.block < |h.pos|
  {
    h.pos[e.block] + e.at
  }

  ghost predicate InPlace(h: Heap, e: Entry) {
    && e.block < |h.pos| && Spot(h, e) + |e.value| <= |h.file|
    && h.file[Spot(h, e)..Spot(h, e) + |e.value|] == e.value
  }

  /** Read fetches the bytes at the spot, whatever they are. */
  ghost predicate Whole(h: Heap, e: Entry) {
    && e.block < |h.pos| && |e.value| <= MAX_LEN && Spot(h, e) < WRAP && Spot(h, e) + |e.value| <= |h.file|
    && (e.block + 1 < |h.pos| ==>
          && Size(h, e.block) <= MAX_BLOCK_SIZE && e.at + |e.value| <= Size(h, e.block)
          && h.pos[e.block] + Size(h, e.block) <= |h.file|)
  }

  lemma ReadIs(h: Heap, e: Entry, buf: Bytes)
    requires Whole(h, e) && |buf| == MAX_BLOCK_SIZE
    ensures ReadOf(h, e.block, e.at, |e.value|, buf) == Some(h.file[Spot(h, e)..Spot(h, e) + |e.value|])
  {
    var x, y := e.at, e.at + |e.value|;
    if e.block + 1 < |h.pos| {
      var i, n := h.pos[e.block], Size(h, e.block);
      var got := Filled(h.file, i, n, buf);
      SubSlice(got, 0, n, x, y);
      SubSlice(h.file, i, n, x, y);
      assert got[0..n] == got[..n];
    }
  }

  lemma ReadableIff(h: Heap, e: Entry)
    requires Whole(h, e)
    ensures Readable(h, e) <==> InPlace(h, e)
  {
    hide ReadOf, Size;
    forall buf: Bytes | |buf| == MAX_BLOCK_SIZE
      ensures ReadOf(h, e.block, e.at, |e.value|, buf) == Some(h.file[Spot(h, e)..Spot(h, e) + |e.value|])
    {
      ReadIs(h, e, buf);
    }
    var zeros: Bytes := seq(MAX_BLOCK_SIZE, _ => 0);
    assert |zeros| == MAX_BLOCK_SIZE;
  }

  /** The block ends at `end`, which its successor holds in 32 bits. */
  lemma WholeAt(q: Heap, e: Entry, end: nat)
    requires e.block < |q.pos| && |e.value| <= MAX_LEN && Spot(q, e) < WRAP && Spot(q, e) + |e.value| <= |q.file|
    requires e.block + 1 < |q.pos| ==>
               && Spot(q, e) + |e.value| <= end <= q.pos[e.block] + MAX_BLOCK_SIZE && end <= |q.file|
               && (q.pos[e.block + 1] == end || q.pos[e.block + 1] + WRAP == end)
    ensures Whole(q, e)
  {
  }

  lemma BeforePaste(was: Bytes, now: Bytes, at: nat, str: Bytes, i: nat, j: nat)
    requires Pasted(was, now, at, str) && i <= j <= at && j <= |was|
    ensures j <= |now| && now[i..j] == was[i..j]
  {
  }

  /** A string of h in a heap that goes on from it. */
  lemma StillWhole(per: nat, h: Heap, r: Heap, block: nat, at: nat, str: Bytes, e: Entry)
    requires HeapOk(per, h) && 0 < per <= MAX_BLOCK_SIZE && |str| <= MAX_LEN && Next(per, h, r, block, at, str)
    requires Stored(h, e)
    ensures Whole(r, e) && InPlace(r, e) && Spot(r, e) == Spot(h, e)
  {
    assert BlockOk(h, e.block);
    hide HeapOk, Next, Whole;
    hide Pasted;
    NextPlain(per, h, r, block, at, str);
    HeapShape(per, h);
    BeforePaste(h.file, r.file, h.offset, str, Spot(h, e), Spot(h, e) + |e.value|);
    WholeAt(r, e, End(h, e.block));
  }

  lemma NewWhole(per: nat, h: Heap, r: Heap, block: nat, at: nat, str: Bytes, seg: nat)
    requires HeapOk(per, h) && 0 < per <= MAX_BLOCK_SIZE && |str| <= MAX_LEN && Next(per, h, r, block, at, str)
    ensures var e := Entry(seg, block, at, str); Whole(r, e) && InPlace(r, e) && Spot(r, e) == h.offset
  {
    hide BlockOk, LeftFull, Next;
    NextPlain(per, h, r, block, at, str);
  }

  // ---- After the offset wrapped ----

  /** The bytes of str at `at` are those of the string, as far as they lie in its place. */
  ghost predicate Agrees(h: Heap, e: Entry, at: nat, str: Bytes) {
    e.block < |h.pos| && forall x :: 0 <= x < |str| && Has(h, e, at + x) ==> at + x < |h.file| && str[x] == h.file[at + x]
  }

  /** The byte x of the file is one of the string's. */
  ghost predicate Has(h: Heap, e: Entry, x: nat) {
    e.block < |h.pos| && Spot(h, e) <= x < Spot(h, e) + |e.value|
  }

  /** Every byte up to the offset is one of a logged string. */
  ghost predicate Covered(h: Heap, log: seq<Entry>, seg: nat) {
    forall x: nat :: x < h.offset ==> InLog(h, log, seg, x)
  }

  ghost predicate InLog(h: Heap, log: seq<Entry>, seg: nat, x: nat) {
    exists k :: 0 <= k < |log| && log[k].seg == seg && Has(h, log[k], x)
  }

  ghost predicate AllStored(h: Heap, log: seq<Entry>, seg: nat) {
    forall k :: 0 <= k < |log| && log[k].seg == seg ==> Stored(h, log[k])
  }

  ghost predicate AllReadable(h: Heap, log: seq<Entry>, seg: nat) {
    forall k :: 0 <= k < |log| && log[k].seg == seg ==> Readable(h, log[k])
  }

  /** r came from h by adding s, which wrapped the offset, and q from r by adding t. */
  ghost predicate Wrapped(per: nat, h: Heap, r: Heap, q: Heap, s: Bytes, t: Bytes) {
    && HeapOk(per, h) && 0 < per <= MAX_BLOCK_SIZE && |s| <= MAX_LEN && |t| <= MAX_LEN && h.offset + |s| >= WRAP
    && (exists block: nat, at: nat :: Next(per, h, r, block, at, s))
    && (exists block: nat, at: nat :: Next(per, r, q, block, at, t))
  }

  /** A string added when the offset lies before the last block. */
  lemma NextBehind(per: nat, r: Heap, q: Heap, b: nat, a: nat, t: Bytes)
    requires Next(per, r, q, b, a, t) && r.pos != []
    requires var last := r.pos[|r.pos| - 1]; last < WRAP && r.offset + WRAP - last + |t| < WRAP
    ensures var d := r.offset + WRAP - r.pos[|r.pos| - 1];
            && q.pos == (if d + |t| > per then r.pos + [r.offset] else r.pos)
            && b + 1 == |q.pos| && a == (if d + |t| > per then 0 else d) && Pasted(r.file, q.file, r.offset, t)
  {
    var last := r.pos[|r.pos| - 1];
    assert (r.offset - last) % WRAP == r.offset + WRAP - last;
  }

  /** What the two strings do to the list of blocks and to the file. */
  lemma WrappedShape(per: nat, h: Heap, r: Heap, q: Heap, s: Bytes, t: Bytes)
    requires Wrapped(per, h, r, q, s, t)
    ensures Extended(per, h, r, s) && h.pos != [] && h.pos <= r.pos
    ensures var o := h.offset + |s| - WRAP; var last := r.pos[|r.pos| - 1];
            && r.offset == o && o + |t| < h.offset <= |h.file| && h.offset < WRAP
            && q.pos == (if o + WRAP - last + |t| > per then r.pos + [o] else r.pos)
            && Pasted(h.file, r.file, h.offset, s) && Pasted(r.file, q.file, o, t)
  {
    var block: nat, at: nat :| Next(per, h, r, block, at, s);
    var b: nat, a: nat :| Next(per, r, q, b, a, t);
    assert h.offset < WRAP && h.pos != [];
    hide Next, HeapOk, Pasted;
    NextPlain(per, h, r, block, at, s);
    NextBehind(per, r, q, b, a, t);
  }

  /** A string stored before is read if and only if the second one agrees with it. */
  lemma EarlierAfterWrap(per: nat, h: Heap, r: Heap, q: Heap, s: Bytes, t: Bytes, e: Entry)
    requires Wrapped(per, h, r, q, s, t) && Stored(h, e)
    ensures Readable(q, e) <==> Agrees(h, e, h.offset + |s| - WRAP, t)
  {
    hide Wrapped, Readable;
    WrappedShape(per, h, r, q, s, t);
    EarlierWhole(per, h, r, q, s, t, e);
    ReadableIff(q, e);
    var o := h.offset + |s| - WRAP;
    EarlierInPlace(h, r, q, s, t, e, o);
  }

  lemma EarlierWhole(per: nat, h: Heap, r: Heap, q: Heap, s: Bytes, t: Bytes, e: Entry)
    requires Wrapped(per, h, r, q, s, t) && Stored(h, e)
    ensures Whole(q, e) && Spot(q, e) == Spot(h, e) && Spot(h, e) + |e.value| <= h.offset
  {
    assert BlockOk(h, e.block);
    hide Wrapped, HeapOk, Whole;
    WrappedShape(per, h, r, q, s, t);
    assert |q.file| >= h.offset + |s|;
    hide Pasted;
    var end := if e.block + 1 < |h.pos| then h.pos[e.block + 1]
               else if r.pos != h.pos then h.offset else h.offset + |s|;
    WholeAt(q, e, end);
  }

  lemma EarlierInPlace(h: Heap, r: Heap, q: Heap, s: Bytes, t: Bytes, e: Entry, o: nat)
    requires Stored(h, e) && Whole(q, e) && Spot(q, e) == Spot(h, e) && Spot(h, e) + |e.value| <= h.offset <= |h.file|
    requires Pasted(h.file, r.file, h.offset, s) && Pasted(r.file, q.file, o, t) && o + |t| < h.offset
    ensures InPlace(q, e) <==> Agrees(h, e, o, t)
  {
    hide Size;
    var i, j := Spot(h, e), Spot(h, e) + |e.value|;
    assert h.file[i..j] == e.value && |q.file| >= |h.file|;
    if Agrees(h, e, o, t) {
      forall x | i <= x < j ensures q.file[x] == h.file[x] {
        if o <= x < o + |t| {
          assert Has(h, e, o + (x - o));
          assert q.file[o..o + |t|][x - o] == t[x - o];
        }
      }
      assert q.file[i..j] == h.file[i..j];
    }
    if InPlace(q, e) {
      forall x | 0 <= x < |t| && Has(h, e, o + x) ensures o + x < |h.file| && t[x] == h.file[o + x] {
        assert q.file[o..o + |t|][x] == t[x];
        assert q.file[i..j][o + x - i] == h.file[i..j][o + x - i];
      }
    }
  }

  /** A string of the last block is read where its spot is in 32 bits. */
  lemma LastWhole(q: Heap, e: Entry, o: nat)
    requires e.block + 1 == |q.pos| && |e.value| <= MAX_LEN && o + |e.value| <= |q.file|
    requires Sum32(q.pos[e.block], e.at) == o && q.file[o..o + |e.value|] == e.value
    ensures Readable(q, e)
  {
  }

  /** The string that wrapped and the one after it are read. */
  lemma LaterAfterWrap(per: nat, h: Heap, r: Heap, q: Heap, s: Bytes, t: Bytes,
                       block: nat, at: nat, b: nat, a: nat, seg: nat)
    requires Wrapped(per, h, r, q, s, t)
    requires Next(per, h, r, block, at, s) && Next(per, r, q, b, a, t)
    ensures Readable(q, Entry(seg, block, at, s)) && Readable(q, Entry(seg, b, a, t))
  {
    hide Readable, Next;
    WrappedShape(per, h, r, q, s, t);
    NextPlain(per, h, r, block, at, s);
    hide HeapOk, Wrapped;
    NextBehind(per, r, q, b, a, t);
    SecondRead(q, r.pos, Entry(seg, b, a, t), h.offset + |s| - WRAP, per);
    FirstRead(h, r, q, s, t, Entry(seg, block, at, s));
  }

  lemma SecondRead(q: Heap, pos: seq<nat>, e: Entry, o: nat, per: nat)
    requires pos != [] && |e.value| <= MAX_LEN && o <= pos[|pos| - 1] < WRAP
    requires var d := o + WRAP - pos[|pos| - 1];
             && q.pos == (if d + |e.value| > per then pos + [o] else pos)
             && e.block + 1 == |q.pos| && e.at == (if d + |e.value| > per then 0 else d)
    requires o + |e.value| <= |q.file| && q.file[o..o + |e.value|] == e.value
    ensures Readable(q, e)
  {
    assert Sum32(q.pos[e.block], e.at) == o;
    LastWhole(q, e, o);
  }

  lemma FirstRead(h: Heap, r: Heap, q: Heap, s: Bytes, t: Bytes, e: Entry)
    requires h.offset < WRAP <= h.offset + |s| && e.value == s && |s| <= MAX_LEN
    requires e.block + 1 == |r.pos| && r.pos[e.block] + e.at == h.offset
    requires e.at + |s| <= MAX_BLOCK_SIZE
    requires var o := h.offset + |s| - WRAP;
             && (q.pos == r.pos || q.pos == r.pos + [o]) && o + |t| < h.offset
             && Pasted(h.file, r.file, h.offset, s) && Pasted(r.file, q.file, o, t)
    ensures Readable(q, e)
  {
    hide Readable;
    assert q.file[h.offset..h.offset + |s|] == r.file[h.offset..h.offset + |s|];
    hide Pasted;
    if q.pos != r.pos {
      assert Size(q, e.block) == e.at + |s|;
    }
    assert Whole(q, e) && InPlace(q, e);
    ReadableIff(q, e);
  }

  lemma AgreeEqual(h: Heap, log: seq<Entry>, seg: nat, o: nat, t: Bytes)
    requires Covered(h, log, seg) && o + |t| <= h.offset <= |h.file|
    requires forall k :: 0 <= k < |log| && log[k].seg == seg ==> Agrees(h, log[k], o, t)
    ensures h.file[o..o + |t|] == t
  {
    forall x | 0 <= x < |t| ensures h.file[o..o + |t|][x] == t[x] {
      assert InLog(h, log, seg, o + x);
      var k :| 0 <= k < |log| && log[k].seg == seg && Has(h, log[k], o + x);
      assert Agrees(h, log[k], o, t);
    }
  }

  lemma EqualAgrees(h: Heap, e: Entry, o: nat, t: Bytes)
    requires o + |t| <= |h.file| && h.file[o..o + |t|] == t && Stored(h, e)
    ensures Agrees(h, e, o, t)
  {
    hide Stored;
    StoredBlock(h, e);
    forall x | 0 <= x < |t| && Has(h, e, o + x) ensures t[x] == h.file[o + x] {
      assert h.file[o..o + |t|][x] == h.file[o + x];
    }
  }

  lemma ReadAgrees(per: nat, h: Heap, r: Heap, q: Heap, s: Bytes, t: Bytes, log: seq<Entry>, seg: nat, o: nat)
    requires Wrapped(per, h, r, q, s, t) && AllStored(h, log, seg) && o + WRAP == h.offset + |s|
    ensures forall k :: 0 <= k < |log| && log[k].seg == seg ==> (Readable(q, log[k]) <==> Agrees(h, log[k], o, t))
  {
    hide Wrapped, Readable, Stored, Agrees;
    forall k | 0 <= k < |log| && log[k].seg == seg
      ensures Readable(q, log[k]) <==> Agrees(h, log[k], o, t)
    {
      EarlierAfterWrap(per, h, r, q, s, t, log[k]);
    }
  }

  lemma EqualAgree(h: Heap, log: seq<Entry>, seg: nat, o: nat, t: Bytes)
    requires o + |t| <= |h.file| && h.file[o..o + |t|] == t && AllStored(h, log, seg)
    ensures forall k :: 0 <= k < |log| && log[k].seg == seg ==> Agrees(h, log[k], o, t)
  {
    hide Stored, Agrees;
    forall k | 0 <= k < |log| && log[k].seg == seg ensures Agrees(h, log[k], o, t) {
      EqualAgrees(h, log[k], o, t);
    }
  }

  /** So all are read if and only if the second string repeats what was there. */
  lemma WrapLosesIff(per: nat, h: Heap, r: Heap, q: Heap, s: Bytes, t: Bytes, log: seq<Entry>, seg: nat, o: nat)
    requires Wrapped(per, h, r, q, s, t) && AllStored(h, log, seg) && Covered(h, log, seg) && o + WRAP == h.offset + |s|
    ensures o + |t| <= |h.file| && (AllReadable(q, log, seg) <==> h.file[o..o + |t|] == t)
  {
    hide Wrapped, Readable, Stored, Agrees, Covered, Pasted, Extended;
    WrappedShape(per, h, r, q, s, t);
    ReadAgrees(per, h, r, q, s, t, log, seg, o);
    if AllReadable(q, log, seg) {
      AgreeEqual(h, log, seg, o, t);
    } else if h.file[o..o + |t|] == t {
      EqualAgree(h, log, seg, o, t);
    }
  }

  lemma StoredBlock(h: Heap, e: Entry)
    requires Stored(h, e)
    ensures e.block < |h.pos|
  {
  }

  // ---- The cache of complete blocks ----

  /** The buffer holds the bytes of block b, which is not the last one. */
  ghost predicate Image(h: Heap, b: nat, content: Bytes) {
    && b + 1 < |h.pos| && h.pos[b] <= h.pos[b + 1] <= |h.file|
    && h.pos[b + 1] - h.pos[b] <= |content|
    && content[..h.pos[b + 1] - h.pos[b]] == h.file[h.pos[b]..h.pos[b + 1]]
  }

  ghost predicate KeptAt(l: Layout, heaps: seq<Heap>, key: nat, content: Bytes, i: nat, b: nat) {
    i < |heaps| && b < l.capacity && key == l.Key(i, b) && Image(heaps[i], b, content)
  }

  ghost predicate Kept(l: Layout, heaps: seq<Heap>, key: nat, content: Bytes) {
    exists i: nat, b: nat :: KeptAt(l, heaps, key, content, i, b)
  }

  /** Keys that are apart tell whose block is cached. */
  lemma KeptIs(l: Layout, heaps: seq<Heap>, content: Bytes, i: nat, b: nat)
    requires Kept(l, heaps, l.Key(i, b), content) && Apart(l, |heaps|, l.capacity) && l.capacity <= WRAP
    requires i < |heaps| && b < l.capacity
    ensures Image(heaps[i], b, content)
  {
    hide Image, Apart, Layout.Key;
    var j: nat, c: nat :| KeptAt(l, heaps, l.Key(i, b), content, j, c);
    SameKey(l, |heaps|, l.capacity, i, b, j, c);
  }

  ghost predicate CacheOk(l: Layout, heaps: seq<Heap>, blocks: map<nat, Bytes>) {
    forall key :: key in blocks ==> Kept(l, heaps, key, blocks[key])
  }

  lemma GrownImage(h: Heap, r: Heap, b: nat, content: Bytes)
    requires BlocksIn(h) && Grown(h, r) && Image(h, b, content)
    ensures Image(r, b, content)
  {
    GrownEnd(h, r, b);
    GrownEnd(h, r, b + 1);
    assert End(h, b) <= h.offset;
    SameSlice(r.file, h.file, h.offset, h.pos[b], h.pos[b + 1]);
  }

  lemma GrownCache(l: Layout, heaps: seq<Heap>, seg: nat, r: Heap, blocks: map<nat, Bytes>)
    requires CacheOk(l, heaps, blocks) && seg < |heaps|
    requires BlocksIn(heaps[seg]) && Grown(heaps[seg], r)
    ensures CacheOk(l, heaps[seg := r], blocks)
  {
    hide Image, BlocksIn, Grown, Layout.Key;
    forall key | key in blocks ensures Kept(l, heaps[seg := r], key, blocks[key]) {
      assert Kept(l, heaps, key, blocks[key]);
      var i: nat, b: nat :| KeptAt(l, heaps, key, blocks[key], i, b);
      if i == seg {
        GrownImage(heaps[seg], r, b, blocks[key]);
      }
      assert KeptAt(l, heaps[seg := r], key, blocks[key], i, b);
    }
  }

  lemma InsertCache(l: Layout, heaps: seq<Heap>, was: map<nat, Bytes>, now: map<nat, Bytes>, seg: nat, b: nat)
    requires CacheOk(l, heaps, was) && seg < |heaps| && b < l.capacity
    requires l.Key(seg, b) in now && now.Keys <= was.Keys + {l.Key(seg, b)}
    requires forall k :: k in now && k != l.Key(seg, b) ==> now[k] == was[k]
    requires Image(heaps[seg], b, now[l.Key(seg, b)])
    ensures CacheOk(l, heaps, now)
  {
    hide Image, Layout.Key;
    assert KeptAt(l, heaps, l.Key(seg, b), now[l.Key(seg, b)], seg, b);
    hide KeptAt;
    forall k | k in now ensures Kept(l, heaps, k, now[k]) {
      if k != l.Key(seg, b) {
        assert k in was && Kept(l, heaps, k, was[k]);
      }
    }
  }

  lemma MoreHeaps(l: Layout, heaps: seq<Heap>, h: Heap, blocks: map<nat, Bytes>)
    requires CacheOk(l, heaps, blocks)
    ensures CacheOk(l, heaps + [h], blocks)
  {
    hide Image, Layout.Key;
    forall key | key in blocks ensures Kept(l, heaps + [h], key, blocks[key]) {
      assert Kept(l, heaps, key, blocks[key]);
      var i: nat, b: nat :| KeptAt(l, heaps, key, blocks[key], i, b);
      assert KeptAt(l, heaps + [h], key, blocks[key], i, b);
    }
  }

  /** ReadString: pread of a block into a buffer of MAX_BLOCK_SIZE bytes; in a heap in order it never refuses. */
  function Fetched(h: Heap, b: nat, buf: Bytes): (r: Bytes)
    requires BlocksIn(h) && h.offset <= |h.file| && b + 1 < |h.pos| && BlockOk(h, b) && h.offset < WRAP
    requires |buf| == MAX_BLOCK_SIZE
    ensures Image(h, b, r) && |r| == MAX_BLOCK_SIZE
    ensures forall at: nat, len: nat :: len <= MAX_LEN && at + len <= MAX_BLOCK_SIZE ==>
              ReadOf(h, b, at, len, buf) == Some(r[at..at + len])
  {
    assert End(h, b) == h.pos[b + 1];
    Filled(h.file, h.pos[b], Size(h, b), buf)
  }

  lemma FromImage(h: Heap, e: Entry, content: Bytes)
    requires Image(h, e.block, content) && Stored(h, e)
    ensures e.at + |e.value| <= |content| && content[e.at..e.at + |e.value|] == e.value
  {
    var i, j := h.pos[e.block], h.pos[e.block + 1];
    var x, y := e.at, e.at + |e.value|;
    SubSlice(content, 0, j - i, x, y);
    SubSlice(h.file, i, j - i, x, y);
    assert content[0..j - i] == content[..j - i];
  }

  // ---- The strings of all segments ----

  ghost predicate Logged(heaps: seq<Heap>, log: seq<Entry>) {
    && (forall k :: 0 <= k < |log| ==> log[k].seg < |heaps|)
    && forall i :: 0 <= i < |heaps| ==> AllStored(heaps[i], log, i) && Covered(heaps[i], log, i)
  }

  lemma LoggedMore(heaps: seq<Heap>, log: seq<Entry>, h: Heap)
    requires Logged(heaps, log) && h.offset == 0
    ensures Logged(heaps + [h], log)
  {
    hide AllStored, Covered, Stored;
    var i := |heaps|;
    assert AllStored(h, log, i) && Covered(h, log, i) by {
      NoneThere(h, log, i);
    }
  }

  lemma NoneThere(h: Heap, log: seq<Entry>, seg: nat)
    requires h.offset == 0 && forall k :: 0 <= k < |log| ==> log[k].seg != seg
    ensures AllStored(h, log, seg) && Covered(h, log, seg)
  {
  }

  /** A string that was added in order is logged with the others. */
  lemma LoggedAdd(per: nat, heaps: seq<Heap>, log: seq<Entry>, seg: nat, r: Heap, e: Entry)
    requires Logged(heaps, log) && seg < |heaps| && e.seg == seg
    requires HeapOk(per, heaps[seg]) && HeapOk(per, r) && Grown(heaps[seg], r) && Stored(r, e)
    requires Spot(r, e) == heaps[seg].offset && r.offset == heaps[seg].offset + |e.value|
    ensures Logged(heaps[seg := r], log + [e])
  {
    hide AllStored, Covered, Stored, HeapOk, Grown, Spot;
    var now := heaps[seg := r];
    forall i | 0 <= i < |heaps| ensures AllStored(now[i], log + [e], i) && Covered(now[i], log + [e], i) {
      if i == seg {
        SameSegment(per, heaps[seg], log, r, e);
      } else {
        OtherSegment(heaps[i], log, i, e);
      }
    }
  }

  lemma OtherSegment(h: Heap, log: seq<Entry>, i: nat, e: Entry)
    requires AllStored(h, log, i) && Covered(h, log, i) && e.seg != i
    ensures AllStored(h, log + [e], i) && Covered(h, log + [e], i)
  {
    hide Stored, Has;
    forall x: nat | x < h.offset ensures InLog(h, log + [e], i, x) {
      assert InLog(h, log, i, x);
      var k :| 0 <= k < |log| && log[k].seg == i && Has(h, log[k], x);
      assert (log + [e])[k] == log[k];
    }
  }

  lemma SameSegment(per: nat, h: Heap, log: seq<Entry>, r: Heap, e: Entry)
    requires AllStored(h, log, e.seg) && Covered(h, log, e.seg)
    requires HeapOk(per, h) && HeapOk(per, r) && Grown(h, r) && Stored(r, e)
    requires Spot(r, e) == h.offset && r.offset == h.offset + |e.value|
    ensures AllStored(r, log + [e], e.seg) && Covered(r, log + [e], e.seg)
  {
    OkIn(per, h);
    OkIn(per, r);
    assert h.pos <= r.pos && e.block < |r.pos|;
    hide Stored, HeapOk, Grown, BlocksIn;
    forall k | 0 <= k < |log| && log[k].seg == e.seg ensures Stored(r, log[k]) {
      StaysStored(h, r, log[k]);
    }
    forall x: nat | x < r.offset ensures InLog(r, log + [e], e.seg, x) {
      if x < h.offset {
        assert InLog(h, log, e.seg, x);
        var k :| 0 <= k < |log| && log[k].seg == e.seg && Has(h, log[k], x);
        assert (log + [e])[k] == log[k] && Has(r, log[k], x);
      } else {
        assert (log + [e])[|log|] == e && Has(r, e, x);
      }
    }
  }

  class StringStore {
    const l: Layout
    const cache: BlockCache
    var heaps: seq<Heap>
    /** Every string added so far, with the place its row was given. */
    ghost var log: seq<Entry>

    /** What every call needs and keeps. */
    ghost predicate Ready()
      reads this, cache
    {
      && 0 < l.per <= MAX_BLOCK_SIZE && 0 < l.capacity <= WRAP && KeysSuffice(l) && Apart(l, |heaps|, l.capacity)
      && (forall i :: 0 <= i < |heaps| ==> 0 < |heaps[i].file| && heaps[i].offset < WRAP)
      && cache.Valid()
    }

    ghost predicate Valid()
      reads this, cache
    {
      && Ready()
      && (forall i :: 0 <= i < |heaps| ==> HeapOk(l.per, heaps[i]))
      && Logged(heaps, log)
      && CacheOk(l, heaps, cache.Blocks())
    }

    constructor (l: Layout, cacheSize: nat, maxOverflow: nat)
      requires 0 < l.per <= MAX_BLOCK_SIZE && 0 < l.capacity <= WRAP && KeysSuffice(l) && cacheSize > 0
      ensures Valid() && this.l == l && heaps == [] && log == [] && fresh(cache)
    {
      this.l := l;
      heaps := [];
      log := [];
      cache := new BlockCache(cacheSize, maxOverflow);
    }

    /** A new segment with an empty string file; its keys are apart from the others'. */
    method Extend(capacity: nat)
      requires Valid() && capacity > 0 && Apart(l, |heaps| + 1, l.capacity)
      modifies `heaps
      ensures Valid() && |heaps| == |old(heaps)| + 1 && heaps[..|old(heaps)|] == old(heaps)
    {
      hide BlockCache.Valid, BlockCache.Blocks, CacheOk, Logged, Apart, KeysSuffice;
      var h := Heap(seq(capacity, _ => 0), 0, []);
      assert HeapOk(l.per, h);
      MoreHeaps(l, heaps, h, cache.Blocks());
      LoggedMore(heaps, log, h);
      heaps := heaps + [h];
    }

    /** Adding a string keeps the store in order if and only if the string file stays below
        4 GiB; every string so far, this one included, is read from the disk in either case. */
    method Add(seg: nat, str: Bytes) returns (block: nat, at: nat)
      requires Ready() && seg < |heaps| && |str| <= MAX_LEN
      modifies `heaps, `log
      ensures Ready() && |heaps| == |old(heaps)| && log == old(log) + [Entry(seg, block, at, str)]
      ensures forall i :: 0 <= i < |heaps| && i != seg ==> heaps[i] == old(heaps)[i]
      ensures Next(l.per, old(heaps)[seg], heaps[seg], block, at, str)
      ensures old(Valid()) ==> (Valid() <==> old(heaps)[seg].offset + |str| < WRAP)
      ensures old(Valid()) ==> AllReadable(heaps[seg], log, seg)
    {
      hide BlockCache.Valid, BlockCache.Blocks, CacheOk, HeapOk, Stored, Grown, End, BlocksIn, Next, Apart, KeysSuffice,
           Logged, AllReadable;
      var r: Heap;
      r, block, at := AddString(l.per, heaps[seg], str);
      ghost var e := Entry(seg, block, at, str);
      NextOffset(l.per, heaps[seg], r, block, at, str);
      if Valid() {
        LoggedReadable(heaps, log, seg, r, e);
        if heaps[seg].offset + |str| < WRAP {
          HeapShape(l.per, heaps[seg]);
          GrownCache(l, heaps, seg, r, cache.Blocks());
          NextPlain(l.per, heaps[seg], r, block, at, str);
          LoggedAdd(l.per, heaps, log, seg, r, e);
        }
      }
      heaps := heaps[seg := r];
      assert heaps[seg] == r;
      log := log + [e];
    }

    /** When the offset has wrapped, the next string leaves every earlier one readable if and
        only if it repeats the bytes that lie where it is put. */
    method AddAfterWrap(seg: nat, s: Bytes, t: Bytes) returns (block: nat, at: nat)
      requires Valid() && seg < |heaps| && |s| <= MAX_LEN && |t| <= MAX_LEN && heaps[seg].offset + |s| >= WRAP
      modifies `heaps, `log
      ensures old(log) <= log && |log| == |old(log)| + 2 && |heaps| == |old(heaps)|
      ensures var h := old(heaps)[seg]; var o := h.offset + |s| - WRAP;
              && o + |t| <= |h.file|
              && (AllReadable(heaps[seg], log, seg) <==> h.file[o..o + |t|] == t)
    {
      hide *;
      StoreParts(seg);
      ghost var h, was := heaps[seg], log;
      block, at := Add(seg, s);
      ghost var r, x := heaps[seg], log[|was|];
      block, at := Add(seg, t);
      ghost var y := Entry(seg, block, at, t);
      WrapLosesMore(l.per, h, r, heaps[seg], was, x, y, h.offset + |s| - WRAP);
      assert log == was + [x, y];
    }

    lemma StoreParts(seg: nat)
      requires Valid() && seg < |heaps|
      ensures Ready() && 0 < l.per <= MAX_BLOCK_SIZE && HeapOk(l.per, heaps[seg])
      ensures AllStored(heaps[seg], log, seg) && Covered(heaps[seg], log, seg)
    {
      hide HeapOk, AllStored, Covered;
    }

    /** Every string ever added is read back, whatever was added or read in between. */
    method Get(seg: nat, block: nat, at: nat, len: nat, ghost e: Entry) returns (out: Bytes)
      requires Valid() && e in log && e == Entry(seg, block, at, e.value) && len == |e.value|
      modifies cache
      ensures Valid() && out == e.value
      ensures l.Key(seg, block) !in old(cache.Blocks()) ==> FromDisk(heaps[seg], block, at, len, out)
    {
      hide InsertedCell, HitCell, BlockCache.Valid, BlockCache.Blocks, CacheOk, HeapOk, Image, BlocksIn, KeysSuffice, Layout.Key, Apart, ReadOf, FromDisk,
           Logged, Filled;
      LoggedStored(heaps, log, e);
      var h := heaps[seg];
      var junk: byte := *;
      var raw: Bytes := seq(MAX_BLOCK_SIZE, _ => junk);
      HeapShape(l.per, h);
      if block + 1 >= |h.pos| {
        LastRead(h, e, raw);
        out := h.file[h.pos[block] + at..h.pos[block] + at + len];
        ReadFrom(h, block, at, len, raw, out);
        return;
      }
      BlockHasKey(l, h, block);
      var key := l.Key(seg, block);
      ghost var before := cache.Blocks();
      var found, buf := cache.Get(key);
      if found {
        CachedIs(l, heaps, before, key);
        KeptIs(l, heaps, before[key], seg, block);
      } else {
        buf := cache.SetOrGet(key, Fetched(h, block, raw));
        InsertCache(l, heaps, before, cache.Blocks(), seg, block);
        StoredInBlock(h, e);
        ReadFrom(h, block, at, len, raw, cache.memory[buf][at..at + len]);
      }
      FromImage(h, e, cache.memory[buf]);
      out := cache.memory[buf][at..at + len];
    }
  }

  lemma LoggedStored(heaps: seq<Heap>, log: seq<Entry>, e: Entry)
    requires Logged(heaps, log) && e in log
    ensures e.seg < |heaps| && Stored(heaps[e.seg], e)
  {
    hide Stored, Covered;
    var k :| 0 <= k < |log| && log[k] == e;
    assert AllStored(heaps[e.seg], log, e.seg);
  }

  lemma StoredInBlock(h: Heap, e: Entry)
    requires Stored(h, e) && BlockOk(h, e.block)
    ensures e.at + |e.value| <= MAX_BLOCK_SIZE
  {
  }

  lemma LastRead(h: Heap, e: Entry, raw: Bytes)
    requires Stored(h, e) && e.block + 1 == |h.pos| && h.offset < WRAP && |raw| == MAX_BLOCK_SIZE
    ensures ReadOf(h, e.block, e.at, |e.value|, raw) == Some(e.value)
  {
  }

  lemma NextOffset(per: nat, h: Heap, r: Heap, block: nat, at: nat, str: Bytes)
    requires Next(per, h, r, block, at, str)
    ensures 0 < |r.file| && r.offset < WRAP
  {
  }

  lemma LoggedReadable(heaps: seq<Heap>, log: seq<Entry>, seg: nat, r: Heap, e: Entry)
    requires Logged(heaps, log) && seg < |heaps| && e.seg == seg && Readable(r, e)
    requires forall x :: Stored(heaps[seg], x) ==> Readable(r, x)
    ensures AllReadable(r, log + [e], seg)
  {
    hide Stored, Readable, Covered;
  }

  lemma MakeWrapped(per: nat, h: Heap, r: Heap, q: Heap, x: Entry, y: Entry)
    requires HeapOk(per, h) && 0 < per <= MAX_BLOCK_SIZE && |x.value| <= MAX_LEN && |y.value| <= MAX_LEN
    requires h.offset + |x.value| >= WRAP
    requires Next(per, h, r, x.block, x.at, x.value) && Next(per, r, q, y.block, y.at, y.value)
    ensures Wrapped(per, h, r, q, x.value, y.value)
  {
    hide HeapOk, Next;
  }

  /** The two strings added are read, so the others decide. */
  lemma WrapLosesMore(per: nat, h: Heap, r: Heap, q: Heap, log: seq<Entry>, x: Entry, y: Entry, o: nat)
    requires HeapOk(per, h) && 0 < per <= MAX_BLOCK_SIZE && |x.value| <= MAX_LEN && |y.value| <= MAX_LEN
    requires h.offset + |x.value| == o + WRAP && x.seg == y.seg
    requires Next(per, h, r, x.block, x.at, x.value) && Next(per, r, q, y.block, y.at, y.value)
    requires AllStored(h, log, x.seg) && Covered(h, log, x.seg)
    ensures o + |y.value| <= |h.file|
    ensures AllReadable(q, log + [x, y], x.seg) <==> h.file[o..o + |y.value|] == y.value
  {
    hide *;
    MakeWrapped(per, h, r, q, x, y);
    WrapLosesIff(per, h, r, q, x.value, y.value, log, x.seg, o);
    LaterAfterWrap(per, h, r, q, x.value, y.value, x.block, x.at, y.block, y.at, x.seg);
    ReadableMore(q, log, x.seg, x, y);
  }

  lemma ReadableMore(h: Heap, log: seq<Entry>, seg: nat, x: Entry, y: Entry)
    requires Readable(h, x) && Readable(h, y)
    ensures AllReadable(h, log + [x, y], seg) <==> AllReadable(h, log, seg)
  {
    hide Readable;
    var more := log + [x, y];
    if AllReadable(h, more, seg) {
      forall k | 0 <= k < |log| && log[k].seg == seg ensures Readable(h, log[k]) {
        assert more[k] == log[k];
      }
    }
  }

  lemma HeapShape(per: nat, h: Heap)
    requires HeapOk(per, h)
    ensures BlocksIn(h) && 0 < |h.file| && h.offset <= |h.file| && h.offset < WRAP
    ensures forall b: nat :: b < |h.pos| ==> BlockOk(h, b)
  {
    OkIn(per, h);
  }

  lemma CachedIs(l: Layout, heaps: seq<Heap>, blocks: map<nat, Bytes>, key: nat)
    requires CacheOk(l, heaps, blocks) && key in blocks
    ensures Kept(l, heaps, key, blocks[key])
  {
  }
}
