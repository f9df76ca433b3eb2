/** Reading, appending and updating fixed-length items of segment files through the block
    cache. One thread; uncompressed blocks; positions and block keys have 32 bits. */
module BlockStore {
  import opened ByteStrings
  import opened Arithmetic
  import opened BlockLayout
  import opened LruCache

  /** A segment: the data part of its file, the items flushed, and last_bid_in_disk_. */
  datatype Segment = Segment(data: Bytes, curSize: nat, lastBid: nat)

  function Flushed(l: Layout, s: Segment): nat {
    s.curSize * l.item
  }

  // ---- Arithmetic ----

  lemma FlushedOrder(l: Layout, s: Segment)
    requires s.curSize <= l.maxSize
    ensures Flushed(l, s) <= l.FileSize()
  {
    Scale(s.curSize, l.maxSize, l.item);
  }

  lemma FlushedReached(l: Layout, s: Segment)
    requires l.Ok() && s.curSize < l.maxSize
    ensures HEADER + Flushed(l, s) < WRAP
  {
    ItemReached(l, s.curSize);
  }

  // ---- What a cached block may be ----

  /** Nothing will be appended inside block b any more. */
  ghost predicate Complete(l: Layout, s: Segment, b: nat) {
    l.Start(b) + l.per <= Flushed(l, s) || s.curSize == l.maxSize
  }

  ghost predicate SegmentOk(l: Layout, s: Segment) {
    && |s.data| == l.FileSize()
    && s.curSize <= l.maxSize
    && forall b: nat :: b < s.lastBid ==> Complete(l, s, b)
  }

  /** content is a buffer of one block that agrees with the file wherever the file has bytes. */
  ghost predicate Holds(l: Layout, data: Bytes, b: nat, content: Bytes) {
    && |content| == l.per
    && forall i :: 0 <= i < |content| && l.Start(b) + i < |data| ==> content[i] == data[l.Start(b) + i]
  }

  /** The cached block is block b of segment i, complete and as in the file. */
  ghost predicate HomeAt(l: Layout, segs: seq<Segment>, key: nat, content: Bytes, i: nat, b: nat) {
    && i < |segs| && b < l.Blocks() && key == l.Key(i, b)
    && Complete(l, segs[i], b) && Holds(l, segs[i].data, b, content)
  }

  ghost predicate Home(l: Layout, segs: seq<Segment>, key: nat, content: Bytes) {
    exists i: nat, b: nat :: HomeAt(l, segs, key, content, i, b)
  }

  ghost predicate Coherent(l: Layout, segs: seq<Segment>, blocks: map<nat, Bytes>) {
    forall key :: key in blocks ==> Home(l, segs, key, blocks[key])
  }

  /** Keys that are apart tell whose block is cached. */
  lemma HomeIs(l: Layout, segs: seq<Segment>, content: Bytes, i: nat, b: nat)
    requires Home(l, segs, l.Key(i, b), content) && Apart(l, |segs|, l.Blocks()) && l.Blocks() <= WRAP
    requires i < |segs| && b < l.Blocks()
    ensures HomeAt(l, segs, l.Key(i, b), content, i, b)
  {
    hide Complete, Holds, Layout.Key, Apart, Layout.Blocks;
    var j: nat, c: nat :| HomeAt(l, segs, l.Key(i, b), content, j, c);
    SameKey(l, |segs|, l.Blocks(), i, b, j, c);
  }

  ghost predicate StoreOk(l: Layout, segs: seq<Segment>) {
    && l.Ok() && Apart(l, |segs|, l.Blocks())
    && forall i :: 0 <= i < |segs| ==> SegmentOk(l, segs[i])
  }

  /** Same files and flushed sizes. */
  ghost predicate SameFiles(a: seq<Segment>, b: seq<Segment>) {
    |a| == |b| && forall i :: 0 <= i < |a| ==> b[i].data == a[i].data && b[i].curSize == a[i].curSize
  }

  ghost predicate Sub(a: map<nat, Bytes>, b: map<nat, Bytes>) {
    a.Keys <= b.Keys && forall k :: k in a ==> a[k] == b[k]
  }

  // ---- Each step keeps the cache coherent ----

  lemma SubCoherent(l: Layout, segs: seq<Segment>, was: map<nat, Bytes>, now: map<nat, Bytes>)
    requires Coherent(l, segs, was) && Sub(now, was)
    ensures Coherent(l, segs, now)
  {
    hide Home;
    forall k | k in now ensures Home(l, segs, k, now[k]) {
      assert Home(l, segs, k, was[k]);
    }
  }

  lemma SameComplete(l: Layout, a: Segment, b: Segment, n: nat)
    requires a.curSize == b.curSize && Complete(l, a, n)
    ensures Complete(l, b, n)
  {
  }

  lemma SameFilesCoherent(l: Layout, a: seq<Segment>, b: seq<Segment>, blocks: map<nat, Bytes>)
    requires SameFiles(a, b) && Coherent(l, a, blocks)
    ensures Coherent(l, b, blocks)
  {
    hide Complete, Holds, Layout.Key, Layout.Blocks;
    forall key | key in blocks ensures Home(l, b, key, blocks[key]) {
      var i: nat, n: nat :| HomeAt(l, a, key, blocks[key], i, n);
      SameComplete(l, a[i], b[i], n);
      assert HomeAt(l, b, key, blocks[key], i, n);
    }
  }

  lemma InsertCoherent(l: Layout, segs: seq<Segment>, was: map<nat, Bytes>, now: map<nat, Bytes>, seg: nat, b: nat)
    requires Coherent(l, segs, was) && seg < |segs| && b < l.Blocks()
    requires l.Key(seg, b) in now && now.Keys <= was.Keys + {l.Key(seg, b)}
    requires forall k :: k in now && k != l.Key(seg, b) ==> now[k] == was[k]
    requires Complete(l, segs[seg], b) && Holds(l, segs[seg].data, b, now[l.Key(seg, b)])
    ensures Coherent(l, segs, now)
  {
    hide Complete, Holds, Layout.Key, Layout.Blocks;
    assert HomeAt(l, segs, l.Key(seg, b), now[l.Key(seg, b)], seg, b);
    hide HomeAt;
    forall k | k in now ensures Home(l, segs, k, now[k]) {
      if k != l.Key(seg, b) {
        assert k in was && Home(l, segs, k, was[k]);
      }
    }
  }

  lemma ExtendCoherent(l: Layout, segs: seq<Segment>, blocks: map<nat, Bytes>)
    requires StoreOk(l, segs) && Coherent(l, segs, blocks) && Apart(l, |segs| + 1, l.Blocks())
    ensures var t := segs + [Segment(seq(l.FileSize(), _ => 0), 0, 0)]; StoreOk(l, t) && Coherent(l, t, blocks)
  {
    hide Complete, Holds, Layout.Key, Layout.Blocks, Layout.Start, Layout.FileSize, Apart;
    var t := segs + [Segment(seq(l.FileSize(), _ => 0), 0, 0)];
    assert SegmentOk(l, t[|segs|]);
    forall key | key in blocks ensures Home(l, t, key, blocks[key]) {
      var i: nat, n: nat :| HomeAt(l, segs, key, blocks[key], i, n);
      assert HomeAt(l, t, key, blocks[key], i, n);
    }
  }

  /** Appended bytes lie behind the flushed size, so no complete block changes. */
  lemma AppendComplete(l: Layout, s: Segment, t: Segment, b: nat)
    requires s.curSize < l.maxSize && s.curSize <= t.curSize && Complete(l, s, b)
    ensures Complete(l, t, b) && l.Start(b) + l.per <= Flushed(l, s)
  {
    Scale(s.curSize, t.curSize, l.item);
  }

  lemma AppendHolds(l: Layout, s: Bytes, t: Bytes, b: nat, content: Bytes, flushed: nat)
    requires Holds(l, s, b, content) && |t| == |s| && l.Start(b) + l.per <= flushed <= |s|
    requires t[..flushed] == s[..flushed]
    ensures Holds(l, t, b, content)
  {
    hide Layout.Start;
    forall i | 0 <= i < |content| && l.Start(b) + i < |t| ensures content[i] == t[l.Start(b) + i] {
      assert t[..flushed][l.Start(b) + i] == s[..flushed][l.Start(b) + i];
    }
  }

  lemma AppendCoherent(l: Layout, segs: seq<Segment>, seg: nat, t: Segment, blocks: map<nat, Bytes>)
    requires StoreOk(l, segs) && Coherent(l, segs, blocks) && seg < |segs| && segs[seg].curSize < l.maxSize
    requires |t.data| == |segs[seg].data| && segs[seg].curSize <= t.curSize <= l.maxSize
    requires t.lastBid == segs[seg].lastBid
    requires Flushed(l, segs[seg]) <= |t.data| && t.data[..Flushed(l, segs[seg])] == segs[seg].data[..Flushed(l, segs[seg])]
    ensures StoreOk(l, segs[seg := t]) && Coherent(l, segs[seg := t], blocks)
  {
    hide Complete, Holds, Layout.Key, Layout.Blocks, Layout.Start, Layout.FileSize, Flushed, Apart;
    var s := segs[seg];
    forall b: nat | b < t.lastBid ensures Complete(l, t, b) {
      AppendComplete(l, s, t, b);
    }
    forall key | key in blocks ensures Home(l, segs[seg := t], key, blocks[key]) {
      var i: nat, b: nat :| HomeAt(l, segs, key, blocks[key], i, b);
      if i == seg {
        AppendComplete(l, s, t, b);
        AppendHolds(l, s.data, t.data, b, blocks[key], Flushed(l, s));
      }
      assert HomeAt(l, segs[seg := t], key, blocks[key], i, b);
    }
  }

  /** A block outside the written range [from, to) keeps its content. */
  lemma UpdateHolds(l: Layout, s: Bytes, t: Bytes, b: nat, content: Bytes, from: nat, to: nat)
    requires Holds(l, s, b, content) && |t| == |s|
    requires forall i :: 0 <= i < |t| && !(from <= i < to) ==> t[i] == s[i]
    requires to <= from || l.Start(b) + l.per <= from || to <= l.Start(b)
    ensures Holds(l, t, b, content)
  {
  }

  /** Block b overlaps the bytes [from, to). */
  ghost predicate Overlaps(l: Layout, b: nat, from: nat, to: nat) {
    from < to && from < l.Start(b) + l.per && l.Start(b) < to
  }

  lemma NoOverlap(l: Layout, b: nat, from: nat, to: nat)
    requires !Overlaps(l, b, from, to)
    ensures to <= from || l.Start(b) + l.per <= from || to <= l.Start(b)
  {
  }

  lemma UpdateCoherent(l: Layout, segs: seq<Segment>, seg: nat, t: Segment, blocks: map<nat, Bytes>, from: nat, to: nat)
    requires StoreOk(l, segs) && Coherent(l, segs, blocks) && seg < |segs|
    requires |t.data| == |segs[seg].data| && t.curSize == segs[seg].curSize && t.lastBid == segs[seg].lastBid
    requires forall i :: 0 <= i < |t.data| && !(from <= i < to) ==> t.data[i] == segs[seg].data[i]
    requires forall b: nat :: Overlaps(l, b, from, to) ==> l.Key(seg, b) !in blocks
    ensures StoreOk(l, segs[seg := t]) && Coherent(l, segs[seg := t], blocks)
  {
    hide Complete, Holds, Layout.Key, Layout.Blocks, Layout.Start, Layout.FileSize, Flushed, Apart, Overlaps;
    var s := segs[seg];
    forall b: nat | b < t.lastBid ensures Complete(l, t, b) {
      SameComplete(l, s, t, b);
    }
    forall key | key in blocks ensures Home(l, segs[seg := t], key, blocks[key]) {
      var i: nat, b: nat :| HomeAt(l, segs, key, blocks[key], i, b);
      if i == seg {
        SameComplete(l, s, t, b);
        assert !Overlaps(l, b, from, to);
        NoOverlap(l, b, from, to);
        UpdateHolds(l, s.data, t.data, b, blocks[key], from, to);
      }
      assert HomeAt(l, segs[seg := t], key, blocks[key], i, b);
    }
  }

  // ---- The pieces of the operations ----

  /** last_bid_in_disk_ as recomputed from the flushed size, a product of 32 bits. */
  function LastBid(l: Layout, s: Segment): nat
    requires l.per > 0
  {
    Flushed(l, s) % WRAP / l.per + if s.curSize == l.maxSize then 1 else 0
  }

  lemma Refreshed(l: Layout, s: Segment)
    requires l.per > 0 && SegmentOk(l, s)
    ensures SegmentOk(l, s.(lastBid := LastBid(l, s)))
  {
    var t := s.(lastBid := LastBid(l, s));
    var x := Flushed(l, s) % WRAP;
    assert x <= Flushed(l, s);
    Locate(l, x);
    forall b: nat | b < LastBid(l, s) ensures Complete(l, t, b) {
      if s.curSize != l.maxSize {
        StartOrder(l, b, x / l.per);
      }
    }
  }

  /** A block that is wholly flushed, or any of a full segment. */
  ghost predicate Cacheable(l: Layout, s: Segment, b: nat) {
    && Flushed(l, s) < WRAP
    && (l.Start(b + 1) <= Flushed(l, s) || (s.curSize == l.maxSize && l.Start(b) <= Flushed(l, s)))
  }

  /** Such a block is below the recomputed last one. */
  lemma FullBlock(l: Layout, s: Segment, t: Segment, b: nat)
    requires l.per > 0 && t == s.(lastBid := LastBid(l, s))
    ensures Cacheable(l, t, b) ==> b < t.lastBid
  {
    var x := Flushed(l, s);
    DivFloor(x, l.per);
    if l.Start(b + 1) <= x < WRAP {
      if x / l.per < b + 1 {
        Scale(x / l.per + 1, b + 1, l.per);
      }
    } else if l.Start(b) <= x < WRAP {
      if x / l.per < b {
        Scale(x / l.per + 1, b, l.per);
      }
    }
  }

  /** pread at a position of the file, behind its header. */
  function Pread(data: Bytes, pos: nat, len: nat): (r: Bytes)
    requires HEADER <= pos <= HEADER + |data|
    ensures |r| <= len && pos - HEADER + |r| <= |data| && r == data[pos - HEADER..pos - HEADER + |r|]
    ensures pos - HEADER + len <= |data| ==> |r| == len
    ensures pos - HEADER + len > |data| ==> pos - HEADER + |r| == |data|
  {
    var at := pos - HEADER;
    if at + len <= |data| then data[at..at + len] else data[at..]
  }

  /** A block fetched by pread: the bytes the file has, then whatever the buffer held. */
  function Fetch(l: Layout, data: Bytes, b: nat, junk: byte): (r: Bytes)
    requires l.Start(b) <= |data| && HEADER + l.Start(b) < WRAP
    ensures Holds(l, data, b, r)
  {
    AddressIs(l.Start(b));
    var got := Pread(data, Address(l.Start(b)), l.per);
    got + seq(l.per - |got|, (_: nat) => junk)
  }

  lemma ChunkOfBlock(l: Layout, data: Bytes, b: nat, content: Bytes, off: nat, len: nat)
    requires Holds(l, data, b, content)
    requires off + len <= l.per && l.Start(b) + off + len <= |data|
    ensures off + len <= |content| && content[off..off + len] == data[l.Start(b) + off..l.Start(b) + off + len]
  {
    hide Layout.Start;
    var pos := l.Start(b);
    var x, y := content[off..off + len], data[pos + off..pos + off + len];
    forall i | 0 <= i < len ensures x[i] == y[i] {
      assert content[off + i] == data[pos + (off + i)];
    }
  }

  lemma Room(l: Layout, s: Segment, n: nat)
    requires s.curSize + n <= l.maxSize
    ensures Flushed(l, s) + n * l.item <= l.FileSize()
  {
    Scale(s.curSize + n, l.maxSize, l.item);
    assert (s.curSize + n) * l.item == s.curSize * l.item + n * l.item;
  }

  /** pwrite inside the file. */
  function Written(data: Bytes, start: nat, value: Bytes): (r: Bytes)
    requires start + |value| <= |data|
    ensures |r| == |data| && r[start..start + |value|] == value && r[..start] == data[..start]
    ensures forall i :: 0 <= i < |data| && !(start <= i < start + |value|) ==> r[i] == data[i]
  {
    data[..start] + value + data[start + |value|..]
  }

  /** The chunk of a loop over [s, s + left): what of it lies in the block of s. */
  function Chunk(l: Layout, s: nat, left: nat): (len: nat)
    requires l.per > 0 && left > 0
    ensures 0 < len <= left && s % l.per + len <= l.per
  {
    var len := if left > l.per then l.per else left;
    if len > l.per - s % l.per then l.per - s % l.per else len
  }

  /** Every block overlapping [from, s + Chunk) is the block of s or overlaps [from, s). */
  lemma ChunkCovers(l: Layout, from: nat, s: nat, left: nat, b: nat)
    requires l.per > 0 && left > 0 && from <= s
    requires s == from || s % l.per == 0
    requires Overlaps(l, b, from, s + Chunk(l, s, left))
    ensures b == s / l.per || Overlaps(l, b, from, s)
  {
    hide Layout.Start;
    Locate(l, s);
    StartOrder(l, b, s / l.per);
    StartOrder(l, s / l.per, b);
  }

  lemma ChunkEnds(l: Layout, s: nat, left: nat)
    requires l.per > 0 && left > 0
    ensures Chunk(l, s, left) == left || (s + Chunk(l, s, left)) % l.per == 0
  {
    var len := Chunk(l, s, left);
    DivFloor(s, l.per);
    if len != left {
      assert s + len == (s / l.per + 1) * l.per;
      DivUnique(s + len, l.per, s / l.per + 1, 0);
    }
  }

  // ---- The files alone, without a cache ----

  datatype File = File(data: Bytes, size: nat)

  datatype Op =
    | Extend
    | Append(seg: nat, value: Bytes, n: nat)
    | Read(seg: nat, start: nat, len: nat)
    | Update(seg: nat, start: nat, value: Bytes)

  function Files(segs: seq<Segment>): (r: seq<File>)
    ensures |r| == |segs| && forall i :: 0 <= i < |r| ==> r[i] == File(segs[i].data, segs[i].curSize)
  {
    seq(|segs|, i requires 0 <= i < |segs| => File(segs[i].data, segs[i].curSize))
  }

  /** What the callers keep to: keys stay apart, appends fit the segment, reads and updates begin
      with an item and touch flushed bytes. */
  ghost predicate Admits(l: Layout, f: seq<File>, op: Op) {
    match op
    case Extend => Apart(l, |f| + 1, l.Blocks())
    case Append(seg, value, n) =>
      seg < |f| && |value| == n * l.item && f[seg].size + n <= l.maxSize && f[seg].size * l.item + |value| <= |f[seg].data|
    case Read(seg, start, n) =>
      seg < |f| && 0 < l.item && start % l.item == 0 && start + n <= f[seg].size * l.item <= |f[seg].data|
    case Update(seg, start, value) =>
      seg < |f| && 0 < l.item && start % l.item == 0 && start + |value| <= f[seg].size * l.item <= |f[seg].data|
  }

  ghost function After(l: Layout, f: seq<File>, op: Op): seq<File>
    requires Admits(l, f, op)
  {
    match op
    case Extend => f + [File(seq(l.FileSize(), _ => 0), 0)]
    case Append(seg, value, n) =>
      f[seg := File(Written(f[seg].data, f[seg].size * l.item, value), f[seg].size + n)]
    case Read(_, _, _) => f
    case Update(seg, start, value) => f[seg := File(Written(f[seg].data, start, value), f[seg].size)]
  }

  ghost function Answer(l: Layout, f: seq<File>, op: Op): Bytes
    requires Admits(l, f, op)
  {
    match op
    case Read(seg, start, n) => f[seg].data[start..start + n]
    case _ => []
  }

  ghost predicate AdmitsAll(l: Layout, f: seq<File>, ops: seq<Op>)
    decreases |ops|
  {
    ops == [] || (Admits(l, f, ops[0]) && AdmitsAll(l, After(l, f, ops[0]), ops[1..]))
  }

  ghost function AfterAll(l: Layout, f: seq<File>, ops: seq<Op>): seq<File>
    requires AdmitsAll(l, f, ops)
    decreases |ops|
  {
    if ops == [] then f else AfterAll(l, After(l, f, ops[0]), ops[1..])
  }

  ghost function Answers(l: Layout, f: seq<File>, ops: seq<Op>): seq<Bytes>
    requires AdmitsAll(l, f, ops)
    decreases |ops|
  {
    if ops == [] then [] else [Answer(l, f, ops[0])] + Answers(l, After(l, f, ops[0]), ops[1..])
  }

  class BlockFile {
    const l: Layout
    const cache: BlockCache
    var segs: seq<Segment>

    ghost predicate Valid()
      reads this, cache
    {
      && StoreOk(l, segs)
      && cache.Valid()
      && Coherent(l, segs, cache.Blocks())
    }

    constructor (l: Layout, cacheSize: nat, maxOverflow: nat)
      requires l.Ok() && cacheSize > 0
      ensures Valid() && this.l == l && segs == [] && fresh(cache)
    {
      this.l := l;
      segs := [];
      cache := new BlockCache(cacheSize, maxOverflow);
    }

    /** A new segment: ftruncate makes a file of zero bytes. */
    method Extend()
      requires Valid() && Apart(l, |segs| + 1, l.Blocks())
      modifies `segs
      ensures Valid() && segs == old(segs) + [Segment(seq(l.FileSize(), _ => 0), 0, 0)]
    {
      hide BlockCache.Valid, BlockCache.Blocks, StoreOk, Coherent;
      ExtendCoherent(l, segs, cache.Blocks());
      segs := segs + [Segment(seq(l.FileSize(), _ => 0), 0, 0)];
    }

    /** The writer appends whole items after the flushed ones and publishes the new size. */
    method Append(seg: nat, value: Bytes, n: nat)
      requires Valid() && seg < |segs|
      requires |value| == n * l.item && segs[seg].curSize + n <= l.maxSize
      modifies `segs
      ensures Valid() && |segs| == |old(segs)|
      ensures forall i :: 0 <= i < |segs| && i != seg ==> segs[i] == old(segs)[i]
      ensures segs[seg].curSize == old(segs)[seg].curSize + n
      ensures var at := Flushed(l, old(segs)[seg]);
              at + |value| <= |old(segs)[seg].data| && segs[seg].data == Written(old(segs)[seg].data, at, value)
    {
      hide BlockCache.Valid, BlockCache.Blocks, Coherent, Complete, Layout.Key, Layout.Blocks, Layout.Start,
           Layout.FileSize, Flushed, Apart, Address;
      var s := segs[seg];
      Room(l, s, n);
      var at := Flushed(l, s);
      if n > 0 {
        FlushedReached(l, s);
        AddressIs(Flushed(l, s));
        at := Address(Flushed(l, s)) - HEADER;
      }
      var t := Segment(Written(s.data, at, value), s.curSize + n, s.lastBid);
      if n > 0 {
        AppendCoherent(l, segs, seg, t, cache.Blocks());
      } else {
        assert value == [] && t.data == s.data;
        assert segs[seg := t] == segs;
      }
      segs := segs[seg := t];
    }

    method ReadCached(seg: nat, b: nat, off: nat, len: nat) returns (out: Bytes)
      requires Valid() && seg < |segs| && 0 < len && off + len <= l.per
      requires l.Start(b) + off + len <= |segs[seg].data| && b < segs[seg].lastBid
      requires HEADER + l.Start(b) < WRAP
      modifies cache
      ensures Valid()
      ensures out == segs[seg].data[l.Start(b) + off..l.Start(b) + off + len]
      ensures l.Key(seg, b) in cache.Blocks()
    {
      hide InsertedCell, HitCell, BlockCache.Valid, BlockCache.Blocks, Complete, Holds, Home, Layout.Key, Layout.Blocks, Layout.Start,
           Layout.FileSize, Flushed, Apart, Address;
      var key := l.Key(seg, b);
      BlockInRange(l, b);
      BlocksBound(l);
      ghost var before := cache.Blocks();
      var found, block := cache.Get(key);
      if found {
        assert Home(l, segs, key, cache.Blocks()[key]);
        HomeIs(l, segs, cache.Blocks()[key], seg, b);
      } else {
        var junk: byte := *;
        block := cache.SetOrGet(key, Fetch(l, segs[seg].data, b, junk));
        assert SegmentOk(l, segs[seg]);
        InsertCoherent(l, segs, before, cache.Blocks(), seg, b);
      }
      ChunkOfBlock(l, segs[seg].data, b, cache.memory[block], off, len);
      out := cache.memory[block][off..off + len];
    }

    /** One pass of the loop of Block::Read: the part of the read inside block b. */
    method ReadChunk(seg: nat, b: nat, off: nat, len: nat) returns (out: Bytes)
      requires Valid() && seg < |segs| && 0 < len && off + len <= l.per
      requires l.Start(b) + off + len <= Flushed(l, segs[seg]) && HEADER + l.Start(b) + off < WRAP
      modifies this, cache
      ensures Valid() && SameFiles(old(segs), segs)
      ensures l.Start(b) + off + len <= |segs[seg].data|
      ensures out == segs[seg].data[l.Start(b) + off..l.Start(b) + off + len]
      ensures Cacheable(l, segs[seg], b) ==> l.Key(seg, b) in cache.Blocks()
    {
      hide Cacheable, BlockCache.Valid, BlockCache.Blocks, Coherent, Complete, Holds, Layout.Key, Layout.Blocks, Layout.Start,
           Layout.FileSize, Flushed, LastBid, Apart, Address;
      FlushedOrder(l, segs[seg]);
      if segs[seg].lastBid <= b {
        Refreshed(l, segs[seg]);
        segs := segs[seg := segs[seg].(lastBid := LastBid(l, segs[seg]))];
        SameFilesCoherent(l, old(segs), segs, cache.Blocks());
        FullBlock(l, old(segs)[seg], segs[seg], b);
      }
      if segs[seg].lastBid <= b {
        AddressIs(l.Start(b) + off);
        return Pread(segs[seg].data, Address(l.Start(b) + off), len);
      }
      out := ReadCached(seg, b, off, len);
    }

    /** Reading flushed bytes returns the file's bytes, from the cache or not. */
    method Read(seg: nat, start: nat, n: nat) returns (out: Bytes)
      requires Valid() && seg < |segs| && start + n <= Flushed(l, segs[seg]) && l.item > 0 && start % l.item == 0
      modifies this, cache
      ensures Valid() && SameFiles(old(segs), segs)
      ensures start + n <= |segs[seg].data| && out == segs[seg].data[start..start + n]
    {
      hide Valid, Layout.Start, Layout.FileSize, Flushed, Chunk, SameFiles;
      SizesOk(seg);
      out := [];
      var s: nat, left: nat := start, n;
      assert SameFiles(old(segs), segs) by { SameFilesRefl(segs); }
      ghost var d := segs[seg].data;
      while left > 0
        invariant s + left == start + n && (s == start || left == 0 || s % l.per == 0)
        invariant Valid() && SameFiles(old(segs), segs)
        invariant s <= |d| && out == d[start..s]
      {
        var len := Chunk(l, s, left);
        Locate(l, s);
        ChunkEnds(l, s, left);
        SameFlushed(l, old(segs), segs, seg);
        Reached(seg, start, s);
        label Before:
        var chunk := ReadChunk(seg, s / l.per, s % l.per, len);
        SameFilesTrans(old(segs), old@Before(segs), segs);
        SameFlushed(l, old(segs), segs, seg);
        assert d[start..s] + d[s..s + len] == d[start..s + len];
        out := out + chunk;
        s, left := s + len, left - len;
      }
      SameFlushed(l, old(segs), segs, seg);
    }

    /** The items and the blocks of a segment begin below 4 GiB. */
    lemma Reached(seg: nat, start: nat, s: nat)
      requires Valid() && seg < |segs| && l.item > 0 && start % l.item == 0 && l.per > 0
      requires (s == start || s % l.per == 0) && s < |segs[seg].data|
      ensures HEADER + s < WRAP
    {
      hide Apart, Coherent;
      if s != start {
        BlockAligned(l, s);
      }
      StartReached(l, s);
    }

    lemma SizesOk(seg: nat)
      requires Valid() && seg < |segs|
      ensures l.per > 0 && l.capacity > 0 && Flushed(l, segs[seg]) <= |segs[seg].data|
    {
      FlushedOrder(l, segs[seg]);
    }

    /** An update of flushed bytes writes the file and evicts every block it overlaps. */
    method Update(seg: nat, start: nat, value: Bytes)
      requires Valid() && seg < |segs| && start + |value| <= Flushed(l, segs[seg])
      requires l.item > 0 && start % l.item == 0
      modifies this, cache
      ensures Valid() && |segs| == |old(segs)|
      ensures start + |value| <= |old(segs)[seg].data|
      ensures segs == old(segs)[seg := old(segs)[seg].(data := Written(old(segs)[seg].data, start, value))]
    {
      hide BlockCache.Valid, BlockCache.Blocks, Coherent, StoreOk, Layout.Start, Layout.FileSize, Flushed, Overlaps,
           Layout.Key, Layout.Blocks, Address;
      SizesOk(seg);
      var at := start;
      if value != [] {
        Reached(seg, start, start);
        AddressIs(start);
        at := Address(start) - HEADER;
      }
      segs := segs[seg := segs[seg].(data := Written(segs[seg].data, at, value))];
      EvictRange(seg, start, |value|);
      SubCoherent(l, old(segs), old(cache.Blocks()), cache.Blocks());
      UpdateCoherent(l, old(segs), seg, segs[seg], cache.Blocks(), start, start + |value|);
    }

    /** One operation does to the files, and answers, what it would without a cache. */
    method Do(op: Op) returns (out: Bytes)
      requires Valid() && Admits(l, Files(segs), op)
      modifies this, cache
      ensures Valid() && Files(segs) == After(l, Files(old(segs)), op)
      ensures out == Answer(l, Files(old(segs)), op)
    {
      hide Valid, Layout.FileSize, Apart, Layout.Blocks;
      out := [];
      match op {
        case Extend => Extend();
        case Append(seg, value, n) => Append(seg, value, n);
        case Read(seg, start, n) => out := Read(seg, start, n);
        case Update(seg, start, value) => Update(seg, start, value);
      }
      assert Files(segs) == After(l, Files(old(segs)), op);
    }

    /** Over any sequence of operations, every read answers what the plain files hold. */
    method Run(ops: seq<Op>) returns (outs: seq<Bytes>)
      requires Valid() && AdmitsAll(l, Files(segs), ops)
      modifies this, cache
      ensures Valid() && Files(segs) == AfterAll(l, Files(old(segs)), ops)
      ensures outs == Answers(l, Files(old(segs)), ops)
      decreases |ops|
    {
      hide Valid, Admits, After, Answer;
      if ops == [] {
        return [];
      }
      var out := Do(ops[0]);
      var rest := Run(ops[1..]);
      outs := [out] + rest;
    }

    /** The loop of Block::Update: no cached block overlaps the written bytes afterwards. */
    method EvictRange(seg: nat, start: nat, n: nat)
      requires cache.Valid() && l.per > 0
      modifies cache
      ensures cache.Valid() && Sub(cache.Blocks(), old(cache.Blocks()))
      ensures forall b: nat :: Overlaps(l, b, start, start + n) ==> l.Key(seg, b) !in cache.Blocks()
    {
      hide BlockCache.Valid, BlockCache.Blocks, Layout.Start, Layout.Key, Chunk;
      var s: nat, left: nat := start, n;
      while left > 0
        invariant s + left == start + n
        invariant s == start || left == 0 || s % l.per == 0
        invariant cache.Valid() && Sub(cache.Blocks(), old(cache.Blocks()))
        invariant forall b: nat :: Overlaps(l, b, start, s) ==> l.Key(seg, b) !in cache.Blocks()
      {
        var len := Chunk(l, s, left);
        cache.Evict(l.Key(seg, s / l.per));
        ChunkEnds(l, s, left);
        forall b: nat | Overlaps(l, b, start, s + len) ensures l.Key(seg, b) !in cache.Blocks() {
          ChunkCovers(l, start, s, left, b);
        }
        s, left := s + len, left - len;
      }
    }
  }

  lemma SameFlushed(l: Layout, a: seq<Segment>, b: seq<Segment>, seg: nat)
    requires SameFiles(a, b) && seg < |a|
    ensures seg < |b| && Flushed(l, a[seg]) == Flushed(l, b[seg]) && a[seg].data == b[seg].data
  {
  }

  lemma SameFilesRefl(a: seq<Segment>)
    ensures SameFiles(a, a)
  {
  }

  lemma SameFilesTrans(a: seq<Segment>, b: seq<Segment>, c: seq<Segment>)
    requires SameFiles(a, b) && SameFiles(b, c)
    ensures SameFiles(a, c)
  {
  }
}
