/** The background writer of the segment files: writes queued in order are gathered into a
    buffer and written together. Each file has its own counter of written items (cur_size). */
module AsyncWriter {
  import opened ByteStrings
  import opened Arithmetic

  const BULK_SIZE: nat := 1000
  const BULK_BYTES: nat := 1048576
  const SIZE_OFF: nat := 5 // sizeof(uint8_t) + sizeof(uint32_t)
  const WORD: nat := 4
  const WRAP: nat := 0x1_0000_0000

  datatype Write = Write(fd: nat, start: nat, data: Bytes)

  datatype Disk = Disk(files: map<nat, Bytes>, sizes: map<nat, nat>)

  // ---- pwrite ----

  function Max(a: nat, b: nat): nat {
    if a < b then b else a
  }

  /** pwrite: a gap behind the end of the file reads as zeros. */
  function Pwrite(f: Bytes, start: nat, d: Bytes): (r: Bytes)
    ensures d == [] ==> r == f
    ensures d != [] ==> |r| == Max(|f|, start + |d|)
    ensures d != [] ==> forall i :: 0 <= i < |r| ==>
              r[i] == if start <= i < start + |d| then d[i - start] else if i < |f| then f[i] else 0
  {
    if d == [] then f
    else
      seq(Max(|f|, start + |d|),
          i requires 0 <= i => if start <= i < start + |d| then d[i - start] else if i < |f| then f[i] else 0)
  }

  lemma PwriteJoins(f: Bytes, s: nat, a: Bytes, b: Bytes)
    ensures Pwrite(Pwrite(f, s, a), s + |a|, b) == Pwrite(f, s, a + b)
  {
    if a == [] {
      assert a + b == b;
    } else if b == [] {
      assert a + b == a;
    }
  }

  lemma PwriteCommutes(f: Bytes, s: nat, a: Bytes, t: nat, b: Bytes)
    requires s + |a| <= t || t + |b| <= s
    ensures Pwrite(Pwrite(f, s, a), t, b) == Pwrite(Pwrite(f, t, b), s, a)
  {
  }

  lemma PwriteReplaces(f: Bytes, s: nat, a: Bytes, b: Bytes)
    requires |a| == |b|
    ensures Pwrite(Pwrite(f, s, a), s, b) == Pwrite(f, s, b)
  {
  }

  // ---- One write at a time ----

  /** A 32-bit number, little-endian. */
  function Word(x: nat): (r: Bytes)
    ensures |r| == WORD
  {
    [(x % 256) as byte, (x / 256 % 256) as byte, (x / 65536 % 256) as byte, (x / 16777216 % 256) as byte]
  }

  /** How many items a number of bytes makes, and how many bytes a number of items. */
  function Items(bytes: nat, item: nat): nat
    requires item > 0
  {
    bytes / item
  }

  function Span(items: nat, item: nat): nat {
    items * item
  }

  predicate Whole(bytes: nat, item: nat)
    requires item > 0
  {
    bytes % item == 0
  }

  function Count(size: nat, items: nat): nat {
    (size + items) % WRAP
  }

  predicate Open(d: Disk, w: Write) {
    w.fd in d.files && w.fd in d.sizes
  }

  /** SyncWrite: the data, then the size in the header and in the counter. */
  function Single(d: Disk, w: Write, item: nat): Disk
    requires item > 0 && Open(d, w)
  {
    var size := Count(d.sizes[w.fd], Items(|w.data|, item));
    Disk(d.files[w.fd := Pwrite(Pwrite(d.files[w.fd], w.start, w.data), SIZE_OFF, Word(size))], d.sizes[w.fd := size])
  }

  ghost predicate AllOpen(d: Disk, ws: seq<Write>) {
    forall i :: 0 <= i < |ws| ==> Open(d, ws[i])
  }

  /** Every write issued on its own, in order. */
  ghost function All(d: Disk, ws: seq<Write>, item: nat): Disk
    requires item > 0 && AllOpen(d, ws)
    ensures All(d, ws, item).files.Keys == d.files.Keys && All(d, ws, item).sizes.Keys == d.sizes.Keys
    decreases |ws|
  {
    if ws == [] then d else Single(All(d, ws[..|ws| - 1], item), ws[|ws| - 1], item)
  }

  // ---- Coalescing two writes ----

  /** A write of whole items behind the header, no longer than the buffer. */
  ghost predicate Fine(w: Write, item: nat)
    requires item > 0
  {
    SIZE_OFF + WORD <= w.start && Whole(|w.data|, item) && |w.data| <= BULK_BYTES
  }

  /** The second continues the first when both go to the same file. */
  ghost predicate Follows(a: Write, b: Write) {
    a.fd == b.fd ==> b.start == a.start + |a.data|
  }

  ghost predicate Contiguous(ws: seq<Write>) {
    forall i :: 0 < i < |ws| ==> Follows(ws[i - 1], ws[i])
  }

  function Join(a: Write, b: Write): Write {
    Write(a.fd, a.start, a.data + b.data)
  }

  lemma CountJoins(size: nat, x: nat, y: nat, item: nat)
    requires item > 0 && Whole(x, item) && Whole(y, item)
    ensures Whole(x + y, item) && Items(x + y, item) == Items(x, item) + Items(y, item)
    ensures Count(Count(size, Items(x, item)), Items(y, item)) == Count(size, Items(x + y, item))
  {
    hide Count;
    var m, n := x / item, y / item;
    DivFloor(x, item);
    DivFloor(y, item);
    assert x + y == (m + n) * item;
    DivUnique(x + y, item, m + n, 0);
    CountSum(size, m, n);
  }

  lemma CountSum(size: nat, m: nat, n: nat)
    ensures Count(Count(size, m), n) == Count(size, m + n)
  {
    ModSum(size + m, n);
  }

  lemma SpanAdds(size: nat, bytes: nat, item: nat)
    requires item > 0 && Whole(bytes, item)
    ensures Span(size + Items(bytes, item), item) == Span(size, item) + bytes
  {
    DivFloor(bytes, item);
    assert (size + bytes / item) * item == size * item + bytes / item * item;
  }

  lemma ModSum(a: nat, b: nat)
    ensures (a % WRAP + b) % WRAP == (a + b) % WRAP
  {
  }

  lemma JoinIsBoth(d: Disk, a: Write, b: Write, item: nat)
    requires item > 0 && Open(d, a) && a.fd == b.fd && Follows(a, b)
    requires SIZE_OFF + WORD <= a.start && Whole(|a.data|, item) && Whole(|b.data|, item)
    ensures Open(d, Join(a, b)) && Open(Single(d, a, item), b)
    ensures Single(Single(d, a, item), b, item) == Single(d, Join(a, b), item)
  {
    hide Items, Whole, Count, Pwrite, Word;
    var f := d.files[a.fd];
    var s1 := Count(d.sizes[a.fd], Items(|a.data|, item));
    var s2 := Count(s1, Items(|b.data|, item));
    CountJoins(d.sizes[a.fd], |a.data|, |b.data|, item);
    assert |(a.data + b.data)| == |a.data| + |b.data|;
    FilesJoin(f, a, b, Word(s1), Word(s2));
    var l, r := Single(Single(d, a, item), b, item), Single(d, Join(a, b), item);
    assert l.files == r.files;
    assert l.sizes == r.sizes;
  }

  lemma FilesJoin(f: Bytes, a: Write, b: Write, x: Bytes, y: Bytes)
    requires SIZE_OFF + WORD <= a.start && b.start == a.start + |a.data| && |x| == WORD == |y|
    ensures Pwrite(Pwrite(Pwrite(Pwrite(f, a.start, a.data), SIZE_OFF, x), b.start, b.data), SIZE_OFF, y)
         == Pwrite(Pwrite(f, a.start, a.data + b.data), SIZE_OFF, y)
  {
    hide Pwrite;
    PwriteCommutes(Pwrite(f, a.start, a.data), SIZE_OFF, x, b.start, b.data);
    PwriteJoins(f, a.start, a.data, b.data);
    PwriteReplaces(Pwrite(f, a.start, a.data + b.data), SIZE_OFF, x, y);
  }

  // ---- Items counted are items written ----

  /** What each file is to hold behind its header of h bytes, once all is written. */
  type Plan = map<nat, Bytes>

  /** The counted items of every planned file are in place. */
  ghost predicate Counted(d: Disk, plan: Plan, h: nat, item: nat) {
    forall fd :: fd in plan && fd in d.files && fd in d.sizes ==> InPlace(d.files[fd], plan[fd], h, Span(d.sizes[fd], item))
  }

  ghost predicate InPlace(f: Bytes, p: Bytes, h: nat, n: nat) {
    n <= |p| && h + n <= |f| && f[h..h + n] == p[..n]
  }

  /** The write appends the next planned items of its file. */
  ghost predicate Next(sizes: map<nat, nat>, w: Write, plan: Plan, h: nat, item: nat)
    requires item > 0
  {
    && w.fd in plan && w.fd in sizes
    && Whole(|w.data|, item) && sizes[w.fd] + Items(|w.data|, item) < WRAP
    && w.start == h + Span(sizes[w.fd], item)
    && w.start - h + |w.data| <= |plan[w.fd]|
    && plan[w.fd][w.start - h..w.start - h + |w.data|] == w.data
  }

  /** Segment::Add: each file is appended to in the order of the queue. */
  ghost predicate Planned(sizes: map<nat, nat>, ws: seq<Write>, plan: Plan, h: nat, item: nat)
    requires item > 0
    decreases |ws|
  {
    ws == [] || (
      && Next(sizes, ws[0], plan, h, item)
      && Planned(sizes[ws[0].fd := Count(sizes[ws[0].fd], Items(|ws[0].data|, item))], ws[1..], plan, h, item))
  }

  lemma JoinSlices(p: Bytes, s: nat, a: nat, b: nat)
    ensures s + a + b <= |p| ==> p[s..s + a] + p[s + a..s + a + b] == p[s..s + a + b]
  {
  }

  lemma NextJoins(d: Disk, a: Write, b: Write, plan: Plan, h: nat, item: nat)
    requires item > 0 && Open(d, a) && a.fd == b.fd
    requires Next(d.sizes, a, plan, h, item) && Next(Single(d, a, item).sizes, b, plan, h, item)
    ensures Next(d.sizes, Join(a, b), plan, h, item)
  {
    hide Span, Items, Whole, Pwrite, Word, Count;
    var p, s := plan[a.fd], a.start - h;
    CountJoins(d.sizes[a.fd], |a.data|, |b.data|, item);
    SpanAdds(d.sizes[a.fd], |a.data|, item);
    SmallCount(d.sizes[a.fd], Items(|a.data|, item));
    JoinSlices(p, s, |a.data|, |b.data|);
  }

  lemma SmallCount(size: nat, items: nat)
    requires size + items < WRAP
    ensures Count(size, items) == size + items
  {
  }

  lemma DataBehind(f: Bytes, p: Bytes, h: nat, n: nat, start: nat, data: Bytes)
    requires InPlace(f, p, h, n) && h + n <= start
    ensures InPlace(Pwrite(f, start, data), p, h, n)
  {
    var g := Pwrite(f, start, data);
    var x, y := g[h..h + n], f[h..h + n];
    assert forall i :: 0 <= i < n ==> x[i] == y[i];
  }

  lemma HeaderBefore(f: Bytes, p: Bytes, h: nat, n: nat, word: Bytes)
    requires InPlace(f, p, h, n) && |word| == WORD && SIZE_OFF + WORD <= h
    ensures InPlace(Pwrite(f, SIZE_OFF, word), p, h, n)
  {
    var g := Pwrite(f, SIZE_OFF, word);
    var x, y := g[h..h + n], f[h..h + n];
    assert forall i :: 0 <= i < n ==> x[i] == y[i];
  }

  lemma DataInPlace(f: Bytes, p: Bytes, h: nat, n: nat, data: Bytes)
    requires InPlace(f, p, h, n) && n + |data| <= |p| && p[n..n + |data|] == data
    ensures InPlace(Pwrite(f, h + n, data), p, h, n + |data|)
  {
    var g := Pwrite(f, h + n, data);
    var m := n + |data|;
    forall i | 0 <= i < m ensures g[h..h + m][i] == p[..m][i] {
      if i < n {
        assert f[h..h + n][i] == p[..n][i];
      } else {
        assert p[n..m][i - n] == data[i - n];
      }
    }
  }

  /** The open files and their counters; trace lists every state they have been through. */
  class Device {
    var disk: Disk
    ghost var trace: seq<Disk>

    constructor (disk: Disk)
      ensures this.disk == disk && trace == [disk]
    {
      this.disk := disk;
      trace := [disk];
    }

    method WriteFile(fd: nat, start: nat, data: Bytes)
      requires fd in disk.files
      modifies this
      ensures disk == old(disk).(files := old(disk).files[fd := Pwrite(old(disk).files[fd], start, data)])
      ensures trace == old(trace) + [disk]
    {
      disk := disk.(files := disk.files[fd := Pwrite(disk.files[fd], start, data)]);
      trace := trace + [disk];
    }

    method SetSize(fd: nat, size: nat)
      modifies this
      ensures disk == old(disk).(sizes := old(disk).sizes[fd := size])
      ensures trace == old(trace) + [disk]
    {
      disk := disk.(sizes := disk.sizes[fd := size]);
      trace := trace + [disk];
    }

    /** pwrite and UpdateSize: the counter moves only after the data is in the file. */
    method Flush(w: Write, item: nat, ghost plan: Plan, ghost h: nat)
      requires item > 0 && Open(disk, w) && SIZE_OFF + WORD <= h
      modifies this
      ensures disk == Single(old(disk), w, item)
      ensures old(trace) <= trace
      ensures Counted(old(disk), plan, h, item) && Next(old(disk).sizes, w, plan, h, item) ==>
                AllCounted(trace, |old(trace)|, plan, h, item) && Counted(disk, plan, h, item)
    {
      WriteFile(w.fd, w.start, w.data);
      ghost var d1 := disk;
      var size := Count(disk.sizes[w.fd], Items(|w.data|, item));
      WriteFile(w.fd, SIZE_OFF, Word(size));
      ghost var d2 := disk;
      SetSize(w.fd, size);
      if Counted(old(disk), plan, h, item) && Next(old(disk).sizes, w, plan, h, item) {
        FlushCounted(old(disk), d1, d2, disk, w, plan, h, item);
      }
    }
  }

  lemma FlushCounted(d: Disk, d1: Disk, d2: Disk, d3: Disk, w: Write, plan: Plan, h: nat, item: nat)
    requires item > 0 && Open(d, w) && SIZE_OFF + WORD <= h
    requires Counted(d, plan, h, item) && Next(d.sizes, w, plan, h, item)
    requires d1 == d.(files := d.files[w.fd := Pwrite(d.files[w.fd], w.start, w.data)])
    requires d2 == d1.(files := d1.files[w.fd := Pwrite(d1.files[w.fd], SIZE_OFF, Word(Count(d.sizes[w.fd], Items(|w.data|, item))))])
    requires d3 == d2.(sizes := d2.sizes[w.fd := Count(d.sizes[w.fd], Items(|w.data|, item))])
    ensures Counted(d1, plan, h, item) && Counted(d2, plan, h, item) && Counted(d3, plan, h, item)
  {
    hide Pwrite, Word, InPlace, Span, Items, Whole, Count;
    var f, p, n := d.files[w.fd], plan[w.fd], Span(d.sizes[w.fd], item);
    var word := Word(Count(d.sizes[w.fd], Items(|w.data|, item)));
    assert InPlace(f, p, h, n);
    DataBehind(f, p, h, n, w.start, w.data);
    HeaderBefore(d1.files[w.fd], p, h, n, word);
    InPlaceSize(f, p, h, n);
    DataInPlace(f, p, h, n, w.data);
    HeaderBefore(d1.files[w.fd], p, h, n + |w.data|, word);
    SmallCount(d.sizes[w.fd], Items(|w.data|, item));
    SpanAdds(d.sizes[w.fd], |w.data|, item);
  }

  lemma InPlaceSize(f: Bytes, p: Bytes, h: nat, n: nat)
    requires InPlace(f, p, h, n)
    ensures n <= |p| && h + n <= |f|
  {
  }

  // ---- The handler ----

  /** memcpy into the buffer. */
  method Copy(buffer: array<byte>, at: nat, data: Bytes)
    requires at + |data| <= buffer.Length
    modifies buffer
    ensures buffer[..at] == old(buffer[..at]) && buffer[..at + |data|] == old(buffer[..at]) + data
  {
    for i := 0 to |data|
      invariant buffer[..at] == old(buffer[..at])
      invariant forall j :: 0 <= j < i ==> buffer[at + j] == data[j]
    {
      buffer[at + i] := data[i];
    }
  }

  /** The disk d with the pending write p stands for the first i writes. */
  ghost predicate Pending(d: Disk, p: Write, d0: Disk, ws: seq<Write>, i: nat, item: nat)
    requires item > 0 && AllOpen(d0, ws)
  {
    && 0 < i <= |ws| && Open(d, p) && AllOpen(d0, ws[..i])
    && Single(d, p, item) == All(d0, ws[..i], item)
    && p.fd == ws[i - 1].fd && p.start + |p.data| == ws[i - 1].start + |ws[i - 1].data|
    && Fine(p, item)
  }

  ghost predicate FineAll(ws: seq<Write>, item: nat)
    requires item > 0
  {
    forall i :: 0 <= i < |ws| ==> Fine(ws[i], item)
  }

  lemma AllSnoc(d: Disk, ws: seq<Write>, i: nat, item: nat)
    requires item > 0 && AllOpen(d, ws) && i < |ws|
    ensures AllOpen(d, ws[..i]) && AllOpen(d, ws[..i + 1])
    ensures Open(All(d, ws[..i], item), ws[i])
    ensures All(d, ws[..i + 1], item) == Single(All(d, ws[..i], item), ws[i], item)
  {
    hide Single;
    assert ws[..i + 1][..i] == ws[..i];
    assert Open(d, ws[i]);
  }

  lemma FirstPending(d: Disk, ws: seq<Write>, item: nat)
    requires item > 0 && AllOpen(d, ws) && ws != [] && FineAll(ws, item)
    ensures Pending(d, ws[0], d, ws, 1, item)
  {
    hide Single, Fine;
    AllSnoc(d, ws, 0, item);
    assert ws[..0] == [];
  }

  lemma JoinPending(d: Disk, p: Write, d0: Disk, ws: seq<Write>, i: nat, item: nat)
    requires item > 0 && AllOpen(d0, ws) && i < |ws| && Contiguous(ws) && FineAll(ws, item)
    requires Pending(d, p, d0, ws, i, item) && p.fd == ws[i].fd && |p.data| + |ws[i].data| <= BULK_BYTES
    ensures Open(d, Join(p, ws[i])) && Pending(d, Join(p, ws[i]), d0, ws, i + 1, item)
  {
    hide Single, Whole, Items;
    AllSnoc(d0, ws, i, item);
    assert Follows(ws[i - 1], ws[i]) && Fine(ws[i], item);
    JoinIsBoth(d, p, ws[i], item);
    CountJoins(0, |p.data|, |ws[i].data|, item);
  }

  lemma FlushPending(d: Disk, p: Write, d0: Disk, ws: seq<Write>, i: nat, item: nat)
    requires item > 0 && AllOpen(d0, ws) && i < |ws| && FineAll(ws, item)
    requires Pending(d, p, d0, ws, i, item)
    ensures Open(Single(d, p, item), ws[i]) && Pending(Single(d, p, item), ws[i], d0, ws, i + 1, item)
  {
    hide Single, Fine;
    AllSnoc(d0, ws, i, item);
  }

  /** The pending write and the writes from i on follow the plan. */
  ghost predicate OnPlan(d: Disk, p: Write, ws: seq<Write>, i: nat, plan: Plan, h: nat, item: nat)
    requires item > 0 && i <= |ws| && Open(d, p)
  {
    && Counted(d, plan, h, item) && Next(d.sizes, p, plan, h, item)
    && Planned(Single(d, p, item).sizes, ws[i..], plan, h, item)
  }

  lemma PlanSplits(sizes: map<nat, nat>, ws: seq<Write>, i: nat, plan: Plan, h: nat, item: nat)
    requires item > 0 && i < |ws| && Planned(sizes, ws[i..], plan, h, item)
    ensures Next(sizes, ws[i], plan, h, item)
    ensures Planned(sizes[ws[i].fd := Count(sizes[ws[i].fd], Items(|ws[i].data|, item))], ws[i + 1..], plan, h, item)
  {
    hide Next, Count, Items;
    assert ws[i..][0] == ws[i] && ws[i..][1..] == ws[i + 1..];
  }

  lemma JoinOnPlan(d: Disk, p: Write, d0: Disk, ws: seq<Write>, i: nat, plan: Plan, h: nat, item: nat)
    requires item > 0 && AllOpen(d0, ws) && i < |ws| && Contiguous(ws) && Open(d, p) && p.fd == ws[i].fd
    requires OnPlan(d, p, ws, i, plan, h, item) && Pending(d, p, d0, ws, i, item)
    requires Whole(|ws[i].data|, item)
    ensures OnPlan(d, Join(p, ws[i]), ws, i + 1, plan, h, item)
  {
    hide Count, Items, Whole, Counted, Planned, Pwrite, Word;
    assert Follows(ws[i - 1], ws[i]);
    PlanSplits(Single(d, p, item).sizes, ws, i, plan, h, item);
    NextJoins(d, p, ws[i], plan, h, item);
    JoinIsBoth(d, p, ws[i], item);
  }

  ghost predicate AllCounted(trace: seq<Disk>, from: nat, plan: Plan, h: nat, item: nat) {
    forall i :: from <= i < |trace| ==> Counted(trace[i], plan, h, item)
  }

  /** Between two writes of a batch: `p` is gathered, the first `i` writes are done but for it. */
  ghost predicate Gathered(d: Disk, trace: seq<Disk>, p: Write, d0: Disk, t0: seq<Disk>, ws: seq<Write>, i: nat,
                           item: nat, planned: bool, plan: Plan, h: nat)
    requires item > 0 && AllOpen(d0, ws)
  {
    && Open(d, p) && Pending(d, p, d0, ws, i, item) && t0 <= trace
    && (planned ==> OnPlan(d, p, ws, i, plan, h, item) && AllCounted(trace, |t0|, plan, h, item))
  }

  lemma GatherFirst(d: Disk, t: seq<Disk>, ws: seq<Write>, item: nat, planned: bool, plan: Plan, h: nat)
    requires item > 0 && AllOpen(d, ws) && FineAll(ws, item) && ws != []
    requires planned ==> Counted(d, plan, h, item) && Planned(d.sizes, ws, plan, h, item)
    ensures Gathered(d, t, ws[0], d, t, ws, 1, item, planned, plan, h)
  {
    hide Single, Pending, OnPlan, AllCounted, Counted, Planned, FineAll;
    FirstPending(d, ws, item);
    NoneCounted(t, plan, h, item);
    if planned {
      FirstOnPlan(d, ws, plan, h, item);
    }
  }

  lemma GatherMore(d: Disk, t: seq<Disk>, p: Write, d0: Disk, t0: seq<Disk>, ws: seq<Write>, i: nat, item: nat,
                   planned: bool, plan: Plan, h: nat)
    requires item > 0 && AllOpen(d0, ws) && FineAll(ws, item) && Contiguous(ws) && i < |ws|
    requires Gathered(d, t, p, d0, t0, ws, i, item, planned, plan, h)
    requires p.fd == ws[i].fd && |p.data| + |ws[i].data| <= BULK_BYTES
    ensures Gathered(d, t, Join(p, ws[i]), d0, t0, ws, i + 1, item, planned, plan, h)
  {
    hide Single, Pending, OnPlan, AllCounted, FineAll, Contiguous, AllOpen, Join;
    JoinPending(d, p, d0, ws, i, item);
    FirstFine(d0, ws, i, item);
    FineFits(ws[i], item);
    if planned {
      JoinOnPlan(d, p, d0, ws, i, plan, h, item);
    }
  }

  /** What was gathered is written; then all writes but the last of the first `i` are done, or all. */
  method WriteGathered(dev: Device, p: Write, ws: seq<Write>, i: nat, item: nat, ghost d0: Disk, ghost t0: seq<Disk>,
                       ghost planned: bool, ghost plan: Plan, ghost h: nat)
    requires item > 0 && AllOpen(d0, ws) && FineAll(ws, item) && SIZE_OFF + WORD <= h && i <= |ws|
    requires Gathered(dev.disk, dev.trace, p, d0, t0, ws, i, item, planned, plan, h)
    modifies dev
    ensures i < |ws| ==> Gathered(dev.disk, dev.trace, ws[i], d0, t0, ws, i + 1, item, planned, plan, h)
    ensures i == |ws| ==> dev.disk == All(d0, ws, item) && t0 <= dev.trace
    ensures i == |ws| && planned ==> AllCounted(dev.trace, |t0|, plan, h, item) && Counted(dev.disk, plan, h, item)
  {
    hide Single, Pending, OnPlan, AllCounted, FineAll, AllOpen, Counted, Next;
    ghost var t1 := dev.trace;
    if i < |ws| {
      FlushPending(dev.disk, p, d0, ws, i, item);
      if planned {
        FlushOnPlan(dev.disk, p, ws, i, plan, h, item);
      }
    } else {
      LastPending(dev.disk, p, d0, ws, item);
    }
    NextOnPlan(dev.disk, p, ws, i, plan, h, item);
    dev.Flush(p, item, plan, h);
    if planned {
      TraceCounted(t0, t1, dev.trace, plan, h, item);
    }
  }

  /** One batch taken from the queue. */
  method Batch(dev: Device, ws: seq<Write>, item: nat, buffer: array<byte>, ghost plan: Plan, ghost h: nat)
    requires item > 0 && 0 < |ws| <= BULK_SIZE && AllOpen(dev.disk, ws) && FineAll(ws, item) && Contiguous(ws)
    requires buffer.Length == BULK_BYTES && SIZE_OFF + WORD <= h
    modifies dev, buffer
    ensures dev.disk == All(old(dev.disk), ws, item)
    ensures old(dev.trace) <= dev.trace
    ensures Counted(old(dev.disk), plan, h, item) && Planned(old(dev.disk).sizes, ws, plan, h, item) ==>
              AllCounted(dev.trace, |old(dev.trace)|, plan, h, item) && Counted(dev.disk, plan, h, item)
  {
    hide *;
    ghost var d0, t0 := dev.disk, dev.trace;
    ghost var planned := Counted(d0, plan, h, item) && Planned(d0.sizes, ws, plan, h, item);
    GatherFirst(d0, t0, ws, item, planned, plan, h);
    if |ws| == 1 {
      WriteGathered(dev, ws[0], ws, 1, item, d0, t0, planned, plan, h);
      return;
    }
    var fd, start, size: nat := ws[0].fd, ws[0].start, |ws[0].data|;
    FirstFine(d0, ws, 0, item);
    FineFits(ws[0], item);
    Copy(buffer, 0, ws[0].data);
    ghost var p := ws[0];
    for i := 1 to |ws|
      invariant size <= BULK_BYTES && p == Write(fd, start, buffer[..size])
      invariant Gathered(dev.disk, dev.trace, p, d0, t0, ws, i, item, planned, plan, h)
    {
      var w := ws[i];
      FirstFine(d0, ws, i, item);
      FineFits(w, item);
      if fd != w.fd || size + |w.data| >= BULK_BYTES {
        WriteGathered(dev, Write(fd, start, buffer[..size]), ws, i, item, d0, t0, planned, plan, h);
        fd, start, size := w.fd, w.start, |w.data|;
        Copy(buffer, 0, w.data);
        p := w;
      } else {
        GatherMore(dev.disk, dev.trace, p, d0, t0, ws, i, item, planned, plan, h);
        JoinData(p, w);
        Copy(buffer, size, w.data);
        size := size + |w.data|;
        p := Join(p, w);
      }
    }
    WriteGathered(dev, Write(fd, start, buffer[..size]), ws, |ws|, item, d0, t0, planned, plan, h);
  }

  lemma JoinData(a: Write, b: Write)
    ensures Join(a, b) == Write(a.fd, a.start, a.data + b.data)
  {
  }

  lemma NoneCounted(t: seq<Disk>, plan: Plan, h: nat, item: nat)
    ensures AllCounted(t, |t|, plan, h, item)
  {
  }

  lemma TraceCounted(t0: seq<Disk>, t1: seq<Disk>, t2: seq<Disk>, plan: Plan, h: nat, item: nat)
    requires t0 <= t1 <= t2 && AllCounted(t1, |t0|, plan, h, item) && AllCounted(t2, |t1|, plan, h, item)
    ensures AllCounted(t2, |t0|, plan, h, item)
  {
    hide Counted;
    forall i | |t0| <= i < |t2| ensures Counted(t2[i], plan, h, item) {
      if i < |t1| {
        assert t2[i] == t1[i];
      }
    }
  }

  lemma FirstFine(d: Disk, ws: seq<Write>, i: nat, item: nat)
    requires item > 0 && AllOpen(d, ws) && FineAll(ws, item) && i < |ws|
    ensures Open(d, ws[i]) && Fine(ws[i], item)
  {
  }

  lemma LastPending(d: Disk, p: Write, d0: Disk, ws: seq<Write>, item: nat)
    requires item > 0 && AllOpen(d0, ws) && Pending(d, p, d0, ws, |ws|, item)
    ensures Open(d, p) && Single(d, p, item) == All(d0, ws, item)
  {
    assert ws[..|ws|] == ws;
  }

  lemma NextOnPlan(d: Disk, p: Write, ws: seq<Write>, i: nat, plan: Plan, h: nat, item: nat)
    requires item > 0 && i <= |ws| && Open(d, p)
    ensures OnPlan(d, p, ws, i, plan, h, item) ==> Counted(d, plan, h, item) && Next(d.sizes, p, plan, h, item)
  {
  }

  lemma FineFits(w: Write, item: nat)
    requires item > 0 && Fine(w, item)
    ensures |w.data| <= BULK_BYTES && Whole(|w.data|, item)
  {
  }

  lemma FirstOnPlan(d: Disk, ws: seq<Write>, plan: Plan, h: nat, item: nat)
    requires item > 0 && ws != [] && Open(d, ws[0])
    requires Counted(d, plan, h, item) && Planned(d.sizes, ws, plan, h, item)
    ensures OnPlan(d, ws[0], ws, 1, plan, h, item)
  {
    hide Counted, Next, Items, Count;
  }

  lemma FlushOnPlan(d: Disk, p: Write, ws: seq<Write>, i: nat, plan: Plan, h: nat, item: nat)
    requires item > 0 && i < |ws| && Open(d, p) && Open(Single(d, p, item), ws[i]) && SIZE_OFF + WORD <= h
    requires OnPlan(d, p, ws, i, plan, h, item)
    ensures OnPlan(Single(d, p, item), ws[i], ws, i + 1, plan, h, item)
  {
    hide Counted, Next, Items, Count, Planned;
    var d1 := d.(files := d.files[p.fd := Pwrite(d.files[p.fd], p.start, p.data)]);
    var size := Count(d.sizes[p.fd], Items(|p.data|, item));
    var d2 := d1.(files := d1.files[p.fd := Pwrite(d1.files[p.fd], SIZE_OFF, Word(size))]);
    assert d2.files == Single(d, p, item).files;
    FlushCounted(d, d1, d2, Single(d, p, item), p, plan, h, item);
    PlanSplits(Single(d, p, item).sizes, ws, i, plan, h, item);
  }

  lemma OpenSlice(d: Disk, e: Disk, ws: seq<Write>, i: nat, j: nat)
    requires AllOpen(d, ws) && i <= j <= |ws| && e.files.Keys == d.files.Keys && e.sizes.Keys == d.sizes.Keys
    ensures AllOpen(e, ws[i..j])
  {
    forall k | 0 <= k < j - i ensures Open(e, ws[i..j][k]) {
      assert Open(d, ws[i + k]);
    }
  }

  /** Doing the writes up to i and then those up to j is doing the writes up to j. */
  lemma {:induction false} AllJoins(d: Disk, ws: seq<Write>, i: nat, j: nat, item: nat)
    requires item > 0 && AllOpen(d, ws) && i <= j <= |ws|
    ensures AllOpen(d, ws[..i]) && AllOpen(d, ws[..j]) && AllOpen(All(d, ws[..i], item), ws[i..j])
    ensures All(All(d, ws[..i], item), ws[i..j], item) == All(d, ws[..j], item)
    decreases j
  {
    hide Single, AllOpen, All;
    assert ws[0..i] == ws[..i] && ws[0..j] == ws[..j];
    OpenSlice(d, d, ws, 0, i);
    OpenSlice(d, d, ws, 0, j);
    var e := All(d, ws[..i], item);
    OpenSlice(d, e, ws, i, j);
    if i == j {
      assert ws[i..j] == [];
      AllNone(e, item);
    } else {
      AllJoins(d, ws, i, j - 1, item);
      var s := ws[i..j];
      assert ws[..j][..j - 1] == ws[..j - 1] && ws[..j][j - 1] == ws[j - 1];
      assert s[..|s| - 1] == ws[i..j - 1] && s[|s| - 1] == ws[j - 1];
      AllLast(d, ws[..j], item);
      AllLast(e, s, item);
    }
  }

  lemma AllNone(d: Disk, item: nat)
    requires item > 0
    ensures AllOpen(d, []) && All(d, [], item) == d
  {
  }

  lemma AllLast(d: Disk, ws: seq<Write>, item: nat)
    requires item > 0 && AllOpen(d, ws) && ws != []
    ensures AllOpen(d, ws[..|ws| - 1]) && Open(All(d, ws[..|ws| - 1], item), ws[|ws| - 1])
    ensures All(d, ws, item) == Single(All(d, ws[..|ws| - 1], item), ws[|ws| - 1], item)
  {
    hide Single;
  }

  lemma SliceFine(ws: seq<Write>, i: nat, j: nat, item: nat)
    requires item > 0 && FineAll(ws, item) && Contiguous(ws) && i <= j <= |ws|
    ensures FineAll(ws[i..j], item) && Contiguous(ws[i..j])
  {
    hide Fine, Follows;
    var s := ws[i..j];
    forall k | 0 <= k < |s| ensures Fine(s[k], item) {
      assert s[k] == ws[i + k];
    }
    forall k | 0 < k < |s| ensures Follows(s[k - 1], s[k]) {
      assert Follows(ws[i + k - 1], ws[i + k]);
    }
  }

  /** A planned queue stays planned when its first k writes are done. */
  lemma {:induction false} PlannedSplits(d: Disk, ws: seq<Write>, k: nat, plan: Plan, h: nat, item: nat)
    requires item > 0 && AllOpen(d, ws) && k <= |ws| && Planned(d.sizes, ws, plan, h, item)
    ensures AllOpen(d, ws[..k]) && Planned(d.sizes, ws[..k], plan, h, item)
    ensures Planned(All(d, ws[..k], item).sizes, ws[k..], plan, h, item)
    decreases k
  {
    hide Next, Count, Items, Pwrite, Word, All;
    if k == 0 {
      assert ws[0..] == ws && ws[..0] == [];
      AllNone(d, item);
    } else {
      var e := Single(d, ws[0], item);
      var rest := ws[1..];
      assert AllOpen(e, rest);
      PlannedSplits(e, rest, k - 1, plan, h, item);
      assert ws[..k][1..] == rest[..k - 1] && rest[k - 1..] == ws[k..];
      AllFirst(d, ws, k, item);
    }
  }

  lemma AllFirst(d: Disk, ws: seq<Write>, k: nat, item: nat)
    requires item > 0 && AllOpen(d, ws) && 0 < k <= |ws|
    ensures Open(d, ws[0]) && AllOpen(d, ws[..k]) && AllOpen(Single(d, ws[0], item), ws[1..][..k - 1])
    ensures All(d, ws[..k], item) == All(Single(d, ws[0], item), ws[1..][..k - 1], item)
  {
    hide Single;
    AllJoins(d, ws, 1, k, item);
    assert ws[..1][..0] == [] && ws[1..k] == ws[1..][..k - 1];
    AllSnoc(d, ws, 0, item);
    assert ws[..0] == [];
  }

  // ---- What the files hold then, byte by byte ----

  /** The four bytes behind the first five are the size, the lowest one first. */
  ghost predicate HeaderSays(f: Bytes, size: nat) {
    && |f| >= 9
    && f[5] as nat + 256 * f[6] as nat + 65536 * f[7] as nat + 16777216 * f[8] as nat == size
  }

  lemma WordIs(x: nat)
    requires x < 0x1_0000_0000
    ensures var w := Word(x);
            w[0] as nat + 256 * w[1] as nat + 65536 * w[2] as nat + 16777216 * w[3] as nat == x
  {
    assert x / 256 / 256 == x / 65536 && x / 65536 / 256 == x / 16777216;
  }

  ghost predicate WrittenTo(ws: seq<Write>, fd: nat) {
    exists i :: 0 <= i < |ws| && ws[i].fd == fd
  }

  /** The items of all writes to the file. */
  ghost function ItemsTo(ws: seq<Write>, fd: nat, item: nat): nat
    requires item > 0
  {
    if ws == [] then 0
    else
      var w := ws[|ws| - 1];
      ItemsTo(ws[..|ws| - 1], fd, item) + if w.fd == fd then |w.data| / item else 0
  }

  ghost predicate Over(w: Write, fd: nat, x: nat) {
    w.fd == fd && w.start <= x < w.start + |w.data|
  }

  /** No write from i on covers byte x of the file. */
  ghost predicate Untouched(ws: seq<Write>, fd: nat, x: nat, i: nat) {
    forall j :: i <= j < |ws| ==> !Over(ws[j], fd, x)
  }

  /** Write i is the last one over byte x, which then is its byte. */
  ghost predicate LastOver(f: Bytes, ws: seq<Write>, fd: nat, x: nat, i: nat) {
    i < |ws| && Over(ws[i], fd, x) && Untouched(ws, fd, x, i + 1) ==>
      x < |f| && f[x] == ws[i].data[x - ws[i].start]
  }

  /** The header has the size, which counts the items written. */
  ghost predicate SizeAfter(d: Disk, e: Disk, ws: seq<Write>, item: nat, fd: nat)
    requires item > 0 && fd in d.files && fd in d.sizes && fd in e.files && fd in e.sizes
  {
    if WrittenTo(ws, fd) then
      && HeaderSays(e.files[fd], e.sizes[fd])
      && e.sizes[fd] == (d.sizes[fd] + ItemsTo(ws, fd, item)) % 0x1_0000_0000
    else e.files[fd] == d.files[fd] && e.sizes[fd] == d.sizes[fd]
  }

  /** Behind the header every byte is that of the last write over it, and outside the header and
      the writes as it was. */
  ghost predicate BytesAfter(f: Bytes, g: Bytes, ws: seq<Write>, fd: nat) {
    && (forall i: nat, x: nat :: x >= 9 ==> LastOver(g, ws, fd, x, i))
    && (forall x: nat :: x < |f| && !(5 <= x < 9) && Untouched(ws, fd, x, 0) ==> x < |g| && g[x] == f[x])
  }

  lemma SizeStep(d: Disk, e: Disk, ws: seq<Write>, item: nat, fd: nat)
    requires item > 0 && ws != [] && fd in d.files && fd in d.sizes && fd in e.files && fd in e.sizes
    requires SizeAfter(d, e, ws[..|ws| - 1], item, fd) && Open(e, ws[|ws| - 1])
    ensures SizeAfter(d, Single(e, ws[|ws| - 1], item), ws, item, fd)
  {
    hide Pwrite, Word, HeaderSays, ItemsTo, WrittenTo;
    var n := |ws| - 1;
    var w, front := ws[n], ws[..n];
    WrittenNext(ws, fd, item);
    if w.fd == fd {
      var size := Count(e.sizes[fd], Items(|w.data|, item));
      HeaderStep(e.files[fd], w.start, w.data, size);
      SizeSum(d.sizes[fd], ItemsTo(front, fd, item), |w.data| / item);
      if !WrittenTo(front, fd) {
        NoItems(front, fd, item);
      }
    }
  }

  lemma WrittenNext(ws: seq<Write>, fd: nat, item: nat)
    requires item > 0 && ws != []
    ensures WrittenTo(ws, fd) <==> WrittenTo(ws[..|ws| - 1], fd) || ws[|ws| - 1].fd == fd
    ensures ItemsTo(ws, fd, item) ==
            ItemsTo(ws[..|ws| - 1], fd, item) + if ws[|ws| - 1].fd == fd then |ws[|ws| - 1].data| / item else 0
  {
    var front := ws[..|ws| - 1];
    if i :| 0 <= i < |front| && front[i].fd == fd {
      assert ws[i].fd == fd;
    }
    if i :| 0 <= i < |ws| && ws[i].fd == fd {
      assert i < |front| ==> front[i].fd == fd;
    }
  }

  lemma HeaderStep(f: Bytes, start: nat, data: Bytes, size: nat)
    requires size < 0x1_0000_0000
    ensures HeaderSays(Pwrite(Pwrite(f, start, data), SIZE_OFF, Word(size)), size)
  {
    WordIs(size);
    var g := Pwrite(f, start, data);
    var h := Pwrite(g, SIZE_OFF, Word(size));
    hide Word;
    assert h[5] == Word(size)[0] && h[6] == Word(size)[1] && h[7] == Word(size)[2] && h[8] == Word(size)[3];
  }

  lemma SizeSum(a: nat, b: nat, c: nat)
    ensures ((a + b) % 0x1_0000_0000 + c) % 0x1_0000_0000 == (a + (b + c)) % 0x1_0000_0000
  {
  }

  lemma {:induction false} NoItems(ws: seq<Write>, fd: nat, item: nat)
    requires item > 0 && !WrittenTo(ws, fd)
    ensures ItemsTo(ws, fd, item) == 0
    decreases |ws|
  {
    if ws != [] {
      var front := ws[..|ws| - 1];
      assert forall i :: 0 <= i < |front| ==> front[i] == ws[i];
      NoItems(front, fd, item);
    }
  }

  lemma UntouchedFront(ws: seq<Write>, fd: nat, x: nat, i: nat)
    requires ws != [] && i < |ws|
    ensures Untouched(ws, fd, x, i) <==> Untouched(ws[..|ws| - 1], fd, x, i) && !Over(ws[|ws| - 1], fd, x)
  {
    hide Over;
    var front := ws[..|ws| - 1];
    if Untouched(ws, fd, x, i) {
      forall j | i <= j < |front| ensures !Over(front[j], fd, x) {
        assert front[j] == ws[j];
      }
    }
  }

  lemma BytesStep(f: Bytes, g: Bytes, ws: seq<Write>, fd: nat, h: Bytes)
    requires ws != [] && BytesAfter(f, g, ws[..|ws| - 1], fd)
    requires var w := ws[|ws| - 1];
             if w.fd == fd then |g| <= |h| && (forall x: nat :: x < |h| && !(5 <= x < 9) ==>
                  h[x] == if Over(w, fd, x) then w.data[x - w.start] else if x < |g| then g[x] else 0)
                  && (w.data != [] ==> w.start + |w.data| <= |h|)
             else h == g
    ensures BytesAfter(f, h, ws, fd)
  {
    var n := |ws| - 1;
    var w, front := ws[n], ws[..n];
    forall i: nat, x: nat | x >= 9 ensures LastOver(h, ws, fd, x, i) {
      if i < n {
        assert LastOver(g, front, fd, x, i) && front[i] == ws[i];
        UntouchedFront(ws, fd, x, i + 1);
      }
    }
    forall x: nat | x < |f| && !(5 <= x < 9) && Untouched(ws, fd, x, 0) ensures x < |h| && h[x] == f[x] {
      UntouchedFront(ws, fd, x, 0);
    }
  }

  lemma SingleBytes(d: Disk, w: Write, item: nat)
    requires item > 0 && Open(d, w) && w.data != []
    ensures var g, h := d.files[w.fd], Single(d, w, item).files[w.fd];
            && |g| <= |h| && w.start + |w.data| <= |h|
            && forall x: nat :: x < |h| && !(5 <= x < 9) ==>
                 h[x] == if Over(w, w.fd, x) then w.data[x - w.start] else if x < |g| then g[x] else 0
  {
    hide Word;
  }

  lemma SingleEmpty(d: Disk, w: Write, item: nat)
    requires item > 0 && Open(d, w) && w.data == []
    ensures var g, h := d.files[w.fd], Single(d, w, item).files[w.fd];
            && |g| <= |h|
            && forall x: nat :: x < |h| && !(5 <= x < 9) ==> h[x] == if x < |g| then g[x] else 0
  {
    hide Word;
  }

  /** One file after all the writes. */
  lemma {:induction false} FileAfter(d: Disk, ws: seq<Write>, item: nat, fd: nat)
    requires item > 0 && AllOpen(d, ws) && fd in d.files && fd in d.sizes
    ensures SizeAfter(d, All(d, ws, item), ws, item, fd)
    ensures BytesAfter(d.files[fd], All(d, ws, item).files[fd], ws, fd)
    decreases |ws|
  {
    hide Single, SizeAfter, BytesAfter;
    if ws == [] {
      FileSame(d, item, fd);
    } else {
      var n := |ws| - 1;
      FileAfter(d, ws[..n], item, fd);
      AllLast(d, ws, item);
      var e := All(d, ws[..n], item);
      SizeStep(d, e, ws, item, fd);
      ByteStepOf(e, ws[n], item, fd, d.files[fd], ws);
    }
  }

  lemma FileSame(d: Disk, item: nat, fd: nat)
    requires item > 0 && fd in d.files && fd in d.sizes
    ensures SizeAfter(d, d, [], item, fd) && BytesAfter(d.files[fd], d.files[fd], [], fd)
  {
  }

  lemma ByteStepOf(e: Disk, w: Write, item: nat, fd: nat, f: Bytes, ws: seq<Write>)
    requires item > 0 && ws != [] && w == ws[|ws| - 1] && Open(e, w) && fd in e.files
    requires BytesAfter(f, e.files[fd], ws[..|ws| - 1], fd)
    ensures fd in Single(e, w, item).files && BytesAfter(f, Single(e, w, item).files[fd], ws, fd)
  {
    if w.fd == fd {
      if w.data == [] {
        SingleEmpty(e, w, item);
      } else {
        SingleBytes(e, w, item);
      }
    }
    BytesStep(f, e.files[fd], ws, fd, Single(e, w, item).files[fd]);
  }

  /** However the queue is cut into batches, the disk ends as if each write were done alone,
      and at no moment does a counter cover an item that is not in its file. */
  method Handler(dev: Device, queue: seq<Write>, item: nat, ghost plan: Plan, ghost h: nat)
    requires item > 0 && AllOpen(dev.disk, queue) && FineAll(queue, item) && Contiguous(queue)
    requires SIZE_OFF + WORD <= h
    modifies dev
    ensures dev.disk == All(old(dev.disk), queue, item)
    ensures old(dev.trace) <= dev.trace
    ensures Counted(old(dev.disk), plan, h, item) && Planned(old(dev.disk).sizes, queue, plan, h, item) ==>
              AllCounted(dev.trace, |old(dev.trace)|, plan, h, item)
    ensures forall fd :: fd in old(dev.disk).files && fd in old(dev.disk).sizes ==>
              && fd in dev.disk.files && fd in dev.disk.sizes
              && SizeAfter(old(dev.disk), dev.disk, queue, item, fd)
              && BytesAfter(old(dev.disk).files[fd], dev.disk.files[fd], queue, fd)
  {
    hide Single, Fine, Counted, Planned, AllCounted, FineAll, Contiguous, AllOpen, All, SizeAfter, BytesAfter;
    var buffer := new byte[BULK_BYTES];
    ghost var d0, t0 := dev.disk, dev.trace;
    ghost var planned := Counted(d0, plan, h, item) && Planned(d0.sizes, queue, plan, h, item);
    var done: nat := 0;
    assert queue[..0] == [] && queue[0..] == queue;
    AllNone(d0, item);
    NoneCounted(t0, plan, h, item);
    while done < |queue|
      invariant done <= |queue| && AllOpen(d0, queue[..done])
      invariant dev.disk == All(d0, queue[..done], item)
      invariant t0 <= dev.trace
      invariant planned ==> Counted(dev.disk, plan, h, item) && Planned(dev.disk.sizes, queue[done..], plan, h, item)
      invariant planned ==> AllCounted(dev.trace, |t0|, plan, h, item)
    {
      var k: nat :| 0 < k <= BULK_SIZE && done + k <= |queue|;
      AllJoins(d0, queue, done, done + k, item);
      SliceFine(queue, done, done + k, item);
      OpenSlice(d0, dev.disk, queue, done, |queue|);
      assert queue[done..|queue|] == queue[done..];
      assert queue[done..][..k] == queue[done..done + k] && queue[done..][k..] == queue[done + k..];
      if planned {
        PlannedSplits(dev.disk, queue[done..], k, plan, h, item);
      }
      ghost var t1 := dev.trace;
      Batch(dev, queue[done..done + k], item, buffer, plan, h);
      if planned {
        TraceCounted(t0, t1, dev.trace, plan, h, item);
      }
      done := done + k;
    }
    assert queue[..done] == queue;
    forall fd | fd in d0.files && fd in d0.sizes
      ensures SizeAfter(d0, dev.disk, queue, item, fd) && BytesAfter(d0.files[fd], dev.disk.files[fd], queue, fd)
    {
      FileAfter(d0, queue, item, fd);
    }
  }
}
