/** Dumping the inverted lists and loading them into a fresh index. */
module InvertedIo {
  import opened ByteStrings
  import opened InvertedSpec
  import opened InvertedFormat
  import opened InvertedArrays
  import opened InvertedMachine
  import opened InvertedIndex

  const ILAR: nat := 0x7261_6c69
  const FULL: nat := 0x6c6c_7566

  function Words(s: seq<Slot>): (r: seq<nat>)
    ensures |r| == |s| && forall i :: 0 <= i < |s| ==> r[i] == s[i].word
  {
    seq(|s|, i requires 0 <= i < |s| => s[i].word)
  }

  function Codes(s: seq<Slot>): (r: seq<Code>)
    ensures |r| == |s| && forall i :: 0 <= i < |s| ==> r[i] == s[i].code
  {
    seq(|s|, i requires 0 <= i < |s| => s[i].code)
  }

  function Sizes(slots: Slots): (r: seq<nat>)
    ensures |r| == |slots| && forall i :: 0 <= i < |slots| ==> r[i] == |slots[i]|
  {
    seq(|slots|, i requires 0 <= i < |slots| => |slots[i]|)
  }

  /** The codes of a bucket, then its id words. */
  function Part(s: seq<Slot>): Bytes {
    Join(Codes(s)) + EncodeAll(Words(s))
  }

  function Parts(slots: Slots): Bytes {
    if slots == [] then [] else Part(slots[0]) + Parts(slots[1..])
  }

  function Header(buckets: nat, width: nat): Bytes {
    Encode(ILAR, 4) + Encode(buckets, 8) + Encode(width, 8) + Encode(FULL, 4)
  }

  /** What a dump of the lists looks like. */
  function Dump(slots: Slots, width: nat): Bytes {
    Header(|slots|, width) + (Encode(|slots|, 8) + (EncodeAll(Sizes(slots)) + Parts(slots)))
  }

  /** The first bytes of a dump spell ilar and, behind the two numbers, full. */
  lemma Spelled(slots: Slots, width: nat)
    ensures var s := Dump(slots, width);
            && |s| >= 32 && s[..4] == [0x69, 0x6c, 0x61, 0x72] && s[20..24] == [0x66, 0x75, 0x6c, 0x6c]
            && s[4..12] == s[24..32] == Encode(|slots|, 8) && s[12..20] == Encode(width, 8)
  {
    hide Parts, EncodeAll;
    SpelledWord(0x69, 0x6c, 0x61, 0x72, ILAR);
    SpelledWord(0x66, 0x75, 0x6c, 0x6c, FULL);
    hide Encode;
    var s, h := Dump(slots, width), Header(|slots|, width);
    assert s[..24] == h && s[24..32] == Encode(|slots|, 8);
    assert h[..4] == Encode(ILAR, 4) && h[4..12] == Encode(|slots|, 8);
    assert h[12..20] == Encode(width, 8) && h[20..24] == Encode(FULL, 4);
    assert s[..4] == s[..24][..4] && s[4..12] == s[..24][4..12] && s[12..20] == s[..24][12..20] && s[20..24] == s[..24][20..24];
  }

  lemma SpelledWord(a: byte, b: byte, c: byte, d: byte, n: nat)
    requires n == a as int + 256 * b as int + 65536 * c as int + 16777216 * d as int
    ensures Encode(n, 4) == [a, b, c, d]
  {
    FourBytes([a, b, c, d]);
    EncodeDecode([a, b, c, d]);
  }

  lemma PartsFrom(slots: Slots, i: nat)
    requires i < |slots|
    ensures Parts(slots[i..]) == Part(slots[i]) + Parts(slots[i + 1..])
  {
    assert slots[i..][1..] == slots[i + 1..];
  }

  lemma BucketPart(x: Bucket)
    requires x.Ok()
    ensures Part(x.Slots()) == Join(x.codes[..x.size]) + EncodeAll(x.ids[..x.size])
    ensures x.size == 0 ==> Part(x.Slots()) == []
  {
    assert Codes(x.Slots()) == x.codes[..x.size] && Words(x.Slots()) == x.ids[..x.size];
  }

  lemma Regroup(a: Bytes, b: Bytes, c: Bytes)
    ensures a + (b + c) == (a + b) + c
  {
  }

  method WriteLists(bs: seq<Bucket>, sizes: seq<nat>) returns (body: Bytes)
    requires BucketsOk(bs) && sizes == Sizes(View(bs))
    ensures body == Parts(View(bs))
  {
    hide Parts, Part, Join, EncodeAll;
    ghost var slots := View(bs);
    body := [];
    assert slots[0..] == slots;
    for i := 0 to |bs|
      invariant body + Parts(slots[i..]) == Parts(slots)
    {
      var x := bs[i];
      PartsFrom(slots, i);
      BucketPart(x);
      Regroup(body, Part(slots[i]), Parts(slots[i + 1..]));
      if sizes[i] > 0 {
        body := body + (Join(x.codes[..x.size]) + EncodeAll(x.ids[..x.size]));
      }
    }
    NoParts(slots[|slots|..]);
  }

  lemma NoParts(slots: Slots)
    requires slots == []
    ensures Parts(slots) == []
  {
  }

  method WriteInvertedLists(d: BucketData, width: nat) returns (out: Bytes)
    requires BucketsOk(d.buckets)
    ensures out == Dump(View(d.buckets), width)
    ensures |out| >= 32 && out[..4] == [0x69, 0x6c, 0x61, 0x72] && out[20..24] == [0x66, 0x75, 0x6c, 0x6c]
  {
    hide Parts, EncodeAll, Encode, Header;
    Spelled(View(d.buckets), width);
    ghost var slots := View(d.buckets);
    var sizes := [];
    for i := 0 to |d.buckets|
      invariant sizes == Sizes(slots)[..i]
    {
      sizes := sizes + [d.buckets[i].size];
    }
    var body := WriteLists(d.buckets, sizes);
    out := Header(|d.buckets|, width) + (Encode(|sizes|, 8) + (EncodeAll(sizes) + body));
  }

  // ---- loading ----

  /** Lists whose numbers fit the fields of the format. */
  ghost predicate Dumpable(slots: Slots, width: nat) {
    && |slots| < 0x100_0000_0000 && width < WORD
    && forall b :: 0 <= b < |slots| ==> PartOk(slots[b], width)
  }

  ghost predicate PartOk(s: seq<Slot>, width: nat) {
    |s| <= HALF && forall i :: 0 <= i < |s| ==> s[i].word < WORD && |s[i].code| == width
  }

  /** Bytes that the part of a bucket with `n` slots takes. */
  function PartSize(n: nat, width: nat): nat {
    Total(width, n) + 8 * n
  }

  lemma PartLength(s: seq<Slot>, width: nat)
    requires PartOk(s, width)
    ensures |Part(s)| == PartSize(|s|, width)
  {
    CutJoin(Codes(s), width);
  }

  /** The slots that the bytes of a part stand for. */
  function Unpart(bytes: Bytes, n: nat, width: nat): (r: seq<Slot>)
    requires |bytes| == PartSize(n, width)
    ensures |r| == n
  {
    var k := Total(width, n);
    Zip(DecodeAll(bytes[k..], n), Cut(bytes[..k], width, n), n)
  }

  /** Any bytes of that number are the part of some slots. */
  lemma PartUnpart(bytes: Bytes, n: nat, width: nat)
    requires |bytes| == PartSize(n, width) && n <= HALF
    ensures PartOk(Unpart(bytes, n, width), width) && Part(Unpart(bytes, n, width)) == bytes
  {
    var k := Total(width, n);
    var ids, codes := DecodeAll(bytes[k..], n), Cut(bytes[..k], width, n);
    var s := Unpart(bytes, n, width);
    EncodeDecodeAll(bytes[k..], n);
    JoinCut(bytes[..k], width, n);
    assert Codes(s) == codes && Words(s) == ids;
    assert bytes == bytes[..k] + bytes[k..];
    forall i | 0 <= i < n ensures |s[i].code| == width {
      CutWidths(bytes[..k], width, n, i);
    }
  }

  lemma UnpartPart(s: seq<Slot>, width: nat)
    requires PartOk(s, width)
    ensures |Part(s)| == PartSize(|s|, width) && Unpart(Part(s), |s|, width) == s
  {
    PartLength(s, width);
    CutJoin(Codes(s), width);
    DecodeEncodeAll(Words(s));
    var k := Total(width, |s|);
    assert Part(s)[..k] == Join(Codes(s)) && Part(s)[k..] == EncodeAll(Words(s));
  }

  ghost predicate Before(b: int, p: int, bno: nat, pos: nat) {
    b < bno || (b == bno && p < pos)
  }

  /** The slot at the position is unmasked, was read, and holds `v`. */
  ghost predicate Points(slots: Slots, packed: int, v: nat, bno: nat, pos: nat) {
    var b, p := BucketOf(packed), PosOf(packed);
    At(slots, b, p) && Before(b, p, bno, pos) && slots[b][p].word == v && !Masked(v)
  }

  /** The position table after the slots before (bno, pos) were read: positions lead to
      unmasked slots of their vectors, and every vector with one has a position. */
  ghost predicate Restored(slots: Slots, table: seq<int>, bno: nat, pos: nat) {
    && |table| > 0
    && (forall v :: 0 <= v < |table| && table[v] != -1 ==> Points(slots, table[v], v, bno, pos))
    && forall b, p :: At(slots, b, p) && Before(b, p, bno, pos) && !Masked(slots[b][p].word) ==>
         slots[b][p].word < |table| && table[slots[b][p].word] != -1
  }

  function MaskedCount(s: seq<Slot>): nat {
    if s == [] then 0 else MaskedCount(s[..|s| - 1]) + if Masked(s[|s| - 1].word) then 1 else 0
  }

  lemma RestoreMasked(slots: Slots, table: seq<int>, bno: nat, pos: nat)
    requires Restored(slots, table, bno, pos) && At(slots, bno, pos) && Masked(slots[bno][pos].word)
    ensures Restored(slots, table, bno, pos + 1)
  {
    forall v | 0 <= v < |table| && table[v] != -1 ensures Points(slots, table[v], v, bno, pos + 1) {
      assert Points(slots, table[v], v, bno, pos);
    }
  }

  lemma RestoreOne(slots: Slots, table: seq<int>, bno: nat, pos: nat)
    requires Restored(slots, table, bno, pos) && At(slots, bno, pos) && pos < HALF
    requires !Masked(slots[bno][pos].word) && slots[bno][pos].word < |table|
    ensures Restored(slots, table[slots[bno][pos].word := Pack(bno, pos)], bno, pos + 1)
  {
    var w := slots[bno][pos].word;
    var now := table[w := Pack(bno, pos)];
    Unpacked(bno, pos);
    forall v | 0 <= v < |now| && now[v] != -1 ensures Points(slots, now[v], v, bno, pos + 1) {
      if v != w {
        assert Points(slots, table[v], v, bno, pos);
      }
    }
  }

  lemma RestoreNext(slots: Slots, table: seq<int>, bno: nat)
    requires bno < |slots| && Restored(slots, table, bno, |slots[bno]|)
    ensures Restored(slots, table, bno + 1, 0)
  {
    forall v | 0 <= v < |table| && table[v] != -1 ensures Points(slots, table[v], v, bno + 1, 0) {
      assert Points(slots, table[v], v, bno, |slots[bno]|);
    }
  }

  lemma RestoreGrow(slots: Slots, table: seq<int>, bno: nat, pos: nat)
    requires Restored(slots, table, bno, pos)
    ensures Restored(slots, table + seq(|table|, i => -1), bno, pos)
  {
    var now := table + seq(|table|, i => -1);
    forall v | 0 <= v < |now| && now[v] != -1 ensures Points(slots, now[v], v, bno, pos) {
      assert Points(slots, table[v], v, bno, pos);
    }
  }

  /** The loop over the ids of one bucket. */
  method Place(ids: seq<nat>, table: seq<int>, bno: nat, deleted: nat, ghost slots: Slots)
    returns (table': seq<int>, deleted': nat)
    requires bno < |slots| && ids == Words(slots[bno]) && |ids| <= HALF
    requires Restored(slots, table, bno, 0)
    ensures Restored(slots, table', bno + 1, 0)
    ensures deleted' == deleted + MaskedCount(slots[bno])
  {
    hide Restored;
    ghost var s := slots[bno];
    table', deleted' := table, deleted;
    assert s[..0] == [];
    for pos := 0 to |ids|
      invariant Restored(slots, table', bno, pos)
      invariant deleted' == deleted + MaskedCount(s[..pos])
    {
      assert s[..pos + 1][..pos] == s[..pos];
      if Masked(ids[pos]) {
        RestoreMasked(slots, table', bno, pos);
        deleted' := deleted' + 1;
      } else {
        table' := GrowFor(table', ids[pos], bno, pos, slots);
        RestoreOne(slots, table', bno, pos);
        table' := table'[ids[pos] := Pack(bno, pos)];
      }
    }
    assert s[..|s|] == s;
    RestoreNext(slots, table', bno);
  }

  method GrowFor(table: seq<int>, k: nat, ghost bno: nat, ghost pos: nat, ghost slots: Slots)
    returns (table': seq<int>)
    requires Restored(slots, table, bno, pos)
    ensures Restored(slots, table', bno, pos) && k < |table'|
  {
    table' := table;
    while k >= |table'|
      invariant Restored(slots, table', bno, pos) && |table'| > 0
      decreases k - |table'|
    {
      RestoreGrow(slots, table', bno, pos);
      table' := table' + seq(|table'|, i => -1);
    }
  }

  /** How loading ends: the two codes the original returns, a read past the end of the stream (or a
      vector that is too long), a failed assertion, or a bucket whose positions need over 32 bits. */
  datatype Outcome = Loaded | FormatError | InternalError | ReadError | AssertError | Overflow

  /** A bucket holds its part of the lists, or is still untouched. */
  ghost predicate Filled(bs: seq<Bucket>, was: seq<Bucket>, slots: Slots, upto: nat) {
    && |bs| == |was| == |slots| && BucketsOk(bs)
    && (forall b :: 0 <= b < upto && b < |bs| ==> bs[b].Slots() == slots[b])
    && forall b :: upto <= b < |bs| ==> bs[b] == was[b] && bs[b].size == 0
  }

  ghost predicate Counted(deleted: seq<nat>, slots: Slots, upto: nat) {
    && |deleted| == |slots|
    && (forall b :: 0 <= b < upto && b < |slots| ==> deleted[b] == MaskedCount(slots[b]))
    && forall b :: upto <= b < |slots| ==> deleted[b] == 0
  }

  /** The lists up to bucket `upto` were loaded. */
  ghost predicate Loading(d: BucketData, was: seq<Bucket>, slots: Slots, upto: nat) {
    && Filled(d.buckets, was, slots, upto) && Counted(d.deleted, slots, upto)
    && Restored(slots, d.table, upto, 0)
  }

  /** Fills one bucket that was untouched and now has room. */
  method FillBucket(d: BucketData, b: nat, ids: seq<nat>, codes: seq<Code>, ghost was: seq<Bucket>,
                    ghost slots: Slots)
    returns (e: BucketData)
    requires b < |slots| && |d.buckets| == |slots|
    requires |was| == |slots| && Loading(d.(buckets := d.buckets[b := was[b]]), was, slots, b)
    requires d.buckets[b].Ok() && d.buckets[b].size == 0
    requires ids == Words(slots[b]) && codes == Codes(slots[b])
    requires |ids| <= |d.buckets[b].ids| && |ids| <= HALF
    ensures Loading(e, was, slots, b + 1) && e.bitmap == d.bitmap
    ensures e.buckets == d.buckets[b := e.buckets[b]] && e.buckets[b].Ok() && e.buckets[b].Slots() == slots[b]
    ensures |e.buckets[b].ids| == |d.buckets[b].ids|
  {
    hide *;
    LoadingSizes(d.(buckets := d.buckets[b := was[b]]), was, slots, b);
    var x := WriteAll(d.buckets[b], ids, codes, slots[b]);
    var table', deleted' := Place(ids, d.table, b, d.deleted[b], slots);
    e := BucketData(d.buckets[b := x], d.deleted[b := deleted'], table', d.bitmap);
    LoadingNext(d.(buckets := d.buckets[b := was[b]]), e, was, slots, b, x, deleted');
  }

  method WriteAll(x: Bucket, ids: seq<nat>, codes: seq<Code>, ghost s: seq<Slot>) returns (y: Bucket)
    requires x.Ok() && x.size == 0 && ids == Words(s) && codes == Codes(s) && |ids| <= |x.ids|
    ensures y.Ok() && y.Slots() == s && |y.ids| == |x.ids|
  {
    Fill(x, ids, codes, s);
    y := Written(x, ids, codes).(size := |ids|);
  }

  lemma LoadingNext(d: BucketData, e: BucketData, was: seq<Bucket>, slots: Slots, b: nat, x: Bucket, deleted: nat)
    requires b < |slots| && Loading(d, was, slots, b) && x.Ok() && x.Slots() == slots[b]
    requires |d.buckets| == |slots| == |d.deleted| && deleted == d.deleted[b] + MaskedCount(slots[b])
    requires e == BucketData(d.buckets[b := x], d.deleted[b := deleted], e.table, d.bitmap)
    requires Restored(slots, e.table, b + 1, 0)
    ensures Loading(e, was, slots, b + 1)
  {
    hide Restored, Filled, Counted, Bucket.Slots, MaskedCount;
    FilledNext(d.buckets, e.buckets, was, slots, b, x);
    CountedNext(d.deleted, slots, b);
  }

  lemma LoadingSizes(d: BucketData, was: seq<Bucket>, slots: Slots, upto: nat)
    requires Loading(d, was, slots, upto)
    ensures |d.buckets| == |was| == |slots| == |d.deleted| && Restored(slots, d.table, upto, 0)
  {
  }

  lemma FilledNext(before: seq<Bucket>, after: seq<Bucket>, was: seq<Bucket>, slots: Slots, b: nat, x: Bucket)
    requires b < |slots| && Filled(before, was, slots, b) && x.Ok() && x.Slots() == slots[b]
    requires after == before[b := x]
    ensures Filled(after, was, slots, b + 1)
  {
    assert forall k :: 0 <= k < |slots| && k != b ==> after[k] == before[k];
  }

  lemma CountedNext(deleted: seq<nat>, slots: Slots, b: nat)
    requires b < |slots| && Counted(deleted, slots, b)
    ensures Counted(deleted[b := deleted[b] + MaskedCount(slots[b])], slots, b + 1)
  {
  }

  lemma Fill(x: Bucket, ids: seq<nat>, codes: seq<Code>, s: seq<Slot>)
    requires x.Ok() && x.size == 0 && ids == Words(s) && codes == Codes(s) && |ids| <= |x.ids|
    ensures var y := Written(x, ids, codes).(size := |ids|);
            y.Ok() && y.Slots() == s && |y.ids| == |x.ids|
  {
    var y := Written(x, ids, codes).(size := |ids|);
    assert y.ids[0..0 + |ids|] == ids && y.codes[0..0 + |ids|] == codes;
    forall i | 0 <= i < |s| ensures y.Slots()[i] == s[i] {
      assert y.ids[0..0 + |ids|][i] == ids[i] && y.codes[0..0 + |ids|][i] == codes[i];
    }
  }

  /** Bucket `b` would have to grow for the lists, and may not. */
  ghost predicate TooSmall(was: seq<Bucket>, limit: nat, sizes: seq<nat>, b: nat)
    requires b < |was| && b < |sizes|
  {
    sizes[b] > |was[b].ids| && |was[b].ids| * 2 >= limit
  }

  /** What was loaded does not depend on the lists of later buckets. */
  lemma LoadingPrefix(d: BucketData, was: seq<Bucket>, slots: Slots, other: Slots, upto: nat)
    requires Loading(d, was, slots, upto) && |other| == |slots|
    requires forall b :: 0 <= b < upto && b < |slots| ==> other[b] == slots[b]
    ensures Loading(d, was, other, upto)
  {
    forall v | 0 <= v < |d.table| && d.table[v] != -1 ensures Points(other, d.table[v], v, upto, 0) {
      assert Points(slots, d.table[v], v, upto, 0);
    }
    forall b, p | At(other, b, p) && Before(b, p, upto, 0) && !Masked(other[b][p].word)
      ensures other[b][p].word < |d.table| && d.table[other[b][p].word] != -1
    {
      assert At(slots, b, p);
    }
  }

  lemma EmptyPart(d: BucketData, was: seq<Bucket>, slots: Slots, b: nat)
    requires Loading(d, was, slots, b) && b < |slots|
    ensures Loading(d, was, slots[b := []], b + 1) && Part([]) == []
  {
    LoadingPrefix(d, was, slots, slots[b := []], b);
    RestoreNext(slots[b := []], d.table, b);
    assert d.buckets[b].Slots() == [];
  }

  lemma GrewShape(d: BucketData, t: seq<nat>, p: seq<nat>, e: BucketData, t': seq<nat>, p': seq<nat>,
                  c: Settings, b: nat, n: nat)
    requires BucketsOk(d.buckets) && TimesOk(t, |d.buckets|) && b < |d.buckets| && Growing(c.coefficient)
    requires Grew(d, t, p, e, t', p', c, b, n)
    ensures |e.buckets| == |d.buckets| && e == d.(buckets := d.buckets[b := e.buckets[b]])
    ensures e.buckets[b := d.buckets[b]] == d.buckets
    ensures e.buckets[b].Ok() && e.buckets[b].size == d.buckets[b].size
    ensures !Refuses(d.buckets[b], c.limit, n) ==> e.buckets[b].size + n <= |e.buckets[b].ids|
  {
    hide Extended, Growing;
  }

  lemma FilledUniform(bs: seq<Bucket>, b: nat, y: Bucket, s: seq<Slot>, width: nat)
    requires BucketsOk(bs) && b < |bs| && y.Ok() && y.Slots() == s && PartOk(s, width)
    requires Uniform(View(bs), width)
    ensures BucketsOk(bs[b := y]) && Uniform(View(bs[b := y]), width)
    ensures |y.ids| == |bs[b].ids| ==> Rooms(bs[b := y]) == Rooms(bs)
  {
    ViewPut(bs, b, y);
    UniformPut(View(bs), b, s, width);
    DimensionsPut(bs, b, y);
  }

  /** One bucket: room is made, its bytes are read, its positions are set. */
  method LoadOne(rt: RealTimeMemData, b: nat, size: nat, stream: Bytes, ghost was: seq<Bucket>, ghost slots: Slots)
    returns (r: Outcome, rest: Bytes, ghost s: seq<Slot>)
    requires rt.Accounted() && b < |slots| && Loading(rt.cur, was, slots, b) && size <= HALF
    modifies rt
    ensures rt.Accounted() && rt.cur.bitmap == old(rt.cur).bitmap && |was| == |slots|
    ensures r.InternalError? <==> size > |was[b].ids| && |was[b].ids| * 2 >= rt.limit
    ensures r.ReadError? <==> !r.InternalError? && |stream| < PartSize(size, rt.codeBytes)
    ensures !r.InternalError? && !r.ReadError? ==>
              && r.Loaded? && |s| == size && PartOk(s, rt.codeBytes) && stream == Part(s) + rest
              && Loading(rt.cur, was, slots[b := s], b + 1)
  {
    hide RoomMade, Restored, Counted, Part, Held, Sum, Grew, Uniform, PartOk, Unpart;
    s := [];
    if size == 0 {
      EmptyPart(rt.cur, was, slots, b);
      NoSlots(rt.codeBytes);
      return Loaded, stream, [];
    }
    var ok := rt.ExtendBucketIfNeed(b, size);
    GrewShape(old(rt.cur), old(rt.extendTime), old(rt.pending), rt.cur, rt.extendTime, rt.pending, rt.Config(), b, size);
    if !ok {
      return InternalError, stream, [];
    }
    var n := PartSize(size, rt.codeBytes);
    if |stream| < n {
      return ReadError, stream, [];
    }
    var codes := Cut(stream[..n][..Total(rt.codeBytes, size)], rt.codeBytes, size);
    var ids := DecodeAll(stream[..n][Total(rt.codeBytes, size)..], size);
    rest := stream[n..];
    s := Unpart(stream[..n], size, rt.codeBytes);
    PartUnpart(stream[..n], size, rt.codeBytes);
    UnpartIs(stream[..n], size, rt.codeBytes, ids, codes);
    assert stream == stream[..n] + stream[n..];
    LoadingPrefix(old(rt.cur), was, slots, slots[b := s], b);
    var e := FillBucket(rt.cur, b, ids, codes, was, slots[b := s]);
    FilledUniform(rt.cur.buckets, b, e.buckets[b], s, rt.codeBytes);
    HeldSameArrays(e.buckets, rt.cur.buckets, rt.Unit());
    rt.cur := e;
    r := Loaded;
  }

  lemma UnpartIs(bytes: Bytes, n: nat, width: nat, ids: seq<nat>, codes: seq<Code>)
    requires |bytes| == PartSize(n, width)
    requires ids == DecodeAll(bytes[Total(width, n)..], n) && codes == Cut(bytes[..Total(width, n)], width, n)
    ensures Words(Unpart(bytes, n, width)) == ids && Codes(Unpart(bytes, n, width)) == codes
  {
  }

  lemma NoSlots(width: nat)
    ensures PartOk([], width)
  {
  }

  /** Bytes that the parts take. */
  ghost function Need(sizes: seq<nat>, width: nat): nat {
    if sizes == [] then 0 else PartSize(sizes[0], width) + Need(sizes[1..], width)
  }

  lemma NeedFrom(sizes: seq<nat>, width: nat, i: nat)
    requires i < |sizes|
    ensures Need(sizes[i..], width) == PartSize(sizes[i], width) + Need(sizes[i + 1..], width)
  {
    assert sizes[i..][1..] == sizes[i + 1..];
  }

  ghost predicate AllPartsOk(slots: Slots, width: nat) {
    forall b :: 0 <= b < |slots| ==> PartOk(slots[b], width)
  }

  /** The bytes of the first `upto` buckets, whose lists are `slots`, have been read. */
  ghost predicate ReadTo(slots: Slots, sizes: seq<nat>, width: nat, stream: Bytes, rest: Bytes, upto: nat) {
    && upto <= |slots| == |sizes| && AllPartsOk(slots, width)
    && stream == Parts(slots[..upto]) + rest
    && (forall b :: 0 <= b < upto ==> |slots[b]| == sizes[b])
    && |stream| + Need(sizes[upto..], width) == |rest| + Need(sizes, width)
  }

  lemma {:induction false} PartsSnoc(slots: Slots, s: seq<Slot>)
    ensures Parts(slots + [s]) == Parts(slots) + Part(s)
  {
    hide Part;
    if slots == [] {
      assert ([] + [s])[1..] == [];
    } else {
      PartsSnoc(slots[1..], s);
      assert (slots + [s])[1..] == slots[1..] + [s];
      Regroup(Part(slots[0]), Parts(slots[1..]), Part(s));
    }
  }

  lemma ReadStep(slots: Slots, sizes: seq<nat>, width: nat, stream: Bytes, rest: Bytes, b: nat, s: seq<Slot>,
                 more: Bytes)
    requires ReadTo(slots, sizes, width, stream, rest, b) && b < |sizes|
    requires |s| == sizes[b] && PartOk(s, width) && rest == Part(s) + more
    ensures ReadTo(slots[b := s], sizes, width, stream, more, b + 1)
  {
    hide PartOk, Part, Parts, PartSize;
    PartLength(s, width);
    NeedFrom(sizes, width, b);
    PartsSnoc(slots[..b], s);
    assert slots[b := s][..b + 1] == slots[..b] + [s];
    Regroup(Parts(slots[..b]), Part(s), more);
  }

  lemma NeedShort(sizes: seq<nat>, width: nat, b: nat, stream: Bytes, rest: Bytes)
    requires b < |sizes| && |stream| + Need(sizes[b..], width) == |rest| + Need(sizes, width)
    requires |rest| < PartSize(sizes[b], width)
    ensures |stream| < Need(sizes, width)
  {
    NeedFrom(sizes, width, b);
  }

  /** The loop over the buckets. */
  method LoadLists(rt: RealTimeMemData, sizes: seq<nat>, stream: Bytes)
    returns (r: Outcome, rest: Bytes, ghost slots: Slots)
    requires rt.Accounted() && Untouched(rt.cur) && |sizes| == |rt.cur.buckets|
    modifies rt
    ensures rt.Accounted() && rt.cur.bitmap == old(rt.cur).bitmap
    ensures !r.FormatError? && !r.AssertError?
    ensures r.Overflow? ==> exists b :: 0 <= b < |sizes| && sizes[b] > HALF
    ensures r.ReadError? ==> |stream| < Need(sizes, rt.codeBytes)
    ensures r.InternalError? ==> exists b :: 0 <= b < |sizes| && TooSmall(old(rt.cur).buckets, rt.limit, sizes, b)
    ensures r.Loaded? ==>
              && Loading(rt.cur, old(rt.cur).buckets, slots, |sizes|)
              && ReadTo(slots, sizes, rt.codeBytes, stream, rest, |sizes|)
              && forall b :: 0 <= b < |sizes| ==> !TooSmall(old(rt.cur).buckets, rt.limit, sizes, b)
  {
    hide Restored, Counted, Filled, Part, Held, Sum, PartOk, ReadTo, Untouched, Loading, Uniform, Need, PartSize;
    ghost var was := rt.cur.buckets;
    slots := seq(|sizes|, _ => []);
    LoadingStart(rt.cur, slots);
    rest := stream;
    ReadStart(slots, sizes, rt.codeBytes, stream);
    for b := 0 to |sizes|
      invariant rt.Accounted() && Loading(rt.cur, was, slots, b) && rt.cur.bitmap == old(rt.cur).bitmap
      invariant |slots| == |sizes| && ReadTo(slots, sizes, rt.codeBytes, stream, rest, b)
      invariant forall k :: 0 <= k < b ==> !TooSmall(was, rt.limit, sizes, k)
    {
      if sizes[b] > HALF {
        return Overflow, rest, slots;
      }
      ghost var s;
      ghost var before := rest;
      r, rest, s := LoadOne(rt, b, sizes[b], rest, was, slots);
      if r.InternalError? {
        assert TooSmall(was, rt.limit, sizes, b);
        return;
      }
      if r.ReadError? {
        ShortRead(slots, sizes, rt.codeBytes, stream, before, b);
        return;
      }
      ReadStep(slots, sizes, rt.codeBytes, stream, before, b, s, rest);
      slots := slots[b := s];
    }
    r := Loaded;
  }

  lemma ReadStart(slots: Slots, sizes: seq<nat>, width: nat, stream: Bytes)
    requires |slots| == |sizes| && forall b :: 0 <= b < |slots| ==> slots[b] == []
    ensures ReadTo(slots, sizes, width, stream, stream, 0)
  {
    NoParts(slots[..0]);
    assert sizes[0..] == sizes;
  }

  lemma ShortRead(slots: Slots, sizes: seq<nat>, width: nat, stream: Bytes, rest: Bytes, b: nat)
    requires ReadTo(slots, sizes, width, stream, rest, b) && b < |sizes| && |rest| < PartSize(sizes[b], width)
    ensures |stream| < Need(sizes, width)
  {
    NeedShort(sizes, width, b, stream, rest);
  }

  lemma {:induction false} PartsLength(slots: Slots, width: nat)
    requires AllPartsOk(slots, width)
    ensures |Parts(slots)| == Need(Sizes(slots), width)
  {
    if slots != [] {
      PartLength(slots[0], width);
      PartsLength(slots[1..], width);
      assert Sizes(slots)[1..] == Sizes(slots[1..]);
    }
  }

  /** Lists of given sizes can be read back from their parts in one way only. */
  lemma {:induction false} PartsUnique(a: Slots, b: Slots, width: nat, x: Bytes, y: Bytes)
    requires AllPartsOk(a, width) && AllPartsOk(b, width) && Sizes(a) == Sizes(b) && Parts(a) + x == Parts(b) + y
    ensures a == b && x == y
  {
    hide PartOk, Part, PartSize;
    assert |a| == |Sizes(a)| == |b|;
    if a == [] {
      NoParts(a);
      NoParts(b);
      assert [] + x == x && [] + y == y;
    } else {
      assert |a[0]| == Sizes(a)[0] == |b[0]|;
      PartsFirst(a, width, x);
      PartsFirst(b, width, y);
      assert Sizes(a[1..]) == Sizes(a)[1..] == Sizes(b[1..]);
      PartsUnique(a[1..], b[1..], width, x, y);
      assert a == [a[0]] + a[1..] && b == [b[0]] + b[1..];
    }
  }

  lemma PartsFirst(a: Slots, width: nat, x: Bytes)
    requires a != [] && AllPartsOk(a, width)
    ensures var n := PartSize(|a[0]|, width);
            && n <= |Parts(a) + x| && (Parts(a) + x)[n..] == Parts(a[1..]) + x
            && a[0] == Unpart((Parts(a) + x)[..n], |a[0]|, width)
  {
    hide PartOk, PartSize, Unpart;
    UnpartPart(a[0], width);
    Regroup(Part(a[0]), Parts(a[1..]), x);
    assert (Part(a[0]) + (Parts(a[1..]) + x))[..|Part(a[0])|] == Part(a[0]);
  }

  /** An index into which nothing was put yet. */
  ghost predicate Untouched(d: BucketData) {
    && |d.deleted| == |d.buckets| && |d.table| > 0
    && (forall b :: 0 <= b < |d.buckets| ==> d.buckets[b].size == 0 && d.deleted[b] == 0)
    && forall v :: 0 <= v < |d.table| ==> d.table[v] == -1
  }

  lemma LoadingStart(d: BucketData, slots: Slots)
    requires Untouched(d) && BucketsOk(d.buckets) && |d.buckets| == |slots|
    ensures Loading(d, d.buckets, slots, 0)
  {
  }

  lemma SmallPow()
    ensures ILAR < Pow256(4) && FULL < Pow256(4) && Pow256(8) == WORD
  {
    assert Pow256(4) == 256 * 256 * 256 * 256;
    Pow8();
  }

  /** The header, the number of sizes, and the sizes. */
  function Front(buckets: nat, width: nat, sizes: seq<nat>): (r: Bytes)
    ensures |r| == 32 + 8 * |sizes|
  {
    Header(buckets, width) + (Encode(|sizes|, 8) + EncodeAll(sizes))
  }

  lemma DumpFront(slots: Slots, width: nat, tail: Bytes)
    ensures Dump(slots, width) + tail == Front(|slots|, width, Sizes(slots)) + (Parts(slots) + tail)
  {
    hide Encode, EncodeAll, Parts, Header;
    var h, c, z, p := Header(|slots|, width), Encode(|slots|, 8), EncodeAll(Sizes(slots)), Parts(slots);
    Regroup(c, z, p);
    Regroup(h, c + z, p);
    Regroup(h + (c + z), p, tail);
  }

  /** What the bytes before the lists turn out to be. */
  function ReadFront(stream: Bytes, buckets: nat, width: nat): (r: (Outcome, seq<nat>))
    ensures r.0.Loaded? ==> |stream| >= 32 + 8 * |r.1|
  {
    if |stream| < 24 then (ReadError, [])
    else if Decode(stream[..4]) != ILAR || Decode(stream[20..24]) != FULL then (AssertError, [])
    else if Decode(stream[4..12]) != buckets || Decode(stream[12..20]) != width then (FormatError, [])
    else if |stream| < 32 then (ReadError, [])
    else
      var count := Decode(stream[24..32]);
      if count >= 0x100_0000_0000 || |stream| < 32 + 8 * count then (ReadError, [])
      else if count != buckets then (AssertError, [])
      else (Loaded, DecodeAll(stream[32..32 + 8 * count], count))
  }

  lemma FrontPieces(buckets: nat, width: nat, sizes: seq<nat>, rest: Bytes)
    ensures var s := Front(buckets, width, sizes) + rest;
            && s[..4] == Encode(ILAR, 4) && s[4..12] == Encode(buckets, 8) && s[12..20] == Encode(width, 8)
            && s[20..24] == Encode(FULL, 4) && s[24..32] == Encode(|sizes|, 8)
            && s[32..32 + 8 * |sizes|] == EncodeAll(sizes) && s[32 + 8 * |sizes|..] == rest
  {
    hide Encode, EncodeAll;
    var s := Front(buckets, width, sizes) + rest;
    var h := Header(buckets, width);
    assert s[..24] == h;
    assert h[..4] == s[..4] && h[4..12] == s[4..12] && h[12..20] == s[12..20] && h[20..24] == s[20..24];
  }

  /** Loading recognises what a dump begins with. */
  lemma FrontComplete(buckets: nat, width: nat, sizes: seq<nat>, rest: Bytes, b: nat, w: nat)
    requires |sizes| == buckets < 0x100_0000_0000 && width < WORD
    requires forall i :: 0 <= i < |sizes| ==> sizes[i] < WORD
    ensures ReadFront(Front(buckets, width, sizes) + rest, b, w)
            == if buckets != b || width != w then (FormatError, []) else (Loaded, sizes)
  {
    hide Encode, EncodeAll, DecodeAll, Decode, Front, Pow256;
    SmallPow();
    FrontPieces(buckets, width, sizes, rest);
    DecodeEncode(ILAR, 4);
    DecodeEncode(FULL, 4);
    DecodeEncode(buckets, 8);
    DecodeEncode(width, 8);
    DecodeEncodeAll(sizes);
  }

  /** And what it takes for one is one. */
  lemma FrontSound(stream: Bytes, buckets: nat, width: nat)
    requires ReadFront(stream, buckets, width).0.Loaded?
    ensures var sizes := ReadFront(stream, buckets, width).1;
            && |sizes| == buckets < 0x100_0000_0000 && width < WORD
            && stream == Front(buckets, width, sizes) + stream[32 + 8 * |sizes|..]
  {
    hide Encode, EncodeAll, DecodeAll, Decode, Pow256;
    SmallPow();
    EncodeDecode(stream[..4]);
    EncodeDecode(stream[4..12]);
    EncodeDecode(stream[12..20]);
    EncodeDecode(stream[20..24]);
    EncodeDecode(stream[24..32]);
    var k := 32 + 8 * buckets;
    EncodeDecodeAll(stream[32..k], buckets);
    Slices(stream, k);
  }

  lemma Slices(s: Bytes, k: nat)
    requires 32 <= k <= |s|
    ensures s == (s[..4] + s[4..12] + s[12..20] + s[20..24] + (s[24..32] + s[32..k])) + s[k..]
  {
    assert s[..12] == s[..4] + s[4..12];
    assert s[..20] == s[..12] + s[12..20];
    assert s[..24] == s[..20] + s[20..24];
    assert s[24..k] == s[24..32] + s[32..k];
    assert s[..k] == s[..24] + s[24..k];
  }

  /** A stream that is too short or does not spell ilar and full is refused. */
  lemma BadFront(stream: Bytes, buckets: nat, width: nat)
    ensures |stream| < 24 ==> ReadFront(stream, buckets, width).0.ReadError?
    ensures |stream| >= 24 && (stream[..4] != [0x69, 0x6c, 0x61, 0x72] || stream[20..24] != [0x66, 0x75, 0x6c, 0x6c]) ==>
              ReadFront(stream, buckets, width).0.AssertError?
  {
    hide Encode, DecodeAll, Decode;
    if |stream| >= 24 {
      SpelledWord(0x69, 0x6c, 0x61, 0x72, ILAR);
      SpelledWord(0x66, 0x75, 0x6c, 0x6c, FULL);
      EncodeDecode(stream[..4]);
      EncodeDecode(stream[20..24]);
    }
  }

  /** Loading any stream, into an index into which nothing was put. What is loaded was a dump; and a
      dump, with the shape of the index and room for its lists, is loaded. */
  method ReadInvertedLists(stream: Bytes, rt: RealTimeMemData, ghost slots: Slots, ghost width: nat, ghost tail: Bytes)
    returns (r: Outcome, rest: Bytes)
    requires rt.Accounted() && Untouched(rt.cur)
    modifies rt
    ensures rt.Accounted() && rt.cur.bitmap == old(rt.cur).bitmap
    ensures r.Loaded? ==>
              var now := View(rt.cur.buckets);
              && Dumpable(now, rt.codeBytes) && stream == Dump(now, rt.codeBytes) + rest
              && Restored(now, rt.cur.table, |now|, 0) && Counted(rt.cur.deleted, now, |now|)
    ensures |stream| < 24 ==> r.ReadError?
    ensures |stream| >= 24 && (stream[..4] != [0x69, 0x6c, 0x61, 0x72] || stream[20..24] != [0x66, 0x75, 0x6c, 0x6c]) ==>
              r.AssertError?
    ensures stream == Dump(slots, width) + tail && Dumpable(slots, width) ==>
              && (r.FormatError? <==> |slots| != |old(rt.cur).buckets| || width != rt.codeBytes)
              && (r.InternalError? <==>
                    !r.FormatError? &&
                    exists b :: 0 <= b < |slots| && TooSmall(old(rt.cur).buckets, rt.limit, Sizes(slots), b))
              && (r.FormatError? || r.InternalError? || r.Loaded?)
              && (r.Loaded? ==> View(rt.cur.buckets) == slots && rest == tail)
  {
    hide Parts, Dump, Restored, Counted, Untouched, Held, Sum, Dumpable, Front, ReadFront, Uniform, TooSmall, ReadTo,
         Loading, Need;
    ghost var hinted := stream == Dump(slots, width) + tail && Dumpable(slots, width);
    ghost var was := rt.cur.buckets;
    if hinted {
      HintFront(stream, slots, width, tail, |rt.cur.buckets|, rt.codeBytes);
    }
    BadFront(stream, |rt.cur.buckets|, rt.codeBytes);
    var front := ReadFront(stream, |rt.cur.buckets|, rt.codeBytes);
    if !front.0.Loaded? {
      return front.0, stream;
    }
    FrontSound(stream, |rt.cur.buckets|, rt.codeBytes);
    var sizes := front.1;
    ghost var got;
    var lists := stream[32 + 8 * |sizes|..];
    r, rest, got := LoadLists(rt, sizes, lists);
    if r.Loaded? {
      LoadedDump(rt.cur, was, got, sizes, rt.codeBytes, lists, rest, stream);
    }
    if hinted {
      HintLists(slots, width, tail, sizes, lists);
      if r.Loaded? {
        HintSame(slots, width, tail, got, sizes, lists, rest);
      }
    }
  }

  lemma HintFront(stream: Bytes, slots: Slots, width: nat, tail: Bytes, b: nat, w: nat)
    requires stream == Dump(slots, width) + tail && Dumpable(slots, width)
    ensures ReadFront(stream, b, w)
            == if |slots| != b || width != w then (FormatError, []) else (Loaded, Sizes(slots))
    ensures |stream| >= 32 + 8 * |slots| && stream[32 + 8 * |slots|..] == Parts(slots) + tail
  {
    hide Dump, Parts, Front, ReadFront, Encode, EncodeAll;
    SizesFit(slots, width);
    DumpFront(slots, width, tail);
    FrontComplete(|slots|, width, Sizes(slots), Parts(slots) + tail, b, w);
    FrontPieces(|slots|, width, Sizes(slots), Parts(slots) + tail);
  }

  lemma HintLists(slots: Slots, width: nat, tail: Bytes, sizes: seq<nat>, lists: Bytes)
    requires Dumpable(slots, width) && sizes == Sizes(slots) && lists == Parts(slots) + tail
    ensures |lists| >= Need(sizes, width) && forall b :: 0 <= b < |sizes| ==> sizes[b] <= HALF
  {
    hide Parts, Need;
    PartsLength(slots, width);
    forall b | 0 <= b < |sizes| ensures sizes[b] <= HALF {
      assert PartOk(slots[b], width);
    }
  }

  lemma HintSame(slots: Slots, width: nat, tail: Bytes, got: Slots, sizes: seq<nat>, lists: Bytes, rest: Bytes)
    requires Dumpable(slots, width) && sizes == Sizes(slots) && lists == Parts(slots) + tail
    requires ReadTo(got, sizes, width, lists, rest, |sizes|)
    ensures got == slots && rest == tail
  {
    hide Parts, PartOk;
    assert got[..|sizes|] == got;
    assert Sizes(got) == sizes;
    PartsUnique(got, slots, width, rest, tail);
  }

  lemma LoadedDump(d: BucketData, was: seq<Bucket>, got: Slots, sizes: seq<nat>, width: nat, lists: Bytes, rest: Bytes,
                   stream: Bytes)
    requires Loading(d, was, got, |sizes|) && ReadTo(got, sizes, width, lists, rest, |sizes|)
    requires |sizes| < 0x100_0000_0000 && width < WORD && stream == Front(|sizes|, width, sizes) + lists
    ensures BucketsOk(d.buckets) && View(d.buckets) == got && |got| == |sizes|
    ensures Dumpable(got, width) && stream == Dump(got, width) + rest
    ensures Restored(got, d.table, |got|, 0) && Counted(d.deleted, got, |got|)
  {
    hide Restored, Counted, Parts, PartOk, Front, Dump;
    assert got[..|sizes|] == got;
    assert Sizes(got) == sizes;
    DumpFront(got, width, rest);
    assert View(d.buckets) == got;
  }

  lemma SizesFit(slots: Slots, width: nat)
    requires Dumpable(slots, width)
    ensures forall i :: 0 <= i < |slots| ==> Sizes(slots)[i] < WORD
  {
    forall i | 0 <= i < |slots| ensures Sizes(slots)[i] < WORD {
      assert PartOk(slots[i], width);
    }
  }

  // ---- the index that was dumped, and the one that was loaded ----

  /** No slot of the list is unmasked while its document is deleted. */
  ghost predicate Clean(s: seq<Slot>, bitmap: set<nat>) {
    forall i :: 0 <= i < |s| && !Masked(s[i].word) ==> s[i].word !in bitmap
  }

  lemma {:induction false} CleanCounts(s: seq<Slot>, bitmap: set<nat>)
    ensures MaskedCount(s) <= DeadCount(s, bitmap)
    ensures MaskedCount(s) == DeadCount(s, bitmap) <==> Clean(s, bitmap)
  {
    if s != [] {
      var r := s[..|s| - 1];
      CleanCounts(r, bitmap);
      assert Clean(s, bitmap) <==>
             Clean(r, bitmap) && (Masked(s[|s| - 1].word) || s[|s| - 1].word !in bitmap) by {
        assert forall i :: 0 <= i < |r| ==> r[i] == s[i];
      }
    }
  }

  /** Two position tables for the same slots give the same map. */
  lemma SameSlotsSameMeaning(slots: Slots, t1: seq<int>, t2: seq<int>, bitmap: set<nat>)
    requires SmallEnough(slots)
    requires SlotsOk(slots, t1, bitmap) && TableOk(slots, t1, bitmap, {})
    requires SlotsOk(slots, t2, bitmap) && TableOk(slots, t2, bitmap, {})
    ensures Meaning(slots, t1, bitmap) == Meaning(slots, t2, bitmap)
  {
    var m1, m2 := Meaning(slots, t1, bitmap), Meaning(slots, t2, bitmap);
    forall v | v in m1 ensures v in m2 && m1[v] == m2[v] {
      assert Found(slots, t1, bitmap, v);
      Unpacked(BucketOf(t1[v]), PosOf(t1[v]));
      assert t2[v] == t1[v];
    }
    forall v | v in m2 ensures v in m1 {
      assert Found(slots, t2, bitmap, v);
      Unpacked(BucketOf(t2[v]), PosOf(t2[v]));
      assert t1[v] == t2[v];
    }
  }

  lemma RestoredTable(slots: Slots, was: seq<int>, table: seq<int>, bitmap: set<nat>)
    requires SmallEnough(slots) && SlotsOk(slots, was, bitmap)
    requires Restored(slots, table, |slots|, 0)
    ensures SlotsOk(slots, table, bitmap) && TableOk(slots, table, bitmap, {})
  {
    forall v: nat | Indexed(table, bitmap, v) ensures Found(slots, table, bitmap, v) {
      assert Points(slots, table[v], v, |slots|, 0);
    }
    forall b, p | At(slots, b, p) && !Dead(slots[b][p], bitmap)
      ensures slots[b][p].word < |table| && table[slots[b][p].word] == Pack(b, p)
    {
      var v := slots[b][p].word;
      assert Before(b, p, |slots|, 0);
      assert Points(slots, table[v], v, |slots|, 0);
      var b', p' := BucketOf(table[v]), PosOf(table[v]);
      assert At(slots, b', p') && was[v] == Pack(b', p') == Pack(b, p);
      Unpacked(b, p);
      Unpacked(b', p');
    }
  }

  /** The loaded index has the map of the dumped one. Its dead counts are exact, so that it
      is a well-formed index, if and only if no dumped slot was unmasked while its document
      was deleted: loading counts masked slots only. */
  lemma RoundTrip(d: BucketData, e: BucketData)
    requires d.Good({}) && BucketsOk(e.buckets) && e.bitmap == d.bitmap
    requires View(e.buckets) == View(d.buckets)
    requires Restored(View(d.buckets), e.table, |d.buckets|, 0)
    requires Counted(e.deleted, View(d.buckets), |d.buckets|)
    ensures TableOk(View(e.buckets), e.table, e.bitmap, {})
    ensures Meaning(View(e.buckets), e.table, e.bitmap) == d.Index()
    ensures e.Good({}) <==> forall b :: 0 <= b < |d.buckets| ==> Clean(View(d.buckets)[b], d.bitmap)
  {
    hide Restored;
    var slots := View(d.buckets);
    RestoredTable(slots, d.table, e.table, d.bitmap);
    SameSlotsSameMeaning(slots, e.table, d.table, d.bitmap);
    hide SlotsOk, TableOk;
    RestoredSize(slots, e.table, |slots|, 0);
    forall b | 0 <= b < |slots|
      ensures e.deleted[b] == DeadCount(slots[b], d.bitmap) <==> Clean(slots[b], d.bitmap)
    {
      CleanCounts(slots[b], d.bitmap);
    }
  }

  lemma RestoredSize(slots: Slots, table: seq<int>, bno: nat, pos: nat)
    requires Restored(slots, table, bno, pos)
    ensures |table| > 0
  {
  }

  /** What a valid index holds fits the fields of the format. */
  lemma ValidDumpable(d: BucketData, width: nat)
    requires d.Good({}) && Uniform(View(d.buckets), width)
    requires |d.buckets| < 0x100_0000_0000 && width < WORD
    ensures Dumpable(View(d.buckets), width)
  {
    hide SlotsOk, TableOk, CountsOk;
    var slots := View(d.buckets);
    forall b | 0 <= b < |slots| ensures PartOk(slots[b], width) {
      assert AllFit(slots[b], width);
    }
  }

  /** A valid index is dumped and loaded into another of the same shape, for the same
      documents. Nothing is lost; the loaded index is valid if and only if no dumped slot
      was unmasked while its document was deleted. */
  method DumpLoad(rt: RealTimeMemData, other: RealTimeMemData) returns (r: Outcome)
    requires rt.Valid() && other.Accounted() && Untouched(other.cur) && rt != other
    requires other.cur.bitmap == rt.cur.bitmap
    requires |rt.cur.buckets| < 0x100_0000_0000 && rt.codeBytes < WORD
    modifies other
    ensures other.Accounted() && other.cur.bitmap == rt.cur.bitmap
    ensures r.FormatError? <==> |rt.cur.buckets| != |old(other.cur).buckets| || rt.codeBytes != other.codeBytes
    ensures r.InternalError? <==>
              !r.FormatError? &&
              exists b :: 0 <= b < |rt.cur.buckets| &&
                          TooSmall(old(other.cur).buckets, other.limit, Counts(rt.cur.buckets), b)
    ensures r.FormatError? || r.InternalError? || r.Loaded?
    ensures r.Loaded? ==>
              && View(other.cur.buckets) == View(rt.cur.buckets)
              && TableOk(View(other.cur.buckets), other.cur.table, other.cur.bitmap, {})
              && Meaning(View(other.cur.buckets), other.cur.table, other.cur.bitmap) == rt.cur.Index()
              && (other.Valid() <==> forall b :: 0 <= b < |rt.cur.buckets| ==>
                                       Clean(View(rt.cur.buckets)[b], rt.cur.bitmap))
  {
    hide Inv, Meaning, Restored, Counted, Untouched, Held, Sum, Uniform, TooSmall, Clean, Dump, Dumpable, TableOk;
    ghost var slots := View(rt.cur.buckets);
    ValidDumpable(rt.cur, rt.codeBytes);
    var out := WriteInvertedLists(rt.cur, rt.codeBytes);
    var rest;
    assert out == Dump(slots, rt.codeBytes) + [];
    assert Sizes(slots) == Counts(rt.cur.buckets);
    r, rest := ReadInvertedLists(out, other, slots, rt.codeBytes, []);
    if r.Loaded? {
      RoundTrip(rt.cur, other.cur);
    }
  }

  lemma FreshUntouched(rt: RealTimeMemData)
    requires rt.Valid() && Counts(rt.cur.buckets) == [0] == rt.cur.deleted
    requires |rt.cur.table| > 0 && forall v :: 0 <= v < |rt.cur.table| ==> rt.cur.table[v] == -1
    ensures Untouched(rt.cur) && BucketsOk(rt.cur.buckets) && View(rt.cur.buckets) == [[]] && rt.Accounted()
  {
    hide Inv;
    assert |rt.cur.buckets| == |Counts(rt.cur.buckets)| == 1;
    assert rt.cur.buckets[0].size == Counts(rt.cur.buckets)[0];
    assert View(rt.cur.buckets)[0] == [];
  }

  lemma OneKey(a: Abstract, c: Settings)
    requires a.Ok() && a.size == [0] && a.capacity == [10] && a.placed == {} && a.deleted == {}
    requires Growing(c.coefficient) && c.width == 1
    ensures a.Allowed(c, Add(0, [5], [7])) && a.Accepts(c, 0, [5], [7])
    ensures a.Added(c, 0, [5], [7]).deleted == {} && 5 < MASK && 1 < WORD
  {
    hide AddAll, DeadAmong, Chop, Extended, Growing;
  }

  /** The slot of vector 5 is unmasked while its document is deleted. */
  lemma NotClean(rt: RealTimeMemData, was: seq<Bucket>, limit: nat)
    requires rt.Valid() && |Chop([7], 1, 1)| == 1
    requires View(rt.cur.buckets) == [[] + Zip([5], Chop([7], 1, 1), 1)]
    requires Rooms(was) == [10]
    ensures !Clean(View(rt.cur.buckets)[0], {5}) && |rt.cur.buckets| == 1 == |was|
    ensures !TooSmall(was, limit, Counts(rt.cur.buckets), 0)
  {
    hide Inv, Chop;
    var s := View(rt.cur.buckets)[0];
    assert s[0].word == 5;
    assert |was| == |Rooms(was)| && |was[0].ids| == Rooms(was)[0];
  }

  /** A short run whose dump loads with a dead count that is too small: vector 5 is added
      and deleted, and its slot is not masked. */
  method InexactLoad(coefficient: nat -> real) returns (other: RealTimeMemData, r: Outcome)
    requires Growing(coefficient)
    ensures fresh(other) && r.Loaded? && other.Accounted() && !other.Valid()
  {
    hide *;
    var rt := new RealTimeMemData(1, 10, 20, 1, coefficient, {});
    assert seq(1, i => 0) == [0] && seq(1, i => 10) == [10];
    FreshUntouched(rt);
    OneKey(rt.Now(), rt.Config());
    var ok := rt.AddKeys(0, [5], [7]);
    rt.Delete(5);
    other := new RealTimeMemData(1, 10, 20, 1, coefficient, {5});
    FreshUntouched(other);
    NotClean(rt, other.cur.buckets, other.limit);
    r := DumpLoad(rt, other);
  }
}
