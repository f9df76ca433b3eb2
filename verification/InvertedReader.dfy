/** Readers of a bucket while one writer adds, grows, masks and overwrites codes: every
    interleaving of their memory accesses. Replaced arrays stay allocated, memory is
    sequentially consistent, and there is no compaction. */
module InvertedReader {
  import opened InvertedSpec
  import opened Options

  /** What the writer is in the middle of. */
  datatype Writer =
    | Idle
    | Growing(b: nat)
    | Writing(b: nat, keys: seq<nat>, codes: seq<Code>, ids: nat, done: nat)
    | Recoding(b: nat, p: nat, was: Code, code: Code)

  /** A slot: its id, and the codes it was given, the latest last. */
  datatype Past = Past(word: nat, codes: seq<Code>)

  /** A scan of bucket `b`: the size it read first, then the array pointers it read. */
  datatype Reader = Reader(b: nat, size: nat, ids: Option<nat>, codes: Option<nat>)

  /** Arrays are numbered in the order of allocation; `idOwner` and `codeOwner` record the
      bucket each was allocated for, `hist` the slots of each bucket with all their codes. */
  datatype State = State(
    idArrays: seq<seq<nat>>, idOwner: seq<nat>,
    codeArrays: seq<seq<Code>>, codeOwner: seq<nat>,
    idPtr: seq<nat>, codePtr: seq<nat>, size: seq<nat>,
    hist: seq<seq<Past>>, writer: Writer, readers: seq<Reader>)

  datatype Action =
    | GrowCodes(b: nat, capacity: nat)
    | GrowIds(capacity: nat)
    | Begin(b: nat, keys: seq<nat>, codes: seq<Code>)
    | WriteId
    | TearCode(torn: Code)
    | WriteCode
    | Commit
    | Mask(b: nat, p: nat)
    | BeginRecode(b: nat, p: nat, code: Code)
    | TearRecode(torn: Code)
    | EndRecode
    | ReadSize(b: nat)
    | ReadIds(r: nat)
    | ReadCodes(r: nat)

  function Unmasked(word: nat): nat {
    if Masked(word) then word - MASK else word
  }

  /** A copy of the committed part of an array, with room to `capacity`. */
  function Copy<T>(a: seq<T>, size: nat, capacity: nat, fill: T): (r: seq<T>)
    requires size <= |a| <= capacity
    ensures |r| == capacity && forall k :: 0 <= k < size ==> r[k] == a[k]
  {
    a[..size] + seq(capacity - size, i => fill)
  }

  function Zipped(keys: seq<nat>, codes: seq<Code>): (r: seq<Past>)
    requires |keys| == |codes|
    ensures |r| == |keys| && forall i :: 0 <= i < |keys| ==> r[i] == Past(keys[i], [codes[i]])
  {
    seq(|keys|, i requires 0 <= i < |keys| => Past(keys[i], [codes[i]]))
  }

  /** Slot p was given one more code. */
  function Recoded(hist: seq<Past>, p: nat, code: Code): seq<Past>
    requires p < |hist|
  {
    hist[p := hist[p].(codes := hist[p].codes + [code])]
  }

  /** A code in the middle of memcpy: every byte is the one before or the one after. */
  ghost predicate Mix(was: Code, code: Code, torn: Code) {
    && |torn| == |was| == |code|
    && forall i :: 0 <= i < |torn| ==> torn[i] == was[i] || torn[i] == code[i]
  }

  /** The writer is overwriting the code of slot k of bucket b. */
  predicate Busy(w: Writer, b: nat, k: nat) {
    w.Recoding? && w.b == b && w.p == k
  }

  /** Pointers are in range and arrays long enough for what is committed or being written. */
  ghost predicate Shape(s: State) {
    && |s.idPtr| == |s.codePtr| == |s.size| == |s.hist|
    && |s.idOwner| == |s.idArrays| && |s.codeOwner| == |s.codeArrays|
    && forall b :: 0 <= b < |s.size| ==> BucketShape(s, b)
  }

  ghost predicate BucketShape(s: State, b: nat)
    requires |s.idPtr| == |s.codePtr| == |s.size| == |s.hist|
    requires |s.idOwner| == |s.idArrays| && |s.codeOwner| == |s.codeArrays|
    requires b < |s.size|
  {
    && s.idPtr[b] < |s.idArrays| && s.codePtr[b] < |s.codeArrays|
    && s.idOwner[s.idPtr[b]] == b && s.codeOwner[s.codePtr[b]] == b
    && s.size[b] == |s.hist[b]|
    && s.size[b] <= |s.idArrays[s.idPtr[b]]| && s.size[b] <= |s.codeArrays[s.codePtr[b]]|
  }

  /** The current arrays of a bucket. */
  ghost function Ids(s: State, b: nat): (r: seq<nat>)
    requires Shape(s) && b < |s.size|
    ensures s.idPtr[b] < |s.idArrays| && r == s.idArrays[s.idPtr[b]] && s.size[b] <= |r|
  {
    assert BucketShape(s, b);
    s.idArrays[s.idPtr[b]]
  }

  ghost function Codes(s: State, b: nat): (r: seq<Code>)
    requires Shape(s) && b < |s.size|
    ensures s.codePtr[b] < |s.codeArrays| && r == s.codeArrays[s.codePtr[b]] && s.size[b] <= |r|
  {
    assert BucketShape(s, b);
    s.codeArrays[s.codePtr[b]]
  }

  /** The first `n` entries of an id array are the committed ids, up to the mask. */
  ghost predicate IdsShow(ids: seq<nat>, hist: seq<Past>, n: nat) {
    && n <= |ids| && n <= |hist|
    && forall k :: 0 <= k < n ==> Unmasked(ids[k]) == hist[k].word
  }

  /** The latest codes, but for the one that is being overwritten. */
  ghost predicate CodesShow(codes: seq<Code>, hist: seq<Past>, n: nat, w: Writer, b: nat) {
    && n <= |codes| && n <= |hist|
    && forall k :: 0 <= k < n ==> hist[k].codes != [] && (Busy(w, b, k) || codes[k] == hist[k].codes[|hist[k].codes| - 1])
  }

  /** Codes the slots were given, but for the one that is being overwritten in this array. */
  ghost predicate CodesKnown(codes: seq<Code>, hist: seq<Past>, n: nat, w: Writer, b: nat, current: bool) {
    && n <= |codes| && n <= |hist|
    && forall k :: 0 <= k < n ==> codes[k] in hist[k].codes || (current && Busy(w, b, k))
  }

  ghost predicate Current(s: State, b: nat)
    requires Shape(s) && b < |s.size|
  {
    && IdsShow(Ids(s, b), s.hist[b], s.size[b])
    && CodesShow(Codes(s, b), s.hist[b], s.size[b], s.writer, b)
  }

  /** What a reader has in hand shows committed slots, for every slot below its size. */
  ghost predicate ReaderOk(s: State, r: Reader)
    requires Shape(s)
  {
    && r.b < |s.size| && r.size <= s.size[r.b]
    && (r.ids.Some? ==>
          && r.ids.value < |s.idArrays| && s.idOwner[r.ids.value] == r.b
          && IdsShow(s.idArrays[r.ids.value], s.hist[r.b], r.size))
    && (r.codes.Some? ==>
          && r.codes.value < |s.codeArrays| && s.codeOwner[r.codes.value] == r.b
          && CodesKnown(s.codeArrays[r.codes.value], s.hist[r.b], r.size, s.writer, r.b, r.codes.value == s.codePtr[r.b]))
  }

  ghost predicate WriterOk(s: State)
    requires Shape(s)
  {
    match s.writer
    case Idle => true
    case Growing(b) => b < |s.size|
    case Writing(b, keys, codes, ids, done) =>
      && b < |s.size| && |keys| == |codes| && ids <= |keys| && done <= |codes|
      && (done > 0 ==> ids == |keys|) && (forall i :: 0 <= i < |keys| ==> keys[i] < MASK)
      && s.size[b] + |keys| <= |Ids(s, b)|
      && s.size[b] + |keys| <= |Codes(s, b)|
      && (forall i :: 0 <= i < ids ==> Ids(s, b)[s.size[b] + i] == keys[i])
      && (forall i :: 0 <= i < done ==> Codes(s, b)[s.size[b] + i] == codes[i])
    case Recoding(b, p, was, code) =>
      b < |s.size| && p < s.size[b] && Latest(s.hist[b], p, was, code) && Mix(was, code, Codes(s, b)[p])
  }

  /** The last two codes of slot p. */
  ghost predicate Latest(hist: seq<Past>, p: nat, was: Code, code: Code) {
    && p < |hist|
    && var codes := hist[p].codes;
       |codes| >= 2 && codes[|codes| - 2] == was && codes[|codes| - 1] == code
  }

  ghost predicate Inv(s: State) {
    && Shape(s) && WriterOk(s)
    && (forall b :: 0 <= b < |s.size| ==> Current(s, b))
    && forall i :: 0 <= i < |s.readers| ==> ReaderOk(s, s.readers[i])
  }

  ghost predicate Enabled(s: State, a: Action)
    requires Inv(s)
  {
    match a
    case GrowCodes(b, capacity) =>
      s.writer.Idle? && b < |s.size| && |Codes(s, b)| <= capacity
    case GrowIds(capacity) =>
      s.writer.Growing? && |Ids(s, s.writer.b)| <= capacity
    case Begin(b, keys, codes) =>
      && s.writer.Idle? && b < |s.size| && |keys| == |codes|
      && (forall i :: 0 <= i < |keys| ==> keys[i] < MASK)
      && s.size[b] + |keys| <= |Ids(s, b)|
      && s.size[b] + |keys| <= |Codes(s, b)|
    case WriteId => s.writer.Writing? && s.writer.ids < |s.writer.keys|
    case TearCode(_) =>
      s.writer.Writing? && s.writer.ids == |s.writer.keys| && s.writer.done < |s.writer.codes|
    case WriteCode =>
      s.writer.Writing? && s.writer.ids == |s.writer.keys| && s.writer.done < |s.writer.codes|
    case Commit =>
      s.writer.Writing? && s.writer.ids == |s.writer.keys| && s.writer.done == |s.writer.codes|
    case Mask(b, p) => s.writer.Idle? && b < |s.size| && p < s.size[b]
    case BeginRecode(b, p, code) =>
      s.writer.Idle? && b < |s.size| && p < s.size[b] && |code| == |Codes(s, b)[p]|
    case TearRecode(torn) => s.writer.Recoding? && Mix(s.writer.was, s.writer.code, torn)
    case EndRecode => s.writer.Recoding?
    case ReadSize(b) => b < |s.size|
    case ReadIds(r) => r < |s.readers| && s.readers[r].ids.None?
    case ReadCodes(r) => r < |s.readers| && s.readers[r].codes.None?
  }

  function SetId(s: State, a: nat, k: nat, word: nat): State
    requires a < |s.idArrays| && k < |s.idArrays[a]|
  {
    var changed: seq<nat> := s.idArrays[a][k := word];
    s.(idArrays := s.idArrays[a := changed])
  }

  function SetCode(s: State, a: nat, k: nat, code: Code): State
    requires a < |s.codeArrays| && k < |s.codeArrays[a]|
  {
    s.(codeArrays := s.codeArrays[a := s.codeArrays[a][k := code]])
  }

  /** One memory access, or one private block of work ending in one. */
  ghost function Apply(s: State, a: Action): State
    requires Inv(s) && Enabled(s, a)
  {
    match a
    case GrowCodes(b, capacity) =>
      var grown := Copy(Codes(s, b), s.size[b], capacity, []);
      s.(codeArrays := s.codeArrays + [grown], codeOwner := s.codeOwner + [b],
         codePtr := s.codePtr[b := |s.codeArrays|], writer := Growing(b))
    case GrowIds(capacity) =>
      var b := s.writer.b;
      var grown := Copy(Ids(s, b), s.size[b], capacity, 0);
      s.(idArrays := s.idArrays + [grown], idOwner := s.idOwner + [b],
         idPtr := s.idPtr[b := |s.idArrays|], writer := Idle)
    case Begin(b, keys, codes) => s.(writer := Writing(b, keys, codes, 0, 0))
    case WriteId =>
      var w := s.writer;
      assert Ids(s, w.b) == s.idArrays[s.idPtr[w.b]];
      SetId(s, s.idPtr[w.b], s.size[w.b] + w.ids, w.keys[w.ids]).(writer := w.(ids := w.ids + 1))
    case TearCode(torn) =>
      var w := s.writer;
      assert Codes(s, w.b) == s.codeArrays[s.codePtr[w.b]];
      SetCode(s, s.codePtr[w.b], s.size[w.b] + w.done, torn)
    case WriteCode =>
      var w := s.writer;
      assert Codes(s, w.b) == s.codeArrays[s.codePtr[w.b]];
      SetCode(s, s.codePtr[w.b], s.size[w.b] + w.done, w.codes[w.done]).(writer := w.(done := w.done + 1))
    case Commit =>
      var w := s.writer;
      s.(size := s.size[w.b := s.size[w.b] + |w.keys|],
         hist := s.hist[w.b := s.hist[w.b] + Zipped(w.keys, w.codes)], writer := Idle)
    case Mask(b, p) =>
      SetId(s, s.idPtr[b], p, SetMask(Ids(s, b)[p]))
    case BeginRecode(b, p, code) =>
      assert BucketShape(s, b);
      s.(hist := s.hist[b := Recoded(s.hist[b], p, code)], writer := Recoding(b, p, Codes(s, b)[p], code))
    case TearRecode(torn) =>
      assert Codes(s, s.writer.b) == s.codeArrays[s.codePtr[s.writer.b]];
      SetCode(s, s.codePtr[s.writer.b], s.writer.p, torn)
    case EndRecode =>
      assert Codes(s, s.writer.b) == s.codeArrays[s.codePtr[s.writer.b]];
      SetCode(s, s.codePtr[s.writer.b], s.writer.p, s.writer.code).(writer := Idle)
    case ReadSize(b) => s.(readers := s.readers + [Reader(b, s.size[b], None, None)])
    case ReadIds(r) =>
      var x := s.readers[r];
      s.(readers := s.readers[r := x.(ids := Some(s.idPtr[x.b]))])
    case ReadCodes(r) =>
      var x := s.readers[r];
      s.(readers := s.readers[r := x.(codes := Some(s.codePtr[x.b]))])
  }

  /** Everything but the writer's own bookkeeping. */
  ghost predicate Visible(s: State) {
    && Shape(s)
    && (forall b :: 0 <= b < |s.size| ==> Current(s, b))
    && forall i :: 0 <= i < |s.readers| ==> ReaderOk(s, s.readers[i])
  }

  /** Writing an id beyond the committed size, or masking one, is invisible. */
  lemma SetIdVisible(s: State, b: nat, k: nat, word: nat)
    requires Visible(s) && b < |s.size| && k < |Ids(s, b)|
    requires k < s.size[b] ==> Unmasked(word) == Unmasked(Ids(s, b)[k])
    ensures Visible(SetId(s, s.idPtr[b], k, word))
    ensures Ids(SetId(s, s.idPtr[b], k, word), b) == Ids(s, b)[k := word]
    ensures Codes(SetId(s, s.idPtr[b], k, word), b) == Codes(s, b)
  {
    var n := SetId(s, s.idPtr[b], k, word);
    assert BucketShape(s, b);
    forall x | 0 <= x < |n.size| ensures BucketShape(n, x) {
      assert BucketShape(s, x);
    }
    forall x | 0 <= x < |n.size| ensures Current(n, x) {
      assert BucketShape(s, x) && Current(s, x);
    }
    forall i | 0 <= i < |n.readers| ensures ReaderOk(n, n.readers[i]) {
      assert ReaderOk(s, s.readers[i]);
    }
  }

  lemma SetCodeVisible(s: State, b: nat, k: nat, code: Code)
    requires Visible(s) && b < |s.size| && k < |Codes(s, b)| && (s.size[b] <= k || Busy(s.writer, b, k))
    ensures Visible(SetCode(s, s.codePtr[b], k, code))
    ensures Codes(SetCode(s, s.codePtr[b], k, code), b) == Codes(s, b)[k := code]
    ensures Ids(SetCode(s, s.codePtr[b], k, code), b) == Ids(s, b)
  {
    var n := SetCode(s, s.codePtr[b], k, code);
    assert BucketShape(s, b);
    forall x | 0 <= x < |n.size| ensures BucketShape(n, x) {
      assert BucketShape(s, x);
    }
    forall x | 0 <= x < |n.size| ensures Current(n, x) {
      assert BucketShape(s, x) && Current(s, x);
    }
    forall i | 0 <= i < |n.readers| ensures ReaderOk(n, n.readers[i]) {
      assert ReaderOk(s, s.readers[i]);
    }
  }

  lemma GrowCodesKeeps(s: State, b: nat, capacity: nat)
    requires Inv(s) && Enabled(s, GrowCodes(b, capacity))
    ensures Inv(Apply(s, GrowCodes(b, capacity)))
  {
    var n := Apply(s, GrowCodes(b, capacity));
    forall x | 0 <= x < |n.size| ensures BucketShape(n, x) {
      assert BucketShape(s, x);
    }
    forall x | 0 <= x < |n.size| ensures Current(n, x) {
      assert BucketShape(s, x) && Current(s, x);
    }
    forall i | 0 <= i < |n.readers| ensures ReaderOk(n, n.readers[i]) {
      assert ReaderOk(s, s.readers[i]);
    }
  }

  lemma GrowIdsKeeps(s: State, capacity: nat)
    requires Inv(s) && Enabled(s, GrowIds(capacity))
    ensures Inv(Apply(s, GrowIds(capacity)))
  {
    var n := Apply(s, GrowIds(capacity));
    forall x | 0 <= x < |n.size| ensures BucketShape(n, x) {
      assert BucketShape(s, x);
    }
    forall x | 0 <= x < |n.size| ensures Current(n, x) {
      assert BucketShape(s, x) && Current(s, x);
    }
    forall i | 0 <= i < |n.readers| ensures ReaderOk(n, n.readers[i]) {
      assert ReaderOk(s, s.readers[i]);
    }
  }

  lemma CommitKeeps(s: State)
    requires Inv(s) && Enabled(s, Commit)
    ensures Inv(Apply(s, Commit))
  {
    var n := Apply(s, Commit);
    var w := s.writer;
    forall x | 0 <= x < |n.size| ensures BucketShape(n, x) {
      assert BucketShape(s, x) && Ids(s, x) == s.idArrays[s.idPtr[x]] && Codes(s, x) == s.codeArrays[s.codePtr[x]];
    }
    forall x | 0 <= x < |n.size| ensures Current(n, x) {
      assert BucketShape(s, x) && Current(s, x);
      if x == w.b {
        CommittedShows(s);
      }
    }
    forall i | 0 <= i < |n.readers| ensures ReaderOk(n, n.readers[i]) {
      assert ReaderOk(s, s.readers[i]);
    }
  }

  /** The entries written are what the commit says they are. */
  lemma CommittedShows(s: State)
    requires Inv(s) && Enabled(s, Commit)
    ensures var w := s.writer;
            && IdsShow(Ids(s, w.b), s.hist[w.b] + Zipped(w.keys, w.codes), s.size[w.b] + |w.keys|)
            && CodesShow(Codes(s, w.b), s.hist[w.b] + Zipped(w.keys, w.codes), s.size[w.b] + |w.keys|, Idle, w.b)
  {
    var w := s.writer;
    var n := s.size[w.b];
    assert BucketShape(s, w.b) && Current(s, w.b);
    var now := s.hist[w.b] + Zipped(w.keys, w.codes);
    forall k | 0 <= k < n + |w.keys|
      ensures Unmasked(Ids(s, w.b)[k]) == now[k].word
      ensures now[k].codes != [] && Codes(s, w.b)[k] == now[k].codes[|now[k].codes| - 1]
    {
      if k >= n {
        assert Ids(s, w.b)[n + (k - n)] == w.keys[k - n];
        assert Codes(s, w.b)[n + (k - n)] == w.codes[k - n];
      }
    }
  }

  lemma WriteIdKeeps(s: State)
    requires Inv(s) && Enabled(s, WriteId)
    ensures Inv(Apply(s, WriteId))
  {
    hide BucketShape, Current, ReaderOk;
    var w := s.writer;
    SetIdVisible(s, w.b, s.size[w.b] + w.ids, w.keys[w.ids]);
    VisibleWriter(SetId(s, s.idPtr[w.b], s.size[w.b] + w.ids, w.keys[w.ids]), w.(ids := w.ids + 1));
  }

  lemma TearCodeKeeps(s: State, torn: Code)
    requires Inv(s) && Enabled(s, TearCode(torn))
    ensures Inv(Apply(s, TearCode(torn)))
  {
    hide BucketShape, Current, ReaderOk;
    SetCodeVisible(s, s.writer.b, s.size[s.writer.b] + s.writer.done, torn);
  }

  lemma WriteCodeKeeps(s: State)
    requires Inv(s) && Enabled(s, WriteCode)
    ensures Inv(Apply(s, WriteCode))
  {
    hide BucketShape, Current, ReaderOk;
    var w := s.writer;
    SetCodeVisible(s, w.b, s.size[w.b] + w.done, w.codes[w.done]);
    VisibleWriter(SetCode(s, s.codePtr[w.b], s.size[w.b] + w.done, w.codes[w.done]),
                  w.(done := w.done + 1));
  }

  lemma MaskKeeps(s: State, b: nat, p: nat)
    requires Inv(s) && Enabled(s, Mask(b, p))
    ensures Inv(Apply(s, Mask(b, p)))
  {
    hide BucketShape, Current, ReaderOk;
    SetIdVisible(s, b, p, SetMask(Ids(s, b)[p]));
  }

  lemma VisibleWriter(s: State, w: Writer)
    requires Visible(s) && !s.writer.Recoding? && !w.Recoding?
    ensures Visible(s.(writer := w))
    ensures forall b :: 0 <= b < |s.size| ==> Ids(s.(writer := w), b) == Ids(s, b)
    ensures forall b :: 0 <= b < |s.size| ==> Codes(s.(writer := w), b) == Codes(s, b)
  {
    var n := s.(writer := w);
    forall x | 0 <= x < |n.size| ensures BucketShape(n, x) {
      assert BucketShape(s, x);
    }
    forall x | 0 <= x < |n.size| ensures Current(n, x) {
      assert Current(s, x);
    }
    forall i | 0 <= i < |n.readers| ensures ReaderOk(n, n.readers[i]) {
      assert ReaderOk(s, s.readers[i]);
    }
  }

  lemma VisibleReaders(s: State, readers: seq<Reader>)
    requires Visible(s) && forall i :: 0 <= i < |readers| ==> ReaderOk(s, readers[i])
    ensures Visible(s.(readers := readers))
    ensures forall b :: 0 <= b < |s.size| ==> Ids(s.(readers := readers), b) == Ids(s, b)
    ensures forall b :: 0 <= b < |s.size| ==> Codes(s.(readers := readers), b) == Codes(s, b)
  {
    var n := s.(readers := readers);
    forall x | 0 <= x < |n.size| ensures BucketShape(n, x) {
      assert BucketShape(s, x);
    }
    forall x | 0 <= x < |n.size| ensures Current(n, x) {
      assert Current(s, x);
    }
    forall i | 0 <= i < |n.readers| ensures ReaderOk(n, n.readers[i]) {
      assert ReaderOk(s, readers[i]);
    }
  }

  lemma ReadKeeps(s: State, a: Action)
    requires Inv(s) && Enabled(s, a) && (a.ReadSize? || a.ReadIds? || a.ReadCodes?)
    ensures Inv(Apply(s, a))
  {
    var readers := Apply(s, a).readers;
    forall i | 0 <= i < |readers| ensures ReaderOk(s, readers[i]) {
      if i < |s.readers| {
        var x := s.readers[i];
        assert ReaderOk(s, x) && BucketShape(s, x.b) && Current(s, x.b);
      }
    }
    hide BucketShape, Current, ReaderOk;
    VisibleReaders(s, readers);
  }

  lemma BeginKeeps(s: State, b: nat, keys: seq<nat>, codes: seq<Code>)
    requires Inv(s) && Enabled(s, Begin(b, keys, codes))
    ensures Inv(Apply(s, Begin(b, keys, codes)))
  {
    hide BucketShape, Current, ReaderOk;
    VisibleWriter(s, Writing(b, keys, codes, 0, 0));
  }

  /** The codes a slot was given stay known, and one more may be. */
  lemma RecodedKnown(codes: seq<Code>, hist: seq<Past>, n: nat, p: nat, code: Code, w: Writer, b: nat, current: bool)
    requires p < |hist| && CodesKnown(codes, hist, n, Idle, b, current)
    ensures CodesKnown(codes, Recoded(hist, p, code), n, w, b, current)
  {
    var now := Recoded(hist, p, code);
    forall k | 0 <= k < n ensures codes[k] in now[k].codes {
      assert codes[k] in hist[k].codes;
    }
  }

  lemma BeginRecodeKeeps(s: State, b: nat, p: nat, code: Code)
    requires Inv(s) && Enabled(s, BeginRecode(b, p, code))
    ensures Inv(Apply(s, BeginRecode(b, p, code)))
  {
    var n := Apply(s, BeginRecode(b, p, code));
    forall x | 0 <= x < |n.size| ensures BucketShape(n, x) {
      assert BucketShape(s, x);
    }
    forall x | 0 <= x < |n.size| ensures Current(n, x) {
      assert BucketShape(s, x) && Current(s, x);
    }
    forall i | 0 <= i < |n.readers| ensures ReaderOk(n, n.readers[i]) {
      var x := s.readers[i];
      assert ReaderOk(s, x) && BucketShape(s, b);
      if x.codes.Some? && x.b == b {
        RecodedKnown(s.codeArrays[x.codes.value], s.hist[b], x.size, p, code, n.writer, b, x.codes.value == s.codePtr[b]);
      }
    }
    assert Current(s, b);
  }

  lemma TearRecodeKeeps(s: State, torn: Code)
    requires Inv(s) && Enabled(s, TearRecode(torn))
    ensures Inv(Apply(s, TearRecode(torn)))
  {
    hide BucketShape, Current, ReaderOk;
    SetCodeVisible(s, s.writer.b, s.writer.p, torn);
  }

  lemma EndRecodeKeeps(s: State)
    requires Inv(s) && Enabled(s, EndRecode)
    ensures Inv(Apply(s, EndRecode))
  {
    var w := s.writer;
    var n := Apply(s, EndRecode);
    assert BucketShape(s, w.b);
    forall x | 0 <= x < |n.size| ensures BucketShape(n, x) {
      assert BucketShape(s, x);
    }
    forall x | 0 <= x < |n.size| ensures Current(n, x) {
      assert BucketShape(s, x) && Current(s, x);
    }
    forall i | 0 <= i < |n.readers| ensures ReaderOk(n, n.readers[i]) {
      assert ReaderOk(s, s.readers[i]);
    }
  }

  lemma StepKeeps(s: State, a: Action)
    requires Inv(s) && Enabled(s, a)
    ensures Inv(Apply(s, a))
  {
    hide Shape, WriterOk, Current, ReaderOk;
    match a
    case GrowCodes(b, capacity) => GrowCodesKeeps(s, b, capacity);
    case GrowIds(capacity) => GrowIdsKeeps(s, capacity);
    case Commit => CommitKeeps(s);
    case WriteId => WriteIdKeeps(s);
    case TearCode(torn) => TearCodeKeeps(s, torn);
    case WriteCode => WriteCodeKeeps(s);
    case Mask(b, p) => MaskKeeps(s, b, p);
    case Begin(b, keys, codes) => BeginKeeps(s, b, keys, codes);
    case BeginRecode(b, p, code) => BeginRecodeKeeps(s, b, p, code);
    case TearRecode(torn) => TearRecodeKeeps(s, torn);
    case EndRecode => EndRecodeKeeps(s);
    case ReadSize(_) => ReadKeeps(s, a);
    case ReadIds(_) => ReadKeeps(s, a);
    case ReadCodes(_) => ReadKeeps(s, a);
  }

  /** `run` is a run from an initial state through the given actions. */
  ghost predicate IsRun(run: seq<State>, actions: seq<Action>) {
    && |run| == |actions| + 1 && Initial(run[0])
    && forall i, j :: 0 <= i < |actions| && j == i + 1 ==> Follows(run[i], actions[i], run[j])
  }

  /** Empty buckets with arrays of their own, and nobody at work. */
  ghost predicate Initial(s: State) {
    Shape(s) && s.writer.Idle? && s.readers == [] && forall b :: 0 <= b < |s.size| ==> s.size[b] == 0
  }

  ghost predicate Follows(s: State, a: Action, n: State) {
    Inv(s) ==> Enabled(s, a) && n == Apply(s, a)
  }

  lemma {:induction false} RunKeeps(run: seq<State>, actions: seq<Action>, i: nat)
    requires IsRun(run, actions) && i < |run|
    ensures Inv(run[i])
  {
    if i > 0 {
      RunKeeps(run, actions, i - 1);
      assert Follows(run[i - 1], actions[i - 1], run[i]);
      StepKeeps(run[i - 1], actions[i - 1]);
    }
  }

  /** Slots keep their ids, and are only given more codes. */
  ghost predicate Extends(was: seq<Past>, now: seq<Past>) {
    && |was| <= |now|
    && forall k :: 0 <= k < |was| ==> now[k].word == was[k].word && was[k].codes <= now[k].codes
  }

  lemma {:induction false} HistoryGrows(run: seq<State>, actions: seq<Action>, i: nat, j: nat, b: nat)
    requires IsRun(run, actions) && i <= j < |run| && b < |run[i].hist|
    ensures b < |run[j].hist| && Extends(run[i].hist[b], run[j].hist[b])
  {
    if i < j {
      HistoryGrows(run, actions, i, j - 1, b);
      RunKeeps(run, actions, j - 1);
      assert Follows(run[j - 1], actions[j - 1], run[j]);
      StepExtends(run[j - 1], actions[j - 1], b);
    }
  }

  lemma StepExtends(s: State, a: Action, b: nat)
    requires Inv(s) && Enabled(s, a) && b < |s.hist|
    ensures b < |Apply(s, a).hist| && Extends(s.hist[b], Apply(s, a).hist[b])
  {
    hide Current, ReaderOk;
    assert BucketShape(s, b);
    match a
    case Commit => assert BucketShape(s, s.writer.b);
    case BeginRecode(c, p, code) => assert BucketShape(s, c);
    case _ => assert Apply(s, a).hist == s.hist;
  }

  /** The memcpy of an update in the slot's own bucket is under way in the array the reader has. */
  ghost predicate Overwriting(s: State, x: Reader, k: nat)
    requires Shape(s) && x.b < |s.size|
  {
    Busy(s.writer, x.b, k) && x.codes == Some(s.codePtr[x.b])
  }

  /** Reader safety: in every run, a reader that has read the size and both pointers finds,
      at any slot `k` below that size and at any later moments `i` and `j`, a committed id,
      up to the mask, and a code that was given to this id; while the slot is being
      overwritten, a mix of its last two codes. */
  lemma ReaderSafe(run: seq<State>, actions: seq<Action>, i: nat, j: nat, r: nat, k: nat)
    requires IsRun(run, actions) && i <= j < |run|
    requires r < |run[i].readers| && r < |run[j].readers|
    requires run[i].readers[r] == run[j].readers[r]
    requires var x := run[i].readers[r]; x.ids.Some? && x.codes.Some? && k < x.size
    ensures var x := run[i].readers[r]; var s := run[j];
            && Inv(run[i]) && Inv(s) && x.b < |run[i].hist| && k < |run[i].hist[x.b]|
            && x.b < |s.hist| && k < |s.hist[x.b]| && run[i].hist[x.b][k].word == s.hist[x.b][k].word
            && Unmasked(run[i].idArrays[x.ids.value][k]) == s.hist[x.b][k].word
            && (!Overwriting(s, x, k) ==> s.codeArrays[x.codes.value][k] in s.hist[x.b][k].codes)
            && (Overwriting(s, x, k) ==> Mix(s.writer.was, s.writer.code, s.codeArrays[x.codes.value][k]))
  {
    RunKeeps(run, actions, i);
    RunKeeps(run, actions, j);
    var x := run[i].readers[r];
    assert ReaderOk(run[i], x) && ReaderOk(run[j], run[j].readers[r]);
    HistoryGrows(run, actions, i, j, x.b);
  }

  /** Two codes that differ in one byte at most have no mix but themselves. */
  ghost predicate OneByte(was: Code, code: Code) {
    |was| == |code| && forall i, j :: 0 <= i < j < |was| ==> was[i] == code[i] || was[j] == code[j]
  }

  lemma MixIsWhole(was: Code, code: Code)
    requires |was| == |code|
    ensures OneByte(was, code) <==> forall torn :: Mix(was, code, torn) ==> torn == was || torn == code
  {
    if OneByte(was, code) {
      forall torn | Mix(was, code, torn) ensures torn == was || torn == code {
        if torn != was {
          var i :| 0 <= i < |was| && torn[i] != was[i];
          assert forall j :: 0 <= j < |was| && j != i ==> was[j] == code[j];
        }
      }
    } else {
      var i, j :| 0 <= i < j < |was| && was[i] != code[i] && was[j] != code[j];
      var torn := was[i := code[i]];
      assert Mix(was, code, torn) && torn[i] != was[i] && torn[j] != code[j];
    }
  }

  /** The reader finds one of the two codes whole, wherever the memcpy has got to. */
  ghost predicate AlwaysWhole(s: State, x: Reader, k: nat)
    requires Inv(s) && s.writer.Recoding? && x.codes.Some? && x.codes.value < |s.codeArrays|
  {
    forall torn :: Enabled(s, TearRecode(torn)) ==>
      var a := Apply(s, TearRecode(torn)).codeArrays[x.codes.value];
      k < |a| && (a[k] == s.writer.was || a[k] == s.writer.code)
  }

  /** The code read is whole if and only if no overwrite of the slot is in progress, or one
      that changes one byte at most. */
  lemma TornIff(s: State, r: nat, k: nat)
    requires Inv(s) && r < |s.readers| && s.readers[r].codes.Some? && k < s.readers[r].size
    requires Overwriting(s, s.readers[r], k)
    ensures ReaderOk(s, s.readers[r])
    ensures AlwaysWhole(s, s.readers[r], k) <==> OneByte(s.writer.was, s.writer.code)
  {
    var x, w := s.readers[r], s.writer;
    assert ReaderOk(s, x) && BucketShape(s, x.b);
    MixIsWhole(w.was, w.code);
    forall torn | Mix(w.was, w.code, torn)
      ensures Enabled(s, TearRecode(torn))
      ensures Apply(s, TearRecode(torn)).codeArrays[x.codes.value] == s.codeArrays[x.codes.value][k := torn]
    {
    }
    if !OneByte(w.was, w.code) {
      var torn :| Mix(w.was, w.code, torn) && torn != w.was && torn != w.code;
      assert Enabled(s, TearRecode(torn));
      assert Apply(s, TearRecode(torn)).codeArrays[x.codes.value][k] == torn;
    }
  }

  /** One bucket with room for one id and one code. */
  function Small(id: nat, code: Code, n: nat, hist: seq<Past>, w: Writer, readers: seq<Reader>): State {
    State([[id]], [0], [[code]], [0], [0], [0], [n], [hist], w, readers)
  }

  const FIRST: Code := [1, 1]
  const SECOND: Code := [2, 2]

  /** An id is added with one code and read; then its code is overwritten. */
  function TornAction(i: nat): Action {
    if i == 0 then Begin(0, [5], [FIRST])
    else if i == 1 then WriteId
    else if i == 2 then WriteCode
    else if i == 3 then Commit
    else if i == 4 then ReadSize(0)
    else if i == 5 then ReadIds(0)
    else if i == 6 then ReadCodes(0)
    else if i == 7 then BeginRecode(0, 0, SECOND)
    else TearRecode([1, 2])
  }

  function TornState(i: nat): State {
    var w := Writing(0, [5], [FIRST], 0, 0);
    var x := Reader(0, 1, None, None);
    var slot := Past(5, [FIRST]);
    var last := Past(5, [FIRST, SECOND]);
    if i == 0 then Small(0, [], 0, [], Idle, [])
    else if i == 1 then Small(0, [], 0, [], w, [])
    else if i == 2 then Small(5, [], 0, [], w.(ids := 1), [])
    else if i == 3 then Small(5, FIRST, 0, [], w.(ids := 1, done := 1), [])
    else if i == 4 then Small(5, FIRST, 1, [slot], Idle, [])
    else if i == 5 then Small(5, FIRST, 1, [slot], Idle, [x])
    else if i == 6 then Small(5, FIRST, 1, [slot], Idle, [x.(ids := Some(0))])
    else if i == 7 then Small(5, FIRST, 1, [slot], Idle, [x.(ids := Some(0), codes := Some(0))])
    else Small(5, if i == 8 then FIRST else [1, 2], 1, [last], Recoding(0, 0, FIRST, SECOND),
               [x.(ids := Some(0), codes := Some(0))])
  }

  /** One element at a time. */
  lemma Single(n: State, t: State)
    requires |n.idArrays| == |t.idArrays| == 1 && |n.codeArrays| == |t.codeArrays| == 1 && |n.hist| == |t.hist| == 1
    requires n.idArrays[0] == t.idArrays[0] && n.codeArrays[0] == t.codeArrays[0] && n.hist[0] == t.hist[0]
    ensures n.idArrays == t.idArrays && n.codeArrays == t.codeArrays && n.hist == t.hist
  {
  }

  lemma TornWrites(i: nat)
    requires i < 4
    ensures Follows(TornState(i), TornAction(i), TornState(i + 1))
  {
    hide Current, ReaderOk, WriterOk, Mix;
    var s, t, a := TornState(i), TornState(i + 1), TornAction(i);
    if Inv(s) {
      assert Ids(s, 0) == s.idArrays[0] && Codes(s, 0) == s.codeArrays[0];
      assert Enabled(s, a);
      var n := Apply(s, a);
      assert [FIRST] + [SECOND] == [FIRST, SECOND];
      Single(n, t);
      assert n.size == t.size && n.readers == t.readers;
    }
  }

  lemma TornReads(i: nat)
    requires 4 <= i < 7
    ensures Follows(TornState(i), TornAction(i), TornState(i + 1))
  {
    hide Current, ReaderOk, WriterOk, Mix;
    var s, t, a := TornState(i), TornState(i + 1), TornAction(i);
    if Inv(s) {
      assert Ids(s, 0) == s.idArrays[0] && Codes(s, 0) == s.codeArrays[0];
      assert Enabled(s, a);
      var n := Apply(s, a);
      assert [FIRST] + [SECOND] == [FIRST, SECOND];
      Single(n, t);
      assert n.size == t.size && n.readers == t.readers;
    }
  }

  lemma TornRecodes(i: nat)
    requires 7 <= i < 9
    ensures Follows(TornState(i), TornAction(i), TornState(i + 1))
  {
    hide Current, ReaderOk;
    var s, t, a := TornState(i), TornState(i + 1), TornAction(i);
    if Inv(s) {
      assert Ids(s, 0) == s.idArrays[0] && Codes(s, 0) == s.codeArrays[0];
      assert Enabled(s, a);
      var n := Apply(s, a);
      assert [FIRST] + [SECOND] == [FIRST, SECOND];
      Single(n, t);
      assert n.size == t.size && n.readers == t.readers;
    }
  }

  /** A run in which a reader finds a code that no one ever gave the id. */
  lemma TornRun() returns (run: seq<State>, actions: seq<Action>)
    ensures IsRun(run, actions)
    ensures var s := run[|run| - 1];
            && |s.readers| == 1 && s.readers[0] == Reader(0, 1, Some(0), Some(0))
            && s.hist == [[Past(5, [FIRST, SECOND])]] && s.codeArrays == [[[1, 2]]]
  {
    run, actions := seq(10, (i: nat) => TornState(i)), seq(9, (i: nat) => TornAction(i));
    assert Initial(run[0]) by {
      assert BucketShape(run[0], 0);
    }
    hide Follows;
    forall i, j | 0 <= i < |actions| && j == i + 1 ensures Follows(run[i], actions[i], run[j]) {
      if i < 4 {
        TornWrites(i);
      } else if i < 7 {
        TornReads(i);
      } else {
        TornRecodes(i);
      }
    }
  }
}
