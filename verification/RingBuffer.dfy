/** The buffer of vectors between the writers and the indexing thread: a ring of
    max_vector_size_ slots in chunks, with ever-growing push and pop counters. */
module RingBuffer {
  import opened Arithmetic
  import opened ByteStrings

  datatype Code = Success | BadArgument | Timeout | NotInBuffer

  // ---- Slots ----

  lemma {:induction false} ModAdd(a: nat, m: nat, k: nat)
    requires m > 0 && a % m + k < m
    ensures (a + k) % m == a % m + k
  {
    DivFloor(a, m);
    DivUnique(a + k, m, a / m, a % m + k);
  }

  lemma ModWraps(a: nat, m: nat, k: nat)
    requires m > 0 && m <= a % m + k < 2 * m
    ensures (a + k) % m == a % m + k - m
  {
    DivFloor(a, m);
    assert (a / m + 1) * m == a / m * m + m;
    DivUnique(a + k, m, a / m + 1, a % m + k - m);
  }

  /** Less than a ring apart, two ids have two slots. */
  lemma SlotsDiffer(a: nat, b: nat, m: nat)
    requires m > 0 && a < b < a + m
    ensures a % m != b % m
  {
    if a % m + (b - a) < m {
      ModAdd(a, m, b - a);
    } else {
      ModWraps(a, m, b - a);
    }
  }

  /** A chunk does not cross the end of the ring, because chunks divide it. */
  lemma ChunkInside(x: nat, chunk: nat, n: nat)
    requires chunk > 0 && n > 0 && chunk * n > 0
    ensures x % (chunk * n) + (chunk - x % chunk) <= chunk * n
  {
    var m := chunk * n;
    var r := x % m;
    DivFloor(x, m);
    DivFloor(r, chunk);
    var k := x / m * n + r / chunk;
    assert k * chunk == x / m * n * chunk + r / chunk * chunk;
    assert x / m * n * chunk == x / m * m;
    DivUnique(x, chunk, k, r % chunk);
    Quotients(r, chunk, n);
  }

  lemma Quotients(r: nat, chunk: nat, n: nat)
    requires chunk > 0 && r < chunk * n
    ensures r / chunk * chunk + chunk <= chunk * n
  {
    DivFloor(r, chunk);
    if n <= r / chunk {
      Scale(n, r / chunk, chunk);
    } else {
      Scale(r / chunk + 1, n, chunk);
    }
  }

  /** The last |buffer| vectors of the log are in their slots. */
  ghost predicate Held(buffer: seq<Bytes>, log: seq<Bytes>) {
    buffer != [] &&
    forall id: nat :: id < |log| && |log| - id <= |buffer| ==> buffer[id % |buffer|] == log[id]
  }

  lemma HeldPush(buffer: seq<Bytes>, log: seq<Bytes>, v: Bytes)
    requires Held(buffer, log)
    ensures Held(buffer[|log| % |buffer| := v], log + [v])
  {
    var m, b, l := |buffer|, buffer[|log| % |buffer| := v], log + [v];
    forall id: nat | id < |l| && |l| - id <= m ensures b[id % m] == l[id] {
      if id < |log| {
        SlotsDiffer(id, |log|, m);
      }
    }
  }

  /** The newest pushed id that has the slot of id. */
  ghost function Newest(id: nat, pushed: nat, m: nat): (r: nat)
    requires m > 0 && id < pushed
    ensures id <= r < pushed && pushed - r <= m && r % m == id % m
    decreases pushed - id
  {
    if pushed - id <= m then id
    else
      ModNext(id, m);
      Newest(id + m, pushed, m)
  }

  lemma ModNext(id: nat, m: nat)
    requires m > 0
    ensures (id + m) % m == id % m
  {
    DivFloor(id, m);
    assert (id / m + 1) * m == id / m * m + m;
    DivUnique(id + m, m, id / m + 1, id % m);
  }

  lemma HeldUpdate(buffer: seq<Bytes>, log: seq<Bytes>, id: nat, v: Bytes)
    requires Held(buffer, log) && id < |log|
    ensures Held(buffer[id % |buffer| := v], log[Newest(id, |log|, |buffer|) := v])
  {
    hide Newest;
    var m := |buffer|;
    var n := Newest(id, |log|, m);
    var b, l := buffer[id % m := v], log[n := v];
    forall x: nat | x < |l| && |l| - x <= m ensures b[x % m] == l[x] {
      if x < n {
        SlotsDiffer(x, n, m);
      } else if n < x {
        SlotsDiffer(n, x, m);
      }
    }
  }

  /** Updating an id replaces that vector exactly when it is still in the buffer; otherwise
      the check id < push lets it replace a newer one. */
  lemma UpdateHits(id: nat, pushed: nat, m: nat)
    requires m > 0 && id < pushed
    ensures Newest(id, pushed, m) == id <==> pushed - id <= m
  {
  }

  /** With one slot and two vectors pushed, an update of the first overwrites the second. */
  lemma UpdateOverwrites(a: Bytes, b: Bytes, v: Bytes)
    requires v != b
    ensures Held([b], [a, b]) && Held([v], [a, b][Newest(0, 2, 1) := v])
    ensures [a, b][Newest(0, 2, 1) := v] == [a, v] && [a, v] != [v, b]
  {
    assert Newest(0, 2, 1) == 1;
    HeldUpdate([b], [a, b], 0, v);
    assert [b][0 % 1 := v] == [v];
  }

  // ---- What the calls mean ----

  /** Each call with the length the caller states and the time it is willing to wait. */
  datatype Op =
    | PushOne(v: Bytes, timeout: int)
    | PushMany(vs: seq<Bytes>, len: nat, timeout: int)
    | PopOne(len: nat, timeout: int)
    | PopMany(len: nat, num: int, timeout: int)
    | Fetch(id: int, len: nat)
    | Replace(id: int, v: Bytes)

  datatype Reply = Reply(code: Code, out: seq<Bytes>)

  /** Every vector pushed, by id, and how many of them were popped. */
  datatype Queue = Queue(log: seq<Bytes>, pop: nat) {
    ghost predicate Ok(size: nat, width: nat) {
      && size > 0 && pop <= |log| <= pop + size
      && forall i :: 0 <= i < |log| ==> |log[i]| == width
    }

    ghost function Pending(): seq<Bytes>
      requires pop <= |log|
    {
      log[pop..]
    }

    ghost function Push(size: nat, vs: seq<Bytes>, timeout: int): (Queue, Reply) {
      if (timeout == -1 || timeout > 0) && |log| + |vs| <= pop + size then (Queue(log + vs, pop), Reply(Success, []))
      else (this, Reply(Timeout, []))
    }

    ghost function Pop(num: nat, timeout: int): (Queue, Reply) {
      if (timeout == -1 || timeout > 0) && pop + num <= |log| then (Queue(log, pop + num), Reply(Success, log[pop..pop + num]))
      else (this, Reply(Timeout, []))
    }

    /** The queue after a call, and its reply: a first in, first out queue of at most `size`
        vectors, whose last `size` vectors can be read by id. */
    ghost function After(size: nat, width: nat, op: Op): (Queue, Reply)
      requires size > 0
    {
      match op
      case PushOne(v, timeout) =>
        if |v| != width then (this, Reply(BadArgument, [])) else Push(size, [v], timeout)
      case PushMany(vs, len, timeout) =>
        if len != width || vs == [] then (this, Reply(BadArgument, [])) else Push(size, vs, timeout)
      case PopOne(len, timeout) =>
        if len != width then (this, Reply(BadArgument, [])) else Pop(1, timeout)
      case PopMany(len, num, timeout) =>
        if len != width || num <= 0 || num > size then (this, Reply(BadArgument, [])) else Pop(num, timeout)
      case Fetch(id, len) =>
        if len != width then (this, Reply(BadArgument, []))
        else if 0 <= id < |log| && |log| - id <= size then (this, Reply(Success, [log[id]]))
        else (this, Reply(NotInBuffer, []))
      case Replace(id, v) =>
        if |v| != width || id < 0 || id >= |log| then (this, Reply(BadArgument, []))
        else (Queue(log[Newest(id, |log|, size) := v], pop), Reply(Success, []))
    }
  }

  /** The call waits as long as it takes. */
  predicate Waits(op: Op) {
    match op
    case PushOne(_, timeout) => timeout == -1
    case PushMany(_, _, timeout) => timeout == -1
    case PopOne(_, timeout) => timeout == -1
    case PopMany(_, _, timeout) => timeout == -1
    case _ => false
  }

  /** A batch consists of vectors of the stated length, and a call that waits as long as it
      takes finds what it waits for, since no other call runs. */
  ghost predicate Legal(q: Queue, size: nat, width: nat, op: Op)
    requires size > 0
  {
    && (op.PushMany? ==> forall i :: 0 <= i < |op.vs| ==> |op.vs[i]| == op.len)
    && (Waits(op) ==> q.After(size, width, op).1.code != Timeout)
  }

  /** The calls one after the other. */
  ghost function Serve(q: Queue, size: nat, width: nat, ops: seq<Op>): (r: (Queue, seq<Reply>))
    requires size > 0
    ensures |r.1| == |ops|
  {
    if ops == [] then (q, [])
    else
      var r := Serve(q, size, width, ops[..|ops| - 1]);
      var x := r.0.After(size, width, ops[|ops| - 1]);
      (x.0, r.1 + [x.1])
  }

  ghost predicate LegalRun(q: Queue, size: nat, width: nat, ops: seq<Op>)
    requires size > 0
  {
    forall i :: 0 <= i < |ops| ==> Legal(Serve(q, size, width, ops[..i]).0, size, width, ops[i])
  }

  lemma ServeNone(q: Queue, size: nat, width: nat, ops: seq<Op>)
    requires size > 0
    ensures Serve(q, size, width, ops[..0]) == (q, [])
  {
  }

  lemma ServeStep(q: Queue, size: nat, width: nat, ops: seq<Op>, i: nat)
    requires size > 0 && i < |ops|
    ensures Serve(q, size, width, ops[..i + 1]) ==
            var r := Serve(q, size, width, ops[..i]);
            var x := r.0.After(size, width, ops[i]);
            (x.0, r.1 + [x.1])
  {
    assert ops[..i + 1][..i] == ops[..i];
  }

  /** What the successful pushes brought, in order. */
  ghost function Brought(ops: seq<Op>, replies: seq<Reply>): seq<Bytes>
    requires |ops| == |replies|
  {
    if ops == [] then []
    else
      var n := |ops| - 1;
      Brought(ops[..n], replies[..n]) +
      if replies[n].code != Success then []
      else match ops[n]
        case PushOne(v, _) => [v]
        case PushMany(vs, _, _) => vs
        case _ => []
  }

  /** What the pops took, in order. */
  ghost function Taken(ops: seq<Op>, replies: seq<Reply>): seq<Bytes>
    requires |ops| == |replies|
  {
    if ops == [] then []
    else
      var n := |ops| - 1;
      Taken(ops[..n], replies[..n]) + if ops[n].PopOne? || ops[n].PopMany? then replies[n].out else []
  }

  lemma AfterOk(q: Queue, size: nat, width: nat, op: Op)
    requires q.Ok(size, width) && Legal(q, size, width, op)
    ensures q.After(size, width, op).0.Ok(size, width)
  {
    hide Newest;
  }

  lemma LegalFront(q: Queue, size: nat, width: nat, ops: seq<Op>)
    requires size > 0 && ops != [] && LegalRun(q, size, width, ops)
    ensures LegalRun(q, size, width, ops[..|ops| - 1])
    ensures Legal(Serve(q, size, width, ops[..|ops| - 1]).0, size, width, ops[|ops| - 1])
  {
    hide Legal;
    var front := ops[..|ops| - 1];
    forall i | 0 <= i < |front| ensures Legal(Serve(q, size, width, front[..i]).0, size, width, front[i]) {
      assert front[..i] == ops[..i];
    }
  }

  /** First in, first out, over every run without replacements: what was pending and what
      was pushed comes out in that order, and the rest is pending. */
  lemma {:induction false} FirstInFirstOut(q: Queue, size: nat, width: nat, ops: seq<Op>)
    requires q.Ok(size, width) && LegalRun(q, size, width, ops) && forall i :: 0 <= i < |ops| ==> !ops[i].Replace?
    ensures var r := Serve(q, size, width, ops);
            && r.0.Ok(size, width)
            && q.Pending() + Brought(ops, r.1) == Taken(ops, r.1) + r.0.Pending()
  {
    if ops == [] {
      assert q.Pending() + [] == [] + q.Pending();
    } else {
      var n := |ops| - 1;
      var op := ops[n];
      LegalFront(q, size, width, ops);
      FirstInFirstOut(q, size, width, ops[..n]);
      var r := Serve(q, size, width, ops[..n]);
      var x := r.0.After(size, width, op);
      var replies := r.1 + [x.1];
      assert replies[..n] == r.1;
      AfterOk(r.0, size, width, op);
      var more := Brought(ops, replies)[|Brought(ops[..n], r.1)|..];
      var vs := Taken(ops, replies)[|Taken(ops[..n], r.1)|..];
      assert Brought(ops, replies) == Brought(ops[..n], r.1) + more;
      assert Taken(ops, replies) == Taken(ops[..n], r.1) + vs;
      OneCall(r.0, size, width, op, more, vs);
      Through(q.Pending(), Brought(ops[..n], r.1), Taken(ops[..n], r.1), r.0.Pending(), more, vs, x.0.Pending());
    }
  }

  lemma OneCall(q: Queue, size: nat, width: nat, op: Op, more: seq<Bytes>, vs: seq<Bytes>)
    requires q.Ok(size, width) && Legal(q, size, width, op) && !op.Replace?
    requires var x := q.After(size, width, op);
             && more == (if x.1.code != Success then []
                         else match op
                           case PushOne(v, _) => [v]
                           case PushMany(xs, _, _) => xs
                           case _ => [])
             && vs == if op.PopOne? || op.PopMany? then x.1.out else []
    ensures var x := q.After(size, width, op);
            x.0.pop <= |x.0.log| && q.Pending() + more == vs + x.0.Pending()
  {
    var x := q.After(size, width, op);
    assert q.Pending() + more == vs + x.0.Pending();
  }

  /** One slot: the first vector is popped, the second waits; an update of the first then changes
      the one that waits. */
  lemma PendingOverwritten(a: Bytes, b: Bytes, v: Bytes, width: nat)
    requires |a| == |b| == |v| == width
    ensures var ops := [PushOne(a, 1), PopOne(width, 1), PushOne(b, 1), Replace(0, v)];
            && Serve(Queue([], 0), 1, width, ops).0 == Queue([a, v], 1)
            && Serve(Queue([], 0), 1, width, ops[..3]).0.Pending() == [b]
            && Serve(Queue([], 0), 1, width, ops).0.Pending() == [v]
  {
    var q := Queue([], 0);
    var ops := [PushOne(a, 1), PopOne(width, 1), PushOne(b, 1), Replace(0, v)];
    assert ops[..4] == ops;
    ServeNone(q, 1, width, ops);
    ServeStep(q, 1, width, ops, 0);
    assert Serve(q, 1, width, ops[..1]).0 == Queue([a], 0) by { assert [] + [a] == [a]; }
    ServeStep(q, 1, width, ops, 1);
    ServeStep(q, 1, width, ops, 2);
    assert Serve(q, 1, width, ops[..3]).0 == Queue([a, b], 1) by { assert [a] + [b] == [a, b]; }
    ServeStep(q, 1, width, ops, 3);
    assert Newest(0, 2, 1) == 1;
  }

  class VectorBufferQueue {
    const vectorSize: nat
    const chunkSize: nat
    const chunkNum: nat
    const buffer: array<Bytes>
    var pushIndex: nat
    var popIndex: nat
    /** Every vector pushed, by id, with the updates it has had in the buffer. */
    ghost var log: seq<Bytes>

    ghost predicate Valid()
      reads this, buffer
    {
      && 0 < chunkSize && 0 < chunkNum && buffer.Length == chunkSize * chunkNum > 0
      && pushIndex == |log| && popIndex <= pushIndex <= popIndex + buffer.Length
      && (forall i :: 0 <= i < |log| ==> |log[i]| == vectorSize)
      && Held(buffer[..], log)
    }

    ghost function Abs(): Queue
      reads this
    {
      Queue(log, popIndex)
    }

    /** Init: refused unless the chunks divide the buffer. */
    static method Init(size: nat, chunks: nat, vectorSize: nat) returns (q: VectorBufferQueue?)
      requires size > 0 && chunks > 0
      ensures q == null <==> size % chunks != 0
      ensures q != null ==> fresh(q) && fresh(q.buffer) && q.Valid() && q.log == []
      ensures q != null ==> q.buffer.Length == size && q.vectorSize == vectorSize
    {
      if size % chunks != 0 {
        return null;
      }
      q := new VectorBufferQueue(size, chunks, vectorSize);
    }

    constructor (size: nat, chunks: nat, vectorSize: nat)
      requires size > 0 && chunks > 0 && size % chunks == 0
      ensures Valid() && log == [] && buffer.Length == size && fresh(buffer) && this.vectorSize == vectorSize
    {
      DivFloor(size, chunks);
      this.vectorSize := vectorSize;
      chunkSize, chunkNum := size / chunks, chunks;
      buffer := new Bytes[size](_ => []);
      pushIndex, popIndex, log := 0, 0, [];
    }

    predicate CanPush(num: nat)
      reads this, buffer
      requires popIndex <= pushIndex <= popIndex + buffer.Length
    {
      buffer.Length - (pushIndex - popIndex) >= num
    }

    predicate CanPop(num: nat)
      reads this
      requires popIndex <= pushIndex
    {
      pushIndex - popIndex >= num
    }

    /** The state is looked at before each pause of 100, while the time is not used up. */
    static ghost predicate Looks(timeout: int, k: nat) {
      timeout == -1 || 100 * k < timeout
    }

    /** Waiting: `seen(k)` is what the k-th look finds, whatever other threads do meanwhile.
        A wait without limit is for something that happens. */
    static method WaitFor(timeout: int, seen: nat -> bool) returns (ok: bool, k: nat)
      requires timeout == -1 ==> exists k :: seen(k)
      ensures ok ==> Looks(timeout, k) && seen(k) && forall j :: 0 <= j < k ==> !seen(j)
      ensures !ok ==> forall j :: Looks(timeout, j) ==> !seen(j)
    {
      k := 0;
      ghost var last: nat := if timeout == -1 then var n: nat :| seen(n); n else if timeout > 0 then timeout else 0;
      while timeout == -1 || 100 * k < timeout
        invariant forall j :: 0 <= j < k ==> !seen(j)
        decreases last - k
      {
        if seen(k) {
          return true, k;
        }
        k := k + 1;
      }
      return false, k;
    }

    /** Waiting while no other thread changes the queue: a timeout of 0 never succeeds. */
    static method Await(timeout: int, ready: bool) returns (ok: bool)
      requires timeout == -1 ==> ready
      ensures ok <==> ready && (timeout == -1 || timeout > 0)
    {
      var seen := (k: nat) => ready;
      assert seen(0) == ready;
      var k;
      ok, k := WaitFor(timeout, seen);
      assert Looks(timeout, 0) <==> timeout == -1 || timeout > 0;
    }

    method Push(v: Bytes, timeout: int) returns (code: Code)
      requires Valid() && (timeout == -1 && |v| == vectorSize ==> CanPush(1))
      modifies `pushIndex, `log, buffer
      ensures Valid() && log == if code == Success then old(log) + [v] else old(log)
      ensures code == if |v| != vectorSize then BadArgument
                      else if old(CanPush(1)) && (timeout == -1 || timeout > 0) then Success else Timeout
    {
      if |v| != vectorSize {
        return BadArgument;
      }
      var ok := Await(timeout, CanPush(1));
      if !ok {
        return Timeout;
      }
      HeldPush(buffer[..], log, v);
      buffer[pushIndex % buffer.Length] := v;
      pushIndex := pushIndex + 1;
      log := log + [v];
      return Success;
    }

    /** memcpy of a batch into one chunk. */
    method CopyChunk(vs: seq<Bytes>)
      requires Valid() && CanPush(|vs|) && pushIndex % buffer.Length + |vs| <= buffer.Length
      requires forall i :: 0 <= i < |vs| ==> |vs[i]| == vectorSize
      modifies `pushIndex, `log, buffer
      ensures Valid() && log == old(log) + vs
    {
      var at := pushIndex % buffer.Length;
      for k := 0 to |vs|
        invariant pushIndex == old(pushIndex) && |log| == pushIndex + k && log == old(log) + vs[..k]
        invariant forall i :: 0 <= i < |log| ==> |log[i]| == vectorSize
        invariant Held(buffer[..], log)
      {
        ModAdd(pushIndex, buffer.Length, k);
        HeldPush(buffer[..], log, vs[k]);
        buffer[at + k] := vs[k];
        log := log + [vs[k]];
        assert vs[..k + 1] == vs[..k] + [vs[k]];
      }
      assert vs[..|vs|] == vs;
      pushIndex := pushIndex + |vs|;
    }

    /** A batch is copied chunk by chunk. */
    method PushBatch(vs: seq<Bytes>, len: nat, timeout: int) returns (code: Code)
      requires Valid() && forall i :: 0 <= i < |vs| ==> |vs[i]| == len
      requires timeout == -1 && len == vectorSize && vs != [] ==> CanPush(|vs|)
      modifies `pushIndex, `log, buffer
      ensures Valid() && log == if code == Success then old(log) + vs else old(log)
      ensures code == if len != vectorSize || vs == [] then BadArgument
                      else if old(CanPush(|vs|)) && (timeout == -1 || timeout > 0) then Success else Timeout
    {
      if len != vectorSize || |vs| == 0 {
        return BadArgument;
      }
      var ok := Await(timeout, CanPush(|vs|));
      if !ok {
        return Timeout;
      }
      hide Held;
      var done: nat := 0;
      while done < |vs|
        invariant done <= |vs| && Valid() && log == old(log) + vs[..done] && popIndex == old(popIndex)
      {
        var num := |vs| - done;
        var offset := pushIndex % chunkSize;
        var batch := if offset + num > chunkSize then chunkSize - offset else num;
        ChunkInside(pushIndex, chunkSize, chunkNum);
        var part := vs[done..done + batch];
        assert vs[..done] + part == vs[..done + batch];
        assert forall i :: 0 <= i < |part| ==> part[i] == vs[done + i];
        CopyChunk(part);
        done := done + batch;
      }
      assert vs[..done] == vs;
      return Success;
    }

    /** The oldest vector. */
    method Pop(len: nat, timeout: int) returns (code: Code, v: Bytes)
      requires Valid() && (timeout == -1 && len == vectorSize ==> CanPop(1))
      modifies `popIndex
      ensures Valid()
      ensures code == if len != vectorSize then BadArgument
                      else if old(CanPop(1)) && (timeout == -1 || timeout > 0) then Success else Timeout
      ensures if code == Success then v == log[old(popIndex)] && popIndex == old(popIndex) + 1
              else popIndex == old(popIndex)
    {
      if len != vectorSize {
        return BadArgument, [];
      }
      var ok := Await(timeout, CanPop(1));
      if !ok {
        return Timeout, [];
      }
      v := buffer[popIndex % buffer.Length];
      popIndex := popIndex + 1;
      code := Success;
    }

    /** The oldest num vectors in push order, in one piece or in two around the end. */
    method PopBatch(len: nat, num: int, timeout: int) returns (code: Code, vs: seq<Bytes>)
      requires Valid() && (timeout == -1 && len == vectorSize && 0 < num <= buffer.Length ==> CanPop(num))
      modifies `popIndex
      ensures Valid()
      ensures code == if len != vectorSize || num <= 0 || num > buffer.Length then BadArgument
                      else if old(CanPop(num)) && (timeout == -1 || timeout > 0) then Success else Timeout
      ensures if code == Success then popIndex == old(popIndex) + num && vs == log[old(popIndex)..popIndex]
              else popIndex == old(popIndex)
    {
      if len != vectorSize || num <= 0 || num > buffer.Length {
        return BadArgument, [];
      }
      var ok := Await(timeout, CanPop(num));
      if !ok {
        return Timeout, [];
      }
      var offset := popIndex % buffer.Length;
      var batch := if buffer.Length - offset > num then num else buffer.Length - offset;
      vs := buffer[offset..offset + batch];
      if num - batch > 0 {
        vs := vs + buffer[..num - batch];
      }
      Unrolled(buffer[..], log, popIndex, num, batch, vs);
      popIndex := popIndex + num;
      code := Success;
    }

    /** Succeeds exactly for the last buffer.Length ids, with the vector of that id. */
    method GetVector(id: int, len: nat) returns (code: Code, v: Bytes)
      requires Valid()
      ensures code == if len != vectorSize then BadArgument
                      else if 0 <= id < |log| && |log| - id <= buffer.Length then Success else NotInBuffer
      ensures code == Success ==> v == log[id]
    {
      if len != vectorSize {
        return BadArgument, [];
      }
      if id < 0 || id >= pushIndex || pushIndex - id > buffer.Length {
        return NotInBuffer, [];
      }
      return Success, buffer[id % buffer.Length];
    }

    /** The vector replaced is the newest one in the slot of id; see UpdateHits. */
    method Update(id: int, v: Bytes) returns (code: Code)
      requires Valid()
      modifies `log, buffer
      ensures Valid() && code == if |v| != vectorSize || id < 0 || id >= |old(log)| then BadArgument else Success
      ensures log == if code == Success then old(log)[Newest(id, |old(log)|, buffer.Length) := v] else old(log)
    {
      if |v| != vectorSize || id < 0 || id >= pushIndex {
        return BadArgument;
      }
      HeldUpdate(buffer[..], log, id, v);
      buffer[id % buffer.Length] := v;
      log := log[Newest(id, |log|, buffer.Length) := v];
      return Success;
    }

    /** One call does to the queue what the call means, and replies so. */
    method Do(op: Op) returns (r: Reply)
      requires Valid() && Legal(Abs(), buffer.Length, vectorSize, op)
      modifies this, buffer
      ensures Valid() && (Abs(), r) == old(Abs()).After(buffer.Length, vectorSize, op)
    {
      hide Held, Newest;
      var code, v, vs := Success, [], [];
      match op {
        case PushOne(x, timeout) => code := Push(x, timeout);
        case PushMany(xs, len, timeout) => code := PushBatch(xs, len, timeout);
        case PopOne(len, timeout) =>
          code, v := Pop(len, timeout);
          assert code == Success ==> [v] == log[old(popIndex)..popIndex];
          vs := if code == Success then [v] else [];
        case PopMany(len, num, timeout) =>
          code, vs := PopBatch(len, num, timeout);
          vs := if code == Success then vs else [];
        case Fetch(id, len) =>
          code, v := GetVector(id, len);
          vs := if code == Success then [v] else [];
        case Replace(id, x) => code := Update(id, x);
      }
      r := Reply(code, vs);
    }

    /** Any mix of calls: the queue ends, and has replied, as the calls mean; see
        FirstInFirstOut. */
    method Run(ops: seq<Op>) returns (replies: seq<Reply>)
      requires Valid() && LegalRun(Abs(), buffer.Length, vectorSize, ops)
      modifies this, buffer
      ensures Valid() && (Abs(), replies) == Serve(old(Abs()), buffer.Length, vectorSize, ops)
    {
      hide Legal, Held, Queue.After;
      replies := [];
      ghost var q := Abs();
      ServeNone(q, buffer.Length, vectorSize, ops);
      for i := 0 to |ops|
        invariant Valid() && (Abs(), replies) == Serve(q, buffer.Length, vectorSize, ops[..i])
      {
        ServeStep(q, buffer.Length, vectorSize, ops, i);
        var r := Do(ops[i]);
        replies := replies + [r];
      }
      assert ops[..|ops|] == ops;
    }
  }

  lemma Unrolled(buffer: seq<Bytes>, log: seq<Bytes>, pop: nat, num: nat, batch: nat, vs: seq<Bytes>)
    requires Held(buffer, log) && pop + num <= |log| && |log| - pop <= |buffer| && num <= |buffer|
    requires var offset := pop % |buffer|;
             batch == if |buffer| - offset > num then num else |buffer| - offset
    requires vs == buffer[pop % |buffer|..pop % |buffer| + batch] + buffer[..num - batch]
    ensures vs == log[pop..pop + num]
  {
    var m := |buffer|;
    forall k | 0 <= k < num ensures vs[k] == log[pop + k] {
      if k < batch {
        ModAdd(pop, m, k);
      } else {
        ModWraps(pop, m, k);
      }
      assert buffer[(pop + k) % m] == log[pop + k];
    }
  }

  lemma Through(before: seq<Bytes>, pushed: seq<Bytes>, out: seq<Bytes>, pending: seq<Bytes>,
                more: seq<Bytes>, vs: seq<Bytes>, rest: seq<Bytes>)
    requires before + pushed == out + pending && pending + more == vs + rest
    ensures before + (pushed + more) == (out + vs) + rest
  {
    assert before + (pushed + more) == (before + pushed) + more;
    assert (out + pending) + more == out + (pending + more);
    assert out + (vs + rest) == (out + vs) + rest;
  }
}
