/** The LRU cache and its memory pool: what each critical section does to the cells, the
    eviction queue and the buffers. Buffers are numbered in the order of allocation. */
module LruCore {
  import opened Lists

  const SWAP_THRESHOLD: nat := 250

  datatype Cell = Cell(buf: nat, hits: nat)

  datatype Cache = Cache(
    cells: map<nat, Cell>, queue: seq<nat>, curSize: nat, maxSize: nat, maxOverflow: nat,
    free: seq<nat>, used: nat, maxCells: nat, live: set<nat>, next: nat)

  function Buffers(cells: map<nat, Cell>): set<nat> {
    set k | k in cells :: cells[k].buf
  }

  ghost predicate OwnBuffers(cells: map<nat, Cell>) {
    forall j, k :: j in cells && k in cells && cells[j].buf == cells[k].buf ==> j == k
  }

  /** queue_ lists the keys of cells_, each once, and cur_size_ counts them. */
  ghost predicate QueueOk(c: Cache) {
    NoDup(c.queue) && Elements(c.queue) == c.cells.Keys && c.curSize == |c.cells.Keys|
  }

  /** Every live buffer is free, in one cell, or out in `held`, and in only one of these. */
  ghost predicate BuffersOk(c: Cache, held: set<nat>) {
    && NoDup(c.free) && OwnBuffers(c.cells)
    && Partition(c.live, Elements(c.free), Buffers(c.cells), held)
    && Below(c.live, c.next)
  }

  ghost predicate Partition(live: set<nat>, free: set<nat>, celled: set<nat>, held: set<nat>) {
    && free !! celled && free !! held && celled !! held
    && live == free + celled + held
  }

  ghost predicate Below(s: set<nat>, n: nat) {
    forall x :: x in s ==> x < n
  }

  /** The pool counts the buffers in use, and keeps free ones only within its limit. */
  ghost predicate PoolOk(c: Cache, held: set<nat>) {
    && c.used == |c.cells.Keys| + |held|
    && (c.free != [] ==> c.used + |c.free| <= c.maxCells)
  }

  ghost predicate Inv(c: Cache, held: set<nat>) {
    QueueOk(c) && BuffersOk(c, held) && PoolOk(c, held)
  }

  // ---- the pool ----

  function GetBuffer(c: Cache): (r: (Cache, nat)) {
    if |c.free| > 0 then
      (c.(free := c.free[1..], used := c.used + 1), c.free[0])
    else
      (c.(live := c.live + {c.next}, next := c.next + 1, used := c.used + 1), c.next)
  }

  function ReclaimBuffer(c: Cache, buf: nat): Cache
    requires c.used > 0
  {
    var pushed := c.(free := c.free + [buf], used := c.used - 1);
    if pushed.used + |pushed.free| > c.maxCells then
      pushed.(free := pushed.free[1..], live := pushed.live - {pushed.free[0]})
    else
      pushed
  }

  lemma ElementsTail(s: seq<nat>)
    requires NoDup(s) && s != []
    ensures NoDup(s[1..]) && Elements(s[1..]) == Elements(s) - {s[0]}
  {
    assert s == [s[0]] + s[1..];
  }

  lemma BelowNext(s: set<nat>, n: nat)
    requires Below(s, n)
    ensures n !in s && Below(s + {n}, n + 1)
  {
  }

  lemma BelowLess(s: set<nat>, n: nat, x: nat)
    requires Below(s, n)
    ensures Below(s - {x}, n)
  {
  }

  // Moving one buffer between the three places.

  lemma FreeToHeld(live: set<nat>, free: set<nat>, celled: set<nat>, held: set<nat>, x: nat)
    requires Partition(live, free, celled, held) && x in free
    ensures x !in held && x in live && Partition(live, free - {x}, celled, held + {x})
  {
  }

  lemma NewToHeld(live: set<nat>, free: set<nat>, celled: set<nat>, held: set<nat>, x: nat)
    requires Partition(live, free, celled, held) && x !in live
    ensures x !in held && Partition(live + {x}, free, celled, held + {x})
  {
  }

  lemma HeldToFree(live: set<nat>, free: set<nat>, celled: set<nat>, held: set<nat>, x: nat)
    requires Partition(live, free, celled, held) && x in held
    ensures x !in free && Partition(live, free + {x}, celled, held - {x})
  {
  }

  lemma FreeToNone(live: set<nat>, free: set<nat>, celled: set<nat>, held: set<nat>, x: nat)
    requires Partition(live, free, celled, held) && x in free
    ensures Partition(live - {x}, free - {x}, celled, held)
  {
  }

  lemma HeldToCell(live: set<nat>, free: set<nat>, celled: set<nat>, held: set<nat>, x: nat)
    requires Partition(live, free, celled, held) && x in held
    ensures x !in celled && Partition(live, free, celled + {x}, held - {x})
  {
  }

  lemma CellToHeld(live: set<nat>, free: set<nat>, celled: set<nat>, held: set<nat>, x: nat)
    requires Partition(live, free, celled, held) && x in celled
    ensures x !in held && Partition(live, free, celled - {x}, held + {x})
  {
  }

  /** A buffer obtained was free or new, and is now out. */
  lemma GetBufferKeeps(c: Cache, held: set<nat>)
    requires Inv(c, held)
    ensures var r := GetBuffer(c); r.1 !in held && Inv(r.0, held + {r.1})
  {
    if |c.free| > 0 {
      GetFreeKeeps(c, held);
    } else {
      GetNewKeeps(c, held);
    }
  }

  lemma GetFreeKeeps(c: Cache, held: set<nat>)
    requires Inv(c, held) && |c.free| > 0
    ensures c.free[0] !in held
    ensures Inv(c.(free := c.free[1..], used := c.used + 1), held + {c.free[0]})
  {
    hide NoDup, Elements, Buffers, OwnBuffers, Partition;
    ElementsTail(c.free);
    FrontIn(c.free);
    FreeToHeld(c.live, Elements(c.free), Buffers(c.cells), held, c.free[0]);
    OneMore(held, c.free[0]);
  }

  lemma GetNewKeeps(c: Cache, held: set<nat>)
    requires Inv(c, held) && |c.free| == 0
    ensures c.next !in held
    ensures Inv(c.(live := c.live + {c.next}, next := c.next + 1, used := c.used + 1), held + {c.next})
  {
    hide NoDup, Elements, Buffers, OwnBuffers, Partition;
    BelowNext(c.live, c.next);
    NewToHeld(c.live, Elements(c.free), Buffers(c.cells), held, c.next);
    OneMore(held, c.next);
    assert Below(c.live + {c.next}, c.next + 1);
  }

  lemma FrontIn(s: seq<nat>)
    requires s != []
    ensures s[0] in Elements(s)
  {
  }

  /** A buffer given back goes to the free queue; one buffer is released over the limit. */
  lemma ReclaimKeeps(c: Cache, held: set<nat>, buf: nat)
    requires Inv(c, held) && buf in held
    ensures c.used > 0 && Inv(ReclaimBuffer(c, buf), held - {buf})
  {
    hide NoDup, Elements, Buffers, OwnBuffers, Partition;
    OneLess(held, buf);
    HeldToFree(c.live, Elements(c.free), Buffers(c.cells), held, buf);
    NotIn(c.free, buf);
    Appended(c.free, buf);
    var all := c.free + [buf];
    ElementsTail(all);
    FrontIn(all);
    FreeToNone(c.live, Elements(all), Buffers(c.cells), held - {buf}, all[0]);
    BelowLess(c.live, c.next, all[0]);
  }

  lemma NotIn(s: seq<nat>, x: nat)
    ensures x !in Elements(s) ==> x !in s
  {
  }

  // ---- cells and the eviction queue ----

  function Remove(s: seq<nat>, x: nat): (r: seq<nat>) {
    if s == [] then [] else if s[0] == x then s[1..] else [s[0]] + Remove(s[1..], x)
  }

  lemma {:induction false} Removed(s: seq<nat>, x: nat)
    requires NoDup(s)
    ensures NoDup(Remove(s, x)) && Elements(Remove(s, x)) == Elements(s) - {x}
  {
    if s != [] {
      assert s == [s[0]] + s[1..];
      if s[0] != x {
        Removed(s[1..], x);
        var r := Remove(s[1..], x);
        assert s[0] !in s[1..];
        assert s[0] !in Elements(r);
        assert Elements([s[0]] + r) == {s[0]} + Elements(r);
      }
    }
  }

  /** The cell of a key leaves cells_ and queue_; its buffer is out. */
  function TakeOut(c: Cache, key: nat): Cache
    requires key in c.cells && c.curSize > 0
  {
    c.(cells := c.cells - {key}, queue := Remove(c.queue, key), curSize := c.curSize - 1)
  }

  function PutIn(c: Cache, key: nat, buf: nat): Cache {
    c.(cells := c.cells[key := Cell(buf, 0)], queue := c.queue + [key], curSize := c.curSize + 1)
  }

  lemma BuffersWithout(cells: map<nat, Cell>, key: nat)
    requires OwnBuffers(cells) && key in cells
    ensures OwnBuffers(cells - {key}) && cells[key].buf in Buffers(cells)
    ensures Buffers(cells - {key}) == Buffers(cells) - {cells[key].buf}
    ensures (cells - {key}).Keys == cells.Keys - {key}
  {
    var less := cells - {key};
    forall x | x in Buffers(less) ensures x in Buffers(cells) && x != cells[key].buf {
      var k :| k in less && less[k].buf == x;
      assert k in cells && cells[k].buf == x;
    }
    forall x | x in Buffers(cells) && x != cells[key].buf ensures x in Buffers(less) {
      var k :| k in cells && cells[k].buf == x;
      assert k in less && less[k].buf == x;
    }
  }

  lemma BuffersWith(cells: map<nat, Cell>, key: nat, buf: nat)
    requires OwnBuffers(cells) && key !in cells && buf !in Buffers(cells)
    ensures OwnBuffers(cells[key := Cell(buf, 0)])
    ensures Buffers(cells[key := Cell(buf, 0)]) == Buffers(cells) + {buf}
  {
    var more := cells[key := Cell(buf, 0)];
    forall k | k in cells ensures more[k] == cells[k] && cells[k].buf in Buffers(cells) {
    }
    forall x | x in Buffers(cells) ensures x in Buffers(more) {
      var k :| k in cells && cells[k].buf == x;
      assert k in more && more[k].buf == x;
    }
    assert more[key].buf == buf;
  }

  lemma TakeOutKeeps(c: Cache, held: set<nat>, key: nat)
    requires Inv(c, held) && key in c.cells
    ensures c.curSize > 0 && c.cells[key].buf !in held
    ensures Inv(TakeOut(c, key), held + {c.cells[key].buf})
  {
    hide NoDup, Elements, Buffers, OwnBuffers, Partition;
    OneLess(c.cells.Keys, key);
    Removed(c.queue, key);
    BuffersWithout(c.cells, key);
    CellToHeld(c.live, Elements(c.free), Buffers(c.cells), held, c.cells[key].buf);
    OneMore(held, c.cells[key].buf);
  }

  lemma PutInKeeps(c: Cache, held: set<nat>, key: nat, buf: nat)
    requires Inv(c, held) && key !in c.cells && buf in held
    ensures Inv(PutIn(c, key, buf), held - {buf})
  {
    hide NoDup, Elements, Buffers, OwnBuffers, Partition, Below;
    HeldToCell(c.live, Elements(c.free), Buffers(c.cells), held, buf);
    BuffersWith(c.cells, key, buf);
    NotIn(c.queue, key);
    Appended(c.queue, key);
    OneMore(c.cells.Keys, key);
    OneLess(held, buf);
    assert c.cells[key := Cell(buf, 0)].Keys == c.cells.Keys + {key};
  }

  /** A hit: the key moves to the young end after SWAP_THRESHOLD hits, and the count starts over. */
  function Touch(c: Cache, key: nat): Cache
    requires key in c.cells
  {
    var cell := c.cells[key];
    if cell.hits >= SWAP_THRESHOLD then
      c.(cells := c.cells[key := cell.(hits := 0)], queue := Remove(c.queue, key) + [key])
    else
      c.(cells := c.cells[key := cell.(hits := cell.hits + 1)])
  }

  lemma TouchKeeps(c: Cache, held: set<nat>, key: nat)
    requires Inv(c, held) && key in c.cells
    ensures Inv(Touch(c, key), held)
    ensures Touch(c, key).cells.Keys == c.cells.Keys
    ensures forall k :: k in c.cells ==> Touch(c, key).cells[k].buf == c.cells[k].buf
  {
    hide NoDup, Elements, Partition;
    var n := Touch(c, key);
    assert n.cells.Keys == c.cells.Keys;
    assert forall k :: k in c.cells ==> n.cells[k].buf == c.cells[k].buf;
    assert Buffers(n.cells) == Buffers(c.cells);
    Removed(c.queue, key);
    NotIn(Remove(c.queue, key), key);
    Appended(Remove(c.queue, key), key);
    assert Elements(Remove(c.queue, key)) + {key} == c.cells.Keys;
  }

  /** A hit changes the place of no other key, and its own only after SWAP_THRESHOLD hits. */
  lemma TouchOrder(c: Cache, held: set<nat>, key: nat)
    requires Inv(c, held) && key in c.cells
    ensures Remove(Touch(c, key).queue, key) == Remove(c.queue, key)
    ensures var q := Touch(c, key).queue;
            if c.cells[key].hits >= SWAP_THRESHOLD then q != [] && q[|q| - 1] == key else q == c.queue
  {
    hide NoDup, Elements, BuffersOk, PoolOk;
    Removed(c.queue, key);
    NotIn(Remove(c.queue, key), key);
    RemoveLast(Remove(c.queue, key), key);
  }

  /** The key was hit n times in a row. */
  ghost function Touched(c: Cache, key: nat, n: nat): (r: Cache)
    requires key in c.cells
    ensures key in r.cells
  {
    if n == 0 then c else Touch(Touched(c, key, n - 1), key)
  }

  /** Each hit counts; a new cell keeps its place for 250 hits and goes to the young end at the next,
      when the count begins anew. */
  lemma {:induction false} MovesAtLast(c: Cache, held: set<nat>, key: nat, n: nat)
    requires Inv(c, held) && key in c.cells && c.cells[key].hits == 0 && n <= 251
    ensures Inv(Touched(c, key, n), held)
    ensures n <= 250 ==> Touched(c, key, n).queue == c.queue && Touched(c, key, n).cells[key].hits == n
    ensures n == 251 ==> var q := Touched(c, key, n).queue;
              q != [] && q[|q| - 1] == key && Touched(c, key, n).cells[key].hits == 0
  {
    if n > 0 {
      hide Inv, Touch;
      MovesAtLast(c, held, key, n - 1);
      OneHit(Touched(c, key, n - 1), held, key);
    }
  }

  lemma OneHit(c: Cache, held: set<nat>, key: nat)
    requires Inv(c, held) && key in c.cells
    ensures var r := Touch(c, key);
            && Inv(r, held) && key in r.cells
            && if c.cells[key].hits >= SWAP_THRESHOLD then
                 r.queue != [] && r.queue[|r.queue| - 1] == key && r.cells[key].hits == 0
               else r.queue == c.queue && r.cells[key].hits == c.cells[key].hits + 1
  {
    hide Inv;
    TouchKeeps(c, held, key);
    TouchOrder(c, held, key);
  }

  lemma {:induction false} RemoveLast(s: seq<nat>, x: nat)
    requires x !in s
    ensures Remove(s + [x], x) == s
  {
    if s != [] {
      RemoveLast(s[1..], x);
      assert (s + [x])[1..] == s[1..] + [x];
    }
  }

  /** A key's cell goes and its buffer returns to the pool. */
  function EvictKey(c: Cache, key: nat): Cache
    requires key in c.cells && c.curSize > 0 && c.used > 0
  {
    ReclaimBuffer(TakeOut(c, key), c.cells[key].buf)
  }

  lemma EvictKeyKeeps(c: Cache, held: set<nat>, key: nat)
    requires Inv(c, held) && key in c.cells
    ensures c.curSize > 0 && c.used > 0
    ensures Inv(EvictKey(c, key), held)
    ensures EvictKey(c, key).cells == c.cells - {key}
    ensures EvictKey(c, key).queue == Remove(c.queue, key)
  {
    hide Inv, ReclaimBuffer;
    var buf := c.cells[key].buf;
    TakeOutKeeps(c, held, key);
    ReclaimKeeps(TakeOut(c, key), held + {buf}, buf);
    assert held + {buf} - {buf} == held;
    QueueNonEmpty(c, held, key);
    ReclaimCells(TakeOut(c, key), buf);
  }

  lemma ReclaimCells(c: Cache, buf: nat)
    requires c.used > 0
    ensures ReclaimBuffer(c, buf).cells == c.cells && ReclaimBuffer(c, buf).queue == c.queue
  {
  }

  lemma QueueNonEmpty(c: Cache, held: set<nat>, key: nat)
    requires Inv(c, held) && key in c.cells
    ensures c.used > 0
  {
    OneLess(c.cells.Keys, key);
  }

  lemma QueueFront(c: Cache, held: set<nat>)
    requires Inv(c, held)
    ensures |c.queue| == |c.cells.Keys| == c.curSize
    ensures c.queue != [] ==> c.queue[0] in c.cells && Remove(c.queue, c.queue[0]) == c.queue[1..]
  {
    NoDupSize(c.queue);
    if c.queue != [] {
      FrontIn(c.queue);
    }
  }

  /** The pool keeps a returned buffer, at the end, if and only if it is within its limit. */
  lemma Returned(c: Cache, held: set<nat>, key: nat)
    requires Inv(c, held) && key in c.cells
    ensures c.curSize > 0 && c.used > 0
    ensures var r := EvictKey(c, key);
            && r.free == (if c.used <= c.maxCells then c.free + [c.cells[key].buf] else [])
            && (c.cells[key].buf in r.live <==> c.used <= c.maxCells)
            && r.used == c.used - 1 && r.maxCells == c.maxCells
  {
    EvictKeyKeeps(c, held, key);
    assert c.cells[key].buf in Buffers(c.cells);
  }

  lemma Within(c: Cache, held: set<nat>)
    requires Inv(c, held) && c.free != []
    ensures c.used < c.maxCells
  {
  }

  /** The `n` oldest keys go, one after the other. */
  ghost function EvictFront(c: Cache, held: set<nat>, n: nat): (r: Cache)
    requires Inv(c, held) && n <= |c.queue|
    ensures Inv(r, held) && r.queue == c.queue[n..] && r.cells == c.cells - Elements(c.queue[..n])
    ensures r.maxSize == c.maxSize && r.maxOverflow == c.maxOverflow
    ensures c.free != [] ==> c.free <= r.free
    decreases n
  {
    if n == 0 then
      assert c.queue[..0] == [];
      c
    else
      FrontEvicted(c, held, n);
      EvictFront(EvictKey(c, c.queue[0]), held, n - 1)
  }

  lemma FrontEvicted(c: Cache, held: set<nat>, n: nat)
    requires Inv(c, held) && 0 < n <= |c.queue|
    ensures c.queue[0] in c.cells && c.curSize > 0 && c.used > 0
    ensures var e := EvictKey(c, c.queue[0]);
            && Inv(e, held) && n - 1 <= |e.queue| && e.queue[n - 1..] == c.queue[n..]
            && e.cells - Elements(e.queue[..n - 1]) == c.cells - Elements(c.queue[..n])
            && e.maxSize == c.maxSize && e.maxOverflow == c.maxOverflow
            && (c.free != [] ==> e.free != [] && c.free <= e.free)
  {
    hide Inv;
    QueueFront(c, held);
    if c.free != [] {
      Within(c, held);
      Returned(c, held, c.queue[0]);
    }
    EvictKeyKeeps(c, held, c.queue[0]);
    FrontGone(c, n);
  }

  lemma FrontGone(c: Cache, n: nat)
    requires 0 < n <= |c.queue|
    ensures c.queue[1..][n - 1..] == c.queue[n..]
    ensures c.cells - {c.queue[0]} - Elements(c.queue[1..][..n - 1]) == c.cells - Elements(c.queue[..n])
  {
    assert c.queue[..n] == [c.queue[0]] + c.queue[1..][..n - 1];
    assert Elements(c.queue[..n]) == {c.queue[0]} + Elements(c.queue[1..][..n - 1]);
  }

  /** EvictOverflow: at maxSize + maxOverflow cells, back to maxSize. */
  ghost function EvictOverflow(c: Cache, held: set<nat>): (r: Cache)
    requires Inv(c, held)
    ensures Inv(r, held) && r.curSize <= c.maxSize + c.maxOverflow
    ensures r.curSize < c.maxSize + c.maxOverflow || r.curSize == c.maxSize
    ensures r.maxSize == c.maxSize && r.maxOverflow == c.maxOverflow
    ensures r.cells.Keys <= c.cells.Keys && forall k :: k in r.cells ==> r.cells[k] == c.cells[k]
    ensures c.queue != [] && c.maxSize > 0 ==> c.queue[|c.queue| - 1] in r.cells
    ensures c.free != [] ==> c.free <= r.free
  {
    QueueFront(c, held);
    if c.curSize >= c.maxSize + c.maxOverflow then
      var n := c.curSize - c.maxSize;
      var r := EvictFront(c, held, n);
      QueueFront(r, held);
      LastStays(c, held, r, n);
      r
    else
      LastIn(c, held);
      c
  }

  /** What goes is at the old end of the queue: a key that stays has no older one evicted after it. */
  lemma EvictsOldest(c: Cache, held: set<nat>)
    requires Inv(c, held)
    ensures var r := EvictOverflow(c, held);
            |r.queue| <= |c.queue| && r.queue == c.queue[|c.queue| - |r.queue|..]
    ensures c.curSize < c.maxSize + c.maxOverflow ==> EvictOverflow(c, held) == c
  {
    hide Inv, EvictKey;
    QueueFront(c, held);
  }

  lemma LastIn(c: Cache, held: set<nat>)
    requires Inv(c, held)
    ensures c.queue != [] ==> c.queue[|c.queue| - 1] in c.cells
  {
    assert c.queue != [] ==> c.queue[|c.queue| - 1] in Elements(c.queue);
  }

  lemma LastStays(c: Cache, held: set<nat>, r: Cache, n: nat)
    requires Inv(c, held) && Inv(r, held) && n <= |c.queue| && r.queue == c.queue[n..]
    ensures c.queue != [] && n < |c.queue| ==> c.queue[|c.queue| - 1] in r.cells
  {
    LastIn(r, held);
  }

  /** SetImpl for a key without a cell: a new cell at the young end, then eviction. */
  ghost function SetImpl(c: Cache, held: set<nat>, key: nat, buf: nat): (r: Cache)
    requires Inv(c, held) && key !in c.cells && buf in held
  {
    PutInKeeps(c, held, key, buf);
    EvictOverflow(PutIn(c, key, buf), held - {buf})
  }

  /** The cache stays within its bounds, the other cells stay or go whole, and with room for
      one cell at all the new one stays. */
  lemma SetImplKeeps(c: Cache, held: set<nat>, key: nat, buf: nat)
    requires Inv(c, held) && key !in c.cells && buf in held
    ensures var r := SetImpl(c, held, key, buf);
            && Inv(r, held - {buf})
            && (r.curSize < c.maxSize + c.maxOverflow || r.curSize == c.maxSize)
            && r.maxSize == c.maxSize && r.maxOverflow == c.maxOverflow
            && r.cells.Keys <= c.cells.Keys + {key}
            && (forall k :: k in r.cells && k != key ==> r.cells[k] == c.cells[k])
            && (key in r.cells ==> r.cells[key].buf == buf)
            && (c.maxSize > 0 ==> key in r.cells)
  {
    hide Inv, EvictOverflow;
    PutInKeeps(c, held, key, buf);
    var p := PutIn(c, key, buf);
    assert p.queue[|p.queue| - 1] == key;
  }

  /** SetMaxBufferNum: releases free buffers, oldest first, to meet a lower limit. */
  function SetMaxBufferNum(c: Cache, limit: nat): Cache {
    if |c.free| + c.used <= limit then
      c.(maxCells := limit)
    else
      var n := if c.used > limit then |c.free| else |c.free| + c.used - limit;
      c.(free := c.free[n..], live := c.live - Elements(c.free[..n]),
         maxCells := if n <= c.maxCells then c.maxCells - n else 0)
  }

  lemma {:induction false} ReleaseKeeps(c: Cache, held: set<nat>, n: nat, limit: nat)
    requires BuffersOk(c, held) && n <= |c.free|
    ensures BuffersOk(c.(free := c.free[n..], live := c.live - Elements(c.free[..n]), maxCells := limit), held)
  {
    if n == 0 {
      assert c.free[0..] == c.free && Elements(c.free[..0]) == {};
    } else {
      ReleaseKeeps(c, held, n - 1, limit);
      var m := c.(free := c.free[n - 1..], live := c.live - Elements(c.free[..n - 1]), maxCells := limit);
      ReleaseOne(m, held);
      assert m.free[1..] == c.free[n..] && m.free[0] == c.free[n - 1];
      assert c.free[..n] == c.free[..n - 1] + [c.free[n - 1]];
      assert m.live - {m.free[0]} == c.live - Elements(c.free[..n]);
    }
  }

  lemma ReleaseOne(c: Cache, held: set<nat>)
    requires BuffersOk(c, held) && c.free != []
    ensures BuffersOk(c.(free := c.free[1..], live := c.live - {c.free[0]}), held)
  {
    hide Buffers, OwnBuffers, Partition;
    ElementsTail(c.free);
    FrontIn(c.free);
    FreeToNone(c.live, Elements(c.free), Buffers(c.cells), held, c.free[0]);
    BelowLess(c.live, c.next, c.free[0]);
  }

  /** The limit never falls below what is in the pool, and does not underflow; the pool ends within
      the new limit, or keeps only the buffers in use. */
  lemma SetMaxBufferNumKeeps(c: Cache, held: set<nat>, limit: nat)
    requires Inv(c, held)
    ensures Inv(SetMaxBufferNum(c, limit), held)
    ensures |c.free| + c.used > limit ==>
              (if c.used > limit then |c.free| else |c.free| + c.used - limit) <= c.maxCells
    ensures var r := SetMaxBufferNum(c, limit);
            r.used == c.used && (|r.free| + r.used <= limit || (r.free == [] && r.used > limit))
  {
    hide QueueOk, BuffersOk;
    if |c.free| + c.used > limit {
      var n := if c.used > limit then |c.free| else |c.free| + c.used - limit;
      ReleaseKeeps(c, held, n, if n <= c.maxCells then c.maxCells - n else 0);
      QueueSame(c, SetMaxBufferNum(c, limit));
    } else {
      LimitSame(c, held, limit);
    }
  }

  /** The limit that holds then: the one asked for if nothing had to go, otherwise the old one
      less what was released. */
  lemma LimitAfter(c: Cache, held: set<nat>, limit: nat)
    requires Inv(c, held)
    ensures var r := SetMaxBufferNum(c, limit);
            && |r.free| <= |c.free| && |c.free| - |r.free| <= c.maxCells
            && r.maxCells == (if |c.free| + c.used <= limit then limit else c.maxCells - (|c.free| - |r.free|))
            && (r.maxCells == limit <==>
                  |c.free| + c.used <= limit || c.maxCells == limit + (if c.used > limit then |c.free| else |c.free| + c.used - limit))
  {
    hide Inv, Elements;
    SetMaxBufferNumKeeps(c, held, limit);
  }

  function OneCell(): Cache {
    Cache(map[5 := Cell(0, 0)], [5], 1, 1, 0, [], 1, 10, {0}, 1)
  }

  lemma OneCellOk()
    ensures Inv(OneCell(), {})
  {
    var c := OneCell();
    assert c.cells.Keys == {5} && Buffers(c.cells) == {0} by {
      assert c.cells[5].buf in Buffers(c.cells);
    }
    assert Elements(c.queue) == {5} && Elements(c.free) == {};
  }

  /** One buffer in use of ten allowed: asking for 0 leaves the limit at ten. */
  lemma LimitStays()
    ensures Inv(OneCell(), {}) && SetMaxBufferNum(OneCell(), 0).maxCells == 10
  {
    hide Inv;
    OneCellOk();
    LimitAfter(OneCell(), {}, 0);
  }

  /** Free buffers stay in line through an insert. */
  lemma SetReturned(c: Cache, held: set<nat>, key: nat, buf: nat)
    requires Inv(c, held) && key !in c.cells && buf in held && c.free != []
    ensures c.free <= SetImpl(c, held, key, buf).free
  {
    hide Inv, EvictOverflow;
    PutInKeeps(c, held, key, buf);
  }

  lemma QueueSame(c: Cache, n: Cache)
    requires QueueOk(c) && n.cells == c.cells && n.queue == c.queue && n.curSize == c.curSize
    ensures QueueOk(n)
  {
  }

  lemma LimitSame(c: Cache, held: set<nat>, limit: nat)
    requires QueueOk(c) && BuffersOk(c, held)
    ensures QueueOk(c.(maxCells := limit)) && BuffersOk(c.(maxCells := limit), held)
  {
  }
}
