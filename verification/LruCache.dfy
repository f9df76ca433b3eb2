/** The cache as one thread sees it: blocks of bytes by key, in buffers of the pool. */
module LruCache {
  import opened ByteStrings
  import opened Lists
  import opened LruCore

  class BlockCache {
    var c: Cache
    var memory: map<nat, Bytes>

    ghost predicate Valid()
      reads this
    {
      Inv(c, {}) && c.maxSize > 0 && forall k :: k in c.cells ==> c.cells[k].buf in memory
    }

    /** What the cache holds for each key. */
    ghost function Blocks(): (r: map<nat, Bytes>)
      reads this
      requires Valid()
      ensures r.Keys == c.cells.Keys
    {
      map k | k in c.cells :: memory[c.cells[k].buf]
    }

    constructor (maxSize: nat, maxOverflow: nat)
      requires maxSize > 0
      ensures Valid() && Blocks() == map[] && c.queue == [] && c.free == []
      ensures c.maxSize == maxSize && c.maxOverflow == maxOverflow && c.maxCells == maxSize + maxOverflow + 500
    {
      c := Cache(map[], [], 0, maxSize, maxOverflow, [], 0, maxSize + maxOverflow + 500, {}, 0);
      memory := map[];
      new;
      assert Elements([]) == {} && Buffers(map[]) == {};
    }

    /** Get: the buffer of a cached key. */
    method Get(key: nat) returns (found: bool, block: nat)
      requires Valid()
      modifies `c
      ensures Valid() && Blocks() == old(Blocks())
      ensures found <==> key in Blocks()
      ensures if key in old(c).cells then HitCell(old(c), key, c) else c == old(c)
      ensures found ==> block in memory && memory[block] == Blocks()[key]
    {
      hide Inv;
      if key !in c.cells {
        return false, 0;
      }
      TouchKeeps(c, {}, key);
      TouchLimits(c, key);
      c := Touch(c, key);
      found, block := true, c.cells[key].buf;
      assert Blocks() == old(Blocks());
    }

    /** The eviction loop: at maxSize + maxOverflow cells, the oldest go until maxSize are left. */
    method EvictOverflow()
      requires Inv(c, {})
      modifies `c
      ensures c == LruCore.EvictOverflow(old(c), {})
    {
      hide Inv;
      QueueFront(c, {});
      if c.curSize >= c.maxSize + c.maxOverflow {
        var n := c.curSize - c.maxSize;
        ghost var start := c;
        for i := 0 to n
          invariant Inv(c, {}) && n - i <= |c.queue|
          invariant EvictFront(c, {}, n - i) == EvictFront(start, {}, n)
        {
          QueueFront(c, {});
          EvictKeyKeeps(c, {}, c.queue[0]);
          c := EvictKey(c, c.queue[0]);
        }
      }
    }

    /** Evict: the key is gone. */
    method Evict(key: nat)
      requires Valid()
      modifies `c
      ensures Valid() && Blocks() == old(Blocks()) - {key}
      ensures key !in old(c).cells ==> c == old(c)
      ensures key in old(c).cells ==> EvictedCell(old(c), key, c)
    {
      hide Inv;
      if key in c.cells {
        EvictKeyKeeps(c, {}, key);
        EvictLimits(c, key);
        c := EvictKey(c, key);
      }
      assert Blocks() == old(Blocks()) - {key};
    }

    /** SetOrGet when the key is not cached: a buffer is loaded with `data` and becomes the
        key's cell. Other keys may be evicted; the key itself stays. */
    method Insert(key: nat, data: Bytes) returns (block: nat)
      requires Valid() && key !in c.cells
      modifies this
      ensures Valid() && block in memory && memory[block] == data
      ensures key in Blocks() && Blocks()[key] == data
      ensures Blocks().Keys <= old(Blocks()).Keys + {key}
      ensures forall k :: k in Blocks() && k != key ==> Blocks()[k] == old(Blocks())[k]
      ensures InsertedCell(old(c), key, c)
    {
      hide Inv;
      ghost var was := c;
      NewBuffer(c, key);
      var r := GetBuffer(c);
      block := r.1;
      memory := memory[block := data];
      c := PutIn(r.0, key, block);
      EvictOverflow();
      NewCell(was, key, c);
    }

    /** SetOrGet: a hit counts as one, a miss inserts. */
    method SetOrGet(key: nat, data: Bytes) returns (block: nat)
      requires Valid()
      modifies this
      ensures Valid() && block in memory
      ensures key in Blocks() && Blocks()[key] == memory[block]
      ensures memory[block] == if key in old(Blocks()) then old(Blocks())[key] else data
      ensures Blocks().Keys <= old(Blocks()).Keys + {key}
      ensures forall k :: k in Blocks() && k != key ==> Blocks()[k] == old(Blocks())[k]
      ensures if key in old(c).cells then HitCell(old(c), key, c) else InsertedCell(old(c), key, c)
    {
      hide Inv;
      var found;
      found, block := Get(key);
      if !found {
        block := Insert(key, data);
      }
    }
  }

  /** The cache after a key without a cell got a new buffer. */
  /** A hit counts for the key and may move it to the young end of the queue. */
  ghost predicate HitCell(c: Cache, key: nat, r: Cache) {
    key in c.cells && r == Touch(c, key)
  }

  /** The cell went and its buffer is back in the pool. */
  ghost predicate EvictedCell(c: Cache, key: nat, r: Cache) {
    key in c.cells && c.curSize > 0 && c.used > 0 && r == EvictKey(c, key)
  }

  /** A buffer of the pool became the key's cell at the young end of the queue, and the oldest cells
      went if there were too many. */
  ghost predicate InsertedCell(c: Cache, key: nat, r: Cache) {
    var g := GetBuffer(c);
    && Inv(g.0, {g.1}) && key !in g.0.cells && r == SetImpl(g.0, {g.1}, key, g.1)
  }

  lemma NewCell(c: Cache, key: nat, r: Cache)
    requires Inv(c, {}) && key !in c.cells && c.maxSize > 0
    requires Inv(PutIn(GetBuffer(c).0, key, GetBuffer(c).1), {})
    requires r == LruCore.EvictOverflow(PutIn(GetBuffer(c).0, key, GetBuffer(c).1), {})
    ensures Inv(r, {}) && r.maxSize == c.maxSize
    ensures key in r.cells && r.cells[key].buf == GetBuffer(c).1
    ensures r.cells.Keys <= c.cells.Keys + {key}
    ensures forall k :: k in r.cells && k != key ==> r.cells[k] == c.cells[k]
    ensures InsertedCell(c, key, r)
  {
    hide Inv, LruCore.EvictOverflow;
    var g := GetBuffer(c);
    GetBufferKeeps(c, {});
    assert {} + {g.1} == {g.1} && {g.1} - {g.1} == {};
  }

  lemma NewBuffer(c: Cache, key: nat)
    requires Inv(c, {}) && key !in c.cells
    ensures var r := GetBuffer(c);
            && r.0.cells == c.cells && r.0.maxSize == c.maxSize
            && Inv(PutIn(r.0, key, r.1), {})
            && forall k :: k in c.cells ==> c.cells[k].buf != r.1
  {
    hide Inv;
    var r := GetBuffer(c);
    GetBufferKeeps(c, {});
    assert {} + {r.1} == {r.1} && {r.1} - {r.1} == {};
    NotInCells(r.0, {r.1}, r.1);
    PutInKeeps(r.0, {r.1}, key, r.1);
  }

  lemma TouchLimits(c: Cache, key: nat)
    requires key in c.cells
    ensures Touch(c, key).maxSize == c.maxSize
  {
  }

  lemma EvictLimits(c: Cache, key: nat)
    requires key in c.cells && c.curSize > 0 && c.used > 0
    ensures EvictKey(c, key).maxSize == c.maxSize
  {
  }

  /** A buffer that is out is in no cell. */
  lemma NotInCells(c: Cache, held: set<nat>, buf: nat)
    requires Inv(c, held) && buf in held
    ensures forall k :: k in c.cells ==> c.cells[k].buf != buf
  {
    forall k | k in c.cells ensures c.cells[k].buf != buf {
      assert c.cells[k].buf in Buffers(c.cells);
    }
  }
}
