/** The single-flight load protocol of the cache over all interleavings of threads. Every
    critical section under the cache mutex or an insert mutex is one step; loads succeed. */
module LruProtocol {
  import opened Lists
  import opened LruCore
  import opened Options

  /** InsertInfo, with the number of times it was loaded and who holds its mutex. */
  datatype Info = Info(key: nat, buf: nat, product: bool, clean: bool, loads: nat, holder: Option<nat>)

  /** Where a thread is in SetOrGet: before it, waiting for the insert mutex, about to load
      with the mutex held, or about to publish with the mutex held. */
  datatype Thread = Outside | Waiting(info: nat) | Loading(info: nat) | Publishing(info: nat)

  datatype State = State(c: Cache, inserts: map<nat, nat>, infos: seq<Info>, threads: seq<Thread>)

  datatype Action =
    | Lookup(t: nat, key: nat)
    | Acquire(t: nat)
    | Load(t: nat)
    | Publish(t: nat)
    | Hit(key: nat)
    | Evict(key: nat)
    | Resize(maxSize: nat, maxOverflow: nat)
    | Shrink(limit: nat)

  /** insert_infos_ maps each key to an insert for it that is not clean, with a buffer of
      its own. */
  ghost predicate Registered(inserts: map<nat, nat>, infos: seq<Info>) {
    && (forall k :: k in inserts ==>
          inserts[k] < |infos| && infos[inserts[k]].key == k && !infos[inserts[k]].clean)
    && forall j, k :: j in inserts && k in inserts && j != k ==>
         infos[inserts[j]].buf != infos[inserts[k]].buf
  }

  ghost predicate InsertsOk(s: State) {
    Registered(s.inserts, s.infos) && s.c.cells.Keys !! s.inserts.Keys
  }

  /** The buffers of the inserts in flight. */
  ghost function HeldBy(inserts: map<nat, nat>, infos: seq<Info>): set<nat>
    requires Registered(inserts, infos)
  {
    set k | k in inserts :: infos[inserts[k]].buf
  }

  ghost function Held(s: State): set<nat>
    requires InsertsOk(s)
  {
    HeldBy(s.inserts, s.infos)
  }

  lemma HeldMore(inserts: map<nat, nat>, infos: seq<Info>, x: Info)
    requires Registered(inserts, infos) && x.key !in inserts && !x.clean
    requires x.buf !in HeldBy(inserts, infos)
    ensures Registered(inserts[x.key := |infos|], infos + [x])
    ensures HeldBy(inserts[x.key := |infos|], infos + [x]) == HeldBy(inserts, infos) + {x.buf}
  {
    var more, longer := inserts[x.key := |infos|], infos + [x];
    forall k | k in inserts
      ensures longer[more[k]] == infos[inserts[k]] && infos[inserts[k]].buf in HeldBy(inserts, infos)
    {
    }
    assert longer[more[x.key]] == x;
    forall b | b in HeldBy(inserts, infos) ensures b in HeldBy(more, longer) {
      var k :| k in inserts && infos[inserts[k]].buf == b;
      assert k in more && longer[more[k]].buf == b;
    }
  }

  lemma HeldLess(inserts: map<nat, nat>, infos: seq<Info>, key: nat, x: Info)
    requires Registered(inserts, infos) && key in inserts
    ensures Registered(inserts - {key}, infos[inserts[key] := x])
    ensures HeldBy(inserts - {key}, infos[inserts[key] := x])
            == HeldBy(inserts, infos) - {infos[inserts[key]].buf}
  {
    var less, now := inserts - {key}, infos[inserts[key] := x];
    forall k | k in less ensures now[less[k]] == infos[inserts[k]] {
      assert infos[inserts[k]].key == k && infos[inserts[key]].key == key;
    }
    forall b | b in HeldBy(inserts, infos) && b != infos[inserts[key]].buf ensures b in HeldBy(less, now) {
      var k :| k in inserts && infos[inserts[k]].buf == b;
      assert k in less && now[less[k]].buf == b;
    }
    forall b | b in HeldBy(less, now)
      ensures b in HeldBy(inserts, infos) && b != infos[inserts[key]].buf
    {
      var k :| k in less && now[less[k]].buf == b;
      assert k in inserts && infos[inserts[k]].buf == b;
    }
  }

  ghost predicate Holds(s: State, t: nat, i: nat) {
    t < |s.threads| && (s.threads[t] == Loading(i) || s.threads[t] == Publishing(i))
  }

  /** An insert is in flight until it is clean; it is loaded exactly once, by the thread
      that holds its mutex, which then publishes it. */
  ghost predicate InfoOk(s: State, i: nat)
    requires i < |s.infos|
  {
    var x := s.infos[i];
    && x.loads == (if x.product then 1 else 0)
    && (!x.clean ==> x.key in s.inserts && s.inserts[x.key] == i)
    && (x.clean ==> x.product && x.holder.None?)
    && (x.holder.Some? ==> Holds(s, x.holder.value, i))
    && (x.product && !x.clean ==> x.holder.Some? && s.threads[x.holder.value] == Publishing(i))
  }

  ghost predicate ThreadOk(s: State, t: nat)
    requires t < |s.threads|
  {
    match s.threads[t]
    case Outside => true
    case Waiting(i) => i < |s.infos|
    case Loading(i) =>
      i < |s.infos| && s.infos[i].holder == Some(t) && !s.infos[i].product && !s.infos[i].clean
    case Publishing(i) =>
      i < |s.infos| && s.infos[i].holder == Some(t) && s.infos[i].product && !s.infos[i].clean
  }

  ghost predicate Ok(s: State) {
    && InsertsOk(s) && Inv(s.c, Held(s))
    && (forall i :: 0 <= i < |s.infos| ==> InfoOk(s, i))
    && forall t :: 0 <= t < |s.threads| ==> ThreadOk(s, t)
  }

  ghost predicate Enabled(s: State, a: Action) {
    match a
    case Lookup(t, key) => t < |s.threads| && s.threads[t].Outside?
    case Acquire(t) =>
      t < |s.threads| && s.threads[t].Waiting? && s.threads[t].info < |s.infos| &&
      s.infos[s.threads[t].info].holder.None?
    case Load(t) => t < |s.threads| && s.threads[t].Loading?
    case Publish(t) => t < |s.threads| && s.threads[t].Publishing?
    case Hit(key) => key in s.c.cells
    case Evict(key) => key in s.c.cells
    case Resize(_, _) => true
    case Shrink(_) => true
  }

  /** The first section of SetOrGet. */
  ghost function DoLookup(s: State, t: nat, key: nat): State
    requires Ok(s) && Enabled(s, Lookup(t, key))
  {
    if key in s.c.cells then
      s.(c := Touch(s.c, key))
    else if key in s.inserts then
      s.(threads := s.threads[t := Waiting(s.inserts[key])])
    else
      var r := GetBuffer(s.c);
      State(r.0, s.inserts[key := |s.infos|], s.infos + [Info(key, r.1, false, false, 0, None)],
            s.threads[t := Waiting(|s.infos|)])
  }

  /** Entering the insert mutex: a loaded insert is returned at once. */
  ghost function DoAcquire(s: State, t: nat): State
    requires Ok(s) && Enabled(s, Acquire(t))
  {
    var i := s.threads[t].info;
    if s.infos[i].product then
      s.(threads := s.threads[t := Outside])
    else
      s.(infos := s.infos[i := s.infos[i].(holder := Some(t))], threads := s.threads[t := Loading(i)])
  }

  ghost function DoLoad(s: State, t: nat): State
    requires Ok(s) && Enabled(s, Load(t))
  {
    assert ThreadOk(s, t);
    var i := s.threads[t].info;
    s.(infos := s.infos[i := s.infos[i].(product := true, loads := s.infos[i].loads + 1)],
       threads := s.threads[t := Publishing(i)])
  }

  /** The last section of SetOrGet. */
  ghost function DoPublish(s: State, t: nat): State
    requires Ok(s) && Enabled(s, Publish(t))
  {
    assert ThreadOk(s, t);
    var i := s.threads[t].info;
    var x := s.infos[i];
    assert InfoOk(s, i);
    HeldHas(s, x.key);
    State(SetImpl(s.c, Held(s), x.key, x.buf), s.inserts - {x.key},
          s.infos[i := x.(clean := true, holder := None)], s.threads[t := Outside])
  }

  lemma HeldHas(s: State, key: nat)
    requires InsertsOk(s)
    ensures key in s.inserts ==> s.infos[s.inserts[key]].buf in Held(s) && key !in s.c.cells
  {
  }

  ghost function Apply(s: State, a: Action): State
    requires Ok(s) && Enabled(s, a)
  {
    match a
    case Lookup(t, key) => DoLookup(s, t, key)
    case Acquire(t) => DoAcquire(s, t)
    case Load(t) => DoLoad(s, t)
    case Publish(t) => DoPublish(s, t)
    case Hit(key) => s.(c := Touch(s.c, key))
    case Evict(key) => EvictKeyKeeps(s.c, Held(s), key); s.(c := EvictKey(s.c, key))
    case Resize(maxSize, maxOverflow) => s.(c := s.c.(maxSize := maxSize, maxOverflow := maxOverflow))
    case Shrink(limit) => s.(c := SetMaxBufferNum(EvictOverflow(s.c, Held(s)), limit))
  }

  /** A step that changes only the cache, and adds no cell. */
  lemma CacheStep(s: State, c: Cache)
    requires Ok(s) && Inv(c, Held(s)) && c.cells.Keys <= s.c.cells.Keys
    ensures Ok(s.(c := c))
  {
    hide Inv;
    var n := s.(c := c);
    assert Held(n) == Held(s);
    forall i | 0 <= i < |n.infos| ensures InfoOk(n, i) {
      assert InfoOk(s, i);
    }
    forall t | 0 <= t < |n.threads| ensures ThreadOk(n, t) {
      assert ThreadOk(s, t);
    }
  }

  /** A step of one thread and one insert that leaves the inserts in flight as they are. */
  lemma InfoStep(s: State, n: State)
    requires InsertsOk(s) && Inv(s.c, Held(s))
    requires n.c == s.c && n.inserts == s.inserts && |n.infos| == |s.infos|
    requires forall i :: 0 <= i < |s.infos| ==>
               && n.infos[i].key == s.infos[i].key && n.infos[i].buf == s.infos[i].buf
               && n.infos[i].clean == s.infos[i].clean
    ensures InsertsOk(n) && Inv(n.c, Held(n))
  {
    hide Inv;
    assert Held(n) == Held(s);
  }

  lemma AcquireKeeps(s: State, t: nat)
    requires Ok(s) && Enabled(s, Acquire(t))
    ensures Ok(DoAcquire(s, t))
  {
    hide InsertsOk, Inv;
    var n := DoAcquire(s, t);
    InfoStep(s, n);
    var i := s.threads[t].info;
    assert ThreadOk(s, t) && InfoOk(s, i);
    forall j | 0 <= j < |n.infos| ensures InfoOk(n, j) {
      assert InfoOk(s, j);
      if s.infos[j].holder.Some? {
        assert Holds(s, s.infos[j].holder.value, j) && s.infos[j].holder.value != t;
        assert Holds(n, s.infos[j].holder.value, j);
      } else if j == i && !s.infos[i].product {
        assert Holds(n, t, i);
      }
    }
    forall u | 0 <= u < |n.threads| ensures ThreadOk(n, u) {
      assert ThreadOk(s, u);
    }
  }

  lemma LoadKeeps(s: State, t: nat)
    requires Ok(s) && Enabled(s, Load(t))
    ensures Ok(DoLoad(s, t))
  {
    hide InsertsOk, Inv;
    var n := DoLoad(s, t);
    var i := s.threads[t].info;
    assert ThreadOk(s, t) && InfoOk(s, i);
    InfoStep(s, n);
    assert Holds(n, t, i);
    forall j | 0 <= j < |n.infos| ensures InfoOk(n, j) {
      assert InfoOk(s, j);
      if j != i && s.infos[j].holder.Some? {
        assert Holds(s, s.infos[j].holder.value, j) && s.infos[j].holder.value != t;
        assert Holds(n, s.infos[j].holder.value, j);
      }
    }
    forall u | 0 <= u < |n.threads| ensures ThreadOk(n, u) {
      assert ThreadOk(s, u);
    }
  }

  lemma LookupKeeps(s: State, t: nat, key: nat)
    requires Ok(s) && Enabled(s, Lookup(t, key)) && key !in s.c.cells
    ensures Ok(DoLookup(s, t, key))
  {
    hide Inv;
    var n := DoLookup(s, t, key);
    if key in s.inserts {
      assert Held(n) == Held(s);
    } else {
      NewInsert(s, t, key);
    }
    forall j | 0 <= j < |n.infos| ensures InfoOk(n, j) {
      if j < |s.infos| {
        assert InfoOk(s, j);
        if s.infos[j].holder.Some? {
          assert Holds(s, s.infos[j].holder.value, j);
          assert Holds(n, s.infos[j].holder.value, j);
        }
      }
    }
    forall u | 0 <= u < |n.threads| ensures ThreadOk(n, u) {
      assert ThreadOk(s, u);
    }
  }

  /** A new insert has a buffer of its own. */
  lemma NewInsert(s: State, t: nat, key: nat)
    requires Ok(s) && Enabled(s, Lookup(t, key)) && key !in s.c.cells && key !in s.inserts
    ensures InsertsOk(DoLookup(s, t, key))
    ensures Inv(DoLookup(s, t, key).c, Held(DoLookup(s, t, key)))
  {
    hide Inv, Registered;
    GetBufferKeeps(s.c, Held(s));
    var r := GetBuffer(s.c);
    HeldMore(s.inserts, s.infos, Info(key, r.1, false, false, 0, None));
    assert r.0.cells == s.c.cells;
    assert s.inserts[key := |s.infos|].Keys == s.inserts.Keys + {key};
  }

  lemma PublishKeeps(s: State, t: nat)
    requires Ok(s) && Enabled(s, Publish(t))
    ensures Ok(DoPublish(s, t))
  {
    hide Inv, Registered, HeldBy;
    Published(s, t);
    var n := DoPublish(s, t);
    var i := s.threads[t].info;
    assert ThreadOk(s, t) && InfoOk(s, i);
    forall j | 0 <= j < |n.infos| ensures InfoOk(n, j) {
      PublishInfo(s, t, j);
    }
    forall u | 0 <= u < |n.threads| ensures ThreadOk(n, u) {
      assert ThreadOk(s, u);
    }
  }

  lemma PublishInfo(s: State, t: nat, j: nat)
    requires Ok(s) && Enabled(s, Publish(t)) && j < |s.infos|
    ensures j < |DoPublish(s, t).infos| && InfoOk(DoPublish(s, t), j)
  {
    hide Inv, Registered, HeldBy;
    var n := DoPublish(s, t);
    var i := s.threads[t].info;
    assert ThreadOk(s, t) && InfoOk(s, i) && InfoOk(s, j);
    if j != i && s.infos[j].holder.Some? {
      assert Holds(s, s.infos[j].holder.value, j) && s.infos[j].holder.value != t;
      assert Holds(n, s.infos[j].holder.value, j);
    }
  }

  /** The buffer of a published insert moves from flight into its cell, or to the pool. */
  lemma Published(s: State, t: nat)
    requires Ok(s) && Enabled(s, Publish(t))
    ensures InsertsOk(DoPublish(s, t)) && Inv(DoPublish(s, t).c, Held(DoPublish(s, t)))
  {
    hide Inv, Registered, HeldBy;
    var i := s.threads[t].info;
    assert ThreadOk(s, t) && InfoOk(s, i);
    var x := s.infos[i];
    HeldHas(s, x.key);
    HeldLess(s.inserts, s.infos, x.key, x.(clean := true, holder := None));
    var c := SetImpl(s.c, Held(s), x.key, x.buf);
    assert c.cells.Keys <= s.c.cells.Keys + {x.key};
  }

  lemma StepKeeps(s: State, a: Action)
    requires Ok(s) && Enabled(s, a)
    ensures Ok(Apply(s, a))
  {
    hide InsertsOk, InfoOk, ThreadOk, QueueOk, BuffersOk, PoolOk;
    match a
    case Lookup(t, key) =>
      if key in s.c.cells {
        TouchKeeps(s.c, Held(s), key);
        CacheStep(s, Touch(s.c, key));
      } else {
        LookupKeeps(s, t, key);
      }
    case Acquire(t) => AcquireKeeps(s, t);
    case Load(t) => LoadKeeps(s, t);
    case Publish(t) => PublishKeeps(s, t);
    case Hit(key) =>
      TouchKeeps(s.c, Held(s), key);
      CacheStep(s, Touch(s.c, key));
    case Evict(key) =>
      EvictKeyKeeps(s.c, Held(s), key);
      CacheStep(s, EvictKey(s.c, key));
    case Resize(maxSize, maxOverflow) =>
      SizesKeep(s.c, Held(s), maxSize, maxOverflow);
      CacheStep(s, s.c.(maxSize := maxSize, maxOverflow := maxOverflow));
    case Shrink(limit) =>
      var c := EvictOverflow(s.c, Held(s));
      SetMaxBufferNumKeeps(c, Held(s), limit);
      CacheStep(s, SetMaxBufferNum(c, limit));
  }

  lemma SizesKeep(c: Cache, held: set<nat>, maxSize: nat, maxOverflow: nat)
    requires Inv(c, held)
    ensures Inv(c.(maxSize := maxSize, maxOverflow := maxOverflow), held)
  {
  }

  // ---- over whole runs ----

  ghost predicate Initial(s: State) {
    && s.c.cells == map[] && s.c.queue == [] && s.c.curSize == 0 && s.c.free == [] && s.c.used == 0
    && s.c.live == {} && s.inserts == map[] && s.infos == []
    && forall t :: 0 <= t < |s.threads| ==> s.threads[t].Outside?
  }

  ghost predicate Follows(s: State, a: Action, n: State) {
    Ok(s) ==> Enabled(s, a) && n == Apply(s, a)
  }

  ghost predicate IsRun(run: seq<State>, actions: seq<Action>) {
    && |run| == |actions| + 1 && Initial(run[0])
    && forall i, j :: 0 <= i < |actions| && j == i + 1 ==> Follows(run[i], actions[i], run[j])
  }

  lemma InitialOk(s: State)
    requires Initial(s)
    ensures Ok(s)
  {
    assert Elements(s.c.queue) == {} && Elements(s.c.free) == {} && Buffers(s.c.cells) == {};
    assert Held(s) == {};
    assert forall t :: 0 <= t < |s.threads| ==> ThreadOk(s, t);
  }

  /** Every state of every interleaving keeps the invariant. */
  lemma {:induction false} RunOk(run: seq<State>, actions: seq<Action>, i: nat)
    requires IsRun(run, actions) && i < |run|
    ensures Ok(run[i])
  {
    hide Ok;
    if i == 0 {
      InitialOk(run[0]);
    } else {
      RunOk(run, actions, i - 1);
      assert Follows(run[i - 1], actions[i - 1], run[i]);
      StepKeeps(run[i - 1], actions[i - 1]);
    }
  }

  lemma {:induction false} HeldSize(inserts: map<nat, nat>, infos: seq<Info>)
    requires Registered(inserts, infos)
    ensures |HeldBy(inserts, infos)| == |inserts.Keys|
    decreases |inserts.Keys|
  {
    if inserts.Keys == {} {
      assert HeldBy(inserts, infos) == {};
    } else {
      var key :| key in inserts;
      HeldLess(inserts, infos, key, infos[inserts[key]]);
      assert infos[inserts[key] := infos[inserts[key]]] == infos;
      assert (inserts - {key}).Keys == inserts.Keys - {key};
      OneLess(inserts.Keys, key);
      HeldSize(inserts - {key}, infos);
      assert infos[inserts[key]].buf in HeldBy(inserts, infos);
      OneLess(HeldBy(inserts, infos), infos[inserts[key]].buf);
    }
  }

  /** Ownership of buffers: each live one is free, or in the cell of one key, or in the
      insert in flight of one key, and only one of these. */
  ghost predicate OwnedOnce(s: State, b: nat)
    requires InsertsOk(s)
  {
    var f := b in s.c.free;
    var c := exists k :: k in s.c.cells && s.c.cells[k].buf == b;
    var h := exists k :: k in s.inserts && s.infos[s.inserts[k]].buf == b;
    && (f || c || h) && !(f && c) && !(f && h) && !(c && h)
    && (forall j, k :: j in s.c.cells && k in s.c.cells && s.c.cells[j].buf == b && s.c.cells[k].buf == b ==> j == k)
    && (forall i, j :: 0 <= i < j < |s.c.free| && s.c.free[i] == b ==> s.c.free[j] != b)
  }

  lemma BufferOwned(s: State, b: nat)
    requires Ok(s) && b in s.c.live
    ensures OwnedOnce(s, b)
  {
    hide InfoOk, ThreadOk, QueueOk, PoolOk;
    assert b in s.c.free <==> b in Elements(s.c.free);
    assert (exists k :: k in s.c.cells && s.c.cells[k].buf == b) <==> b in Buffers(s.c.cells);
    assert (exists k :: k in s.inserts && s.infos[s.inserts[k]].buf == b) <==> b in Held(s);
  }

  /** In every state of every interleaving: buffers have one owner, queue_ lists cells_'
      keys once each, and both counters are exact. */
  lemma RunSafe(run: seq<State>, actions: seq<Action>, i: nat)
    requires IsRun(run, actions) && i < |run|
    ensures var s := run[i];
            && InsertsOk(s) && (forall b :: b in s.c.live ==> OwnedOnce(s, b))
            && NoDup(s.c.queue) && Elements(s.c.queue) == s.c.cells.Keys
            && s.c.curSize == |s.c.cells.Keys|
            && s.c.used == |s.c.cells.Keys| + |s.inserts.Keys|
            && s.c.cells.Keys !! s.inserts.Keys
  {
    hide OwnedOnce;
    RunOk(run, actions, i);
    var s := run[i];
    HeldSize(s.inserts, s.infos);
    forall b | b in s.c.live ensures OwnedOnce(s, b) {
      BufferOwned(s, b);
    }
  }

  /** Single flight: an insert is loaded at most once ever, exactly once when it is done,
      and at most one thread is loading or publishing it. */
  lemma SingleFlight(run: seq<State>, actions: seq<Action>, i: nat, x: nat, t: nat, u: nat)
    requires IsRun(run, actions) && i < |run| && x < |run[i].infos|
    requires t < |run[i].threads| && u < |run[i].threads|
    ensures run[i].infos[x].loads <= 1
    ensures run[i].infos[x].clean ==> run[i].infos[x].loads == 1
    ensures Holds(run[i], t, x) && Holds(run[i], u, x) ==> t == u
  {
    hide *;
    RunOk(run, actions, i);
    SingleFlightNow(run[i], x, t, u);
  }

  lemma SingleFlightNow(s: State, x: nat, t: nat, u: nat)
    requires Ok(s) && x < |s.infos| && t < |s.threads| && u < |s.threads|
    ensures s.infos[x].loads <= 1 && (s.infos[x].clean ==> s.infos[x].loads == 1)
    ensures Holds(s, t, x) && Holds(s, u, x) ==> t == u
  {
    hide Inv;
    assert InfoOk(s, x) && ThreadOk(s, t) && ThreadOk(s, u);
  }

  /** Publishing leaves at most maxSize + maxOverflow cells, and with room for one cell at
      all the published key is among them, with the buffer that was loaded. */
  lemma PublishBound(s: State, t: nat)
    requires Ok(s) && Enabled(s, Publish(t))
    ensures var n := Apply(s, Publish(t));
            && n.c.curSize <= n.c.maxSize + n.c.maxOverflow
            && s.threads[t].info < |s.infos|
            && (s.c.maxSize > 0 ==>
                  var x := s.infos[s.threads[t].info];
                  x.key in n.c.cells && n.c.cells[x.key].buf == x.buf)
  {
    assert ThreadOk(s, t) && InfoOk(s, s.threads[t].info);
  }

  // ---- a buffer that SetOrGet or Get handed out ----

  /** While a key stays cached its buffer stays its own. */
  lemma SameBuffer(s: State, a: Action, key: nat)
    requires Ok(s) && Enabled(s, a) && key in s.c.cells && key in Apply(s, a).c.cells
    ensures Apply(s, a).c.cells[key].buf == s.c.cells[key].buf
  {
    hide Inv, InfoOk, ThreadOk, Touch, EvictKey, EvictOverflow, SetImpl;
    match a
    case Lookup(_, k) => if k in s.c.cells { TouchKeeps(s.c, Held(s), k); }
    case Hit(k) => TouchKeeps(s.c, Held(s), k);
    case Evict(k) => EvictKeyKeeps(s.c, Held(s), k);
    case Publish(t) => PublishOthers(s, t, key);
    case Acquire(_) =>
    case Load(_) =>
    case Resize(_, _) =>
    case Shrink(limit) => LimitCells(EvictOverflow(s.c, Held(s)), limit);
  }

  lemma PublishOthers(s: State, t: nat, key: nat)
    requires Ok(s) && Enabled(s, Publish(t)) && key in s.c.cells && key in DoPublish(s, t).c.cells
    ensures DoPublish(s, t).c.cells[key].buf == s.c.cells[key].buf
  {
    hide Inv, SetImpl;
    assert ThreadOk(s, t);
    var x := s.infos[s.threads[t].info];
    assert InfoOk(s, s.threads[t].info);
    HeldHas(s, x.key);
    SetImplKeeps(s.c, Held(s), x.key, x.buf);
  }

  lemma LimitCells(c: Cache, limit: nat)
    ensures SetMaxBufferNum(c, limit).cells == c.cells
  {
  }

  /** A reader copies from the buffer without a lock. As long as the key stays cached the
      buffer is the key's, and no load in flight writes to it. */
  lemma {:induction false} StillTheKeys(run: seq<State>, actions: seq<Action>, i: nat, j: nat, key: nat)
    requires IsRun(run, actions) && i <= j < |run| && forall k :: i <= k <= j ==> key in run[k].c.cells
    ensures run[j].c.cells[key].buf == run[i].c.cells[key].buf
    ensures forall x :: 0 <= x < |run[j].infos| && !run[j].infos[x].clean ==>
              run[j].infos[x].buf != run[i].c.cells[key].buf
    decreases j
  {
    hide Ok, Apply, Enabled;
    RunOk(run, actions, j);
    if i < j {
      StillTheKeys(run, actions, i, j - 1, key);
      RunOk(run, actions, j - 1);
      assert Follows(run[j - 1], actions[j - 1], run[j]);
      SameBuffer(run[j - 1], actions[j - 1], key);
    }
    CellNotHeld(run[j], key);
  }

  lemma CellNotHeld(s: State, key: nat)
    requires Ok(s) && key in s.c.cells
    ensures forall x :: 0 <= x < |s.infos| && !s.infos[x].clean ==> s.infos[x].buf != s.c.cells[key].buf
  {
    hide QueueOk, PoolOk, ThreadOk;
    forall x | 0 <= x < |s.infos| && !s.infos[x].clean ensures s.infos[x].buf != s.c.cells[key].buf {
      assert InfoOk(s, x);
      HeldHas(s, s.infos[x].key);
      assert s.c.cells[key].buf in Buffers(s.c.cells);
    }
  }

  // ---- a buffer that was given back ----

  /** A lookup that takes a buffer from the pool. */
  ghost predicate Misses(s: State, a: Action) {
    a.Lookup? && a.key !in s.c.cells && a.key !in s.inserts
  }

  ghost function MissCount(run: seq<State>, actions: seq<Action>, i: nat, j: nat): nat
    requires i <= j <= |actions| && |run| == |actions| + 1
    decreases j - i
  {
    if i == j then 0
    else MissCount(run, actions, i, j - 1) + if Misses(run[j - 1], actions[j - 1]) then 1 else 0
  }

  /** Free buffers stay in line: a miss takes the first one, everything else may add at the end. */
  lemma FreeStep(s: State, a: Action)
    requires Ok(s) && Enabled(s, a) && !a.Shrink? && s.c.free != []
    ensures Misses(s, a) ==> Apply(s, a).c.free == s.c.free[1..]
    ensures !Misses(s, a) ==> s.c.free <= Apply(s, a).c.free
  {
    hide Inv, InfoOk, ThreadOk, EvictKey, EvictOverflow, SetImpl;
    match a
    case Publish(t) => PublishReturns(s, t);
    case Evict(k) =>
      Within(s.c, Held(s));
      Returned(s.c, Held(s), k);
    case _ =>
  }

  lemma PublishReturns(s: State, t: nat)
    requires Ok(s) && Enabled(s, Publish(t)) && s.c.free != []
    ensures s.c.free <= DoPublish(s, t).c.free
  {
    hide Inv, SetImpl;
    assert ThreadOk(s, t);
    var x := s.infos[s.threads[t].info];
    assert InfoOk(s, s.threads[t].info);
    HeldHas(s, x.key);
    SetReturned(s.c, Held(s), x.key, x.buf);
  }

  ghost predicate NoShrink(actions: seq<Action>, i: nat, j: nat)
    requires i <= j <= |actions|
  {
    forall k :: i <= k < j ==> !actions[k].Shrink?
  }

  lemma {:induction false} FreeInLine(run: seq<State>, actions: seq<Action>, i: nat, j: nat, k: nat)
    requires IsRun(run, actions) && i <= j <= |actions| && k < |run[i].c.free| && NoShrink(actions, i, j)
    requires MissCount(run, actions, i, j) <= k
    ensures k - MissCount(run, actions, i, j) < |run[j].c.free|
    ensures run[j].c.free[k - MissCount(run, actions, i, j)] == run[i].c.free[k]
    decreases j - i
  {
    hide Ok, Apply, Enabled, Misses;
    if i < j {
      FreeInLine(run, actions, i, j - 1, k);
      RunOk(run, actions, j - 1);
      assert Follows(run[j - 1], actions[j - 1], run[j]);
      FreeStep(run[j - 1], actions[j - 1]);
    }
  }

  /** The buffer of the insert a missing lookup has begun. */
  ghost predicate Gets(s: State, t: nat, buf: nat) {
    && t < |s.threads| && s.threads[t].Waiting? && s.threads[t].info < |s.infos|
    && s.infos[s.threads[t].info].buf == buf && !s.infos[s.threads[t].info].product
  }

  lemma MissTakes(s: State, a: Action, buf: nat)
    requires Ok(s) && Enabled(s, a) && Misses(s, a) && s.c.free != []
    ensures Gets(Apply(s, a), a.t, buf) <==> s.c.free[0] == buf
  {
    hide Inv, InfoOk, ThreadOk;
  }

  /** The buffer of an evicted key is kept if and only if the pool is within its limit, and then
      goes to the miss that comes after as many others as there were free buffers. */
  lemma EvictionHandsOn(run: seq<State>, actions: seq<Action>, i: nat, j: nat)
    requires IsRun(run, actions) && i < j < |actions| && actions[i].Evict? && NoShrink(actions, i, j)
    requires Misses(run[j], actions[j]) && MissCount(run, actions, i + 1, j) <= |run[i].c.free|
    ensures actions[i].key in run[i].c.cells
    ensures var buf := run[i].c.cells[actions[i].key].buf;
            && (buf in run[i + 1].c.live <==> run[i].c.used <= run[i].c.maxCells)
            && (run[i].c.used <= run[i].c.maxCells ==>
                  (Gets(run[j + 1], actions[j].t, buf) <==>
                   MissCount(run, actions, i + 1, j) == |run[i].c.free|))
  {
    hide InsertsOk, Inv, InfoOk, ThreadOk, Gets, MissCount;
    RunOk(run, actions, i);
    RunOk(run, actions, j);
    assert Follows(run[i], actions[i], run[i + 1]) && Follows(run[j], actions[j], run[j + 1]);
    Returned(run[i].c, Held(run[i]), actions[i].key);
    if run[i].c.used <= run[i].c.maxCells {
      var buf, m := run[i].c.cells[actions[i].key].buf, MissCount(run, actions, i + 1, j);
      FreeInLine(run, actions, i + 1, j, |run[i].c.free|);
      FreeOnce(run[j]);
      MissTakes(run[j], actions[j], buf);
    }
  }

  lemma FreeOnce(s: State)
    requires Ok(s)
    ensures NoDup(s.c.free)
  {
  }

  lemma Step(s: State, a: Action) returns (n: State)
    requires Ok(s) && Enabled(s, a)
    ensures n == Apply(s, a) && Ok(n) && Follows(s, a, n)
  {
    hide Ok, Apply, Enabled;
    StepKeeps(s, a);
    n := Apply(s, a);
  }

  /** One insert in flight, for the key, by thread 0. */
  ghost predicate Alone(s: State, key: nat, th: Thread, product: bool) {
    && |s.threads| > 0 && s.threads[0] == th && |s.infos| == 1 && s.infos[0].key == key
    && s.infos[0].product == product && (th.Waiting? ==> s.infos[0].holder.None?)
    && s.c.cells == map[] && s.inserts == map[key := 0] && s.c.used == 1 && s.c.free == []
    && s.c.maxSize > 0 && s.c.maxCells > 0
  }

  lemma Began(s: State, key: nat)
    requires Initial(s) && Ok(s) && |s.threads| > 0 && s.c.maxSize > 0 && s.c.maxCells > 0
    ensures Enabled(s, Lookup(0, key)) && Alone(Apply(s, Lookup(0, key)), key, Waiting(0), false)
  {
    hide Inv, InfoOk, ThreadOk;
  }

  lemma Acquired(s: State, key: nat)
    requires Ok(s) && Alone(s, key, Waiting(0), false)
    ensures Enabled(s, Acquire(0)) && Alone(Apply(s, Acquire(0)), key, Loading(0), false)
  {
    hide Inv, InfoOk, ThreadOk;
  }

  lemma Loaded(s: State, key: nat)
    requires Ok(s) && Alone(s, key, Loading(0), false)
    ensures Enabled(s, Load(0)) && Alone(Apply(s, Load(0)), key, Publishing(0), true)
  {
    hide Inv, InfoOk;
  }

  /** One cell, for the key, and thread 0 at rest. */
  ghost predicate Kept(s: State, key: nat) {
    && |s.threads| > 0 && s.threads[0].Outside? && s.inserts == map[] && s.c.cells.Keys == {key}
    && s.c.used == 1 && s.c.free == [] && s.c.maxCells > 0
  }

  lemma Cached(s: State, key: nat)
    requires Ok(s) && Alone(s, key, Publishing(0), true)
    ensures Enabled(s, Publish(0)) && Kept(Apply(s, Publish(0)), key)
  {
    hide InfoOk, ThreadOk, Inv, SetImpl;
    HeldHas(s, key);
    OnlyCell(s.c, Held(s), key, s.infos[0].buf);
  }

  /** The only cell is not evicted. */
  lemma OnlyCell(c: Cache, held: set<nat>, key: nat, buf: nat)
    requires Inv(c, held) && c.cells == map[] && buf in held && c.maxSize > 0
    ensures SetImpl(c, held, key, buf) == PutIn(c, key, buf)
  {
    PutInKeeps(c, held, key, buf);
  }

  lemma Evicted(s: State, key: nat, other: nat)
    requires Ok(s) && Kept(s, key) && key != other
    ensures Enabled(s, Evict(key))
    ensures var n := Apply(s, Evict(key));
            && n.c.free == [s.c.cells[key].buf] && Enabled(n, Lookup(0, other)) && Misses(n, Lookup(0, other))
  {
    hide Inv, InfoOk, ThreadOk, EvictKey;
    Returned(s.c, Held(s), key);
    EvictKeyKeeps(s.c, Held(s), key);
  }

  /** From the start: a key is loaded and evicted, and another key gets its buffer. */
  lemma HandOnRun(s: State, key: nat, other: nat) returns (run: seq<State>, actions: seq<Action>)
    requires Initial(s) && |s.threads| > 0 && key != other && s.c.maxSize > 0 && s.c.maxCells > 0
    ensures |actions| == 6 && IsRun(run, actions) && run[0] == s
    ensures key in run[4].c.cells && Gets(run[6], 0, run[4].c.cells[key].buf)
  {
    hide Ok, Apply;
    actions := [Lookup(0, key), Acquire(0), Load(0), Publish(0), Evict(key), Lookup(0, other)];
    InitialOk(s);
    Began(s, key);
    var a := Step(s, actions[0]);
    Acquired(a, key);
    var b := Step(a, actions[1]);
    Loaded(b, key);
    var c := Step(b, actions[2]);
    Cached(c, key);
    var d := Step(c, actions[3]);
    Evicted(d, key, other);
    var e := Step(d, actions[4]);
    var f := Step(e, actions[5]);
    MissTakes(e, actions[5], d.c.cells[key].buf);
    run := [s, a, b, c, d, e, f];
  }
}
