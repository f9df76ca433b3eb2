/** The HNSW index object: inserting, updating, marking and querying elements. */
module HnswIndex {
  import opened Heaps
  import opened Lists
  import opened HnswGraph
  import opened HnswConnect
  import opened HnswSearch

  ghost predicate EntryOk(adj: Adj, entry: int, maxLevel: int) {
    if adj.Keys == {} then
      entry == -1 && maxLevel == -1
    else
      && entry in adj && |adj[entry]| == maxLevel + 1
      && forall n :: n in adj ==> 0 < |adj[n]| <= maxLevel + 1
  }

  function ConstructionQuery(dist: nat -> real, marked: set<nat>, inf: real): Query {
    Query(dist, marked, (n: nat) => true, (x: real) => true, false, inf)
  }

  /** While `cur` is being inserted: its lists up to `level` are still blank, and no
      list up to there leads to it. */
  ghost predicate Pending(adj: Adj, cur: nat, level: int) {
    forall l: nat :: l <= level && HasLevel(adj, cur, l) ==> adj[cur][l] == [] && Unlinked(adj, cur, l)
  }

  /** A new node with blank lists is linked from nowhere. */
  lemma BlankNode(adj: Adj, m: nat, cur: nat, level: nat)
    requires LinksOk(adj, m) && cur !in adj
    ensures var now := adj[cur := seq(level + 1, i => [])];
            && LinksOk(now, m) && (forall high :: high <= level ==> Pending(now, cur, high))
            && forall l: nat :: Unlinked(now, cur, l)
  {
    var now := adj[cur := seq(level + 1, i => [])];
    forall n, l | HasLevel(now, n, l)
      ensures ListOk(now, m, n, l, now[n][l]) && cur !in now[n][l]
    {
      if n != cur {
        assert HasLevel(adj, n, l) && ListOk(adj, m, n, l, adj[n][l]);
        assert forall x :: x in adj[n][l] ==> HasLevel(adj, x, l);
      }
    }
  }

  lemma PendingNow(adj: Adj, cur: nat, level: nat)
    requires Pending(adj, cur, level) && HasLevel(adj, cur, level)
    ensures adj[cur][level] == [] && Unlinked(adj, cur, level)
  {
  }

  lemma PendingAfter(was: Adj, now: Adj, m: nat, cur: nat, q: set<nat>, level: nat,
                     dist: nat -> real, d: Metric)
    requires Connected(was, now, m, cur, q, level, false, dist, d) && Pending(was, cur, level)
    ensures Pending(now, cur, level - 1)
  {
    forall l: nat | l <= level - 1 && HasLevel(now, cur, l)
      ensures now[cur][l] == [] && Unlinked(now, cur, l)
    {
      assert Same(was, now, cur, l);
      assert was[cur][l] == [] && Unlinked(was, cur, l);
      forall n | HasLevel(now, n, l) ensures cur !in now[n][l] {
        assert HasLevel(was, n, l) && Same(was, now, n, l);
      }
    }
  }

  /** What a construction search yields: nodes of the level; not a pending node, when it
      starts elsewhere; and at least one, when it starts at an unmarked node. */
  lemma Candidates(t: Task, top: set<nat>, log: seq<nat>)
    requires Found(t, top, log) && t.ef > 0
    ensures forall n :: n in top ==> HasLevel(t.adj, n, t.layer)
    ensures forall n :: Unlinked(t.adj, n, t.layer) && t.ep != n ==> n !in top
    ensures t.q.Eligible(t.ep) ==> top != {}
  {
    forall n | Unlinked(t.adj, n, t.layer) && t.ep != n ensures n !in top {
      assert n in log ==> t.Entered(n);
    }
    assert t.q.Eligible(t.ep) ==> t.ep in log;
  }

  lemma CompletedFound(t: Task, top: set<nat>, log: seq<nat>)
    requires Completed(t, top, log) && t.ef > 0
    ensures forall n :: n in top ==> HasLevel(t.adj, n, t.layer)
    ensures forall n :: Unlinked(t.adj, n, t.layer) && t.ep != n ==> n !in top
    ensures t.q.Eligible(t.ep) ==> top != {}
  {
    hide Found, Unlinked;
    Candidates(t, top, log);
  }

  lemma ConnectedFrame(was: Adj, now: Adj, m: nat, cur: nat, q: set<nat>, level: nat,
                       isUpdate: bool, dist: nat -> real, d: Metric)
    requires Connected(was, now, m, cur, q, level, isUpdate, dist, d)
    ensures SameShape(was, now)
    ensures forall n, l :: l != level ==> Same(was, now, n, l)
    ensures q != {} && m > 0 ==> now[cur][level] != []
  {
    if q != {} && m > 0 {
      SelectedNonEmpty(q, Elements(now[cur][level]), m, dist, d);
    }
  }

  lemma EntryLevel(adj: Adj, entry: int, maxLevel: int)
    requires EntryOk(adj, entry, maxLevel)
    ensures entry == -1 <==> adj.Keys == {}
    ensures entry == -1 <==> maxLevel == -1
    ensures entry != -1 ==> entry >= 0 && HasLevel(adj, entry, maxLevel) && maxLevel >= 0
    ensures forall n :: n in adj ==> 0 < |adj[n]| <= maxLevel + 1
  {
  }

  /** The entry point stays a node of the highest level when a node is added. */
  lemma EntryAfterAdd(was: Adj, now: Adj, id: nat, level: nat, entry: int, maxLevel: int)
    requires EntryOk(was, entry, maxLevel) && id !in was
    requires SameShape(was[id := seq(level + 1, i => [])], now)
    ensures if level > maxLevel then EntryOk(now, id, level) else EntryOk(now, entry, maxLevel)
  {
    assert id in now && |now[id]| == level + 1;
  }

  lemma EntrySame(was: Adj, now: Adj, entry: int, maxLevel: int)
    requires SameShape(was, now) && EntryOk(was, entry, maxLevel)
    ensures EntryOk(now, entry, maxLevel)
  {
  }

  /** The entry point is among them, and the farthest gives way when there are too many. */
  ghost predicate WithEntry(top: set<nat>, entry: nat, ef: nat, dist: nat -> real, q: set<nat>) {
    && (|top| <= ef ==> |q| <= ef)
    && if |top + {entry}| <= ef then q == top + {entry}
       else exists x :: IsFarthest(top + {entry}, dist, x) && q == top + {entry} - {x}
  }

  /** The candidates handed to the linking step: what the search found, and the entry
      point when that is marked, cut to efConstruction. */
  method AddEntry(top: set<nat>, entry: nat, marked: set<nat>, ef: nat, dist: nat -> real)
    returns (q: set<nat>)
    requires 0 < ef
    ensures q <= top + {entry} && (top != {} ==> q != {})
    ensures entry !in marked ==> q == top
    ensures entry in marked ==> q != {} && WithEntry(top, entry, ef, dist, q)
  {
    q := top;
    if entry in marked {
      q := q + {entry};
      if |q| > ef {
        var x, rest := PopFarthest(q, dist);
        q := rest;
        assert |q| >= 1;
      }
    }
  }

  /** One level of an insertion or a repair: a settled search from `start` yields the
      candidates, the heuristic selects among them, and the selected link back. `next` is
      where the level below starts. Without candidates nothing changes. */
  ghost predicate Joined(was: Adj, now: Adj, start: nat, next: nat, m: nat, ef: nat, marked: set<nat>, inf: real, entry: int, id: nat,
                         level: nat, isUpdate: bool, dist: nat -> real, d: Metric) {
    exists top, log ::
      JoinedWith(was, now, start, next, m, Task(was, level, start, ef, ConstructionQuery(dist, marked, inf)), entry,
                 id, isUpdate, d, top, log)
  }

  ghost predicate JoinedWith(was: Adj, now: Adj, start: nat, next: nat, m: nat, t: Task, entry: int, id: nat,
                             isUpdate: bool, d: Metric, top: set<nat>, log: seq<nat>) {
    && Completed(t, top, log)
    && if top - {id} == {} && (isUpdate || entry !in t.q.marked) then now == was && next == start
       else
         exists q ::
           && Offered(top - {id}, entry, t.q.marked, t.ef, t.q.dist, q)
           && Connected(was, now, m, id, q, t.layer, isUpdate, t.q.dist, d)
           && now[id][t.layer] != [] && next == now[id][t.layer][0]
  }

  /** The candidates offered to the heuristic: a marked entry point joins those found. */
  ghost predicate Offered(top: set<nat>, entry: int, marked: set<nat>, ef: nat, dist: nat -> real, q: set<nat>) {
    if entry in marked then WithEntry(top, entry, ef, dist, q) else q == top
  }

  /** The levels from `high` down to 0, each starting where the one above ended. */
  ghost predicate JoinRun(stages: seq<Adj>, starts: seq<nat>, m: nat, ef: nat, marked: set<nat>, inf: real, entry: int, id: nat, high: nat,
                          isUpdate: bool, dist: nat -> real, d: Metric) {
    && 0 < |stages| == |starts| <= high + 2
    && forall k :: 0 <= k < |stages| - 1 ==>
         Joined(stages[k], stages[k + 1], starts[k], starts[k + 1], m, ef, marked, inf, entry, id, high - k, isUpdate, dist, d)
  }

  lemma JoinRunMore(stages: seq<Adj>, starts: seq<nat>, now: Adj, next: nat, m: nat, ef: nat, marked: set<nat>,
                    inf: real, entry: int, id: nat, high: nat, isUpdate: bool, dist: nat -> real, d: Metric)
    requires JoinRun(stages, starts, m, ef, marked, inf, entry, id, high, isUpdate, dist, d) && |stages| <= high + 1
    requires var k := |stages| - 1;
             Joined(stages[k], now, starts[k], next, m, ef, marked, inf, entry, id, high - k, isUpdate, dist, d)
    ensures JoinRun(stages + [now], starts + [next], m, ef, marked, inf, entry, id, high, isUpdate, dist, d)
  {
    hide Joined;
    var a, b := stages + [now], starts + [next];
    forall k | 0 <= k < |a| - 1
      ensures Joined(a[k], a[k + 1], b[k], b[k + 1], m, ef, marked, inf, entry, id, high - k, isUpdate, dist, d)
    {
      assert a[k] == stages[k] && b[k] == starts[k];
    }
  }

  lemma JoinRunStart(was: Adj, start: nat, m: nat, ef: nat, marked: set<nat>, inf: real, entry: int, id: nat, high: nat, isUpdate: bool,
                     dist: nat -> real, d: Metric)
    ensures JoinRun([was], [start], m, ef, marked, inf, entry, id, high, isUpdate, dist, d)
  {
  }

  lemma JoinedBy(was: Adj, now: Adj, start: nat, next: nat, m: nat, ef: nat, marked: set<nat>, inf: real, entry: int, id: nat,
                 level: nat, isUpdate: bool, dist: nat -> real, d: Metric, top: set<nat>, log: seq<nat>)
    requires JoinedWith(was, now, start, next, m, Task(was, level, start, ef, ConstructionQuery(dist, marked, inf)), entry,
                        id, isUpdate, d, top, log)
    ensures Joined(was, now, start, next, m, ef, marked, inf, entry, id, level, isUpdate, dist, d)
  {
    hide JoinedWith;
  }

  /** Where the search of the highest level starts: at the end of the descent, or at the
      entry point when there is no level above. */
  ghost predicate StartOk(adj: Adj, start: nat, entry: int, level: nat, maxLevel: int, dist: nat -> real) {
    && entry >= 0 && Descended(adj, maxLevel, level, dist, entry, start)
    && if level < maxLevel then LocalMinimum(adj, start, level + 1, dist) else start == entry
  }

  method FindStart(adj: Adj, m: nat, entry: nat, level: nat, maxLevel: int, dist: nat -> real) returns (start: nat)
    requires LinksOk(adj, m) && HasLevel(adj, entry, maxLevel)
    ensures StartOk(adj, start, entry, level, maxLevel, dist)
    ensures HasLevel(adj, start, if level < maxLevel then level else maxLevel)
    ensures start == entry || exists l: nat :: !Unlinked(adj, start, l)
  {
    start := entry;
    if level < maxLevel {
      start := Descend(adj, m, entry, maxLevel, level, dist);
    }
  }

  /** `cur` was linked on `level`; its lists above are as they were, those below blank. */
  ghost predicate Inserted(was: Adj, now: Adj, cur: nat, level: nat) {
    && SameShape(was, now) && Pending(now, cur, level - 1)
    && HasLevel(now, cur, level) && now[cur][level] != []
    && forall l :: l != level ==> Same(was, now, cur, l)
  }

  method LinkNew(was: Adj, m: nat, cur: nat, q: set<nat>, level: nat, dist: nat -> real, d: Metric)
    returns (now: Adj, next: nat)
    requires LinksOk(was, m) && 0 < m && HasLevel(was, cur, level) && Pending(was, cur, level)
    requires q != {} && cur !in q && forall x :: x in q ==> HasLevel(was, x, level)
    ensures LinksOk(now, m) && Inserted(was, now, cur, level) && next in q
    ensures HasLevel(now, next, level) && now.Keys == was.Keys
    ensures Connected(was, now, m, cur, q, level, false, dist, d)
    ensures now[cur][level] != [] && next == now[cur][level][0]
  {
    hide LinksOk, Connected, Pending, Unlinked;
    PendingNow(was, cur, level);
    now, next := Connect(was, m, cur, q, level, false, dist, d);
    PendingAfter(was, now, m, cur, q, level, dist, d);
    ConnectedFrame(was, now, m, cur, q, level, false, dist, d);
  }

  /** The search of a level has found `top`; the new element is linked among it. */
  method JoinNew(was: Adj, m: nat, ef: nat, marked: set<nat>, inf: real, entry: nat, cur: nat, start: nat, level: nat,
                 dist: nat -> real, d: Metric, top: set<nat>, ghost log: seq<nat>)
    returns (ok: bool, now: Adj, next: nat)
    requires LinksOk(was, m) && 0 < m <= ef && HasLevel(was, cur, level) && Pending(was, cur, level)
    requires HasLevel(was, start, level) && start != cur && HasLevel(was, entry, level) && entry != cur
    requires var t := Task(was, level, start, ef, ConstructionQuery(dist, marked, inf));
             Completed(t, top, log)
    ensures start !in marked ==> ok
    ensures if ok then LinksOk(now, m) && Inserted(was, now, cur, level) && now.Keys == was.Keys else now == was
    ensures ok ==> HasLevel(now, next, level) && next != cur
    ensures ok ==> Joined(was, now, start, next, m, ef, marked, inf, entry, cur, level, false, dist, d)
  {
    hide Completed, LinksOk, Pending, Inserted, Unlinked, Connected, Joined, WithEntry;
    PendingNow(was, cur, level);
    CompletedFound(Task(was, level, start, ef, ConstructionQuery(dist, marked, inf)), top, log);
    var q := AddEntry(top, entry, marked, ef, dist);
    if q == {} {
      return false, was, start;
    }
    now, next := LinkNew(was, m, cur, q, level, dist, d);
    assert top - {cur} == top;
    assert Offered(top - {cur}, entry, marked, ef, dist, q);
    JoinedBy(was, now, start, next, m, ef, marked, inf, entry, cur, level, false, dist, d, top, log);
    ok := true;
  }

  /** The same for an element that is there already. */
  method JoinAgain(was: Adj, m: nat, ef: nat, marked: set<nat>, inf: real, entry: nat, id: nat, start: nat, level: nat,
                   dist: nat -> real, d: Metric, top: set<nat>, ghost log: seq<nat>)
    returns (ok: bool, now: Adj, next: nat)
    requires LinksOk(was, m) && 0 < m <= ef && HasLevel(was, id, level)
    requires HasLevel(was, start, level) && HasLevel(was, entry, level)
    requires var t := Task(was, level, start, ef, ConstructionQuery(dist, marked, inf));
             Completed(t, top, log)
    ensures LinksOk(now, m) && SameShape(was, now) && now.Keys == was.Keys && HasLevel(now, next, level)
    ensures ok <==> !(id == entry && entry in marked && top - {id} != {})
    ensures ok ==> Joined(was, now, start, next, m, ef, marked, inf, entry, id, level, true, dist, d)
  {
    hide Completed, LinksOk, Unlinked, Connected, Joined, WithEntry;
    ok, now, next := true, was, start;
    CompletedFound(Task(was, level, start, ef, ConstructionQuery(dist, marked, inf)), top, log);
    var filtered := top - {id};
    if filtered != {} {
      if id == entry && entry in marked {
        return false, was, start;
      }
      var q := AddEntry(filtered, entry, marked, ef, dist);
      now, next := Connect(was, m, id, q, level, true, dist, d);
      ConnectedFrame(was, now, m, id, q, level, true, dist, d);
      assert Offered(top - {id}, entry, marked, ef, dist, q);
    }
    JoinedBy(was, now, start, next, m, ef, marked, inf, entry, id, level, true, dist, d, top, log);
  }

  lemma OnlyKey(adj: Adj, id: nat)
    requires |adj| == 1 && id in adj
    ensures adj.Keys == {id}
  {
    assert |adj.Keys - {id}| == 0;
  }

  /** On every layer the lists of all neighbours were made anew. */
  ghost predicate EveryRefreshed(stages: seq<Adj>, ef: nat, m: nat, id: nat, d: Metric) {
    forall l :: 0 <= l < |stages| - 1 ==> AllRefreshed(stages[l], stages[l + 1], ef, m, id, l, d)
  }

  lemma CertainRun(stages: seq<Adj>, ef: nat, m: nat, id: nat, d: Metric, dice: Dice)
    requires RefreshRun(stages, ef, m, id, d, dice) && dice.Certain()
    ensures EveryRefreshed(stages, ef, m, id, d)
  {
    hide LayerRefreshed, AllRefreshed, Dice.Certain;
    forall l | 0 <= l < |stages| - 1 ensures AllRefreshed(stages[l], stages[l + 1], ef, m, id, l, d) {
      CertainRefreshesAll(stages[l], stages[l + 1], ef, m, id, l, d, dice);
    }
  }

  lemma MinimumLevel(adj: Adj, n: nat, dist: nat -> real)
    ensures LocalMinimum(adj, n, 1, dist) ==> HasLevel(adj, n, 0)
  {
  }

  ghost predicate Cutting(t: Task, top: set<nat>, log: seq<nat>, all: set<nat>) {
    && top <= all
    && forall n :: n in log && n !in top && t.q.Eligible(n) ==> NoFarther(top, n, t.q.dist)
  }

  lemma CutDone(t: Task, k: nat, all: set<nat>, r: set<nat>, log: seq<nat>)
    requires Found(t, all, log) && k <= t.ef && r <= all
    requires if |all| <= k then r == all else |r| == k && Cutting(t, r, log, all)
    ensures Found(t.(ef := k), r, log)
    ensures Settled(t, all, log) ==> Settled(t.(ef := k), r, log)
  {
    var u := t.(ef := k);
    assert forall n :: t.On(n) == u.On(n) && t.Entered(n) ==> u.Entered(n) by {
      forall n | t.Entered(n) ensures u.Entered(n) {
        if n != t.ep {
          var a :| t.Links(a, n);
          assert u.Links(a, n);
        }
      }
    }
    if Settled(t, all, log) {
      forall n | n in log && Within(u, r, n) ensures Expanded(u, log, n) {
        assert Within(t, all, n);
        assert Expanded(t, log, n);
      }
    }
  }

  /** Not marked, a document that passes, and a score inside the window: the distance, or 1 minus
      the distance under the inner product metric. */
  ghost predicate Admitted(q: Query, n: nat) {
    && n !in q.marked && q.validDoc(n)
    && if q.innerProduct then q.validScore(1.0 - q.dist(n)) else q.validScore(q.dist(n))
  }

  lemma AnswerAdmitted(t: Task, r: set<nat>, log: seq<nat>)
    requires Found(t, r, log)
    ensures forall n :: n in r ==> Admitted(t.q, n)
    ensures forall n :: n in log && n !in r && Admitted(t.q, n) ==> |r| == t.ef && NoFarther(r, n, t.q.dist)
  {
    forall n ensures t.q.Eligible(n) <==> Admitted(t.q, n) {
    }
    forall n | n in log && n !in r && Admitted(t.q, n) ensures |r| == t.ef && NoFarther(r, n, t.q.dist) {
      assert Beaten(t, r, n);
    }
  }

  /** Popping the farthest until `k` are left. */
  method Cut(t: Task, k: nat, all: set<nat>, ghost log: seq<nat>, ghost complete: bool)
    returns (r: set<nat>)
    requires Found(t, all, log) && k <= t.ef && (complete ==> Settled(t, all, log))
    ensures r <= all && Found(t.(ef := k), r, log)
    ensures complete ==> Settled(t.(ef := k), r, log)
  {
    r := all;
    hide Settled;
    while |r| > k
      invariant Cutting(t, r, log, all) && (if |all| <= k then r == all else |r| >= k)
      decreases |r|
    {
      var x, rest := PopFarthest(r, t.q.dist);
      r := rest;
    }
    CutDone(t, k, all, r, log);
  }

  ghost predicate JoinedAll(was: Adj, now: Adj, stages: seq<Adj>, starts: seq<nat>, m: nat, ef: nat, marked: set<nat>,
                            inf: real, entry: int, id: nat, high: nat, isUpdate: bool, dist: nat -> real, d: Metric) {
    && JoinRun(stages, starts, m, ef, marked, inf, entry, id, high, isUpdate, dist, d)
    && |stages| == high + 2 && stages[0] == was && stages[high + 1] == now
  }

  datatype Graph = Graph(adj: Adj, entry: int, maxLevel: int)

  /** M_, ef_construction_, max_elements_ and the largest distance. */
  datatype Params = Params(m: nat, ef: nat, max: nat, inf: real)

  ghost predicate Attached(g: Graph, h: Graph, c: Params, op: Op, stages: seq<Adj>, starts: seq<nat>)
    requires op.Add?
  {
    && JoinedAll(g.adj[op.id := seq(op.level + 1, i => [])], h.adj, stages, starts, c.m, c.ef, {}, c.inf, g.entry, op.id,
                 if op.level < g.maxLevel then op.level else if g.maxLevel < 0 then 0 else g.maxLevel, false, op.dist, op.d)
    && StartOk(stages[0], starts[0], g.entry, op.level, g.maxLevel, op.dist)
  }

  /** An insertion: the new element on its levels, linked from the end of the descent down. */
  ghost predicate AddStep(g: Graph, h: Graph, c: Params, op: Op)
    requires op.Add?
  {
    && SameShape(g.adj[op.id := seq(op.level + 1, i => [])], h.adj)
    && h.entry == (if op.level > g.maxLevel then op.id else g.entry)
    && h.maxLevel == (if op.level > g.maxLevel then op.level else g.maxLevel)
    && (g.adj.Keys != {} ==> exists stages, starts :: Attached(g, h, c, op, stages, starts))
  }

  ghost predicate Relinked(g: Graph, h: Graph, c: Params, op: Op, refreshed: seq<Adj>, stages: seq<Adj>, starts: seq<nat>)
    requires op.Update? && op.id in g.adj && 0 < |g.adj[op.id]|
  {
    var high := |g.adj[op.id]| - 1;
    && RefreshRun(refreshed, c.ef, c.m, op.id, op.d, op.dice) && |refreshed| == high + 2 && refreshed[0] == g.adj
    && JoinedAll(refreshed[high + 1], h.adj, stages, starts, c.m, c.ef, {}, c.inf, g.entry, op.id, high, true,
                 op.dist, op.d)
    && StartOk(stages[0], starts[0], g.entry, high, g.maxLevel, op.dist)
  }

  /** An update: the lists around the element refreshed, then its own made anew. */
  ghost predicate UpdateStep(g: Graph, h: Graph, c: Params, op: Op)
    requires op.Update? && op.id in g.adj
  {
    && SameShape(g.adj, h.adj) && h.entry == g.entry && h.maxLevel == g.maxLevel && 0 < |g.adj[op.id]|
    && if g.adj.Keys == {op.id} then h.adj == g.adj
       else exists refreshed, stages, starts :: Relinked(g, h, c, op, refreshed, stages, starts)
  }

  ghost predicate RunStep(g: Graph, h: Graph, c: Params, op: Op) {
    if op.Add? && op.id !in g.adj && op.id < c.max then AddStep(g, h, c, op)
    else if op.Update? && op.id in g.adj then UpdateStep(g, h, c, op)
    else h == g
  }

  /** One call: the distances to the point inserted or updated, and between nodes. */
  datatype Op =
    | Add(id: nat, level: nat, dist: nat -> real, d: Metric)
    | Update(id: nat, dist: nat -> real, d: Metric, dice: Dice)

  class HierarchicalNsw {
    const m: nat
    const efConstruction: nat
    const maxElements: nat
    const inf: real
    const pool: VisitedListPool
    var adj: Adj
    var entry: int
    var maxLevel: int
    var marked: set<nat>

    /** Everything but the entry point. List counts are kept in 16 bits. */
    ghost predicate Ready()
      reads this, pool, pool.Footprint()
    {
      && 0 < m && 2 * m < 0x1_0000 && m <= efConstruction
      && this !in pool.Footprint() && pool.Valid() && pool.numElements == maxElements
      && (forall n :: n in adj ==> n < maxElements) && LinksOk(adj, m)
    }

    ghost predicate Valid()
      reads this, pool, pool.Footprint()
    {
      Ready() && EntryOk(adj, entry, maxLevel) && marked <= adj.Keys
    }

    constructor (nlinks: nat, ef: nat, max: nat, infinity: real)
      requires 0 < nlinks && 2 * nlinks < 0x1_0000
      ensures Valid() && fresh(pool) && fresh(pool.Footprint()) && adj == map[] && marked == {}
      ensures m == nlinks && maxElements == max && inf == infinity && entry == maxLevel == -1
      ensures efConstruction >= ef && efConstruction >= nlinks && (efConstruction == ef || efConstruction == nlinks)
    {
      m := nlinks;
      efConstruction := if ef < nlinks then nlinks else ef;
      maxElements := max;
      inf := infinity;
      pool := new VisitedListPool(max);
      adj, entry, maxLevel, marked := map[], -1, -1, {};
    }

    method MarkDelete(id: nat)
      requires Valid()
      modifies `marked
      ensures Valid()
      ensures marked == if id in adj then old(marked) + {id} else old(marked)
    {
      if id in adj {
        marked := marked + {id};
      }
    }

    ghost function SearchTask(ep: nat, layer: nat, dist: nat -> real): Task
      reads this
    {
      Task(adj, layer, ep, efConstruction, ConstructionQuery(dist, marked, inf))
    }

    method SearchBaseLayer(ep: nat, dist: nat -> real, layer: nat)
      returns (top: set<nat>, ghost log: seq<nat>)
      requires Ready() && HasLevel(adj, ep, layer)
      modifies pool, pool.Footprint()
      ensures Ready() && fresh(pool.Footprint() - old(pool.Footprint()))
      ensures Completed(SearchTask(ep, layer, dist), top, log)
    {
      hide Found, Settled, LinksOk, VisitedListPool.Valid, Ran, Ended;
      var t := Task(adj, layer, ep, efConstruction, ConstructionQuery(dist, marked, inf));
      var complete;
      ghost var order;
      top, complete, log, order := BestFirst(t, m, false, 0, pool);
    }

    lemma ReadyParts()
      requires Ready()
      ensures 0 < m <= efConstruction && LinksOk(adj, m) && this !in pool.Footprint()
    {
    }

    /** Other lists for the same elements. */
    method Relink(now: Adj)
      requires Ready() && LinksOk(now, m) && now.Keys == adj.Keys
      modifies `adj
      ensures Ready() && adj == now && pool.Footprint() == old(pool.Footprint())
    {
      hide LinksOk, VisitedListPool.Valid;
      adj := now;
    }

    /** Links the new element `cur` on one level. `ok` is false when no candidate was
        found, which leaves the original without a neighbour to read. */
    method InsertAt(cur: nat, start: nat, level: nat, dist: nat -> real, d: Metric)
      returns (ok: bool, next: nat)
      requires Ready() && HasLevel(adj, cur, level) && Pending(adj, cur, level)
      requires HasLevel(adj, start, level) && start != cur
      requires entry >= 0 && HasLevel(adj, entry, level) && entry != cur
      modifies `adj, pool, pool.Footprint()
      ensures Ready() && fresh(pool.Footprint() - old(pool.Footprint()))
      ensures start !in marked ==> ok
      ensures ok ==> Inserted(old(adj), adj, cur, level) && HasLevel(adj, next, level) && next != cur
      ensures ok ==>
                Joined(old(adj), adj, start, next, m, efConstruction, marked, inf, entry, cur, level, false, dist, d)
    {
      hide Completed, LinksOk, Pending, Inserted, Unlinked, VisitedListPool.Valid, Joined;
      ReadyParts();
      var top, log := SearchBaseLayer(start, dist, level);
      ReadyParts();
      var now;
      ok, now, next := JoinNew(adj, m, efConstruction, marked, inf, entry, cur, start, level, dist, d, top, log);
      if ok {
        Relink(now);
      }
    }

    /** Links the new element on the levels `high` down to 0. */
    method Insert(cur: nat, start: nat, high: nat, dist: nat -> real, d: Metric)
      returns (ok: bool, ghost stages: seq<Adj>, ghost starts: seq<nat>)
      requires Ready() && HasLevel(adj, cur, high) && Pending(adj, cur, high)
      requires HasLevel(adj, start, high) && start != cur
      requires entry >= 0 && HasLevel(adj, entry, high) && entry != cur
      modifies `adj, pool, pool.Footprint()
      ensures Ready() && fresh(pool.Footprint() - old(pool.Footprint()))
      ensures marked == {} ==> ok
      ensures ok ==> SameShape(old(adj), adj)
      ensures ok ==> forall l :: 0 <= l <= high && HasLevel(adj, cur, l) ==> adj[cur][l] != []
      ensures ok ==>
                && JoinRun(stages, starts, m, efConstruction, marked, inf, entry, cur, high, false, dist, d)
                && |stages| == high + 2 && stages[0] == old(adj) && stages[high + 1] == adj && starts[0] == start
    {
      hide Pending, LinksOk, VisitedListPool.Valid, Joined, JoinRun;
      stages, starts := [adj], [start];
      JoinRunStart(adj, start, m, efConstruction, marked, inf, entry, cur, high, false, dist, d);
      var next := start;
      var level: int := high;
      while level >= 0
        invariant -1 <= level <= high
        invariant Ready() && fresh(pool.Footprint() - old(pool.Footprint()))
        invariant SameShape(old(adj), adj) && Pending(adj, cur, level)
        invariant HasLevel(adj, next, if level < 0 then 0 else level) && next != cur
        invariant forall l :: level < l <= high ==> HasLevel(adj, cur, l) && adj[cur][l] != []
        invariant |stages| == |starts| == high - level + 1
        invariant stages[0] == old(adj) && stages[high - level] == adj
        invariant starts[0] == start && starts[high - level] == next
        invariant JoinRun(stages, starts, m, efConstruction, marked, inf, entry, cur, high, false, dist, d)
        decreases level
      {
        ghost var was := adj;
        ok, next := InsertAt(cur, next, level, dist, d);
        if !ok {
          return;
        }
        JoinRunMore(stages, starts, adj, next, m, efConstruction, marked, inf, entry, cur, high, false, dist, d);
        stages, starts := stages + [adj], starts + [next];
        forall l | level < l <= high ensures HasLevel(adj, cur, l) && adj[cur][l] != [] {
          assert HasLevel(was, cur, l) && Same(was, adj, cur, l);
        }
        level := level - 1;
      }
      ok := true;
    }

    /** From the lists `was` to the present ones, level by level. */
    ghost predicate JoinedFrom(was: Adj, stages: seq<Adj>, starts: seq<nat>, entry: int, id: nat, high: nat, isUpdate: bool,
                               dist: nat -> real, d: Metric)
      reads this
    {
      JoinedAll(was, adj, stages, starts, m, efConstruction, marked, inf, entry, id, high, isUpdate, dist, d)
    }

    /** addPoint, for an id not in the graph and any level drawn for it. */
    method AddPoint(id: nat, level: nat, dist: nat -> real, d: Metric)
      returns (ok: bool, ghost stages: seq<Adj>, ghost starts: seq<nat>)
      requires Valid() && id !in adj && id < maxElements
      modifies `adj, `entry, `maxLevel, pool, pool.Footprint()
      ensures fresh(pool.Footprint() - old(pool.Footprint()))
      ensures ok ==> Valid()
      ensures marked == {} ==> ok
      ensures ok ==> SameShape(old(adj)[id := seq(level + 1, i => [])], adj)
      ensures ok ==> forall l :: 0 <= l <= level && l <= old(maxLevel) ==>
                HasLevel(adj, id, l) && adj[id][l] != []
      ensures ok ==> entry == if level > old(maxLevel) then id else old(entry)
      ensures ok ==> maxLevel == if level > old(maxLevel) then level else old(maxLevel)
      ensures ok && old(adj).Keys != {} ==>
                && JoinedFrom(old(adj)[id := seq(level + 1, i => [])], stages, starts, old(entry), id,
                              if level < old(maxLevel) then level else old(maxLevel), false, dist, d)
                && StartOk(stages[0], starts[0], old(entry), level, old(maxLevel), dist)
    {
      hide LinksOk, Pending, EntryOk, VisitedListPool.Valid, JoinRun, StartOk;
      stages, starts := [], [];
      EntryLevel(adj, entry, maxLevel);
      BlankNode(adj, m, id, level);
      ghost var was := adj;
      adj := adj[id := seq(level + 1, i => [])];
      if entry != -1 {
        ok, stages, starts := Attach(id, level, dist, d);
        if !ok {
          return;
        }
      }
      EntryAfterAdd(was, adj, id, level, entry, maxLevel);
      if level > maxLevel {
        entry, maxLevel := id, level;
      }
      ok := true;
    }

    /** Finds a start by descending from the entry point, then links. */
    method Attach(id: nat, level: nat, dist: nat -> real, d: Metric)
      returns (ok: bool, ghost stages: seq<Adj>, ghost starts: seq<nat>)
      requires Ready() && id in adj && |adj[id]| == level + 1
      requires entry >= 0 && HasLevel(adj, entry, maxLevel) && entry != id
      requires forall high :: high <= level ==> Pending(adj, id, high)
      requires forall l: nat :: Unlinked(adj, id, l)
      modifies `adj, pool, pool.Footprint()
      ensures Ready() && fresh(pool.Footprint() - old(pool.Footprint()))
      ensures marked == {} ==> ok
      ensures ok ==> SameShape(old(adj), adj)
      ensures ok ==> forall l :: 0 <= l <= level && l <= maxLevel && HasLevel(adj, id, l) ==>
                adj[id][l] != []
      ensures ok ==>
                && JoinedFrom(old(adj), stages, starts, entry, id, if level < maxLevel then level else maxLevel, false, dist, d)
                && StartOk(stages[0], starts[0], entry, level, maxLevel, dist)
    {
      hide LinksOk, Pending, Unlinked, VisitedListPool.Valid, JoinRun, StartOk;
      var start := FindStart(adj, m, entry, level, maxLevel, dist);
      ok, stages, starts := Insert(id, start, if level < maxLevel then level else maxLevel, dist, d);
    }

    /** Reconnects the updated element on one level. `ok` is false when the element is the
        marked entry point and would be offered itself as a neighbour. */
    method RelinkAt(id: nat, start: nat, level: nat, dist: nat -> real, d: Metric)
      returns (ok: bool, next: nat)
      requires Ready() && HasLevel(adj, id, level) && HasLevel(adj, start, level)
      requires entry >= 0 && HasLevel(adj, entry, level)
      modifies `adj, pool, pool.Footprint()
      ensures Ready() && fresh(pool.Footprint() - old(pool.Footprint()))
      ensures SameShape(old(adj), adj) && HasLevel(adj, next, level)
      ensures !(id == entry && entry in marked) ==> ok
      ensures ok ==>
                Joined(old(adj), adj, start, next, m, efConstruction, marked, inf, entry, id, level, true, dist, d)
    {
      hide Completed, LinksOk, Pending, Inserted, Unlinked, VisitedListPool.Valid, Joined;
      ReadyParts();
      var top, log := SearchBaseLayer(start, dist, level);
      ReadyParts();
      var now;
      ok, now, next := JoinAgain(adj, m, efConstruction, marked, inf, entry, id, start, level, dist, d, top, log);
      Relink(now);
    }

    /** repairConnectionsForUpdate, for an element of level `level`. */
    method Repair(id: nat, level: nat, dist: nat -> real, d: Metric)
      returns (ok: bool, ghost stages: seq<Adj>, ghost starts: seq<nat>)
      requires Ready() && HasLevel(adj, id, level)
      requires entry >= 0 && level <= maxLevel && HasLevel(adj, entry, maxLevel)
      modifies `adj, pool, pool.Footprint()
      ensures Ready() && fresh(pool.Footprint() - old(pool.Footprint()))
      ensures SameShape(old(adj), adj)
      ensures !(id == entry && entry in marked) ==> ok
      ensures ok ==>
                && JoinedFrom(old(adj), stages, starts, entry, id, level, true, dist, d)
                && StartOk(stages[0], starts[0], entry, level, maxLevel, dist)
    {
      hide LinksOk, Unlinked, VisitedListPool.Valid, Joined, JoinRun, StartOk;
      var next := FindStart(adj, m, entry, level, maxLevel, dist);
      stages, starts := [adj], [next];
      JoinRunStart(adj, next, m, efConstruction, marked, inf, entry, id, level, true, dist, d);
      ghost var start := next;
      var l: int := level;
      while l >= 0
        invariant -1 <= l <= level
        invariant Ready() && fresh(pool.Footprint() - old(pool.Footprint()))
        invariant SameShape(old(adj), adj)
        invariant HasLevel(adj, next, if l < 0 then 0 else l)
        invariant |stages| == |starts| == level - l + 1
        invariant stages[0] == old(adj) && stages[level - l] == adj
        invariant starts[0] == start && starts[level - l] == next
        invariant JoinRun(stages, starts, m, efConstruction, marked, inf, entry, id, level, true, dist, d)
        decreases l
      {
        ok, next := RelinkAt(id, next, l, dist, d);
        if !ok {
          return;
        }
        JoinRunMore(stages, starts, adj, next, m, efConstruction, marked, inf, entry, id, level, true, dist, d);
        stages, starts := stages + [adj], starts + [next];
        l := l - 1;
      }
      ok := true;
    }

    /** updatePoint: the lists around the element are refreshed layer by layer, then the
        element is linked anew on each of its levels. */
    method UpdatePoint(id: nat, dist: nat -> real, d: Metric, dice: Dice)
      returns (ok: bool, ghost refreshed: seq<Adj>, ghost stages: seq<Adj>, ghost starts: seq<nat>)
      requires Valid() && id in adj
      modifies `adj, pool, pool.Footprint()
      ensures ok ==> Valid()
      ensures fresh(pool.Footprint() - old(pool.Footprint()))
      ensures SameShape(old(adj), adj)
      ensures !(id == entry && entry in marked) ==> ok
      ensures old(adj).Keys == {id} ==> adj == old(adj)
      ensures old(adj).Keys != {id} ==>
                && RefreshRun(refreshed, efConstruction, m, id, d, dice)
                && |refreshed| == |old(adj)[id]| + 1 && refreshed[0] == old(adj)
      ensures old(adj).Keys != {id} && dice.Certain() ==> EveryRefreshed(refreshed, efConstruction, m, id, d)
      ensures old(adj).Keys != {id} && ok ==>
                && JoinedFrom(refreshed[|old(adj)[id]|], stages, starts, entry, id, |old(adj)[id]| - 1, true, dist, d)
                && StartOk(stages[0], starts[0], entry, |old(adj)[id]| - 1, maxLevel, dist)
    {
      hide LinksOk, EntryOk, VisitedListPool.Valid, JoinRun, RefreshRun, StartOk, EveryRefreshed, Dice.Certain;
      refreshed, stages, starts := [], [], [];
      EntryLevel(adj, entry, maxLevel);
      assert adj.Keys == {id} ==> |adj.Keys| == 1;
      if entry == id && |adj| == 1 {
        OnlyKey(adj, id);
        return true, [], [], [];
      }
      ghost var was := adj;
      adj, refreshed := RefreshAll(adj, m, efConstruction, id, d, dice);
      if dice.Certain() {
        CertainRun(refreshed, efConstruction, m, id, d, dice);
      }
      ok, stages, starts := Repair(id, |adj[id]| - 1, dist, d);
      EntrySame(was, adj, entry, maxLevel);
    }

    /** searchKnn: the `k` closest of what a search from the end of the descent holds; the search
        is cut only by the step limit. */
    method SearchKnn(k: nat, q: Query, efSearch: nat, check: bool)
      returns (r: set<nat>, complete: bool, ghost start: nat, ghost all: set<nat>, ghost log: seq<nat>,
               ghost order: seq<nat>)
      requires Valid() && 0 < efSearch && q.marked == marked
      modifies pool, pool.Footprint()
      ensures Valid() && fresh(pool.Footprint() - old(pool.Footprint()))
      ensures adj.Keys == {} ==> r == {}
      ensures adj.Keys != {} ==> HasLevel(adj, start, 0) && Descended(adj, maxLevel, 0, q.dist, entry, start)
      ensures adj.Keys != {} && maxLevel > 0 ==> LocalMinimum(adj, start, 1, q.dist)
      ensures adj.Keys != {} && maxLevel == 0 ==> start == entry
      ensures adj.Keys != {} ==>
                var t := Task(adj, 0, start, if efSearch < k then k else efSearch, q);
                && Found(t, all, log) && Ran(t, log, order)
                && (if complete then Settled(t, all, log) && Ended(t, all, order) else check && |order| == efSearch + 1)
                && (complete && check ==> |order| <= efSearch)
                && (!complete ==> CutOff(t, log, efSearch))
      ensures adj.Keys != {} ==> r <= all && Found(Task(adj, 0, start, k, q), r, log)
      ensures forall n :: n in r ==> Admitted(q, n)
      ensures adj.Keys != {} ==>
                forall n :: n in log && n !in r && Admitted(q, n) ==> |r| == k && NoFarther(r, n, q.dist)
      ensures adj.Keys != {} && complete ==> Settled(Task(adj, 0, start, k, q), r, log)
    {
      hide LinksOk, EntryOk, Found, Settled, Unlinked, LocalMinimum, VisitedListPool.Valid, Ran, Ended, Admitted;
      EntryLevel(adj, entry, maxLevel);
      if |adj| == 0 {
        assert |adj.Keys| == 0;
        return {}, true, 0, {}, [], [];
      }
      assert entry != -1;
      var from := Descend(adj, m, entry, maxLevel, 0, q.dist);
      start := from;
      MinimumLevel(adj, start, q.dist);
      var t := Task(adj, 0, from, if efSearch < k then k else efSearch, q);
      r, complete, log, order := BestFirst(t, m, check, efSearch, pool);
      all := r;
      r := Cut(t, k, r, log, complete);
      AnswerAdmitted(Task(adj, 0, start, k, q), r, log);
    }

    ghost function Here(): Graph
      reads this
    {
      Graph(adj, entry, maxLevel)
    }

    ghost function Settings(): Params
      reads this
    {
      Params(m, efConstruction, maxElements, inf)
    }

    /** One call without deletion marks: it is made if it can be. */
    method Do(op: Op)
      requires Valid() && marked == {}
      modifies `adj, `entry, `maxLevel, pool, pool.Footprint()
      ensures Valid() && marked == {} && fresh(pool.Footprint() - old(pool.Footprint()))
      ensures RunStep(old(Here()), Here(), Settings(), op)
    {
      hide LinksOk, VisitedListPool.Valid, JoinRun, StartOk, SameShape, RefreshRun, EveryRefreshed, Dice.Certain, EntryOk;
      EntryLevel(adj, entry, maxLevel);
      if op.Add? && op.id !in adj && op.id < maxElements {
        var ok;
        ghost var stages, starts;
        ok, stages, starts := AddPoint(op.id, op.level, op.dist, op.d);
        assert old(adj).Keys != {} ==> Attached(old(Here()), Here(), Settings(), op, stages, starts);
      } else if op.Update? && op.id in adj {
        var ok;
        ghost var refreshed, stages, starts;
        ok, refreshed, stages, starts := UpdatePoint(op.id, op.dist, op.d, op.dice);
        assert old(adj).Keys != {op.id} ==> Relinked(old(Here()), Here(), Settings(), op, refreshed, stages, starts);
      }
    }

    /** Any sequence of insertions and updates without deletion marks keeps the graph
        well-formed, whatever levels are drawn and whatever the distances are, and every call does
        what it alone does. */
    method Run(ops: seq<Op>) returns (ghost trace: seq<Graph>)
      requires Valid() && marked == {}
      modifies this, pool, pool.Footprint()
      ensures Valid() && marked == {} && old(adj).Keys <= adj.Keys
      ensures forall n :: n in old(adj) ==> |adj[n]| == |old(adj)[n]|
      ensures forall op :: op in ops && op.id < maxElements && op.Add? ==> op.id in adj
      ensures |trace| == |ops| + 1 && trace[0] == old(Here()) && trace[|ops|] == Here()
      ensures forall i :: 0 <= i < |ops| ==> RunStep(trace[i], trace[i + 1], Settings(), ops[i])
    {
      hide LinksOk, EntryOk, VisitedListPool.Valid, RunStep;
      trace := [Here()];
      for i := 0 to |ops|
        invariant Valid() && marked == {} && old(adj).Keys <= adj.Keys
        invariant fresh(pool.Footprint() - old(pool.Footprint()))
        invariant forall n :: n in old(adj) ==> |adj[n]| == |old(adj)[n]|
        invariant forall j :: 0 <= j < i && ops[j].id < maxElements && ops[j].Add? ==> ops[j].id in adj
        invariant |trace| == i + 1 && trace[0] == old(Here()) && trace[i] == Here()
        invariant forall j :: 0 <= j < i ==> RunStep(trace[j], trace[j + 1], Settings(), ops[j])
      {
        ghost var before := Here();
        Do(ops[i]);
        StepShape(before, Here(), Settings(), ops[i]);
        trace := trace + [Here()];
      }
    }
  }

  /** No element goes, and every one keeps its levels. */
  lemma StepShape(g: Graph, h: Graph, c: Params, op: Op)
    requires RunStep(g, h, c, op)
    ensures g.adj.Keys <= h.adj.Keys && forall n :: n in g.adj ==> |h.adj[n]| == |g.adj[n]|
    ensures op.Add? && op.id < c.max ==> op.id in h.adj
  {
    hide Attached, Relinked;
    if op.Add? && op.id !in g.adj && op.id < c.max {
      var was := g.adj[op.id := seq(op.level + 1, i => [])];
      assert forall n :: n in g.adj ==> n in was && |was[n]| == |g.adj[n]|;
    }
  }
}
