/** The link lists of the HNSW graph: what a well-formed graph is, the neighbour
    selection heuristic, and the rewriting of one list. */
module HnswGraph {
  import opened Heaps
  import opened Lists

  /** A node's link lists, one for each level 0 .. level of the node. */
  type Adj = map<nat, seq<seq<nat>>>

  type Metric = (nat, nat) -> real

  /** maxM0_ on level 0 and maxM_ above, with maxM0_ = 2 * M_ and maxM_ = M_. */
  function Cap(m: nat, level: nat): nat {
    if level == 0 then 2 * m else m
  }

  ghost predicate HasLevel(adj: Adj, n: nat, level: int) {
    n in adj && 0 <= level < |adj[n]|
  }

  ghost predicate ListOk(adj: Adj, m: nat, n: nat, level: nat, s: seq<nat>) {
    && NoDup(s) && n !in s && |s| <= (if level == 0 then 2 * m else m)
    && forall x :: x in s ==> HasLevel(adj, x, level)
  }

  /** Every link list is duplicate-free, without a self-link, within its bound, and
      leads only to existing nodes that reach the level of the list. */
  ghost predicate LinksOk(adj: Adj, m: nat) {
    forall n, level :: HasLevel(adj, n, level) ==> ListOk(adj, m, n, level, adj[n][level])
  }

  /** No list of the level leads to `n`. */
  ghost predicate Unlinked(adj: Adj, n: nat, level: nat) {
    forall k :: HasLevel(adj, k, level) ==> n !in adj[k][level]
  }

  ghost predicate SameShape(a: Adj, b: Adj) {
    a.Keys == b.Keys && forall n :: n in a ==> |a[n]| == |b[n]|
  }

  function Put(adj: Adj, n: nat, level: nat, s: seq<nat>): (r: Adj)
    requires HasLevel(adj, n, level)
    ensures SameShape(adj, r) && r[n][level] == s
    ensures forall k, l :: HasLevel(adj, k, l) && (k != n || l != level) ==> r[k][l] == adj[k][l]
  {
    adj[n := adj[n][level := s]]
  }

  lemma PutKeepsLinks(adj: Adj, m: nat, n: nat, level: nat, s: seq<nat>)
    requires LinksOk(adj, m) && HasLevel(adj, n, level) && ListOk(adj, m, n, level, s)
    ensures LinksOk(Put(adj, n, level, s), m)
  {
    var r := Put(adj, n, level, s);
    forall k, l | HasLevel(r, k, l) ensures ListOk(r, m, k, l, r[k][l]) {
      assert HasLevel(adj, k, l);
      var t := if k == n && l == level then s else adj[k][l];
      assert ListOk(adj, m, k, l, t);
      assert forall x :: x in t ==> HasLevel(adj, x, l);
    }
  }

  /** The distance to a fixed node, as the key of a queue. */
  function To(d: Metric, n: nat): nat -> real {
    (x: nat) => d(x, n)
  }

  function From(d: Metric, n: nat): nat -> real {
    (x: nat) => d(n, x)
  }

  /** No kept node is nearer to a kept node taken before it than to the base; of two equally
      near ones either was taken first. */
  ghost predicate Diverse(r: set<nat>, key: nat -> real, d: Metric) {
    && (forall s, c :: s in r && c in r && key(s) < key(c) ==> d(s, c) >= key(c))
    && forall s, c :: s in r && c in r && s != c && key(s) == key(c) ==> d(s, c) >= key(c) || d(c, s) >= key(s)
  }

  ghost predicate Shadowed(r: set<nat>, c: nat, key: nat -> real, d: Metric) {
    exists s :: s in r && key(s) <= key(c) && d(s, c) < key(c)
  }

  ghost predicate NoFarther(r: set<nat>, c: nat, key: nat -> real) {
    forall s :: s in r ==> key(s) <= key(c)
  }

  /** What the heuristic keeps of the candidates `q`: everything when there are fewer
      than `m`; otherwise at most `m` diverse ones, and a candidate is dropped only for
      a kept node that shadows it or because `m` no farther ones were kept. */
  ghost predicate Selected(q: set<nat>, r: set<nat>, m: nat, key: nat -> real, d: Metric) {
    && r <= q
    && (|q| < m ==> r == q)
    && (|q| >= m ==>
          && |r| <= m && Diverse(r, key, d)
          && forall c :: c in q && c !in r ==>
               Shadowed(r, c, key, d) || (|r| == m && NoFarther(r, c, key)))
  }

  lemma SelectedNonEmpty(q: set<nat>, r: set<nat>, m: nat, key: nat -> real, d: Metric)
    requires Selected(q, r, m, key, d) && q != {} && m > 0
    ensures r != {} && |r| <= m
  {
    var c :| c in q;
    if c !in r {
      assert Shadowed(r, c, key, d) || (|r| == m && NoFarther(r, c, key));
    }
  }

  /** The selection loop: `kept` was taken from the near end of `q`, `rest` remains. */
  ghost predicate Selecting(q: set<nat>, kept: set<nat>, rest: set<nat>,
                            key: nat -> real, d: Metric) {
    && kept <= q && rest <= q && kept !! rest
    && (forall y :: y in rest ==> NoFarther(kept, y, key))
    && Diverse(kept, key, d)
    && forall c :: c in q && c !in kept && c !in rest ==> Shadowed(kept, c, key, d)
  }

  lemma SelectingStep(q: set<nat>, kept: set<nat>, rest: set<nat>, key: nat -> real, d: Metric,
                      c: nat, good: bool)
    requires Selecting(q, kept, rest, key, d) && IsClosest(rest, key, c)
    requires good ==> forall s :: s in kept ==> d(s, c) >= key(c)
    requires !good ==> exists s :: s in kept && d(s, c) < key(c)
    ensures Selecting(q, if good then kept + {c} else kept, rest - {c}, key, d)
  {
    assert NoFarther(kept, c, key);
    var next := if good then kept + {c} else kept;
    forall x | x in q && x !in next && x !in rest - {c} ensures Shadowed(next, x, key, d) {
      if x == c {
        var s :| s in kept && d(s, c) < key(c);
        assert s in next && key(s) <= key(c);
      } else {
        assert Shadowed(kept, x, key, d);
        var s :| s in kept && key(s) <= key(x) && d(s, x) < key(x);
        assert s in next;
      }
    }
  }

  method IsGood(kept: seq<nat>, c: nat, key: nat -> real, d: Metric) returns (good: bool)
    ensures good <==> forall s :: s in kept ==> d(s, c) >= key(c)
  {
    good := true;
    for i := 0 to |kept|
      invariant forall j :: 0 <= j < i ==> d(kept[j], c) >= key(c)
    {
      if d(kept[i], c) < key(c) {
        return false;
      }
    }
  }

  method NeighborsByHeuristic(q: set<nat>, m: nat, key: nat -> real, d: Metric)
    returns (r: set<nat>)
    ensures Selected(q, r, m, key, d)
  {
    if |q| < m {
      return q;
    }
    var rest, kept := q, [];
    while rest != {} && |kept| < m
      invariant NoDup(kept) && |kept| <= m
      invariant Selecting(q, Elements(kept), rest, key, d)
      decreases |rest|
    {
      var c, others := PopClosest(rest, key);
      var good := IsGood(kept, c, key, d);
      SelectingStep(q, Elements(kept), rest, key, d, c, good);
      rest := others;
      if good {
        Appended(kept, c);
        kept := kept + [c];
      }
    }
    NoDupSize(kept);
    r := Elements(kept);
  }

  /** How a selected neighbour `n` takes up a link back to `cur`. */
  ghost predicate LinkedBack(was: seq<nat>, now: seq<nat>, n: nat, cur: nat, cap: nat,
                             isUpdate: bool, d: Metric) {
    if isUpdate && cur in was then
      now == was
    else if |was| < cap then
      now == was + [cur]
    else
      NoDup(now) && Selected(Elements(was) + {cur}, Elements(now), cap, To(d, n), d)
  }

  /** The new list of neighbour `n`, whose list is `was`. */
  method LinkBack(was: seq<nat>, n: nat, cur: nat, cap: nat, isUpdate: bool, d: Metric)
    returns (now: seq<nat>)
    requires NoDup(was) && |was| <= cap
    requires 0 < cap && (!isUpdate ==> cur !in was)
    ensures LinkedBack(was, now, n, cur, cap, isUpdate, d)
    ensures NoDup(now) && |now| <= cap && Elements(now) <= Elements(was) + {cur}
  {
    if isUpdate && cur in was {
      return was;
    }
    if |was| < cap {
      now := was + [cur];
      Appended(was, cur);
    } else {
      var candidates := Elements(was) + {cur};
      var r := NeighborsByHeuristic(candidates, cap, To(d, n), d);
      assert |candidates| > cap by { NoDupSize(was); }
      now := Drain(r, To(d, n));
    }
  }
}
