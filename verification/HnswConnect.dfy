/** Linking an element into one level of the graph, and refreshing the lists around
    an updated element. */
module HnswConnect {
  import opened Heaps
  import opened Lists
  import opened HnswGraph

  /** A list that a call leaves alone. */
  ghost predicate Same(was: Adj, now: Adj, n: nat, level: int) {
    HasLevel(was, n, level) && HasLevel(now, n, level) ==> now[n][level] == was[n][level]
  }

  /** After `done` of the selected neighbours have been linked back. */
  ghost predicate Connecting(was: Adj, now: Adj, m: nat, cur: nat, level: nat, sel: seq<nat>,
                             done: nat, isUpdate: bool, d: Metric) {
    && done <= |sel| && SameShape(was, now) && LinksOk(now, m)
    && HasLevel(was, cur, level) && now[cur][level] == sel
    && (forall i :: 0 <= i < |sel| ==> HasLevel(was, sel[i], level) && sel[i] != cur)
    && (forall i :: 0 <= i < done ==>
          LinkedBack(was[sel[i]][level], now[sel[i]][level], sel[i], cur, if level == 0 then 2 * m else m, isUpdate, d))
    && (forall n, l :: (l != level || (n != cur && n !in sel[..done])) ==> Same(was, now, n, l))
  }

  /** What connecting `cur` on `level` to candidates `q` does: its list becomes the
      selection, each selected neighbour takes up the link back, no other list changes. */
  ghost predicate Connected(was: Adj, now: Adj, m: nat, cur: nat, q: set<nat>, level: nat,
                            isUpdate: bool, dist: nat -> real, d: Metric) {
    && HasLevel(was, cur, level) && SameShape(was, now)
    && var sel := now[cur][level];
       && Connecting(was, now, m, cur, level, sel, |sel|, isUpdate, d)
       && Selected(q, Elements(sel), m, dist, d) && Descending(sel, dist)
  }

  lemma ConnectingStep(was: Adj, now: Adj, m: nat, cur: nat, level: nat, sel: seq<nat>,
                       done: nat, isUpdate: bool, d: Metric, list: seq<nat>)
    requires Connecting(was, now, m, cur, level, sel, done, isUpdate, d) && done < |sel| && NoDup(sel)
    requires HasLevel(now, sel[done], level) && ListOk(now, m, sel[done], level, list)
    requires LinkedBack(was[sel[done]][level], list, sel[done], cur, if level == 0 then 2 * m else m, isUpdate, d)
    ensures Connecting(was, Put(now, sel[done], level, list), m, cur, level, sel, done + 1, isUpdate, d)
  {
    hide LinkedBack, LinksOk, ListOk;
    var n := sel[done];
    var next := Put(now, n, level, list);
    PutKeepsLinks(now, m, n, level, list);
    assert sel[..done + 1] == sel[..done] + [n];
    forall k, l | (l != level || (k != cur && k !in sel[..done + 1])) ensures Same(was, next, k, l) {
      assert Same(was, now, k, l);
    }
    forall i | 0 <= i < done + 1
      ensures LinkedBack(was[sel[i]][level], next[sel[i]][level], sel[i], cur, if level == 0 then 2 * m else m, isUpdate, d)
    {
      assert HasLevel(was, sel[i], level);
    }
  }

  /** mutuallyConnectNewElement. The assertions are the negations of the conditions
      under which the original throws, but for the one on slots behind the count of a list. */
  method Connect(was: Adj, m: nat, cur: nat, q: set<nat>, level: nat, isUpdate: bool,
                 dist: nat -> real, d: Metric)
    returns (now: Adj, next: nat)
    requires LinksOk(was, m) && 0 < m && HasLevel(was, cur, level)
    requires q != {} && cur !in q && forall x :: x in q ==> HasLevel(was, x, level)
    requires !isUpdate ==> was[cur][level] == [] && Unlinked(was, cur, level)
    ensures LinksOk(now, m) && Connected(was, now, m, cur, q, level, isUpdate, dist, d)
    ensures next in q && next == now[cur][level][0]
  {
    var r := NeighborsByHeuristic(q, m, dist, d);
    SelectedNonEmpty(q, r, m, dist, d);
    assert |r| <= m;
    var sel := Drain(r, dist);
    next := sel[0];
    assert next in Elements(sel);
    assert isUpdate || was[cur][level] == [];
    assert forall i :: 0 <= i < |sel| ==> sel[i] in Elements(sel) && HasLevel(was, sel[i], level);
    PutKeepsLinks(was, m, cur, level, sel);
    now := Put(was, cur, level, sel);
    for i := 0 to |sel|
      invariant Connecting(was, now, m, cur, level, sel, i, isUpdate, d)
    {
      now := LinkNeighbor(was, now, m, cur, level, sel, i, isUpdate, d);
    }
  }

  method LinkNeighbor(was: Adj, now: Adj, m: nat, cur: nat, level: nat, sel: seq<nat>, i: nat,
                      isUpdate: bool, d: Metric)
    returns (next: Adj)
    requires LinksOk(was, m) && 0 < m && NoDup(sel) && i < |sel|
    requires Connecting(was, now, m, cur, level, sel, i, isUpdate, d)
    requires !isUpdate ==> Unlinked(was, cur, level)
    ensures Connecting(was, next, m, cur, level, sel, i + 1, isUpdate, d)
  {
    var n := sel[i];
    assert HasLevel(was, n, level) && n != cur;
    assert n !in sel[..i] && Same(was, now, n, level);
    var list := now[n][level];
    assert ListOk(was, m, n, level, list);
    assert |list| <= Cap(m, level);
    var linked := LinkBack(list, n, cur, Cap(m, level), isUpdate, d);
    assert forall x :: x in linked ==> x in Elements(linked);
    assert ListOk(now, m, n, level, linked);
    ConnectingStep(was, now, m, cur, level, sel, i, isUpdate, d, linked);
    next := Put(now, n, level, linked);
  }

  ghost predicate Keeping(seen: set<nat>, kept: set<nat>, size: nat, key: nat -> real) {
    && kept <= seen && |kept| <= size
    && forall c :: c in seen && c !in kept ==> |kept| == size && NoFarther(kept, c, key)
  }

  lemma KeepingStep(seen: set<nat>, kept: set<nat>, size: nat, key: nat -> real, c: nat, x: nat)
    requires Keeping(seen, kept, size, key) && c !in seen && |kept| == size
    requires IsFarthest(kept, key, x)
    ensures key(c) < key(x) ==> Keeping(seen + {c}, kept - {x} + {c}, size, key)
    ensures key(c) >= key(x) ==> Keeping(seen + {c}, kept, size, key)
  {
    assert |kept - {x} + {c}| == |kept|;
    if key(c) < key(x) {
      forall y | y in seen + {c} && y !in kept - {x} + {c} ensures NoFarther(kept - {x} + {c}, y, key) {
        assert y in kept || NoFarther(kept, y, key);
      }
    }
  }

  /** The `size` closest of the candidates `cands`, visited in any order. */
  method KeepClosest(cands: set<nat>, size: nat, key: nat -> real) returns (kept: set<nat>)
    requires 0 < size <= |cands|
    ensures Keeping(cands, kept, size, key) && |kept| == size
  {
    kept := {};
    var rest := cands;
    ghost var seen := {};
    while rest != {}
      invariant seen == cands - rest && rest <= cands && Keeping(seen, kept, size, key)
      decreases |rest|
    {
      var c :| c in rest;
      rest := rest - {c};
      if |kept| < size {
        kept := kept + {c};
      } else {
        var x, others := PopFarthest(kept, key);
        KeepingStep(seen, kept, size, key, c, x);
        if key(c) < key(x) {
          kept := others + {c};
        }
      }
      seen := seen + {c};
    }
    assert seen == cands;
    assert kept == cands || |kept| == size;
  }

  ghost predicate WithinTwo(adj: Adj, id: nat, layer: nat, c: nat)
    requires HasLevel(adj, id, layer)
  {
    || c == id || c in adj[id][layer]
    || exists n :: n in adj[id][layer] && HasLevel(adj, n, layer) && c in adj[n][layer]
  }

  /** The element, its neighbours, and the neighbours of some of these. */
  ghost predicate Around(adj: Adj, id: nat, layer: nat, cands: set<nat>) {
    && HasLevel(adj, id, layer) && id in cands && Elements(adj[id][layer]) <= cands
    && forall c :: c in cands ==> HasLevel(adj, c, layer) && WithinTwo(adj, id, layer, c)
  }

  ghost predicate NearChosen(adj: Adj, layer: nat, chosen: set<nat>, c: nat) {
    exists n :: n in chosen && HasLevel(adj, n, layer) && c in adj[n][layer]
  }

  /** The candidates are the element, its neighbours, and the neighbours of the chosen ones. */
  ghost predicate CandidatesOf(adj: Adj, id: nat, layer: nat, cands: set<nat>, chosen: set<nat>) {
    && HasLevel(adj, id, layer) && chosen <= Elements(adj[id][layer])
    && forall c :: c in cands <==> c == id || c in adj[id][layer] || NearChosen(adj, layer, chosen, c)
  }

  lemma ChosenMore(adj: Adj, layer: nat, chosen: set<nat>, n: nat, c: nat)
    requires HasLevel(adj, n, layer)
    ensures NearChosen(adj, layer, chosen + {n}, c) <==> NearChosen(adj, layer, chosen, c) || c in adj[n][layer]
  {
    if NearChosen(adj, layer, chosen, c) {
      var k :| k in chosen && HasLevel(adj, k, layer) && c in adj[k][layer];
      assert k in chosen + {n};
    }
    if c in adj[n][layer] {
      assert n in chosen + {n};
    }
  }

  /** updateNeighborProbability, and the number drawn for the i-th neighbour on a layer. */
  datatype Dice = Dice(probability: real, draw: (nat, nat) -> real) {
    /** No neighbour is passed over: a draw lies between 0 and 1. */
    ghost predicate Certain() {
      probability >= 1.0 && forall layer: nat, i: nat :: draw(layer, i) <= 1.0
    }
  }

  /** The neighbours that are not passed over. */
  ghost function Chosen(list: seq<nat>, layer: nat, dice: Dice): set<nat> {
    set i: nat | i < |list| && !(dice.draw(layer, i) > dice.probability) :: list[i]
  }

  lemma ChosenNext(list: seq<nat>, layer: nat, dice: Dice, i: nat)
    requires i < |list|
    ensures Chosen(list[..i + 1], layer, dice) ==
            if dice.draw(layer, i) > dice.probability then Chosen(list[..i], layer, dice)
            else Chosen(list[..i], layer, dice) + {list[i]}
  {
    var a, b := list[..i], list[..i + 1];
    forall n | n in Chosen(b, layer, dice) ensures n in Chosen(a, layer, dice) || n == list[i] {
      var k: nat :| k < |b| && !(dice.draw(layer, k) > dice.probability) && b[k] == n;
      assert k < i ==> a[k] == n;
    }
    forall n | n in Chosen(a, layer, dice) ensures n in Chosen(b, layer, dice) {
      var k: nat :| k < |a| && !(dice.draw(layer, k) > dice.probability) && a[k] == n;
      assert b[k] == n;
    }
    assert b[i] == list[i];
    if dice.draw(layer, i) > dice.probability {
      forall n | n in Chosen(b, layer, dice) ensures n in Chosen(a, layer, dice) {
        var k: nat :| k < |b| && !(dice.draw(layer, k) > dice.probability) && b[k] == n;
        assert a[k] == n;
      }
    }
  }

  lemma AllChosen(list: seq<nat>, layer: nat, dice: Dice)
    requires dice.Certain()
    ensures Chosen(list, layer, dice) == Elements(list)
  {
    forall n | n in list ensures n in Chosen(list, layer, dice) {
      var i: nat :| i < |list| && list[i] == n;
    }
  }

  /** The candidates, and the neighbours to refresh. */
  method Gather(adj: Adj, m: nat, id: nat, layer: nat, dice: Dice) returns (cands: set<nat>, neigh: set<nat>)
    requires LinksOk(adj, m) && HasLevel(adj, id, layer)
    ensures Around(adj, id, layer, cands) && CandidatesOf(adj, id, layer, cands, neigh)
    ensures neigh == Chosen(adj[id][layer], layer, dice)
  {
    hide NearChosen, Chosen;
    var one := adj[id][layer];
    cands, neigh := {id}, {};
    assert ListOk(adj, m, id, layer, one);
    NoneChosen(adj, layer, dice);
    assert one[..0] == [];
    for i := 0 to |one|
      invariant forall c :: c in cands <==> c == id || c in one[..i] || NearChosen(adj, layer, neigh, c)
      invariant id in cands && Elements(one[..i]) <= cands
      invariant neigh <= Elements(one) && neigh == Chosen(one[..i], layer, dice)
      invariant forall c :: c in cands ==> HasLevel(adj, c, layer) && WithinTwo(adj, id, layer, c)
    {
      var n := one[i];
      assert n in one && HasLevel(adj, n, layer) && ListOk(adj, m, n, layer, adj[n][layer]);
      assert one[..i + 1] == one[..i] + [n];
      cands := cands + {n};
      ChosenNext(one, layer, dice, i);
      if !(dice.draw(layer, i) > dice.probability) {
        forall c ensures NearChosen(adj, layer, neigh + {n}, c) <==>
                         NearChosen(adj, layer, neigh, c) || c in adj[n][layer]
        {
          ChosenMore(adj, layer, neigh, n, c);
        }
        neigh := neigh + {n};
        cands := cands + Elements(adj[n][layer]);
      }
    }
    assert one[..|one|] == one;
  }

  lemma NoneChosen(adj: Adj, layer: nat, dice: Dice)
    ensures forall c :: !NearChosen(adj, layer, {}, c)
    ensures Chosen([], layer, dice) == {}
  {
  }

  /** How a refreshed list of `n` comes about: the closest `size` of the candidates
      other than `n`, cut by the heuristic. */
  ghost predicate Refreshed(list: seq<nat>, n: nat, cands: set<nat>, size: nat, cap: nat, d: Metric) {
    && NoDup(list)
    && exists kept :: Keeping(cands - {n}, kept, size, From(d, n)) &&
                      Selected(kept, Elements(list), cap, From(d, n), d)
  }

  method RefreshList(adj: Adj, m: nat, ef: nat, n: nat, layer: nat, cands: set<nat>, d: Metric)
    returns (list: seq<nat>)
    requires 0 < m && 0 < ef && n in cands && cands != {n}
    requires forall c :: c in cands ==> HasLevel(adj, c, layer)
    ensures ListOk(adj, m, n, layer, list)
    ensures Refreshed(list, n, cands, if ef < |cands| - 1 then ef else |cands| - 1, if layer == 0 then 2 * m else m, d)
  {
    var others := cands - {n};
    assert |others| == |cands| - 1 && others != {};
    var size := if ef < |others| then ef else |others|;
    var kept := KeepClosest(others, size, From(d, n));
    var r := NeighborsByHeuristic(kept, Cap(m, layer), From(d, n), d);
    list := Drain(r, From(d, n));
    assert forall x :: x in list ==> x in Elements(list);
  }

  /** The first half of updatePoint on one layer: rewrites the lists of some of the
      element's neighbours and no other list. */
  ghost predicate RefreshedAround(was: Adj, now: Adj, ef: nat, m: nat, id: nat, layer: nat,
                                  cands: set<nat>, neigh: set<nat>, d: Metric) {
    && SameShape(was, now) && Around(was, id, layer, cands) && neigh <= Elements(was[id][layer])
    && (forall n, l :: (l != layer || n !in neigh) ==> Same(was, now, n, l))
    && (forall n :: n in neigh && HasLevel(now, n, layer) ==>
          Refreshed(now[n][layer], n, cands, if ef < |cands| - 1 then ef else |cands| - 1,
                    if layer == 0 then 2 * m else m, d))
  }

  lemma RefreshStep(was: Adj, now: Adj, ef: nat, m: nat, id: nat, layer: nat, cands: set<nat>,
                    neigh: set<nat>, d: Metric, n: nat, list: seq<nat>)
    requires RefreshedAround(was, now, ef, m, id, layer, cands, neigh, d)
    requires n in Elements(was[id][layer]) && HasLevel(now, n, layer)
    requires Refreshed(list, n, cands, if ef < |cands| - 1 then ef else |cands| - 1, if layer == 0 then 2 * m else m, d)
    ensures RefreshedAround(was, Put(now, n, layer, list), ef, m, id, layer, cands, neigh + {n}, d)
  {
    hide Refreshed, Around;
    var next := Put(now, n, layer, list);
    forall k, l | (l != layer || k !in neigh + {n}) ensures Same(was, next, k, l) {
      assert Same(was, now, k, l);
    }
  }

  method RefreshNeighbors(was: Adj, m: nat, ef: nat, id: nat, layer: nat, d: Metric, dice: Dice)
    returns (now: Adj, ghost cands: set<nat>, ghost neigh: set<nat>)
    requires LinksOk(was, m) && 0 < m && 0 < ef && HasLevel(was, id, layer)
    ensures LinksOk(now, m) && RefreshedAround(was, now, ef, m, id, layer, cands, neigh, d)
    ensures CandidatesOf(was, id, layer, cands, neigh) && neigh == Chosen(was[id][layer], layer, dice)
  {
    hide RefreshedAround, CandidatesOf, LinksOk, Around, Refreshed, Chosen;
    var all, rest := Gather(was, m, id, layer, dice);
    ChosenLinked(was, id, layer, all, rest);
    ghost var chosen := rest;
    cands, neigh, now := all, {}, was;
    RefreshNone(was, ef, m, id, layer, all, d);
    while rest != {}
      invariant rest <= Elements(was[id][layer]) && neigh + rest == chosen
      invariant LinksOk(now, m) && RefreshedAround(was, now, ef, m, id, layer, cands, neigh, d)
      decreases |rest|
    {
      var n :| n in rest;
      rest := rest - {n};
      RefreshTarget(was, now, ef, m, id, layer, cands, neigh, d, n);
      var list := RefreshList(now, m, ef, n, layer, all, d);
      RefreshStep(was, now, ef, m, id, layer, cands, neigh, d, n, list);
      PutKeepsLinks(now, m, n, layer, list);
      now := Put(now, n, layer, list);
      neigh := neigh + {n};
    }
    assert neigh == chosen;
  }

  lemma RefreshNone(was: Adj, ef: nat, m: nat, id: nat, layer: nat, cands: set<nat>, d: Metric)
    requires Around(was, id, layer, cands)
    ensures RefreshedAround(was, was, ef, m, id, layer, cands, {}, d)
  {
    hide Around;
    AroundHas(was, id, layer, cands);
  }

  lemma AroundHas(adj: Adj, id: nat, layer: nat, cands: set<nat>)
    requires Around(adj, id, layer, cands)
    ensures HasLevel(adj, id, layer)
  {
  }

  lemma RefreshTarget(was: Adj, now: Adj, ef: nat, m: nat, id: nat, layer: nat, cands: set<nat>, neigh: set<nat>,
                      d: Metric, n: nat)
    requires LinksOk(was, m) && RefreshedAround(was, now, ef, m, id, layer, cands, neigh, d)
    requires HasLevel(was, id, layer) && n in Elements(was[id][layer])
    ensures n in cands && cands != {n} && HasLevel(now, n, layer)
    ensures forall c :: c in cands ==> HasLevel(now, c, layer)
  {
    hide Refreshed, WithinTwo;
    assert ListOk(was, m, id, layer, was[id][layer]);
    assert n != id && id in cands;
  }

  lemma ChosenLinked(adj: Adj, id: nat, layer: nat, cands: set<nat>, chosen: set<nat>)
    requires CandidatesOf(adj, id, layer, cands, chosen)
    ensures HasLevel(adj, id, layer) && chosen <= Elements(adj[id][layer])
  {
  }

  ghost predicate LayerRefreshed(was: Adj, now: Adj, ef: nat, m: nat, id: nat, layer: nat, d: Metric, dice: Dice) {
    exists cands, neigh ::
      && RefreshedAround(was, now, ef, m, id, layer, cands, neigh, d) && CandidatesOf(was, id, layer, cands, neigh)
      && neigh == Chosen(was[id][layer], layer, dice)
  }

  /** The first half of updatePoint, layer by layer from the ground up. */
  ghost predicate RefreshRun(stages: seq<Adj>, ef: nat, m: nat, id: nat, d: Metric, dice: Dice) {
    forall l :: 0 <= l < |stages| - 1 ==> LayerRefreshed(stages[l], stages[l + 1], ef, m, id, l, d, dice)
  }

  lemma RefreshRunMore(stages: seq<Adj>, now: Adj, ef: nat, m: nat, id: nat, d: Metric, dice: Dice)
    requires stages != [] && RefreshRun(stages, ef, m, id, d, dice)
    requires LayerRefreshed(stages[|stages| - 1], now, ef, m, id, |stages| - 1, d, dice)
    ensures RefreshRun(stages + [now], ef, m, id, d, dice)
  {
    hide LayerRefreshed;
    var more := stages + [now];
    forall l | 0 <= l < |more| - 1 ensures LayerRefreshed(more[l], more[l + 1], ef, m, id, l, d, dice) {
      assert more[l] == stages[l];
    }
  }

  method RefreshAll(was: Adj, m: nat, ef: nat, id: nat, d: Metric, dice: Dice) returns (now: Adj, ghost stages: seq<Adj>)
    requires LinksOk(was, m) && 0 < m && 0 < ef && id in was
    ensures LinksOk(now, m) && SameShape(was, now)
    ensures |stages| == |was[id]| + 1 && stages[0] == was && stages[|was[id]|] == now
    ensures RefreshRun(stages, ef, m, id, d, dice)
  {
    hide LinksOk, RefreshRun, LayerRefreshed, Around, Refreshed, CandidatesOf;
    now, stages := was, [was];
    assert RefreshRun(stages, ef, m, id, d, dice) by { OneStage(was, ef, m, id, d, dice); }
    for layer := 0 to |was[id]|
      invariant LinksOk(now, m) && SameShape(was, now)
      invariant |stages| == layer + 1 && stages[0] == was && stages[layer] == now
      invariant RefreshRun(stages, ef, m, id, d, dice)
    {
      ghost var cands, neigh;
      ghost var before := now;
      now, cands, neigh := RefreshNeighbors(now, m, ef, id, layer, d, dice);
      OneLayer(before, now, ef, m, id, layer, cands, neigh, d, dice);
      RefreshRunMore(stages, now, ef, m, id, d, dice);
      stages := stages + [now];
    }
  }

  lemma OneStage(was: Adj, ef: nat, m: nat, id: nat, d: Metric, dice: Dice)
    ensures RefreshRun([was], ef, m, id, d, dice)
  {
  }

  lemma OneLayer(was: Adj, now: Adj, ef: nat, m: nat, id: nat, layer: nat, cands: set<nat>, neigh: set<nat>,
                 d: Metric, dice: Dice)
    requires RefreshedAround(was, now, ef, m, id, layer, cands, neigh, d) && CandidatesOf(was, id, layer, cands, neigh)
    requires neigh == Chosen(was[id][layer], layer, dice)
    ensures LayerRefreshed(was, now, ef, m, id, layer, d, dice)
  {
    hide RefreshedAround, CandidatesOf;
  }

  /** Every neighbour's list on the layer is made anew from all nodes within two links. */
  ghost predicate AllRefreshed(was: Adj, now: Adj, ef: nat, m: nat, id: nat, layer: nat, d: Metric) {
    && HasLevel(was, id, layer)
    && exists cands: set<nat> ::
         && (forall c :: c in cands <==> WithinTwo(was, id, layer, c))
         && RefreshedAround(was, now, ef, m, id, layer, cands, Elements(was[id][layer]), d)
  }

  /** With probability 1, as Gamma calls it, no neighbour is passed over. */
  lemma CertainRefreshesAll(was: Adj, now: Adj, ef: nat, m: nat, id: nat, layer: nat, d: Metric, dice: Dice)
    requires LayerRefreshed(was, now, ef, m, id, layer, d, dice) && dice.Certain()
    ensures AllRefreshed(was, now, ef, m, id, layer, d)
  {
    hide RefreshedAround, Chosen, Dice.Certain;
    var cands, neigh :| RefreshedAround(was, now, ef, m, id, layer, cands, neigh, d) &&
                        CandidatesOf(was, id, layer, cands, neigh) && neigh == Chosen(was[id][layer], layer, dice);
    AllChosen(was[id][layer], layer, dice);
    var one := was[id][layer];
    forall c ensures c in cands <==> WithinTwo(was, id, layer, c) {
      if c in cands && c != id && c !in one {
        var n :| n in neigh && HasLevel(was, n, layer) && c in was[n][layer];
        assert n in one;
      }
      if n :| n in one && HasLevel(was, n, layer) && c in was[n][layer] {
        assert n in neigh && NearChosen(was, layer, neigh, c);
      }
    }
  }
}
